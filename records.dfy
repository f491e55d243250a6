/** The value types of the event manager: the two enumerations, the plain
    records that the data files hold one per line, and the operations on
    an event's attendee list and allocation map that the entity classes
    and the system are specified by. */
module Records {
  import opened Text

  /** `enum class Role { ADMIN, REGULAR_USER, NONE }`. */
  datatype Role = Admin | RegularUser | NoRole

  /** `static_cast<int>(role)`. */
  function RoleCode(r: Role): (n: int)
    ensures 0 <= n <= 2
    ensures n == 0 <==> r == Admin
    ensures n == 1 <==> r == RegularUser
  {
    match r
    case Admin => 0
    case RegularUser => 1
    case NoRole => 2
  }

  /** `enum class EventStatus { UPCOMING, ONGOING, COMPLETED, CANCELED }`.
      A `static_cast` from a number read off a file can also produce a value
      outside the four enumerators, which `OtherStatus` carries. */
  datatype EventStatus = Upcoming | Ongoing | Completed | Canceled | OtherStatus(code: int) {
    /** Each status has exactly one representation. */
    predicate Canonical() {
      OtherStatus? ==> !(0 <= code <= 3)
    }
  }

  /** `static_cast<int>(status)`. */
  function StatusCode(s: EventStatus): int {
    match s
    case Upcoming => 0
    case Ongoing => 1
    case Completed => 2
    case Canceled => 3
    case OtherStatus(n) => n
  }

  /** `static_cast<EventStatus>(n)`. */
  function StatusOf(n: int): (s: EventStatus)
    ensures s.Canonical()
    ensures StatusCode(s) == n
  {
    if n == 0 then Upcoming
    else if n == 1 then Ongoing
    else if n == 2 then Completed
    else if n == 3 then Canceled
    else OtherStatus(n)
  }

  /** Casting a canonical status to its number and back gives it again. */
  lemma StatusCodeRoundTrip(s: EventStatus)
    requires s.Canonical()
    ensures StatusOf(StatusCode(s)) == s
  {
  }

  /** A user account, one line of the users file. */
  datatype UserData = UserData(userId: int, username: string, password: string, role: Role)

  /** An attendee record; an `eventIdRegisteredFor` of 0 marks a user's
      generic profile that is not tied to an event. */
  datatype AttendeeData = AttendeeData(
    attendeeId: int,
    name: string,
    contactInfo: string,
    eventIdRegisteredFor: int,
    isCheckedIn: bool)

  /** An inventory item. */
  datatype ItemData = ItemData(
    itemId: int,
    name: string,
    totalQuantity: int,
    allocatedQuantity: int,
    description: string)
  {
    /** `getAvailableQuantity`. */
    function Available(): int {
      totalQuantity - allocatedQuantity
    }

    /** What the quantity operations keep true of a well-formed item. */
    predicate InBounds() {
      0 <= allocatedQuantity <= totalQuantity
    }
  }

  /** `InventoryItem::allocate`: succeeds exactly when the quantity is
      positive and no more than what is available, and then adds it to the
      allocated quantity; a failure changes nothing. */
  function AllocateItem(i: ItemData, q: int): (r: (ItemData, bool))
    ensures r.1 <==> 0 < q <= i.Available()
    ensures r.0.allocatedQuantity == i.allocatedQuantity + (if r.1 then q else 0)
    ensures r.0 == i.(allocatedQuantity := r.0.allocatedQuantity)
  {
    if q <= 0 then (i, false)
    else if q <= i.Available() then (i.(allocatedQuantity := i.allocatedQuantity + q), true)
    else (i, false)
  }

  /** `InventoryItem::deallocate`: succeeds exactly when the quantity is
      positive and no more than what is allocated, and then takes it off;
      a failure changes nothing. */
  function DeallocateItem(i: ItemData, q: int): (r: (ItemData, bool))
    ensures r.1 <==> 0 < q <= i.allocatedQuantity
    ensures r.0.allocatedQuantity == i.allocatedQuantity - (if r.1 then q else 0)
    ensures r.0 == i.(allocatedQuantity := r.0.allocatedQuantity)
  {
    if q <= 0 then (i, false)
    else if q <= i.allocatedQuantity then (i.(allocatedQuantity := i.allocatedQuantity - q), true)
    else (i, false)
  }

  /** `InventoryItem::setTotalQuantity`: a negative total, or one below what
      is allocated, is refused and leaves the item as it was. */
  function SetTotalQuantity(i: ItemData, n: int): (r: ItemData)
    ensures r.totalQuantity == (if n < 0 || n < i.allocatedQuantity then i.totalQuantity else n)
    ensures r == i.(totalQuantity := r.totalQuantity)
  {
    if n < 0 then i
    else if n < i.allocatedQuantity then i
    else i.(totalQuantity := n)
  }

  /** The three quantity operations keep `0 <= allocated <= total`. */
  lemma QuantityOpsKeepBounds(i: ItemData, q: int, n: int)
    requires i.InBounds()
    ensures AllocateItem(i, q).0.InBounds()
    ensures DeallocateItem(i, q).0.InBounds()
    ensures SetTotalQuantity(i, n).InBounds()
  {
  }

  /** Giving back what was just allocated restores the item. */
  lemma DeallocateUndoesAllocate(i: ItemData, q: int)
    requires i.InBounds() && AllocateItem(i, q).1
    ensures DeallocateItem(AllocateItem(i, q).0, q) == (i, true)
  {
  }

  /** `Attendee::checkIn`: the flag is set, and the result says whether it
      was clear before. */
  function CheckInRecord(a: AttendeeData): (r: (AttendeeData, bool))
    ensures r.0.isCheckedIn && r.1 == !a.isCheckedIn
    ensures r.0 == a.(isCheckedIn := true)
  {
    if !a.isCheckedIn then (a.(isCheckedIn := true), true) else (a, false)
  }

  /** Checking in twice is the same as checking in once. */
  lemma CheckInIdempotent(a: AttendeeData)
    ensures CheckInRecord(CheckInRecord(a).0) == (CheckInRecord(a).0, false)
  {
  }

  /** An event, with the ids of its attendees in registration order and the
      quantity of each inventory item allocated to it. */
  datatype EventData = EventData(
    eventId: int,
    name: string,
    date: string,
    time: string,
    location: string,
    description: string,
    category: string,
    status: EventStatus,
    attendeeIds: seq<int>,
    allocatedInventory: map<int, int>)

  /** What a moved-from `Event` holds after a move assignment (libstdc++
      leaves moved-from strings, vectors and maps empty); the numbers are
      copied and stay. */
  function MovedFrom(e: EventData): EventData {
    e.(name := "", date := "", time := "", location := "", description := "", category := "",
       attendeeIds := [], allocatedInventory := map[])
  }

  /** The record `Attendee(0, "ERROR", "ERROR", 0, false)` that a malformed
      attendee line turns into. */
  const ErrorAttendee := AttendeeData(0, "ERROR", "ERROR", 0, false)

  /** The record `InventoryItem(0, "ERROR", 0, 0, "ERROR")` that a malformed
      inventory line turns into. */
  const ErrorItem := ItemData(0, "ERROR", 0, 0, "ERROR")

  // ---------------------------------------------------------------------
  // The attendee list of an event
  // ---------------------------------------------------------------------

  predicate NoDup(s: seq<int>) {
    forall i, j :: 0 <= i < j < |s| ==> s[i] != s[j]
  }

  /** The position of the first `x` in `s` (what `std::find` points at). */
  function IndexOf(s: seq<int>, x: int): (i: nat)
    requires x in s
    ensures i < |s| && s[i] == x && x !in s[..i]
  {
    if s[0] == x then 0 else 1 + IndexOf(s[1..], x)
  }

  /** The first position holding `x` is where `IndexOf` points. */
  lemma {:induction false} IndexOfFirst(s: seq<int>, x: int, i: nat)
    requires i < |s| && s[i] == x && x !in s[..i]
    ensures IndexOf(s, x) == i
  {
    if i > 0 {
      assert s[0] == s[..i][0];
      assert s[1..][..i - 1] == s[..i][1..];
      IndexOfFirst(s[1..], x, i - 1);
    }
  }

  /** `addAttendee`: append the id unless it is already there. */
  function AddId(s: seq<int>, x: int): (r: seq<int>)
    ensures x in r
    ensures forall y :: y in r <==> y in s || y == x
    ensures x in s ==> r == s
    ensures x !in s ==> |r| == |s| + 1 && r[..|s|] == s
    ensures NoDup(s) ==> NoDup(r)
  {
    if x in s then s else s + [x]
  }

  /** Dropping position `i` keeps every other element. */
  lemma DropKeeps(s: seq<int>, i: nat)
    requires i < |s|
    ensures forall y :: y != s[i] ==> (y in s[..i] + s[i + 1..] <==> y in s)
  {
    var r := s[..i] + s[i + 1..];
    forall y | y != s[i] && y in s
      ensures y in r
    {
      var k :| 0 <= k < |s| && s[k] == y;
      if k < i {
        assert r[k] == y;
      } else {
        assert r[k - 1] == y;
      }
    }
  }

  /** Dropping an element of a list without duplicates leaves a list
      without duplicates that no longer holds it. */
  lemma DropNoDup(s: seq<int>, i: nat)
    requires i < |s| && NoDup(s)
    ensures NoDup(s[..i] + s[i + 1..]) && s[i] !in s[..i] + s[i + 1..]
  {
    var r := s[..i] + s[i + 1..];
    forall a, b | 0 <= a < b < |r|
      ensures r[a] != r[b]
    {
      var a', b' := if a < i then a else a + 1, if b < i then b else b + 1;
      assert r[a] == s[a'] && r[b] == s[b'];
    }
    forall a | 0 <= a < |r|
      ensures r[a] != s[i]
    {
      var a' := if a < i then a else a + 1;
      assert r[a] == s[a'];
    }
  }

  /** `removeAttendee`: erase the first occurrence of the id, if any,
      keeping the others in their order. */
  function RemoveFirst(s: seq<int>, x: int): (r: seq<int>)
    ensures x !in s ==> r == s
    ensures x in s ==> |r| == |s| - 1 && exists i :: 0 <= i < |s| && s[i] == x && x !in s[..i] && r == s[..i] + s[i + 1..]
    ensures forall y :: y != x ==> (y in r <==> y in s)
    ensures NoDup(s) ==> NoDup(r) && x !in r
  {
    if x !in s then s
    else
      var i := IndexOf(s, x);
      DropKeeps(s, i);
      if NoDup(s) then DropNoDup(s, i); s[..i] + s[i + 1..]
      else s[..i] + s[i + 1..]
  }

  /** Removing a registration after adding it gives the list back. */
  lemma RemoveAfterAdd(s: seq<int>, x: int)
    requires x !in s
    ensures RemoveFirst(AddId(s, x), x) == s
  {
    var r := s + [x];
    assert IndexOf(r, x) == |s|;
    assert r[..|s|] == s;
  }

  // ---------------------------------------------------------------------
  // The allocation map of an event
  // ---------------------------------------------------------------------

  /** The quantity of item `k` in `m`, 0 when it has no entry (what
      `operator[]` reads from a `std::map<int, int>`). */
  function Get(m: map<int, int>, k: int): int {
    if k in m then m[k] else 0
  }

  /** `allocateInventoryItem`: a positive quantity is added to the item's
      entry, creating it when missing; anything else changes nothing. */
  function AllocateEntry(m: map<int, int>, k: int, q: int): (r: map<int, int>)
    ensures q > 0 ==> Get(r, k) == Get(m, k) + q && r.Keys == m.Keys + {k}
    ensures q <= 0 ==> r == m
    ensures forall j :: j != k ==> (j in r <==> j in m) && Get(r, j) == Get(m, j)
  {
    if q > 0 then m[k := Get(m, k) + q] else m
  }

  /** `deallocateInventoryItem`: takes at most `q` of item `k` off the event,
      erasing the entry once it is no longer positive, and yields what was
      taken off. */
  function DeallocateEntry(m: map<int, int>, k: int, q: int): (r: (map<int, int>, int))
    ensures !(q > 0 && k in m) ==> r == (m, 0)
    ensures q > 0 && k in m && m[k] > 0 ==>
      0 < r.1 <= q && r.1 <= m[k] && (r.1 == q || r.1 == m[k]) &&
      Get(r.0, k) == m[k] - r.1 && (k in r.0 <==> r.1 < m[k])
    ensures q > 0 && k in m && m[k] <= 0 ==> r.1 == m[k] && k !in r.0
    ensures r.0.Keys <= m.Keys
    ensures forall j :: j != k ==> (j in r.0 <==> j in m) && Get(r.0, j) == Get(m, j)
  {
    if q <= 0 then (m, 0)
    else if k !in m then (m, 0)
    else
      var actual := if m[k] < q then m[k] else q;
      var left := m[k] - actual;
      if left <= 0 then (m - {k}, actual) else (m[k := left], actual)
  }

  /** Every entry of the map is positive. */
  predicate PositiveMap(m: map<int, int>) {
    forall k :: k in m ==> m[k] > 0
  }

  /** The allocation operations keep all entries of a map positive. */
  lemma EntriesStayPositive(m: map<int, int>, k: int, q: int)
    requires PositiveMap(m)
    ensures PositiveMap(AllocateEntry(m, k, q))
    ensures PositiveMap(DeallocateEntry(m, k, q).0)
  {
  }

  /** Taking back what was just allocated restores the allocation map. */
  lemma DeallocateAfterAllocate(m: map<int, int>, k: int, q: int)
    requires q > 0 && k !in m
    ensures DeallocateEntry(AllocateEntry(m, k, q), k, q) == (m, q)
  {
    assert AllocateEntry(m, k, q) - {k} == m;
  }

  // ---------------------------------------------------------------------
  // Iteration order of a `std::map`
  // ---------------------------------------------------------------------

  /** The smaller of `x` and the least element of the rest is the least
      element of the whole set. */
  lemma LeastOfRest(s: set<int>, x: int, k: int)
    requires x in s && k in s - {x}
    requires forall j :: j in s - {x} ==> k <= j
    ensures forall j :: j in s ==> (if x < k then x else k) <= j
  {
    forall j | j in s
      ensures (if x < k then x else k) <= j
    {
      if j != x {
        assert j in s - {x};
      }
    }
  }

  /** Every non-empty set of keys has a least element. */
  lemma LeastElement(s: set<int>) returns (least: int)
    requires s != {}
    ensures least in s && forall j :: j in s ==> least <= j
    decreases |s|
  {
    if forall j :: j !in s {
      assert false;
    }
    var x :| x in s;
    var t := s - {x};
    if t == {} {
      least := x;
      forall j | j in s
        ensures least <= j
      {
        assert j == x || j in t;
      }
    } else {
      var k := LeastElement(t);
      LeastOfRest(s, x, k);
      least := if x < k then x else k;
    }
  }

  lemma MinExists(s: set<int>)
    requires s != {}
    ensures exists k :: k in s && forall j :: j in s ==> k <= j
  {
    var least := LeastElement(s);
  }

  /** The smallest element of a non-empty set of keys. */
  function MinOf(s: set<int>): (k: int)
    requires s != {}
    ensures k in s && forall j :: j in s ==> k <= j
  {
    MinExists(s);
    var k :| k in s && forall j :: j in s ==> k <= j;
    k
  }

  /** The elements of `s` in ascending order. */
  function Ascending(s: set<int>): (r: seq<int>)
    ensures forall k :: k in r <==> k in s
    ensures forall i, j :: 0 <= i < j < |r| ==> r[i] < r[j]
    decreases |s|
  {
    if s == {} then []
    else
      var k := MinOf(s);
      var tail := Ascending(s - {k});
      assert forall i :: 0 <= i < |tail| ==> k < tail[i] by {
        forall i | 0 <= i < |tail|
          ensures k < tail[i]
        {
          assert tail[i] in s - {k};
        }
      }
      [k] + tail
  }

  /** The keys of `m` in ascending order, the order in which a range `for`
      over a `std::map` visits them. */
  function SortedKeys(m: map<int, int>): (r: seq<int>)
    ensures forall k :: k in r <==> k in m
    ensures forall i, j :: 0 <= i < j < |r| ==> r[i] < r[j]
  {
    Ascending(m.Keys)
  }
}
