/** The `System` class: the four vectors and the four next-id counters that
    the program keeps as class statics. The events, the inventory and the
    attendees are vectors of values, so an element changed through a
    pointer into its vector is a new value at that index; the users are
    pointers that no in-scope operation follows to change a user. Each
    operation is proved to leave the state, seen as a `Bookkeeping.State`
    through `Snapshot()`, exactly as the matching function of `Bookkeeping`
    describes, and to report what that function reports; what those
    functions promise is proved in `Allocation` and `Properties`. */
module Manager {
  import opened Wrappers
  import opened Text
  import opened Records
  import opened Sequences
  import opened Bookkeeping
  import Codec

  /** The lookup of the user's record tied to an event is where the loop
      stops. */
  lemma FindProfileIs(atts: seq<AttendeeData>, username: string, eventId: int, i: nat)
    requires i <= |atts|
    requires forall j :: 0 <= j < i ==> !(NameMatches(atts[j], username) && atts[j].eventIdRegisteredFor == eventId)
    requires i < |atts| ==> NameMatches(atts[i], username) && atts[i].eventIdRegisteredFor == eventId
    ensures FindProfile(atts, username, eventId) == if i < |atts| then Some(i) else None
  {
    FirstIs(atts, (a: AttendeeData) => NameMatches(a, username) && a.eventIdRegisteredFor == eventId, i);
  }

  /** Once a line has ended the program, the lines after it change
      nothing. */
  /** `LoadEvents` over one line more. */
  lemma LoadEventsStep(st: State, lines: seq<string>, i: nat)
    requires i < |lines|
    ensures var (s, ok) := LoadEvents(st, lines[..i]);
      LoadEvents(st, lines[..i + 1]) ==
        if !ok then (s, false)
        else if lines[i] == [] then (s, true)
        else match Codec.EventFromString(lines[i])
          case None => (s, false)
          case Some(e) => (s.(events := s.events + [e], nextEventId := InitNextId(s.nextEventId, e.eventId)), true)
  {
    assert lines[..i + 1][..i] == lines[..i];
  }

  lemma {:induction false} LoadEventsStopped(st: State, lines: seq<string>, k: nat)
    requires k <= |lines| && !LoadEvents(st, lines[..k]).1
    ensures LoadEvents(st, lines) == LoadEvents(st, lines[..k])
    decreases |lines|
  {
    if k == |lines| {
      assert lines[..k] == lines;
    } else {
      var init := lines[..|lines| - 1];
      assert init[..k] == lines[..k];
      LoadEventsStopped(st, init, k);
    }
  }

  /** A `maxId` loop of `loadData`. */
  method MaxOf(ids: seq<int>) returns (m: int)
    ensures m == MaxId(ids)
  {
    m := 0;
    var i := 0;
    while i < |ids|
      invariant i <= |ids| && m == MaxId(ids[..i])
    {
      assert ids[..i + 1][..i] == ids[..i];
      if ids[i] > m {
        m := ids[i];
      }
      i := i + 1;
    }
    assert ids[..i] == ids;
  }

  /** How far `std::remove_if` has got: `w` kept events moved to the
      front, the slots from `w` up to `i` vacated, the rest untouched. */
  ghost predicate Removing(es: seq<EventData>, id: int, r: seq<EventData>, w: nat, i: nat) {
    && w < i <= |es| == |r|
    && r[..w] == Filter(es[..i], KeepOtherEvents(id))
    && (forall p :: w <= p < i ==> r[p] == Vacated(es[p], id))
    && (forall p :: i <= p < |es| ==> r[p] == es[p])
  }

  /** A kept event at slot `i` is moved into the next free slot `w`,
      which leaves slot `i` moved-from; `Removing` advances. */
  lemma MoveOne(es: seq<EventData>, id: int, r: seq<EventData>, w: nat, i: nat)
    requires Removing(es, id, r, w, i) && i < |es| && r[i].eventId != id
    ensures Removing(es, id, r[w := r[i]][i := MovedFrom(r[i])], w + 1, i + 1)
  {
    FilterStep(es, KeepOtherEvents(id), i);
    assert r[i] == es[i];
    var r' := r[w := r[i]][i := MovedFrom(r[i])];
    assert r'[..w + 1] == r[..w] + [es[i]];
  }

  /** A matching event at slot `i` stays where it is; `Removing` advances. */
  lemma SkipOne(es: seq<EventData>, id: int, r: seq<EventData>, w: nat, i: nat)
    requires Removing(es, id, r, w, i) && i < |es| && r[i].eventId == id
    ensures Removing(es, id, r, w, i + 1)
  {
    FilterStep(es, KeepOtherEvents(id), i);
    assert r[i] == es[i];
  }

  /** The search phase stops at the first match. */
  lemma RemovingStart(es: seq<EventData>, id: int, w: nat)
    requires w < |es| && es[w].eventId == id
    requires forall j :: 0 <= j < w ==> KeepOtherEvents(id)(es[j])
    ensures Removing(es, id, es, w, w + 1)
  {
    FilterKeepsAll(es[..w], KeepOtherEvents(id));
    FilterStep(es, KeepOtherEvents(id), w);
    assert es[..w + 1][..w] == es[..w];
  }

  /** At the end of the moving phase the vector is `RemoveIf`'s. */
  lemma RemovingDone(es: seq<EventData>, id: int, r: seq<EventData>, w: nat, i: nat)
    requires Removing(es, id, r, w, i) && i >= |r|
    ensures r == RemoveIf(es, id) && w == |Filter(es, KeepOtherEvents(id))|
  {
    assert es[..i] == es;
    var removed := RemoveIf(es, id);
    assert w == |Filter(es, KeepOtherEvents(id))|;
    forall p | 0 <= p < w
      ensures r[p] == removed[p]
    {
      assert r[p] == r[..w][p] && removed[p] == removed[..w][p];
    }
  }

  /** The moving phase of `std::remove_if`: each later kept event is
      moved into the next free slot, which leaves its own slot moved-from. */
  method MoveKept(es: seq<EventData>, id: int, first: nat) returns (r: seq<EventData>, w: nat)
    requires Removing(es, id, es, first, first + 1)
    ensures Removing(es, id, r, w, |es|)
  {
    r, w := es, first;
    var i: nat := first + 1;
    while i < |es|
      invariant Removing(es, id, r, w, i)
    {
      if r[i].eventId != id {
        MoveOne(es, id, r, w, i);
        r, w := r[w := r[i]][i := MovedFrom(r[i])], w + 1;
      } else {
        SkipOne(es, id, r, w, i);
      }
      i := i + 1;
    }
  }

  /** `std::remove_if` over the events as libstdc++ runs it: a search for
      the first match, then the moving phase. Returns the new contents and
      the new logical end. */
  method RemoveEvents(es: seq<EventData>, id: int) returns (r: seq<EventData>, w: nat)
    ensures r == RemoveIf(es, id)
    ensures w == |Filter(es, KeepOtherEvents(id))|
  {
    var first := 0;
    while first < |es| && es[first].eventId != id
      invariant first <= |es| && forall j :: 0 <= j < first ==> KeepOtherEvents(id)(es[j])
    {
      first := first + 1;
    }
    if first == |es| {
      FilterKeepsAll(es, KeepOtherEvents(id));
      return es, first;
    }
    RemovingStart(es, id, first);
    r, w := MoveKept(es, id, first);
    RemovingDone(es, id, r, w, |es|);
  }

  /** One more key of the accumulation loop over a map. */
  lemma AddEntriesStep(items: seq<ItemData>, m: map<int, int>, ks: seq<int>, j: nat)
    requires j < |ks| && forall i :: 0 <= i < |ks| ==> ks[i] in m
    ensures AddEntries(items, m, ks[..j + 1]) == UpdateItem(AddEntries(items, m, ks[..j]), ks[j], AddAllocated(m[ks[j]]))
  {
    assert ks[..j + 1][..j] == ks[..j];
  }

  /** One more key of the loop that gives a map back. */
  lemma ReturnEntriesStep(items: seq<ItemData>, m: map<int, int>, ks: seq<int>, j: nat)
    requires j < |ks| && forall i :: 0 <= i < |ks| ==> ks[i] in m
    ensures ReturnEntries(items, m, ks[..j + 1]) == UpdateItem(ReturnEntries(items, m, ks[..j]), ks[j], GiveBack(m[ks[j]]))
  {
    assert ks[..j + 1][..j] == ks[..j];
  }

  /** The records as the contact loop leaves them when it stops at `i`. */
  lemma UpdatedUntil(a0: seq<AttendeeData>, uname: string, contact: string, atts: seq<AttendeeData>, i: nat)
    requires i <= |a0| == |atts|
    requires FindProfile(a0, uname, 0) == if i < |a0| then Some(i) else None
    requires forall j :: 0 <= j < |a0| ==>
      atts[j] == if j < i && NameMatches(a0[j], uname) then a0[j].(contactInfo := contact) else a0[j]
    ensures (atts, if i < |a0| then Some(i) else None) == UpdateUntilProfile(a0, uname, contact)
  {
    var r := UpdateUntilProfile(a0, uname, contact);
    assert forall j :: 0 <= j < |a0| ==> r.0[j] == atts[j];
    assert r.0 == atts;
  }

  class System {
    var users: seq<UserData>
    var events: seq<EventData>
    var inventory: seq<ItemData>
    var allAttendees: seq<AttendeeData>
    var nextUserId: int
    var nextEventId: int
    var nextItemId: int
    var nextAttendeeId: int

    function Snapshot(): State
      reads this
    {
      State(users, events, inventory, allAttendees, nextUserId, nextEventId, nextItemId, nextAttendeeId)
    }

    /** Empty vectors, and every counter at its initial value 1. */
    constructor ()
      ensures Snapshot() == State([], [], [], [], 1, 1, 1, 1)
    {
      users, events, inventory, allAttendees := [], [], [], [];
      nextUserId, nextEventId, nextItemId, nextAttendeeId := 1, 1, 1, 1;
    }

    // -------------------------------------------------------------------
    // Lookups
    // -------------------------------------------------------------------

    method FindUserByUsername(uname: string) returns (r: Option<nat>)
      ensures r == Bookkeeping.FindUserByUsername(users, uname)
    {
      var i := 0;
      while i < |users|
        invariant i <= |users| && forall j :: 0 <= j < i ==> users[j].username != uname
      {
        if users[i].username == uname {
          FirstIs(users, (u: UserData) => u.username == uname, i);
          return Some(i);
        }
        i := i + 1;
      }
      FirstIs(users, (u: UserData) => u.username == uname, i);
      return None;
    }

    method FindEventById(id: int) returns (r: Option<nat>)
      ensures r == Bookkeeping.FindEventById(events, id)
    {
      var i := 0;
      while i < |events|
        invariant i <= |events| && forall j :: 0 <= j < i ==> events[j].eventId != id
      {
        if events[i].eventId == id {
          FirstIs(events, (e: EventData) => e.eventId == id, i);
          return Some(i);
        }
        i := i + 1;
      }
      FirstIs(events, (e: EventData) => e.eventId == id, i);
      return None;
    }

    method FindInventoryItemById(id: int) returns (r: Option<nat>)
      ensures r == Bookkeeping.FindInventoryItemById(inventory, id)
    {
      var i := 0;
      while i < |inventory|
        invariant i <= |inventory| && forall j :: 0 <= j < i ==> inventory[j].itemId != id
      {
        if inventory[i].itemId == id {
          FirstIs(inventory, (i: ItemData) => i.itemId == id, i);
          return Some(i);
        }
        i := i + 1;
      }
      FirstIs(inventory, (i: ItemData) => i.itemId == id, i);
      return None;
    }

    method FindAttendeeInMasterList(id: int) returns (r: Option<nat>)
      ensures r == Bookkeeping.FindAttendeeInMasterList(allAttendees, id)
    {
      var i := 0;
      while i < |allAttendees|
        invariant i <= |allAttendees| && forall j :: 0 <= j < i ==> allAttendees[j].attendeeId != id
      {
        if allAttendees[i].attendeeId == id {
          FirstIs(allAttendees, (a: AttendeeData) => a.attendeeId == id, i);
          return Some(i);
        }
        i := i + 1;
      }
      FirstIs(allAttendees, (a: AttendeeData) => a.attendeeId == id, i);
      return None;
    }

    /** The loops that look for the user's record tied to an event (0 for
        the generic profile). */
    method FindProfile(uname: string, eventId: int) returns (r: Option<nat>)
      ensures r == Bookkeeping.FindProfile(allAttendees, uname, eventId)
    {
      var i := 0;
      while i < |allAttendees|
        invariant i <= |allAttendees|
        invariant forall j :: 0 <= j < i ==> !(NameMatches(allAttendees[j], uname) && allAttendees[j].eventIdRegisteredFor == eventId)
      {
        if ToLower(allAttendees[i].name) == ToLower(uname) && allAttendees[i].eventIdRegisteredFor == eventId {
          FindProfileIs(allAttendees, uname, eventId, i);
          return Some(i);
        }
        i := i + 1;
      }
      FindProfileIs(allAttendees, uname, eventId, i);
      return None;
    }

    /** The item found by id, changed by `c` in place. */
    method ChangeItem(k: int, c: ItemChange)
      modifies this
      ensures Snapshot() == old(Snapshot()).(inventory := UpdateItem(old(inventory), k, c))
    {
      var fi := FindInventoryItemById(k);
      if fi.Some? {
        inventory := inventory[fi.value := ApplyChange(inventory[fi.value], c)];
      }
    }

    // -------------------------------------------------------------------
    // Loading
    // -------------------------------------------------------------------

    method LoadUsers(lines: seq<string>)
      modifies this
      ensures Snapshot() == Bookkeeping.LoadUsers(old(Snapshot()), lines)
    {
      var i := 0;
      while i < |lines|
        invariant i <= |lines|
        invariant Snapshot() == Bookkeeping.LoadUsers(old(Snapshot()), lines[..i])
      {
        assert lines[..i + 1][..i] == lines[..i];
        if lines[i] != [] {
          var u := Codec.UserFromString(lines[i]);
          if u.Some? {
            users := users + [u.value];
            nextUserId := InitNextId(nextUserId, u.value.userId);
          }
        }
        i := i + 1;
      }
      assert lines[..i] == lines;
    }

    /** `loadEvents`; false when a line ended the program, after which
        nothing more is read. */
    method LoadEvents(lines: seq<string>) returns (ok: bool)
      modifies this
      ensures (Snapshot(), ok) == Bookkeeping.LoadEvents(old(Snapshot()), lines)
    {
      var i := 0;
      while i < |lines|
        invariant i <= |lines|
        invariant (Snapshot(), true) == Bookkeeping.LoadEvents(old(Snapshot()), lines[..i])
      {
        LoadEventsStep(old(Snapshot()), lines, i);
        if lines[i] != [] {
          var e := Codec.EventFromString(lines[i]);
          if e.None? {
            LoadEventsStopped(old(Snapshot()), lines, i + 1);
            return false;
          }
          events := events + [e.value];
          nextEventId := InitNextId(nextEventId, e.value.eventId);
        }
        i := i + 1;
      }
      assert lines[..i] == lines;
      return true;
    }

    method LoadInventory(lines: seq<string>)
      modifies this
      ensures Snapshot() == Bookkeeping.LoadInventory(old(Snapshot()), lines)
    {
      var i := 0;
      while i < |lines|
        invariant i <= |lines|
        invariant Snapshot() == Bookkeeping.LoadInventory(old(Snapshot()), lines[..i])
      {
        assert lines[..i + 1][..i] == lines[..i];
        if lines[i] != [] {
          var it := Codec.ItemFromString(lines[i]);
          inventory := inventory + [it];
          nextItemId := InitNextId(nextItemId, it.itemId);
        }
        i := i + 1;
      }
      assert lines[..i] == lines;
    }

    method LoadAttendees(lines: seq<string>)
      modifies this
      ensures Snapshot() == Bookkeeping.LoadAttendees(old(Snapshot()), lines)
    {
      var i := 0;
      while i < |lines|
        invariant i <= |lines|
        invariant Snapshot() == Bookkeeping.LoadAttendees(old(Snapshot()), lines[..i])
      {
        assert lines[..i + 1][..i] == lines[..i];
        if lines[i] != [] {
          var a := Codec.AttendeeFromString(lines[i]);
          allAttendees := allAttendees + [a];
          nextAttendeeId := InitNextId(nextAttendeeId, a.attendeeId);
        }
        i := i + 1;
      }
      assert lines[..i] == lines;
    }

    method SeedIds()
      modifies this
      ensures Snapshot() == Bookkeeping.SeedIds(old(Snapshot()))
    {
      var m := MaxOf(UserIds(users));
      nextUserId := InitNextId(nextUserId, m);
      m := MaxOf(EventIds(events));
      nextEventId := InitNextId(nextEventId, m);
      m := MaxOf(ItemIds(inventory));
      nextItemId := InitNextId(nextItemId, m);
      m := MaxOf(AttendeeIds(allAttendees));
      nextAttendeeId := InitNextId(nextAttendeeId, m);
    }

    /** The zeroing loop at the end of `loadData`. */
    method ZeroAllocatedQuantities()
      modifies this
      ensures Snapshot() == old(Snapshot()).(inventory := ZeroAllocated(old(inventory)))
    {
      var i := 0;
      while i < |inventory|
        invariant i <= |inventory| == |old(inventory)|
        invariant Snapshot() == old(Snapshot()).(inventory := inventory)
        invariant forall j :: 0 <= j < |inventory| ==>
          inventory[j] == if j < i then old(inventory)[j].(allocatedQuantity := 0) else old(inventory)[j]
      {
        inventory := inventory[i := inventory[i].(allocatedQuantity := 0)];
        i := i + 1;
      }
    }

    /** The loop over one event's map in the accumulation: each entry is
        added to the allocated quantity of the item found by its key (a
        map is walked in ascending key order). */
    method AddAllocations(m: map<int, int>)
      modifies this
      ensures Snapshot() == old(Snapshot()).(inventory := AddEntries(old(inventory), m, SortedKeys(m)))
    {
      var ks := SortedKeys(m);
      var j := 0;
      while j < |ks|
        invariant j <= |ks|
        invariant Snapshot() == old(Snapshot()).(inventory := AddEntries(old(inventory), m, ks[..j]))
      {
        ChangeItem(ks[j], AddAllocated(m[ks[j]]));
        AddEntriesStep(old(inventory), m, ks, j);
        j := j + 1;
      }
      assert ks[..j] == ks;
    }

    /** The reconciliation at the end of `loadData`. */
    method Reconcile()
      modifies this
      ensures Snapshot() == old(Snapshot()).(inventory := Bookkeeping.Reconcile(old(inventory), old(events)))
    {
      ZeroAllocatedQuantities();
      ghost var z := inventory;
      var e := 0;
      while e < |events|
        invariant e <= |events| == |old(events)|
        invariant Snapshot() == old(Snapshot()).(inventory := AddEvents(z, old(events)[..e]))
      {
        AddAllocations(events[e].allocatedInventory);
        assert old(events)[..e + 1][..e] == old(events)[..e];
        e := e + 1;
      }
      assert old(events)[..e] == old(events);
    }

    /** `loadData` over the lines of the four files; false when reading the
        events ended the program. */
    method LoadData(userLines: seq<string>, eventLines: seq<string>,
                    itemLines: seq<string>, attendeeLines: seq<string>) returns (ok: bool)
      modifies this
      ensures (Snapshot(), ok) == Bookkeeping.LoadData(old(Snapshot()), userLines, eventLines, itemLines, attendeeLines)
    {
      LoadUsers(userLines);
      ok := LoadEvents(eventLines);
      if !ok {
        return;
      }
      LoadInventory(itemLines);
      LoadAttendees(attendeeLines);
      SeedIds();
      Reconcile();
    }

    // -------------------------------------------------------------------
    // User accounts
    // -------------------------------------------------------------------

    method CreateUserAccount(uname: string, pwd: string, role: Role) returns (out: Outcome)
      modifies this
      ensures (Snapshot(), out) == Bookkeeping.CreateUserAccount(old(Snapshot()), uname, pwd, role)
    {
      var found := FindUserByUsername(uname);
      if found.Some? {
        return UsernameTaken;
      }
      if |pwd| < 6 {
        return PasswordTooShort;
      }
      if role == NoRole {
        return InvalidRole;
      }
      users := users + [UserData(nextUserId, uname, pwd, role)];
      out := Created(nextUserId);
      nextUserId := nextUserId + 1;
    }

    method DeleteUserAccount(current: Option<UserData>, uname: string) returns (out: Outcome)
      modifies this
      ensures (Snapshot(), out) == Bookkeeping.DeleteUserAccount(old(Snapshot()), current, uname)
    {
      if current.Some? && current.value.username == uname {
        return CannotDeleteSelf;
      }
      var kept := EraseRemoveIf(users, KeepOtherUsers(uname));
      if |kept| == |users| {
        return UserNotFound;
      }
      users := kept;
      return Done;
    }

    // -------------------------------------------------------------------
    // Deleting an event
    // -------------------------------------------------------------------

    /** The loop of `deleteEvent` over a map: each entry is deallocated
        from the item found by its key, in ascending key order. */
    method GiveBackAllocations(m: map<int, int>)
      modifies this
      ensures Snapshot() == old(Snapshot()).(inventory := ReturnInventory(old(inventory), m))
    {
      var ks := SortedKeys(m);
      var j := 0;
      while j < |ks|
        invariant j <= |ks|
        invariant Snapshot() == old(Snapshot()).(inventory := ReturnEntries(old(inventory), m, ks[..j]))
      {
        ChangeItem(ks[j], GiveBack(m[ks[j]]));
        ReturnEntriesStep(old(inventory), m, ks, j);
        j := j + 1;
      }
      assert ks[..j] == ks;
    }

    /** `deleteEvent`: the events with the id are removed, the map in the
        slot at the new logical end is walked to give items back, the
        attendee records tied to the id are erased, and the tail of the
        event vector is erased. */
    method DeleteEvent(id: int) returns (out: Outcome)
      modifies this
      ensures (Snapshot(), out) == Bookkeeping.DeleteEvent(old(Snapshot()), id)
    {
      var es, w := RemoveEvents(events, id);
      if w == |events| {
        FilterKeepsAll(events, KeepOtherEvents(id));
        return EventNotFound;
      }
      events := es;
      GiveBackAllocations(events[w].allocatedInventory);
      allAttendees := EraseRemoveIf(allAttendees, KeepOtherEventsAttendees(id));
      events := events[..w];
      return Done;
    }

    // -------------------------------------------------------------------
    // Registrations
    // -------------------------------------------------------------------

    method RegisterAttendeeForEvent(current: Option<UserData>, eventId: int, contact: string) returns (out: Outcome)
      modifies this
      ensures (Snapshot(), out) == Bookkeeping.RegisterAttendeeForEvent(old(Snapshot()), current, eventId, contact)
    {
      if !IsRegularUser(current) {
        return NotRegularUser;
      }
      var fe := FindEventById(eventId);
      if fe.None? {
        return EventNotFound;
      }
      var ei := fe.value;
      if events[ei].status == Canceled || events[ei].status == Completed {
        return EventClosed;
      }
      var uname := current.value.username;
      var id: int;
      var existing := FindProfile(uname, eventId);
      if existing.Some? {
        id := allAttendees[existing.value].attendeeId;
        out := Associated(id);
      } else {
        var generic := FindProfile(uname, 0);
        if generic.Some? {
          var g := generic.value;
          allAttendees := allAttendees[g := allAttendees[g].(contactInfo := contact)];
          id := allAttendees[g].attendeeId;
          out := Associated(id);
        } else {
          id := nextAttendeeId;
          nextAttendeeId := nextAttendeeId + 1;
          allAttendees := allAttendees + [AttendeeData(id, uname, contact, eventId, false)];
          out := Created(id);
        }
      }
      events := events[ei := events[ei].(attendeeIds := AddId(events[ei].attendeeIds, id))];
    }

    method CancelOwnRegistration(current: Option<UserData>, eventId: int) returns (out: Outcome)
      modifies this
      ensures (Snapshot(), out) == Bookkeeping.CancelOwnRegistration(old(Snapshot()), current, eventId)
    {
      if !IsRegularUser(current) {
        return NotRegularUser;
      }
      var fe := FindEventById(eventId);
      if fe.None? {
        return EventNotFound;
      }
      var ei := fe.value;
      var found := FindProfile(current.value.username, eventId);
      var id := if found.Some? then allAttendees[found.value].attendeeId else -1;
      if id == -1 {
        return NotRegistered;
      }
      events := events[ei := events[ei].(attendeeIds := RemoveFirst(events[ei].attendeeIds, id))];
      allAttendees := EraseRemoveIf(allAttendees, KeepOtherAttendees(id));
      return Done;
    }

    // -------------------------------------------------------------------
    // Check-in and contact information
    // -------------------------------------------------------------------

    method CheckInAttendeeForEvent(eventId: int, attendeeId: int) returns (out: Outcome)
      modifies this
      ensures (Snapshot(), out) == Bookkeeping.CheckInAttendeeForEvent(old(Snapshot()), eventId, attendeeId)
    {
      var fe := FindEventById(eventId);
      if fe.None? {
        return EventNotFound;
      }
      var fa := FindAttendeeInMasterList(attendeeId);
      if fa.None? || allAttendees[fa.value].eventIdRegisteredFor != eventId {
        return NotRegistered;
      }
      var (a, changed) := CheckInRecord(allAttendees[fa.value]);
      allAttendees := allAttendees[fa.value := a];
      return CheckedIn(changed);
    }

    /** The search loop of `updateCurrentLoggedInUserContactInfo`: every
        record with the user's name gets the new contact until the generic
        profile is found, whose position is returned. */
    method UpdateUntilProfileLoop(uname: string, contact: string) returns (profile: Option<nat>)
      modifies this
      ensures (allAttendees, profile) == UpdateUntilProfile(old(allAttendees), uname, contact)
      ensures Snapshot() == old(Snapshot()).(attendees := allAttendees)
    {
      ghost var a0 := allAttendees;
      var i := 0;
      while i < |allAttendees|
        invariant i <= |allAttendees| == |a0|
        invariant forall j :: 0 <= j < i ==> !(NameMatches(a0[j], uname) && a0[j].eventIdRegisteredFor == 0)
        invariant forall j :: 0 <= j < |a0| ==>
          allAttendees[j] == if j < i && NameMatches(a0[j], uname) then a0[j].(contactInfo := contact) else a0[j]
        invariant Snapshot() == old(Snapshot()).(attendees := allAttendees)
      {
        if ToLower(allAttendees[i].name) == ToLower(uname) && allAttendees[i].eventIdRegisteredFor == 0 {
          FindProfileIs(a0, uname, 0, i);
          UpdatedUntil(a0, uname, contact, allAttendees, i);
          return Some(i);
        }
        if ToLower(allAttendees[i].name) == ToLower(uname) {
          allAttendees := allAttendees[i := allAttendees[i].(contactInfo := contact)];
        }
        i := i + 1;
      }
      FindProfileIs(a0, uname, 0, i);
      UpdatedUntil(a0, uname, contact, allAttendees, i);
      return None;
    }

    method UpdateCurrentLoggedInUserContactInfo(current: Option<UserData>, contact: string) returns (out: Outcome)
      modifies this
      ensures (Snapshot(), out) == Bookkeeping.UpdateContactInfo(old(Snapshot()), current, contact)
    {
      if !IsRegularUser(current) {
        return NotRegularUser;
      }
      var uname := current.value.username;
      var profile := UpdateUntilProfileLoop(uname, contact);
      if profile.Some? {
        var g := profile.value;
        allAttendees := allAttendees[g := allAttendees[g].(contactInfo := contact)];
        return Done;
      }
      var id := nextAttendeeId;
      nextAttendeeId := nextAttendeeId + 1;
      allAttendees := allAttendees + [AttendeeData(id, uname, contact, 0, false)];
      return Created(id);
    }

    // -------------------------------------------------------------------
    // trackInventoryAllocationToEvent
    // -------------------------------------------------------------------

    /** The allocate branch: the item takes the quantity, and only then
        does the event record it. */
    method AllocateToEvent(eventId: int, itemId: int, q: int) returns (out: Outcome)
      modifies this
      ensures (Snapshot(), out) == Bookkeeping.AllocateToEvent(old(Snapshot()), eventId, itemId, q)
    {
      var fe := FindEventById(eventId);
      if fe.None? {
        return EventNotFound;
      }
      var fi := FindInventoryItemById(itemId);
      if fi.None? {
        return ItemNotFound;
      }
      var (item, ok) := AllocateItem(inventory[fi.value], q);
      if !ok {
        return AllocationRefused;
      }
      inventory := inventory[fi.value := item];
      var e := events[fe.value];
      events := events[fe.value := e.(allocatedInventory := AllocateEntry(e.allocatedInventory, item.itemId, q))];
      return Done;
    }

    /** The deallocate branch; a failure of the item's own `deallocate` is
        ignored, as in the program. */
    method DeallocateFromEvent(eventId: int, itemId: int, q: int) returns (out: Outcome)
      modifies this
      ensures (Snapshot(), out) == Bookkeeping.DeallocateFromEvent(old(Snapshot()), eventId, itemId, q)
    {
      var fe := FindEventById(eventId);
      if fe.None? {
        return EventNotFound;
      }
      var fi := FindInventoryItemById(itemId);
      if fi.None? {
        return ItemNotFound;
      }
      var e := events[fe.value];
      if itemId !in e.allocatedInventory {
        return NotAllocated;
      }
      var (m, actual) := DeallocateEntry(e.allocatedInventory, inventory[fi.value].itemId, q);
      events := events[fe.value := e.(allocatedInventory := m)];
      if actual > 0 {
        inventory := inventory[fi.value := DeallocateItem(inventory[fi.value], actual).0];
        return Deallocated(actual);
      }
      return NothingDeallocated;
    }
  }
}
