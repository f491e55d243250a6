/** The line formats of the four data files: `toString` and `fromString` of
    users, attendees, inventory items and events, with the decoders written
    out call by call over the stream model so that their behaviour on every
    line, well-formed or not, is the one the program has. */
module Codec {
  import opened Wrappers
  import opened Text
  import opened Streams
  import opened Records

  // ---------------------------------------------------------------------
  // Facts about the text the encoders produce
  // ---------------------------------------------------------------------

  /** `std::count(s.begin(), s.end(), c)`. */
  function CountChar(s: string, c: char): (n: nat)
    ensures n <= |s|
    ensures n == 0 <==> c !in s
  {
    if s == [] then 0
    else
      assert s == s[..|s| - 1] + [s[|s| - 1]];
      CountChar(s[..|s| - 1], c) + (if s[|s| - 1] == c then 1 else 0)
  }

  lemma {:induction false} CountCharAppend(a: string, b: string, c: char)
    ensures CountChar(a + b, c) == CountChar(a, c) + CountChar(b, c)
    decreases |b|
  {
    if b == [] {
      assert a + b == a;
    } else {
      var b' := b[..|b| - 1];
      assert (a + b)[..|a + b| - 1] == a + b';
      CountCharAppend(a, b', c);
    }
  }

  /** Joining separator-free pieces puts exactly one separator between each
      two of them. */
  lemma {:induction false} CountCharJoin(xs: seq<string>, sep: char)
    requires xs != []
    requires forall i :: 0 <= i < |xs| ==> sep !in xs[i]
    ensures CountChar(Join(xs, sep), sep) == |xs| - 1
    decreases |xs|
  {
    if |xs| > 1 {
      CountCharJoin(xs[1..], sep);
      CountCharAppend(xs[0], [sep], sep);
      CountCharAppend(xs[0] + [sep], Join(xs[1..], sep), sep);
    }
  }

  /** A character that is neither a digit nor a minus sign is absent from
      every numeral. */
  lemma NumeralAvoids(s: string, c: char)
    requires IsNumeral(s)
    requires c != '-' && !IsDigit(c)
    ensures c !in s
  {
    assert forall k :: 0 <= k < |s| ==> s[k] != c;
  }

  /** Joined pieces contain a character other than the separator only if a
      piece does. */
  lemma {:induction false} JoinAvoids(xs: seq<string>, sep: char, c: char)
    requires c != sep
    requires forall i :: 0 <= i < |xs| ==> c !in xs[i]
    ensures c !in Join(xs, sep)
    decreases |xs|
  {
    if |xs| > 1 {
      JoinAvoids(xs[1..], sep, c);
    }
  }

  lemma StoiOfNumeralAlone(n: int)
    requires IsInt32(n)
    ensures Stoi(IntToString(n)) == Some(n)
  {
    StoiOfNumeral(n, "");
    assert IntToString(n) + "" == IntToString(n);
  }

  // ---------------------------------------------------------------------
  // Users
  // ---------------------------------------------------------------------

  function UserFields(u: UserData): seq<string> {
    [IntToString(u.userId), u.username, u.password, IntToString(RoleCode(u.role))]
  }

  /** `User::toString`. */
  function UserToString(u: UserData): string {
    Join(UserFields(u), ',')
  }

  /** `User::fromString`: a line with fewer than three commas is refused
      up front; otherwise four comma-separated fields are read, the id and
      the role through `stoi`, and only roles 0 (admin) and 1 (regular user)
      make an account. None stands for the null pointer. */
  function UserFromString(str: string): (r: Option<UserData>)
    ensures CountChar(str, ',') < 3 ==> r == None
    ensures r.Some? ==> r.value.role != NoRole && IsInt32(r.value.userId)
  {
    if str == [] || CountChar(str, ',') < 3 then None
    else
      var (s1, idText) := GetLine(Open(str), ',', "");
      var id :- Stoi(idText);
      var (s2, uname) := GetLine(s1, ',', "");
      var (s3, pwd) := GetLine(s2, ',', "");
      var (_, roleText) := GetLine(s3, ',', idText);
      var code :- Stoi(roleText);
      if code == 0 then Some(UserData(id, uname, pwd, Admin))
      else if code == 1 then Some(UserData(id, uname, pwd, RegularUser))
      else None
  }

  /** The users whose line can be written and parsed field by field. */
  predicate StorableUser(u: UserData) {
    IsInt32(u.userId) && ',' !in u.username && ',' !in u.password
  }

  /** A user whose name and password hold no comma reads back as itself,
      unless its role is NONE, which no line is read back with. */
  lemma UserRoundTrip(u: UserData)
    requires StorableUser(u)
    ensures UserFromString(UserToString(u)) == if u.role == NoRole then None else Some(u)
  {
    var f := UserFields(u);
    NumeralAvoids(f[0], ',');
    NumeralAvoids(f[3], ',');
    CountCharJoin(f, ',');
    var s0 := Open(UserToString(u));
    ReadJoined(s0, ',', "", f);
    var (s1, t1) := GetLine(s0, ',', "");
    StoiOfNumeralAlone(u.userId);
    ReadJoined(s1, ',', "", f[1..]);
    var s2 := GetLine(s1, ',', "").0;
    ReadJoined(s2, ',', "", f[1..][1..]);
    var s3 := GetLine(s2, ',', "").0;
    ReadJoinedLast(s3, ',', t1, f[1..][1..][1..]);
    StoiOfNumeralAlone(RoleCode(u.role));
  }

  // ---------------------------------------------------------------------
  // Attendees
  // ---------------------------------------------------------------------

  /** How the check-in flag is written. */
  function FlagText(b: bool): (r: string)
    ensures r != [] && ',' !in r
    ensures (r == "1") == b
  {
    if b then "1" else "0"
  }

  function AttendeeFields(a: AttendeeData): seq<string> {
    [IntToString(a.attendeeId), a.name, a.contactInfo, IntToString(a.eventIdRegisteredFor),
     FlagText(a.isCheckedIn)]
  }

  /** `Attendee::toString`. */
  function AttendeeToString(a: AttendeeData): string {
    Join(AttendeeFields(a), ',')
  }

  /** The reads of `Attendee::fromString`; None when a `stoi` throws. A
      `getline` that fails leaves its target as it was, and the target of
      the numeric fields is one string reused for all of them. */
  function ParseAttendee(str: string): Option<AttendeeData> {
    var (s1, idText) := GetLine(Open(str), ',', "");
    var id :- Stoi(idText);
    var (s2, name) := GetLine(s1, ',', "");
    var (s3, contact) := GetLine(s2, ',', "");
    var (s4, eventText) := GetLine(s3, ',', idText);
    var eventId :- Stoi(eventText);
    var (_, checkedText) := GetLine(s4, ',', eventText);
    Some(AttendeeData(id, name, contact, eventId, checkedText == "1"))
  }

  /** `Attendee::fromString`: a line that makes a `stoi` throw becomes the
      ERROR record. */
  function AttendeeFromString(str: string): (r: AttendeeData)
    ensures r == ErrorAttendee || (IsInt32(r.attendeeId) && IsInt32(r.eventIdRegisteredFor))
  {
    match ParseAttendee(str)
    case Some(a) => a
    case None => ErrorAttendee
  }

  predicate StorableAttendee(a: AttendeeData) {
    && IsInt32(a.attendeeId) && IsInt32(a.eventIdRegisteredFor)
    && ',' !in a.name && ',' !in a.contactInfo
  }

  /** An attendee whose name and contact hold no comma reads back as itself. */
  lemma AttendeeRoundTrip(a: AttendeeData)
    requires StorableAttendee(a)
    ensures AttendeeFromString(AttendeeToString(a)) == a
  {
    var f := AttendeeFields(a);
    NumeralAvoids(f[0], ',');
    NumeralAvoids(f[3], ',');
    var s0 := Open(AttendeeToString(a));
    ReadJoined(s0, ',', "", f);
    var (s1, t1) := GetLine(s0, ',', "");
    StoiOfNumeralAlone(a.attendeeId);
    var f1 := f[1..];
    ReadJoined(s1, ',', "", f1);
    var s2 := GetLine(s1, ',', "").0;
    var f2 := f1[1..];
    ReadJoined(s2, ',', "", f2);
    var s3 := GetLine(s2, ',', "").0;
    var f3 := f2[1..];
    ReadJoined(s3, ',', t1, f3);
    var (s4, t4) := GetLine(s3, ',', t1);
    StoiOfNumeralAlone(a.eventIdRegisteredFor);
    var f4 := f3[1..];
    ReadJoinedLast(s4, ',', t4, f4);
  }

  /** The first field of a line: everything before its first comma. */
  lemma FirstField(str: string, field: string, rest: string, prev: string)
    requires str == field + rest
    requires ',' !in field
    requires rest == [] || rest[0] == ','
    ensures GetLine(Open(str), ',', prev).1 == field
  {
    var s0 := Open(str);
    if rest != [] {
      assert str == field + [','] + rest[1..];
      ReadField(s0, ',', prev, field, rest[1..]);
    } else if field != [] {
      ReadLastField(s0, ',', prev, field);
    } else {
      ReadAtEnd(s0, ',', prev);
    }
  }

  /** A line whose id field holds no digit becomes the ERROR record. */
  lemma AttendeeWithoutNumericId(str: string, field: string, rest: string)
    requires str == field + rest
    requires ',' !in field && (rest == [] || rest[0] == ',')
    requires forall k :: 0 <= k < |field| ==> !IsDigit(field[k])
    ensures AttendeeFromString(str) == ErrorAttendee
  {
    FirstField(str, field, rest, "");
    StoiWithoutDigits(field);
  }

  /** A line with only two fields still makes a record: the missing contact
      stays empty, and the unread event-id field keeps the text of the id
      field, so the id is taken as the event id too. */
  lemma AttendeeShortLine()
    ensures AttendeeFromString("5,Bob") == AttendeeData(5, "Bob", "", 5, false)
  {
    var s0 := Open("5,Bob");
    assert "5,Bob" == "5" + [','] + "Bob";
    ReadField(s0, ',', "", "5", "Bob");
    var s1 := GetLine(s0, ',', "").0;
    ReadLastField(s1, ',', "", "Bob");
    assert "5"[..0] == "";
    assert DigitsValue("5") == 5;
    StoiOfDigits("5");
  }

  // ---------------------------------------------------------------------
  // Inventory items
  // ---------------------------------------------------------------------

  function ItemFields(i: ItemData): seq<string> {
    [IntToString(i.itemId), i.name, IntToString(i.totalQuantity), IntToString(i.allocatedQuantity),
     i.description]
  }

  /** `InventoryItem::toString`. */
  function ItemToString(i: ItemData): string {
    Join(ItemFields(i), ',')
  }

  /** The reads of `InventoryItem::fromString`: four comma-separated fields
      and then the rest of the line as the description. */
  function ParseItem(str: string): Option<ItemData> {
    var (s1, idText) := GetLine(Open(str), ',', "");
    var id :- Stoi(idText);
    var (s2, name) := GetLine(s1, ',', "");
    var (s3, totalText) := GetLine(s2, ',', idText);
    var total :- Stoi(totalText);
    var (s4, allocText) := GetLine(s3, ',', totalText);
    var alloc :- Stoi(allocText);
    var (_, desc) := GetLine(s4, '\n', "");
    Some(ItemData(id, name, total, alloc, desc))
  }

  /** `InventoryItem::fromString`: a line that makes a `stoi` throw becomes
      the ERROR record. */
  function ItemFromString(str: string): (r: ItemData)
    ensures r == ErrorItem || (IsInt32(r.itemId) && IsInt32(r.totalQuantity) && IsInt32(r.allocatedQuantity))
  {
    match ParseItem(str)
    case Some(i) => i
    case None => ErrorItem
  }

  predicate StorableItem(i: ItemData) {
    && IsInt32(i.itemId) && IsInt32(i.totalQuantity) && IsInt32(i.allocatedQuantity)
    && ',' !in i.name && '\n' !in i.description
  }

  /** An item whose name holds no comma reads back as itself; its
      description may hold commas. */
  lemma ItemRoundTrip(i: ItemData)
    requires StorableItem(i)
    ensures ItemFromString(ItemToString(i)) == i
  {
    var f := ItemFields(i);
    NumeralAvoids(f[0], ',');
    NumeralAvoids(f[2], ',');
    NumeralAvoids(f[3], ',');
    var s0 := Open(ItemToString(i));
    ReadJoined(s0, ',', "", f);
    var (s1, t1) := GetLine(s0, ',', "");
    StoiOfNumeralAlone(i.itemId);
    var f1 := f[1..];
    ReadJoined(s1, ',', "", f1);
    var s2 := GetLine(s1, ',', "").0;
    var f2 := f1[1..];
    ReadJoined(s2, ',', t1, f2);
    var (s3, t3) := GetLine(s2, ',', t1);
    StoiOfNumeralAlone(i.totalQuantity);
    var f3 := f2[1..];
    ReadJoined(s3, ',', t3, f3);
    var s4 := GetLine(s3, ',', t3).0;
    StoiOfNumeralAlone(i.allocatedQuantity);
    var f4 := f3[1..];
    if f4[0] == [] {
      ReadAtEnd(s4, '\n', "");
    } else {
      ReadJoinedLast(s4, '\n', "", f4);
    }
  }

  /** A line whose id field holds no digit becomes the ERROR record. */
  lemma ItemWithoutNumericId(str: string, field: string, rest: string)
    requires str == field + rest
    requires ',' !in field && (rest == [] || rest[0] == ',')
    requires forall k :: 0 <= k < |field| ==> !IsDigit(field[k])
    ensures ItemFromString(str) == ErrorItem
  {
    FirstField(str, field, rest, "");
    StoiWithoutDigits(field);
  }

  // ---------------------------------------------------------------------
  // Events: the two list fields
  // ---------------------------------------------------------------------

  function IdStrings(ids: seq<int>): (r: seq<string>)
    ensures |r| == |ids|
    ensures forall i :: 0 <= i < |r| ==> r[i] == IntToString(ids[i])
  {
    if ids == [] then [] else [IntToString(ids[0])] + IdStrings(ids[1..])
  }

  /** One `k:v` entry of the allocation field. */
  function PairString(k: int, v: int): string {
    IntToString(k) + ([':'] + IntToString(v))
  }

  lemma PairSeparators(k: int, v: int)
    ensures PairString(k, v) != []
    ensures ';' !in PairString(k, v) && ',' !in PairString(k, v) && '\n' !in PairString(k, v)
  {
    NumeralSeparators(k);
    NumeralSeparators(v);
  }

  /** The `k:v` entries for the keys `ks`, in that order. */
  function PairStrings(m: map<int, int>, ks: seq<int>): seq<string>
    requires forall i :: 0 <= i < |ks| ==> ks[i] in m
  {
    seq(|ks|, i requires 0 <= i < |ks| => PairString(ks[i], m[ks[i]]))
  }

  /** `attendeesToString`: the ids joined with ';'. */
  function AttendeesToString(ids: seq<int>): string {
    Join(IdStrings(ids), ';')
  }

  /** `inventoryToString`: the entries as `k:v`, in ascending key order,
      joined with ';'. */
  function InventoryToString(m: map<int, int>): string {
    Join(PairStrings(m, SortedKeys(m)), ';')
  }

  /** The attendee loop of `Event::fromString`: every non-empty piece goes
      through a `stoi` that no handler surrounds, so a piece that is not a
      number ends the program, which None stands for. */
  function ParseIds(pieces: seq<string>): (r: Option<seq<int>>)
    ensures r.Some? ==> |r.value| <= |pieces|
  {
    if pieces == [] then Some([])
    else
      var rest :- ParseIds(pieces[1..]);
      if pieces[0] == [] then Some(rest)
      else
        var id :- Stoi(pieces[0]);
        Some([id] + rest)
  }

  function AttendeeIdsOf(text: string): Option<seq<int>> {
    if text == [] then Some([]) else ParseIds(Segments(Open(text), ';'))
  }

  /** One piece of the allocation loop: a piece with a colon whose two sides
      are numbers sets that entry; any other piece is skipped. The value is
      converted before the key, so a failure on either side inserts
      nothing. */
  function AddPair(m: map<int, int>, piece: string): map<int, int> {
    if piece == [] then m
    else
      var colon := FindFrom(piece, ':', 0);
      if colon == |piece| then m
      else
        match (Stoi(piece[..colon]), Stoi(piece[colon + 1..]))
        case (Some(k), Some(v)) => m[k := v]
        case _ => m
  }

  function InsertPairs(m: map<int, int>, pieces: seq<string>): map<int, int>
    decreases |pieces|
  {
    if pieces == [] then m else InsertPairs(AddPair(m, pieces[0]), pieces[1..])
  }

  function InventoryOf(text: string): map<int, int> {
    if text == [] then map[] else InsertPairs(map[], Segments(Open(text), ';'))
  }

  /** A non-empty first piece that is a number puts its value in front of
      the ids of the other pieces. */
  lemma ParseIdsCons(pieces: seq<string>, id: int, rest: seq<int>)
    requires pieces != [] && pieces[0] != []
    requires Stoi(pieces[0]) == Some(id) && ParseIds(pieces[1..]) == Some(rest)
    ensures ParseIds(pieces) == Some([id] + rest)
  {
  }

  /** The id part of every entry is a number, so the attendee loop reads
      the keys of the allocation field, in the order they are written. */
  lemma {:induction false} ParseIdsOfPairs(m: map<int, int>, ks: seq<int>)
    requires forall i :: 0 <= i < |ks| ==> ks[i] in m && IsInt32(ks[i])
    ensures ParseIds(PairStrings(m, ks)) == Some(ks)
    decreases |ks|
  {
    if ks != [] {
      var p := PairStrings(m, ks);
      assert p[1..] == PairStrings(m, ks[1..]);
      ParseIdsOfPairs(m, ks[1..]);
      var tail := [':'] + IntToString(m[ks[0]]);
      assert tail[0] == ':';
      StoiOfNumeral(ks[0], tail);
      assert p[0] == IntToString(ks[0]) + tail;
      ParseIdsCons(p, ks[0], ks[1..]);
      assert ks == [ks[0]] + ks[1..];
    }
  }

  lemma NumeralSeparators(n: int)
    ensures IntToString(n) != []
    ensures ';' !in IntToString(n) && ',' !in IntToString(n) && '\n' !in IntToString(n) && ':' !in IntToString(n)
  {
    NumeralAvoids(IntToString(n), ';');
    NumeralAvoids(IntToString(n), ',');
    NumeralAvoids(IntToString(n), '\n');
    NumeralAvoids(IntToString(n), ':');
  }

  lemma {:induction false} ParseIdsOfIds(ids: seq<int>)
    requires forall i :: 0 <= i < |ids| ==> IsInt32(ids[i])
    ensures ParseIds(IdStrings(ids)) == Some(ids)
    decreases |ids|
  {
    if ids != [] {
      var p := IdStrings(ids);
      assert p[1..] == IdStrings(ids[1..]);
      ParseIdsOfIds(ids[1..]);
      StoiOfNumeralAlone(ids[0]);
      NumeralSeparators(ids[0]);
      ParseIdsCons(p, ids[0], ids[1..]);
      assert ids == [ids[0]] + ids[1..];
    }
  }

  /** An entry is split at the first colon, which comes just after a key
      that holds none. */
  lemma AddPairSplits(acc: map<int, int>, a: string, b: string)
    requires ':' !in a
    ensures AddPair(acc, a + [':'] + b) ==
      match (Stoi(a), Stoi(b))
      case (Some(k), Some(v)) => acc[k := v]
      case _ => acc
  {
    var piece := a + [':'] + b;
    assert piece[..|a|] == a;
    assert piece[|a| + 1..] == b;
    assert FindFrom(piece, ':', 0) == |a| by {
      assert piece[|a|] == ':';
      assert forall j :: 0 <= j < |a| ==> piece[j] == a[j] != ':';
    }
  }

  lemma AddPairOf(acc: map<int, int>, k: int, v: int)
    requires IsInt32(k) && IsInt32(v)
    ensures AddPair(acc, PairString(k, v)) == acc[k := v]
  {
    var a, b := IntToString(k), IntToString(v);
    NumeralSeparators(k);
    assert PairString(k, v) == a + [':'] + b;
    AddPairSplits(acc, a, b);
    StoiOfNumeralAlone(k);
    StoiOfNumeralAlone(v);
  }

  /** Inserting the entries for the keys `ks`, one after the other. */
  lemma {:induction false} InsertPairsOf(acc: map<int, int>, m: map<int, int>, ks: seq<int>)
    requires forall i :: 0 <= i < |ks| ==> ks[i] in m && IsInt32(ks[i]) && IsInt32(m[ks[i]])
    ensures forall k :: k in InsertPairs(acc, PairStrings(m, ks)) <==> k in acc || k in ks
    ensures forall k :: k in ks ==> InsertPairs(acc, PairStrings(m, ks))[k] == m[k]
    ensures forall k :: k in acc && k !in ks ==> InsertPairs(acc, PairStrings(m, ks))[k] == acc[k]
    decreases |ks|
  {
    if ks != [] {
      var p := PairStrings(m, ks);
      assert p[1..] == PairStrings(m, ks[1..]);
      AddPairOf(acc, ks[0], m[ks[0]]);
      InsertPairsOf(acc[ks[0] := m[ks[0]]], m, ks[1..]);
      assert forall k :: k in ks <==> k == ks[0] || k in ks[1..];
    }
  }

  /** The maps an event may carry in a data file. */
  predicate StorableMap(m: map<int, int>) {
    forall k :: k in m ==> IsInt32(k) && IsInt32(m[k])
  }

  /** No entry of the allocation field is empty or holds a separator. */
  lemma PairPieces(m: map<int, int>, ks: seq<int>)
    requires forall i :: 0 <= i < |ks| ==> ks[i] in m
    ensures forall i :: 0 <= i < |ks| ==>
      PairStrings(m, ks)[i] != [] && ';' !in PairStrings(m, ks)[i] &&
      ',' !in PairStrings(m, ks)[i] && '\n' !in PairStrings(m, ks)[i]
  {
    forall i | 0 <= i < |ks|
      ensures PairStrings(m, ks)[i] != [] && ';' !in PairStrings(m, ks)[i] &&
        ',' !in PairStrings(m, ks)[i] && '\n' !in PairStrings(m, ks)[i]
    {
      PairSeparators(ks[i], m[ks[i]]);
    }
  }

  lemma SortedKeysEmpty(m: map<int, int>)
    ensures SortedKeys(m) == [] <==> m == map[]
  {
    var ks := SortedKeys(m);
    if ks != [] {
      assert ks[0] in m;
    }
    if m != map[] {
      var k0 :| k0 in m;
      assert k0 in ks;
    }
  }

  lemma {:induction false} JoinEmpty(xs: seq<string>, sep: char)
    requires forall i :: 0 <= i < |xs| ==> xs[i] != []
    ensures Join(xs, sep) == [] <==> xs == []
  {
    if |xs| > 1 {
      assert Join(xs, sep) == xs[0] + [sep] + Join(xs[1..], sep);
    }
  }

  /** A non-empty allocation field is split into the pieces it was joined
      from, each inserted in turn. */
  lemma InventoryOfJoin(pieces: seq<string>)
    requires pieces != []
    requires forall i :: 0 <= i < |pieces| ==> pieces[i] != [] && ';' !in pieces[i]
    ensures InventoryOf(Join(pieces, ';')) == InsertPairs(map[], pieces)
  {
    JoinEmpty(pieces, ';');
    SegmentsOfJoin(Open(Join(pieces, ';')), ';', pieces);
  }

  /** Inserting the entries for all keys of a map, starting from no entry,
      rebuilds that map. */
  lemma InsertAllPairs(m: map<int, int>, ks: seq<int>)
    requires StorableMap(m)
    requires forall i :: 0 <= i < |ks| ==> ks[i] in m
    requires forall k :: k in m ==> k in ks
    ensures InsertPairs(map[], PairStrings(m, ks)) == m
  {
    InsertPairsOf(map[], m, ks);
    var r := InsertPairs(map[], PairStrings(m, ks));
    forall k | k in r
      ensures k in m && r[k] == m[k]
    {
    }
    forall k | k in m
      ensures k in r
    {
    }
    assert r == m;
  }

  /** The allocation field reads back as the map it was written from. */
  lemma InventoryRoundTrip(m: map<int, int>)
    requires StorableMap(m)
    ensures InventoryOf(InventoryToString(m)) == m
  {
    var ks := SortedKeys(m);
    SortedKeysEmpty(m);
    if m != map[] {
      PairPieces(m, ks);
      InventoryOfJoin(PairStrings(m, ks));
      InsertAllPairs(m, ks);
    }
  }

  /** Read through the attendee loop instead, the allocation field yields
      its keys in ascending order. */
  lemma InventoryReadAsAttendees(m: map<int, int>)
    requires StorableMap(m) && m != map[]
    ensures AttendeeIdsOf(InventoryToString(m)) == Some(SortedKeys(m))
  {
    var ks := SortedKeys(m);
    var pieces := PairStrings(m, ks);
    PairPieces(m, ks);
    SortedKeysEmpty(m);
    JoinEmpty(pieces, ';');
    SegmentsOfJoin(Open(InventoryToString(m)), ';', pieces);
    ParseIdsOfPairs(m, ks);
  }

  /** The attendee field reads back as the list it was written from. */
  lemma AttendeesRoundTrip(ids: seq<int>)
    requires forall i :: 0 <= i < |ids| ==> IsInt32(ids[i])
    ensures AttendeeIdsOf(AttendeesToString(ids)) == Some(ids)
  {
    var pieces := IdStrings(ids);
    forall i | 0 <= i < |ids|
      ensures pieces[i] != [] && ';' !in pieces[i]
    {
      NumeralSeparators(ids[i]);
    }
    JoinEmpty(pieces, ';');
    if ids != [] {
      SegmentsOfJoin(Open(AttendeesToString(ids)), ';', pieces);
      ParseIdsOfIds(ids);
    }
  }

  // ---------------------------------------------------------------------
  // Events: the whole line
  // ---------------------------------------------------------------------

  function EventFields(e: EventData): seq<string> {
    [IntToString(e.eventId), e.name, e.date, e.time, e.location, e.description, e.category,
     IntToString(StatusCode(e.status)), AttendeesToString(e.attendeeIds),
     InventoryToString(e.allocatedInventory)]
  }

  /** `Event::toString`. */
  function EventToString(e: EventData): string {
    Join(EventFields(e), ',')
  }

  /** The eight leading fields of `Event::fromString`, read with `getline`
      up to each comma; None when the id or the status makes `stoi` throw.
      Yields the stream after the status field and the event with empty
      lists. */
  function EventHead(str: string): (r: Option<(Stream, EventData)>)
    ensures r.Some? ==> r.value.0.Valid()
  {
    var (s1, idText) := GetLine(Open(str), ',', "");
    var id :- Stoi(idText);
    var (s2, name) := GetLine(s1, ',', "");
    var (s3, date) := GetLine(s2, ',', "");
    var (s4, time) := GetLine(s3, ',', "");
    var (s5, location) := GetLine(s4, ',', "");
    var (s6, description) := GetLine(s5, ',', "");
    var (s7, category) := GetLine(s6, ',', "");
    var (s8, statusText) := GetLine(s7, ',', idText);
    var code :- Stoi(statusText);
    Some((s8, EventData(id, name, date, time, location, description, category, StatusOf(code), [], map[])))
  }

  /** The `peek` tests that decide what the attendee text is: a comma must
      come next, and is consumed; then, unless another comma follows, the
      text up to the next comma. */
  function TrailingAttendees(st: Stream, prev: string): (r: (Stream, string))
    requires st.Valid()
    ensures r.0.Valid()
  {
    var (p1, c1) := Peek(st);
    if c1 == Some(',') then
      var (t1, _) := GetLine(p1, ',', prev);
      var (t2, c2) := Peek(t1);
      if c2 != Some(',') && t2.Good() then GetLine(t2, ',', "") else (t2, "")
    else
      (p1, "")
  }

  /** The test for the inventory text: the rest of the line, provided the
      stream is still good and not at its end. */
  function TrailingInventory(st: Stream): string
    requires st.Valid()
  {
    if st.Good() then
      var (u1, c) := Peek(st);
      if c.Some? then GetLine(u1, '\n', "").1 else ""
    else
      ""
  }

  /** `Event::fromString` as the program has it. None stands for both ways
      the call ends the program: the handler for a bad id or status builds
      its ERROR event with the six-string constructor, passing 0 as a null
      `const char*`, which throws again inside the handler; and a bad
      attendee id throws outside any handler. */
  function EventFromString(str: string): Option<EventData> {
    var head :- EventHead(str);
    var (st, e) := head;
    var (s9, attendeesText) := TrailingAttendees(st, "");
    var inventoryText := TrailingInventory(s9);
    var ids :- AttendeeIdsOf(attendeesText);
    Some(e.(attendeeIds := ids, allocatedInventory := InventoryOf(inventoryText)))
  }

  /** `Event::fromString` as evidently intended: the attendee text up to the
      next comma, then the rest of the line as the inventory text. */
  function EventFromStringFixed(str: string): Option<EventData> {
    var head :- EventHead(str);
    var (st, e) := head;
    var (s9, attendeesText) := GetLine(st, ',', "");
    var (_, inventoryText) := GetLine(s9, '\n', "");
    var ids :- AttendeeIdsOf(attendeesText);
    Some(e.(attendeeIds := ids, allocatedInventory := InventoryOf(inventoryText)))
  }

  /** The events that can be written out and read back. */
  predicate StorableEvent(e: EventData) {
    && IsInt32(e.eventId)
    && e.status.Canonical() && IsInt32(StatusCode(e.status))
    && ',' !in e.name && ',' !in e.date && ',' !in e.time && ',' !in e.location
    && ',' !in e.description && ',' !in e.category
    && (forall i :: 0 <= i < |e.attendeeIds| ==> IsInt32(e.attendeeIds[i]))
    && StorableMap(e.allocatedInventory)
  }

  /** Reading three comma-free fields in a row, with more to follow, from a
      good stream: each read returns its field and the stream stays good. */
  lemma ReadThreeFields(s1: Stream, xs: seq<string>)
    requires s1.Valid() && s1.Good()
    requires |xs| >= 4 && ',' !in xs[0] && ',' !in xs[1] && ',' !in xs[2]
    requires s1.Rest() == Join(xs, ',')
    ensures var (s2, a) := GetLine(s1, ',', "");
      var (s3, b) := GetLine(s2, ',', "");
      var (s4, c) := GetLine(s3, ',', "");
      && a == xs[0] && b == xs[1] && c == xs[2]
      && s4.Valid() && s4.Good() && s4.Rest() == Join(xs[3..], ',')
  {
    ReadJoined(s1, ',', "", xs);
    var s2 := GetLine(s1, ',', "").0;
    ReadJoined(s2, ',', "", xs[1..]);
    var s3 := GetLine(s2, ',', "").0;
    assert xs[1..][1..] == xs[2..];
    ReadJoined(s3, ',', "", xs[2..]);
    assert xs[2..][1..] == xs[3..];
  }

  /** On a written event line the eight leading fields read back, leaving
      the attendee and inventory texts with the comma between them. */
  lemma EventHeadOf(e: EventData)
    requires StorableEvent(e)
    ensures EventHead(EventToString(e)).Some?
    ensures var (st, h) := EventHead(EventToString(e)).value;
      && st.Valid() && st.Good()
      && st.Rest() == AttendeesToString(e.attendeeIds) + [','] + InventoryToString(e.allocatedInventory)
      && h == e.(attendeeIds := [], allocatedInventory := map[])
  {
    var f := EventFields(e);
    NumeralAvoids(f[0], ',');
    NumeralAvoids(f[7], ',');
    var s0 := Open(EventToString(e));
    ReadJoined(s0, ',', "", f);
    var (s1, t1) := GetLine(s0, ',', "");
    StoiOfNumeralAlone(e.eventId);
    var f1 := f[1..];
    ReadThreeFields(s1, f1);
    var s4 := GetLine(GetLine(GetLine(s1, ',', "").0, ',', "").0, ',', "").0;
    var f4 := f1[3..];
    ReadThreeFields(s4, f4);
    var s7 := GetLine(GetLine(GetLine(s4, ',', "").0, ',', "").0, ',', "").0;
    var f7 := f4[3..];
    ReadJoined(s7, ',', t1, f7);
    StoiOfNumeralAlone(StatusCode(e.status));
    StatusCodeRoundTrip(e.status);
    var f8 := f7[1..];
    assert Join(f8, ',') == f8[0] + [','] + f8[1];
  }

  /** The list fields are empty exactly when their lists are, and hold no
      comma and no newline. */
  lemma ListFieldFacts(e: EventData)
    requires StorableEvent(e)
    ensures AttendeesToString(e.attendeeIds) != [] <==> e.attendeeIds != []
    ensures InventoryToString(e.allocatedInventory) != [] <==> e.allocatedInventory != map[]
    ensures ',' !in AttendeesToString(e.attendeeIds) && '\n' !in AttendeesToString(e.attendeeIds)
    ensures ',' !in InventoryToString(e.allocatedInventory) && '\n' !in InventoryToString(e.allocatedInventory)
  {
    var ids := e.attendeeIds;
    var m := e.allocatedInventory;
    var p := IdStrings(ids);
    forall i | 0 <= i < |ids|
      ensures p[i] != [] && ',' !in p[i] && '\n' !in p[i]
    {
      NumeralSeparators(ids[i]);
    }
    var q := PairStrings(m, SortedKeys(m));
    PairPieces(m, SortedKeys(m));
    JoinAvoids(p, ';', ',');
    JoinAvoids(p, ';', '\n');
    JoinAvoids(q, ';', ',');
    JoinAvoids(q, ';', '\n');
    JoinEmpty(p, ';');
    JoinEmpty(q, ';');
    SortedKeysEmpty(m);
  }

  /** A non-empty allocation field holds neither a comma nor a newline. */
  lemma InventoryFieldFacts(m: map<int, int>)
    ensures InventoryToString(m) != [] <==> m != map[]
    ensures ',' !in InventoryToString(m) && '\n' !in InventoryToString(m)
  {
    var q := PairStrings(m, SortedKeys(m));
    PairPieces(m, SortedKeys(m));
    JoinAvoids(q, ';', ',');
    JoinAvoids(q, ';', '\n');
    JoinEmpty(q, ';');
    SortedKeysEmpty(m);
  }

  /** The corrected decoder reads every storable event back as itself. */
  lemma EventFixedRoundTrip(e: EventData)
    requires StorableEvent(e)
    ensures EventFromStringFixed(EventToString(e)) == Some(e)
  {
    EventHeadOf(e);
    ListFieldFacts(e);
    var (st, h) := EventHead(EventToString(e)).value;
    var att, inv := AttendeesToString(e.attendeeIds), InventoryToString(e.allocatedInventory);
    ReadField(st, ',', "", att, inv);
    var s9 := GetLine(st, ',', "").0;
    if inv == [] {
      ReadAtEnd(s9, '\n', "");
    } else {
      ReadLastField(s9, '\n', "", inv);
    }
    AttendeesRoundTrip(e.attendeeIds);
    InventoryRoundTrip(e.allocatedInventory);
  }

  /** As written, an event with attendees loses them: the first `peek` finds
      a digit instead of a comma, so the attendee text stays empty and both
      list fields, comma included, are read as the inventory text. */
  lemma EventWithAttendeesLosesThem(e: EventData)
    requires StorableEvent(e) && e.attendeeIds != []
    ensures EventFromString(EventToString(e)) == Some(e.(
      attendeeIds := [],
      allocatedInventory := InventoryOf(AttendeesToString(e.attendeeIds) + [','] + InventoryToString(e.allocatedInventory))))
  {
    EventHeadOf(e);
    ListFieldFacts(e);
    var (st, h) := EventHead(EventToString(e)).value;
    var rest := st.Rest();
    assert rest[0] != ',';
    assert TrailingAttendees(st, "") == (st, "");
    assert '\n' !in rest;
    ReadLastField(st, '\n', "", rest);
  }

  /** The `peek` tests on a rest that starts with a comma and then holds one
      more field, which ends the line: the comma is consumed and that field
      becomes the attendee text, with eofbit set. */
  lemma TrailingAttendeesOfLastField(st: Stream, field: string)
    requires st.Valid() && st.Good()
    requires st.Rest() == [','] + field
    requires field != [] && ',' !in field
    ensures TrailingAttendees(st, "") == (st.(pos := |st.text|, eof := true), field)
  {
    assert st.Rest() == [] + [','] + field;
    ReadField(st, ',', "", [], field);
    var t1 := GetLine(st, ',', "").0;
    assert t1.text[t1.pos] == field[0];
    ReadLastField(t1, ',', "", field);
  }

  /** How `Event::fromString` as written puts its parts together. */
  lemma ReadAs(str: string, st: Stream, h: EventData, s9: Stream, attText: string, invText: string, ids: seq<int>)
    requires EventHead(str) == Some((st, h))
    requires TrailingAttendees(st, "") == (s9, attText)
    requires TrailingInventory(s9) == invText
    requires AttendeeIdsOf(attText) == Some(ids)
    ensures EventFromString(str) == Some(h.(attendeeIds := ids, allocatedInventory := InventoryOf(invText)))
  {
  }

  lemma OnlyInventoryFromHead(str: string, st: Stream, h: EventData, inv: string, ids: seq<int>)
    requires EventHead(str) == Some((st, h)) && st.Valid() && st.Good()
    requires st.Rest() == AttendeesToString([]) + [','] + inv && inv != [] && ',' !in inv
    requires AttendeeIdsOf(inv) == Some(ids)
    ensures EventFromString(str) == Some(h.(attendeeIds := ids, allocatedInventory := map[]))
  {
    assert AttendeesToString([]) == [] by {
      assert IdStrings([]) == [];
    }
    assert st.Rest() == [','] + inv;
    TrailingAttendeesOfLastField(st, inv);
    var s9 := st.(pos := |st.text|, eof := true);
    assert TrailingInventory(s9) == "";
    ReadAs(str, st, h, s9, inv, "", ids);
  }

  /** As written, an event without attendees but with allocations reads
      its allocation field as the attendee list, getting the item ids as
      attendee ids and no allocations. */
  lemma EventWithOnlyInventoryMovesIt(e: EventData)
    requires StorableEvent(e) && e.attendeeIds == [] && e.allocatedInventory != map[]
    ensures EventFromString(EventToString(e)) == Some(e.(
      attendeeIds := SortedKeys(e.allocatedInventory),
      allocatedInventory := map[]))
  {
    EventHeadOf(e);
    InventoryFieldFacts(e.allocatedInventory);
    var (st, h) := EventHead(EventToString(e)).value;
    var inv := InventoryToString(e.allocatedInventory);
    InventoryReadAsAttendees(e.allocatedInventory);
    OnlyInventoryFromHead(EventToString(e), st, h, inv, SortedKeys(e.allocatedInventory));
  }

  /** As written, an event with both lists empty reads back as itself. */
  lemma EventWithEmptyListsReadsBack(e: EventData)
    requires StorableEvent(e) && e.attendeeIds == [] && e.allocatedInventory == map[]
    ensures EventFromString(EventToString(e)) == Some(e)
  {
    EventHeadOf(e);
    ListFieldFacts(e);
    var (st, h) := EventHead(EventToString(e)).value;
    assert st.Rest() == [] + [','] + [];
    ReadField(st, ',', "", [], []);
  }

  /** As written, a storable event reads back as itself exactly when both of
      its lists are empty. */
  lemma EventRoundTripOnlyWhenListsEmpty(e: EventData)
    requires StorableEvent(e)
    ensures EventFromString(EventToString(e)) == Some(e) <==>
      e.attendeeIds == [] && e.allocatedInventory == map[]
  {
    if e.attendeeIds != [] {
      EventWithAttendeesLosesThem(e);
    } else if e.allocatedInventory != map[] {
      EventWithOnlyInventoryMovesIt(e);
    } else {
      EventWithEmptyListsReadsBack(e);
    }
  }
}
