/** The system's state as values, and each in-scope `System` operation as a
    function from the old state (and the operation's inputs, which the
    program reads from the console) to the new state and what the operation
    reports. The `System` class is proved to follow these functions; the
    properties of the operations are proved about them in `Properties`. */
module Bookkeeping {
  import opened Wrappers
  import opened Text
  import opened Records
  import opened Sequences
  import Codec

  /** The four record vectors and the four per-class next-id counters. */
  datatype State = State(
    users: seq<UserData>,
    events: seq<EventData>,
    inventory: seq<ItemData>,
    attendees: seq<AttendeeData>,
    nextUserId: int,
    nextEventId: int,
    nextItemId: int,
    nextAttendeeId: int)

  /** What an operation reports (the message it prints). */
  datatype Outcome =
    | NotRegularUser
    | EventNotFound
    | EventClosed
    | NotRegistered
    | ItemNotFound
    | AllocationRefused
    | NotAllocated
    | NothingDeallocated
    | UsernameTaken
    | PasswordTooShort
    | InvalidRole
    | CannotDeleteSelf
    | UserNotFound
    | Created(id: int)
    | Associated(id: int)
    | Deallocated(amount: int)
    | CheckedIn(changed: bool)
    | Done

  // ---------------------------------------------------------------------
  // Lookups
  // ---------------------------------------------------------------------

  function FindUserByUsername(users: seq<UserData>, uname: string): Option<nat> {
    First(users, (u: UserData) => u.username == uname)
  }

  function FindEventById(es: seq<EventData>, id: int): Option<nat> {
    First(es, (e: EventData) => e.eventId == id)
  }

  function FindInventoryItemById(items: seq<ItemData>, id: int): Option<nat> {
    First(items, (i: ItemData) => i.itemId == id)
  }

  function FindAttendeeInMasterList(atts: seq<AttendeeData>, id: int): Option<nat> {
    First(atts, (a: AttendeeData) => a.attendeeId == id)
  }

  /** Whether an attendee record carries the user's name, compared after
      `toLower` on both sides. */
  predicate NameMatches(a: AttendeeData, username: string) {
    ToLower(a.name) == ToLower(username)
  }

  /** The first record of the user tied to the given event id (0 for the
      generic profile). */
  function FindProfile(atts: seq<AttendeeData>, username: string, eventId: int): Option<nat> {
    First(atts, (a: AttendeeData) => NameMatches(a, username) && a.eventIdRegisteredFor == eventId)
  }

  // ---------------------------------------------------------------------
  // Next-id counters
  // ---------------------------------------------------------------------

  /** `initNextId`, which the id-taking constructors also apply: the
      counter moves past `id` when it is not already beyond it. */
  function InitNextId(next: int, id: int): (r: int)
    ensures r > id && r >= next
    ensures r == next || r == id + 1
  {
    if id >= next then id + 1 else next
  }

  /** The `maxId` loops of `loadData`: the largest id above 0. */
  function MaxId(ids: seq<int>): (r: int)
    ensures r >= 0
    ensures forall i :: 0 <= i < |ids| ==> ids[i] <= r
    ensures r == 0 || r in ids
  {
    if ids == [] then 0
    else
      var m := MaxId(ids[..|ids| - 1]);
      var last := ids[|ids| - 1];
      assert forall i :: 0 <= i < |ids| - 1 ==> ids[i] == ids[..|ids| - 1][i];
      if last > m then last else m
  }

  function UserIds(users: seq<UserData>): (r: seq<int>)
    ensures |r| == |users| && forall i :: 0 <= i < |users| ==> r[i] == users[i].userId
  {
    seq(|users|, i requires 0 <= i < |users| => users[i].userId)
  }

  function EventIds(es: seq<EventData>): (r: seq<int>)
    ensures |r| == |es| && forall i :: 0 <= i < |es| ==> r[i] == es[i].eventId
  {
    seq(|es|, i requires 0 <= i < |es| => es[i].eventId)
  }

  function ItemIds(items: seq<ItemData>): (r: seq<int>)
    ensures |r| == |items| && forall i :: 0 <= i < |items| ==> r[i] == items[i].itemId
  {
    seq(|items|, i requires 0 <= i < |items| => items[i].itemId)
  }

  function AttendeeIds(atts: seq<AttendeeData>): (r: seq<int>)
    ensures |r| == |atts| && forall i :: 0 <= i < |atts| ==> r[i] == atts[i].attendeeId
  {
    seq(|atts|, i requires 0 <= i < |atts| => atts[i].attendeeId)
  }

  /** Every counter is beyond every id of its kind. */
  predicate CountersAbove(st: State) {
    && (forall i :: 0 <= i < |st.users| ==> st.users[i].userId < st.nextUserId)
    && (forall i :: 0 <= i < |st.events| ==> st.events[i].eventId < st.nextEventId)
    && (forall i :: 0 <= i < |st.inventory| ==> st.inventory[i].itemId < st.nextItemId)
    && (forall i :: 0 <= i < |st.attendees| ==> st.attendees[i].attendeeId < st.nextAttendeeId)
  }

  // ---------------------------------------------------------------------
  // Allocated quantities
  // ---------------------------------------------------------------------

  /** What all events together hold of item `k`. */
  function AllocatedTo(es: seq<EventData>, k: int): int {
    if es == [] then 0
    else AllocatedTo(es[..|es| - 1], k) + Get(es[|es| - 1].allocatedInventory, k)
  }

  /** The lookup by id finds this item, not an earlier one with its id. */
  predicate IsFirstWithId(items: seq<ItemData>, i: nat) {
    FindInventoryItemById(items, if i < |items| then items[i].itemId else 0) == Some(i)
  }

  /** What reconciliation establishes: the item that the lookup by id finds
      holds what all events hold of it, and an item shadowed by an earlier
      one with the same id holds nothing. */
  predicate Reconciled(items: seq<ItemData>, es: seq<EventData>) {
    forall i :: 0 <= i < |items| ==>
      items[i].allocatedQuantity == (if IsFirstWithId(items, i) then AllocatedTo(es, items[i].itemId) else 0)
  }

  /** No allocation map holds an entry that is not positive. */
  predicate PositiveEntries(es: seq<EventData>) {
    forall i :: 0 <= i < |es| ==> PositiveMap(es[i].allocatedInventory)
  }

  /** What the two loops over an allocation map do to the item of an entry:
      reconciliation adds the entry to its allocated quantity, `deleteEvent`
      deallocates it (a failure of `deallocate` is ignored). */
  datatype ItemChange = AddAllocated(q: int) | GiveBack(q: int)

  function ApplyChange(it: ItemData, c: ItemChange): ItemData {
    match c
    case AddAllocated(q) => it.(allocatedQuantity := it.allocatedQuantity + q)
    case GiveBack(q) => DeallocateItem(it, q).0
  }

  /** The item found by id, changed by `c`; no change when there is none. */
  function UpdateItem(items: seq<ItemData>, k: int, c: ItemChange): (r: seq<ItemData>)
    ensures |r| == |items|
  {
    match FindInventoryItemById(items, k)
    case Some(i) => items[i := ApplyChange(items[i], c)]
    case None => items
  }

  /** The accumulation loop over one event's map, for the keys `ks`. */
  function AddEntries(items: seq<ItemData>, m: map<int, int>, ks: seq<int>): (r: seq<ItemData>)
    requires forall i :: 0 <= i < |ks| ==> ks[i] in m
    ensures |r| == |items|
  {
    if ks == [] then items
    else
      var k := ks[|ks| - 1];
      UpdateItem(AddEntries(items, m, ks[..|ks| - 1]), k, AddAllocated(m[k]))
  }

  /** The accumulation loop over the events, in their order. */
  function AddEvents(items: seq<ItemData>, es: seq<EventData>): (r: seq<ItemData>)
    ensures |r| == |items|
  {
    if es == [] then items
    else
      var m := es[|es| - 1].allocatedInventory;
      AddEntries(AddEvents(items, es[..|es| - 1]), m, SortedKeys(m))
  }

  /** The zeroing loop. */
  function ZeroAllocated(items: seq<ItemData>): (r: seq<ItemData>)
    ensures |r| == |items|
    ensures forall i :: 0 <= i < |items| ==> r[i] == items[i].(allocatedQuantity := 0)
  {
    seq(|items|, i requires 0 <= i < |items| => items[i].(allocatedQuantity := 0))
  }

  /** The reconciliation at the end of `loadData`. */
  function Reconcile(items: seq<ItemData>, es: seq<EventData>): seq<ItemData> {
    AddEvents(ZeroAllocated(items), es)
  }

  // ---------------------------------------------------------------------
  // Loading
  // ---------------------------------------------------------------------

  /** `loadUsers` over the lines of the users file: empty lines and lines
      the decoder rejects are skipped. */
  function LoadUsers(st: State, lines: seq<string>): State {
    if lines == [] then st
    else
      var s := LoadUsers(st, lines[..|lines| - 1]);
      var line := lines[|lines| - 1];
      if line == [] then s
      else
        match Codec.UserFromString(line)
        case None => s
        case Some(u) => s.(users := s.users + [u], nextUserId := InitNextId(s.nextUserId, u.userId))
  }

  /** `loadEvents`: false once a line makes the decoder end the program;
      the lines after it are not read. */
  function LoadEvents(st: State, lines: seq<string>): (State, bool) {
    if lines == [] then (st, true)
    else
      var (s, ok) := LoadEvents(st, lines[..|lines| - 1]);
      var line := lines[|lines| - 1];
      if !ok then (s, false)
      else if line == [] then (s, true)
      else
        match Codec.EventFromString(line)
        case None => (s, false)
        case Some(e) => (s.(events := s.events + [e], nextEventId := InitNextId(s.nextEventId, e.eventId)), true)
  }

  /** `loadInventory`: a malformed line still adds the ERROR item. */
  function LoadInventory(st: State, lines: seq<string>): State {
    if lines == [] then st
    else
      var s := LoadInventory(st, lines[..|lines| - 1]);
      var line := lines[|lines| - 1];
      if line == [] then s
      else
        var i := Codec.ItemFromString(line);
        s.(inventory := s.inventory + [i], nextItemId := InitNextId(s.nextItemId, i.itemId))
  }

  /** `loadAttendees`: a malformed line still adds the ERROR attendee. */
  function LoadAttendees(st: State, lines: seq<string>): State {
    if lines == [] then st
    else
      var s := LoadAttendees(st, lines[..|lines| - 1]);
      var line := lines[|lines| - 1];
      if line == [] then s
      else
        var a := Codec.AttendeeFromString(line);
        s.(attendees := s.attendees + [a], nextAttendeeId := InitNextId(s.nextAttendeeId, a.attendeeId))
  }

  /** The four `maxId` loops and `initNextId` calls. */
  function SeedIds(st: State): State {
    st.(nextUserId := InitNextId(st.nextUserId, MaxId(UserIds(st.users))),
        nextEventId := InitNextId(st.nextEventId, MaxId(EventIds(st.events))),
        nextItemId := InitNextId(st.nextItemId, MaxId(ItemIds(st.inventory))),
        nextAttendeeId := InitNextId(st.nextAttendeeId, MaxId(AttendeeIds(st.attendees))))
  }

  /** `loadData` over the lines of the four files; false when reading the
      events ended the program. */
  function LoadData(st: State, userLines: seq<string>, eventLines: seq<string>,
                    itemLines: seq<string>, attendeeLines: seq<string>): (State, bool)
  {
    var s1 := LoadUsers(st, userLines);
    var (s2, ok) := LoadEvents(s1, eventLines);
    if !ok then (s2, false)
    else
      var s3 := SeedIds(LoadAttendees(LoadInventory(s2, itemLines), attendeeLines));
      (s3.(inventory := Reconcile(s3.inventory, s3.events)), true)
  }

  // ---------------------------------------------------------------------
  // User accounts
  // ---------------------------------------------------------------------

  /** `createUserAccount`: the username must be free, the password at least
      six characters long and the role Admin or RegularUser; the account
      gets the next user id. */
  function CreateUserAccount(st: State, uname: string, pwd: string, role: Role): (State, Outcome) {
    if FindUserByUsername(st.users, uname).Some? then (st, UsernameTaken)
    else if |pwd| < 6 then (st, PasswordTooShort)
    else if role == NoRole then (st, InvalidRole)
    else
      (st.(users := st.users + [UserData(st.nextUserId, uname, pwd, role)], nextUserId := st.nextUserId + 1),
       Created(st.nextUserId))
  }

  function KeepOtherUsers(uname: string): UserData -> bool {
    (u: UserData) => u.username != uname
  }

  /** `deleteUserAccount`: refused for the logged-in user's own name;
      otherwise every account with the name goes. */
  function DeleteUserAccount(st: State, current: Option<UserData>, uname: string): (State, Outcome) {
    if current.Some? && current.value.username == uname then (st, CannotDeleteSelf)
    else
      var kept := Filter(st.users, KeepOtherUsers(uname));
      if |kept| == |st.users| then (st, UserNotFound) else (st.(users := kept), Done)
  }

  // ---------------------------------------------------------------------
  // Deleting an event
  // ---------------------------------------------------------------------

  function KeepOtherEvents(id: int): EventData -> bool {
    (e: EventData) => e.eventId != id
  }

  /** The vector after `std::remove_if(events, eventId == id)`: the kept
      events in order, then the old contents of the remaining slots, among
      which a slot whose event was moved forward is moved-from. */
  function RemoveIf(es: seq<EventData>, id: int): (r: seq<EventData>)
    ensures |r| == |es|
    ensures r[..|Filter(es, KeepOtherEvents(id))|] == Filter(es, KeepOtherEvents(id))
    ensures forall p :: |Filter(es, KeepOtherEvents(id))| <= p < |es| ==> r[p] == Vacated(es[p], id)
  {
    var kept := Filter(es, KeepOtherEvents(id));
    kept + seq(|es| - |kept|, j requires 0 <= j < |es| - |kept| => Vacated(es[|kept| + j], id))
  }

  /** What a slot past the new logical end holds: its matching event, or
      the moved-from shell of the kept event that was moved out of it. */
  function Vacated(e: EventData, id: int): EventData {
    if e.eventId == id then e else MovedFrom(e)
  }

  /** The map that `deleteEvent` walks to give items back: the one in the
      slot where the removed range begins. */
  function ReturnedMap(es: seq<EventData>, id: int): map<int, int> {
    var kept := |Filter(es, KeepOtherEvents(id))|;
    if kept < |es| then RemoveIf(es, id)[kept].allocatedInventory else map[]
  }

  /** The loop that gives back the entries of `m` for the keys `ks`, with
      `deallocate`, whose failure is ignored. */
  function ReturnEntries(items: seq<ItemData>, m: map<int, int>, ks: seq<int>): (r: seq<ItemData>)
    requires forall i :: 0 <= i < |ks| ==> ks[i] in m
    ensures |r| == |items|
  {
    if ks == [] then items
    else
      var k := ks[|ks| - 1];
      UpdateItem(ReturnEntries(items, m, ks[..|ks| - 1]), k, GiveBack(m[k]))
  }

  function ReturnInventory(items: seq<ItemData>, m: map<int, int>): seq<ItemData> {
    ReturnEntries(items, m, SortedKeys(m))
  }

  function KeepOtherEventsAttendees(id: int): AttendeeData -> bool {
    (a: AttendeeData) => a.eventIdRegisteredFor != id
  }

  /** `deleteEvent`: every event with the id goes, the inventory of the map
      in the first slot past the kept ones is given back, and every attendee
      record tied to the id goes. */
  function DeleteEvent(st: State, id: int): (State, Outcome) {
    var kept := Filter(st.events, KeepOtherEvents(id));
    if |kept| == |st.events| then (st, EventNotFound)
    else
      (st.(events := kept,
           inventory := ReturnInventory(st.inventory, ReturnedMap(st.events, id)),
           attendees := Filter(st.attendees, KeepOtherEventsAttendees(id))),
       Done)
  }

  /** What `deleteEvent` evidently means to do: give back the allocations
      of every event it removes. */
  function ReturnAll(items: seq<ItemData>, es: seq<EventData>, id: int): (r: seq<ItemData>)
    ensures |r| == |items|
  {
    if es == [] then items
    else
      var prev := ReturnAll(items, es[..|es| - 1], id);
      var e := es[|es| - 1];
      if e.eventId == id then ReturnInventory(prev, e.allocatedInventory) else prev
  }

  function DeleteEventFixed(st: State, id: int): (State, Outcome) {
    var kept := Filter(st.events, KeepOtherEvents(id));
    if |kept| == |st.events| then (st, EventNotFound)
    else
      (st.(events := kept,
           inventory := ReturnAll(st.inventory, st.events, id),
           attendees := Filter(st.attendees, KeepOtherEventsAttendees(id))),
       Done)
  }

  // ---------------------------------------------------------------------
  // Registrations
  // ---------------------------------------------------------------------

  predicate IsRegularUser(current: Option<UserData>) {
    current.Some? && current.value.role != Admin
  }

  /** `registerAttendeeForEvent`: a regular user registers for an event
      that is neither canceled nor completed, through the record already
      tied to that event, else through the generic profile (whose contact
      is updated), else through a new record. */
  function RegisterAttendeeForEvent(st: State, current: Option<UserData>, eventId: int, contact: string): (State, Outcome) {
    if !IsRegularUser(current) then (st, NotRegularUser)
    else
      match FindEventById(st.events, eventId)
      case None => (st, EventNotFound)
      case Some(ei) =>
        if st.events[ei].status == Canceled || st.events[ei].status == Completed then (st, EventClosed)
        else RegisterIn(st, ei, current.value.username, eventId, contact)
  }

  /** The registration of the user `uname` for the open event at `ei`. */
  function RegisterIn(st: State, ei: nat, uname: string, eventId: int, contact: string): (State, Outcome)
    requires ei < |st.events|
  {
    var e := st.events[ei];
    match FindProfile(st.attendees, uname, eventId)
    case Some(ai) =>
      var id := st.attendees[ai].attendeeId;
      (st.(events := st.events[ei := e.(attendeeIds := AddId(e.attendeeIds, id))]), Associated(id))
    case None =>
      match FindProfile(st.attendees, uname, 0)
      case Some(gi) =>
        var id := st.attendees[gi].attendeeId;
        (st.(events := st.events[ei := e.(attendeeIds := AddId(e.attendeeIds, id))],
             attendees := st.attendees[gi := st.attendees[gi].(contactInfo := contact)]),
         Associated(id))
      case None =>
        var id := st.nextAttendeeId;
        (st.(events := st.events[ei := e.(attendeeIds := AddId(e.attendeeIds, id))],
             attendees := st.attendees + [AttendeeData(id, uname, contact, eventId, false)],
             nextAttendeeId := id + 1),
         Created(id))
  }

  function KeepOtherAttendees(id: int): AttendeeData -> bool {
    (a: AttendeeData) => a.attendeeId != id
  }

  /** `cancelOwnRegistration`: the user's record for the event is taken off
      the event's list and every record with its id is erased. The search
      result -1 means "not found", so a record whose id is -1 cannot be
      canceled. */
  function CancelOwnRegistration(st: State, current: Option<UserData>, eventId: int): (State, Outcome) {
    if !IsRegularUser(current) then (st, NotRegularUser)
    else
      match FindEventById(st.events, eventId)
      case None => (st, EventNotFound)
      case Some(ei) =>
        var found := FindProfile(st.attendees, current.value.username, eventId);
        var id := if found.Some? then st.attendees[found.value].attendeeId else -1;
        if id == -1 then (st, NotRegistered)
        else
          var e := st.events[ei];
          (st.(events := st.events[ei := e.(attendeeIds := RemoveFirst(e.attendeeIds, id))],
               attendees := Filter(st.attendees, KeepOtherAttendees(id))),
           Done)
  }

  /** `checkInAttendeeForEvent`: the attendee found by id is checked in when
      it is registered for the event, which must exist. */
  function CheckInAttendeeForEvent(st: State, eventId: int, attendeeId: int): (State, Outcome) {
    if FindEventById(st.events, eventId).None? then (st, EventNotFound)
    else
      match FindAttendeeInMasterList(st.attendees, attendeeId)
      case None => (st, NotRegistered)
      case Some(ai) =>
        if st.attendees[ai].eventIdRegisteredFor != eventId then (st, NotRegistered)
        else
          var (a, changed) := CheckInRecord(st.attendees[ai]);
          (st.(attendees := st.attendees[ai := a]), CheckedIn(changed))
  }

  /** The search loop of `updateCurrentLoggedInUserContactInfo`: it stops
      at the user's generic profile, whose position it returns, and every
      record with the user's name before it (every one when there is no
      generic profile) gets the new contact. */
  function UpdateUntilProfile(atts: seq<AttendeeData>, username: string, contact: string): (seq<AttendeeData>, Option<nat>) {
    var found := FindProfile(atts, username, 0);
    (seq(|atts|, i requires 0 <= i < |atts| =>
       if (found.None? || i < found.value) && NameMatches(atts[i], username)
       then atts[i].(contactInfo := contact) else atts[i]),
     found)
  }

  /** `updateCurrentLoggedInUserContactInfo`: after the search loop, the
      generic profile gets the new contact, or a new generic profile is
      created with it. */
  function UpdateContactInfo(st: State, current: Option<UserData>, contact: string): (State, Outcome) {
    if !IsRegularUser(current) then (st, NotRegularUser)
    else
      var uname := current.value.username;
      var (atts, found) := UpdateUntilProfile(st.attendees, uname, contact);
      match found
      case Some(g) => (st.(attendees := atts[g := atts[g].(contactInfo := contact)]), Done)
      case None =>
        var id := st.nextAttendeeId;
        (st.(attendees := atts + [AttendeeData(id, uname, contact, 0, false)], nextAttendeeId := id + 1),
         Created(id))
  }

  // ---------------------------------------------------------------------
  // Inventory allocation to an event
  // ---------------------------------------------------------------------

  /** The allocate branch of `trackInventoryAllocationToEvent`: the item
      takes the quantity first, and only then does the event record it. */
  function AllocateToEvent(st: State, eventId: int, itemId: int, q: int): (State, Outcome) {
    match FindEventById(st.events, eventId)
    case None => (st, EventNotFound)
    case Some(ei) =>
      match FindInventoryItemById(st.inventory, itemId)
      case None => (st, ItemNotFound)
      case Some(ii) =>
        var (item, ok) := AllocateItem(st.inventory[ii], q);
        if !ok then (st, AllocationRefused)
        else
          var e := st.events[ei];
          (st.(inventory := st.inventory[ii := item],
               events := st.events[ei := e.(allocatedInventory := AllocateEntry(e.allocatedInventory, item.itemId, q))]),
           Done)
  }

  /** The deallocate branch: the event gives back at most what it holds,
      and what it gave back, when positive, is deallocated from the item
      (whose own failure is ignored). */
  function DeallocateFromEvent(st: State, eventId: int, itemId: int, q: int): (State, Outcome) {
    match FindEventById(st.events, eventId)
    case None => (st, EventNotFound)
    case Some(ei) =>
      match FindInventoryItemById(st.inventory, itemId)
      case None => (st, ItemNotFound)
      case Some(ii) =>
        var e := st.events[ei];
        if itemId !in e.allocatedInventory then (st, NotAllocated)
        else
          var (m, actual) := DeallocateEntry(e.allocatedInventory, st.inventory[ii].itemId, q);
          var s := st.(events := st.events[ei := e.(allocatedInventory := m)]);
          if actual > 0 then
            (s.(inventory := st.inventory[ii := DeallocateItem(st.inventory[ii], actual).0]), Deallocated(actual))
          else
            (s, NothingDeallocated)
  }
}
