/** What the system's operations promise: the state `loadData` leaves, the
    rules of the user accounts, and the registration, cancellation,
    check-in and contact-update operations. */
module Properties {
  import opened Wrappers
  import opened Records
  import opened Sequences
  import opened Bookkeeping
  import opened Allocation

  // ---------------------------------------------------------------------
  // loadData
  // ---------------------------------------------------------------------

  /** After the `maxId` loops every counter is beyond every id of its kind,
      whatever the counters held before. */
  lemma SeedIdsAbove(st: State)
    ensures CountersAbove(SeedIds(st))
  {
    var s := SeedIds(st);
    forall i | 0 <= i < |st.users| ensures st.users[i].userId < s.nextUserId {
      assert UserIds(st.users)[i] == st.users[i].userId;
    }
    forall i | 0 <= i < |st.events| ensures st.events[i].eventId < s.nextEventId {
      assert EventIds(st.events)[i] == st.events[i].eventId;
    }
    forall i | 0 <= i < |st.inventory| ensures st.inventory[i].itemId < s.nextItemId {
      assert ItemIds(st.inventory)[i] == st.inventory[i].itemId;
    }
    forall i | 0 <= i < |st.attendees| ensures st.attendees[i].attendeeId < s.nextAttendeeId {
      assert AttendeeIds(st.attendees)[i] == st.attendees[i].attendeeId;
    }
  }

  /** A completed `loadData` leaves every counter beyond every loaded id
      (so no new record can take an existing id) and every item holding
      what the loaded events hold of it. */
  lemma LoadDataEstablishes(st: State, userLines: seq<string>, eventLines: seq<string>,
                            itemLines: seq<string>, attendeeLines: seq<string>)
    ensures var (r, ok) := LoadData(st, userLines, eventLines, itemLines, attendeeLines);
      ok ==> CountersAbove(r) && Reconciled(r.inventory, r.events)
  {
    var (s2, ok) := LoadEvents(LoadUsers(st, userLines), eventLines);
    if ok {
      var s3 := SeedIds(LoadAttendees(LoadInventory(s2, itemLines), attendeeLines));
      SeedIdsAbove(LoadAttendees(LoadInventory(s2, itemLines), attendeeLines));
      ReconcileEstablishes(s3.inventory, s3.events);
      var r := s3.(inventory := Reconcile(s3.inventory, s3.events));
      assert forall i :: 0 <= i < |r.inventory| ==> r.inventory[i].itemId == s3.inventory[i].itemId;
    }
  }

  // ---------------------------------------------------------------------
  // User accounts
  // ---------------------------------------------------------------------

  predicate UniqueUsernames(users: seq<UserData>) {
    forall i, j :: 0 <= i < j < |users| ==> users[i].username != users[j].username
  }

  /** An account is created exactly when the name is free, the password
      has at least six characters and the role is Admin or RegularUser; it
      takes a fresh id, keeps the usernames unique, and a refusal changes
      nothing. */
  lemma CreateAccountRules(st: State, uname: string, pwd: string, role: Role)
    ensures var (r, out) := CreateUserAccount(st, uname, pwd, role);
      && (out.Created? <==> FindUserByUsername(st.users, uname).None? && |pwd| >= 6 && role != NoRole)
      && (!out.Created? ==> r == st)
      && (out.Created? ==> FindUserByUsername(r.users, uname) == Some(|st.users|) &&
                           r.users[|st.users|] == UserData(out.id, uname, pwd, role))
      && (UniqueUsernames(st.users) ==> UniqueUsernames(r.users))
      && (CountersAbove(st) ==> CountersAbove(r))
      && (CountersAbove(st) && out.Created? ==> forall i :: 0 <= i < |st.users| ==> st.users[i].userId != out.id)
  {
    var (r, out) := CreateUserAccount(st, uname, pwd, role);
    if out.Created? {
      var u := UserData(out.id, uname, pwd, role);
      assert r.users == st.users + [u];
      FirstIs(r.users, (x: UserData) => x.username == uname, |st.users|);
    }
  }

  /** Deleting an event succeeds exactly when an event has the id, and
      nothing changes otherwise; on success the users and counters are
      kept, no event or attendee record with the id remains, and every
      event and attendee record without it stays. */
  lemma DeleteEventRules(st: State, id: int)
    ensures var (r, out) := DeleteEvent(st, id);
      && (out == EventNotFound <==> FindEventById(st.events, id).None?)
      && (out == EventNotFound || out == Done)
      && (out == EventNotFound ==> r == st)
      && (out == Done ==>
            && r.users == st.users
            && r.nextUserId == st.nextUserId && r.nextEventId == st.nextEventId
            && r.nextItemId == st.nextItemId && r.nextAttendeeId == st.nextAttendeeId
            && (forall j :: 0 <= j < |r.events| ==> r.events[j].eventId != id && r.events[j] in st.events)
            && (forall j :: 0 <= j < |r.attendees| ==>
                  r.attendees[j].eventIdRegisteredFor != id && r.attendees[j] in st.attendees))
      && (forall j :: 0 <= j < |st.events| && st.events[j].eventId != id ==> st.events[j] in r.events)
      && (forall j :: 0 <= j < |st.attendees| && st.attendees[j].eventIdRegisteredFor != id ==>
            st.attendees[j] in r.attendees)
  {
    FilterKeepsAll(st.events, KeepOtherEvents(id));
    FilterMembers(st.events, KeepOtherEvents(id));
    FilterMembers(st.attendees, KeepOtherEventsAttendees(id));
    var found := FindEventById(st.events, id);
    if found.Some? {
      assert !KeepOtherEvents(id)(st.events[found.value]);
    }
  }

  /** Deleting an account other than one's own removes every account with
      the name and keeps every other account in its order; when there is
      none, nothing changes. */
  lemma DeleteAccountRules(st: State, current: Option<UserData>, uname: string)
    ensures var (r, out) := DeleteUserAccount(st, current, uname);
      && (out == CannotDeleteSelf <==> current.Some? && current.value.username == uname)
      && (out == UserNotFound <==> out != CannotDeleteSelf && FindUserByUsername(st.users, uname).None?)
      && (out != Done ==> r == st)
      && (forall i :: 0 <= i < |r.users| ==> r.users[i] in st.users)
      && (out == Done ==> forall i :: 0 <= i < |r.users| ==> r.users[i].username != uname)
      && (forall i :: 0 <= i < |st.users| && st.users[i].username != uname ==> st.users[i] in r.users)
  {
    FilterKeepsAll(st.users, KeepOtherUsers(uname));
    FilterMembers(st.users, KeepOtherUsers(uname));
  }

  // ---------------------------------------------------------------------
  // Registrations
  // ---------------------------------------------------------------------

  /** Registering for a canceled or completed event changes nothing. */
  lemma RegisterClosedChangesNothing(st: State, current: Option<UserData>, eventId: int, contact: string)
    requires IsRegularUser(current) && FindEventById(st.events, eventId).Some?
    requires st.events[FindEventById(st.events, eventId).value].status in {Canceled, Completed}
    ensures RegisterAttendeeForEvent(st, current, eventId, contact) == (st, EventClosed)
  {
  }

  /** Registration succeeds exactly for a regular user and an event that
      exists and is neither canceled nor completed; otherwise nothing
      changes. */
  lemma RegisterOutcome(st: State, current: Option<UserData>, eventId: int, contact: string)
    ensures var (r, out) := RegisterAttendeeForEvent(st, current, eventId, contact);
      && (out.Associated? || out.Created? <==>
            IsRegularUser(current) && FindEventById(st.events, eventId).Some? &&
            st.events[FindEventById(st.events, eventId).value].status !in {Canceled, Completed})
      && (!(out.Associated? || out.Created?) ==> r == st)
  {
  }

  /** Adding an id to one event's list. */
  lemma AddToEvent(es: seq<EventData>, ei: nat, id: int)
    requires ei < |es|
    ensures var r := es[ei := es[ei].(attendeeIds := AddId(es[ei].attendeeIds, id))];
      && |r| == |es|
      && (forall j :: 0 <= j < |es| && j != ei ==> r[j] == es[j])
      && r[ei] == es[ei].(attendeeIds := r[ei].attendeeIds)
      && (forall y :: y in r[ei].attendeeIds <==> y in es[ei].attendeeIds || y == id)
      && (NoDup(es[ei].attendeeIds) ==> NoDup(r[ei].attendeeIds))
  {
  }

  /** A successful registration puts the attendee's id on the event's list
      (exactly once when the list had no duplicates), changes no other
      event, and ties the id to a record in the user's name. */
  lemma RegisterAddsId(st: State, current: Option<UserData>, eventId: int, contact: string)
    requires IsRegularUser(current) && FindEventById(st.events, eventId).Some?
    requires st.events[FindEventById(st.events, eventId).value].status !in {Canceled, Completed}
    ensures var (r, out) := RegisterAttendeeForEvent(st, current, eventId, contact);
      var ei := FindEventById(st.events, eventId).value;
      && (out.Associated? || out.Created?)
      && |r.events| == |st.events|
      && (forall j :: 0 <= j < |st.events| && j != ei ==> r.events[j] == st.events[j])
      && r.events[ei] == st.events[ei].(attendeeIds := r.events[ei].attendeeIds)
      && (forall y :: y in r.events[ei].attendeeIds <==> y in st.events[ei].attendeeIds || y == out.id)
      && (NoDup(st.events[ei].attendeeIds) ==> NoDup(r.events[ei].attendeeIds))
      && (exists j :: 0 <= j < |r.attendees| && r.attendees[j].attendeeId == out.id &&
            NameMatches(r.attendees[j], current.value.username))
  {
    var (r, out) := RegisterAttendeeForEvent(st, current, eventId, contact);
    var ei := FindEventById(st.events, eventId).value;
    AddToEvent(st.events, ei, out.id);
    var uname := current.value.username;
    var fp := FindProfile(st.attendees, uname, eventId);
    var gp := FindProfile(st.attendees, uname, 0);
    if fp.Some? {
      assert r.attendees[fp.value].attendeeId == out.id;
    } else if gp.Some? {
      assert r.attendees[gp.value].attendeeId == out.id;
    } else {
      assert r.attendees[|st.attendees|].attendeeId == out.id;
    }
  }

  /** Registration keeps the counters beyond the ids, and a new record
      takes an id no record has. */
  lemma RegisterKeepsCounters(st: State, current: Option<UserData>, eventId: int, contact: string)
    requires CountersAbove(st)
    ensures var (r, out) := RegisterAttendeeForEvent(st, current, eventId, contact);
      && CountersAbove(r)
      && (out.Created? ==> forall j :: 0 <= j < |st.attendees| ==> st.attendees[j].attendeeId != out.id)
  {
    if IsRegularUser(current) && FindEventById(st.events, eventId).Some? {
      RegisterInKeepsCounters(st, FindEventById(st.events, eventId).value, current.value.username, eventId, contact);
    }
  }

  lemma RegisterInKeepsCounters(st: State, ei: nat, uname: string, eventId: int, contact: string)
    requires CountersAbove(st) && ei < |st.events|
    ensures var (r, out) := RegisterIn(st, ei, uname, eventId, contact);
      && CountersAbove(r)
      && (out.Created? ==> forall j :: 0 <= j < |st.attendees| ==> st.attendees[j].attendeeId != out.id)
  {
    var (r, out) := RegisterIn(st, ei, uname, eventId, contact);
    AddToEvent(st.events, ei, out.id);
    var fp := FindProfile(st.attendees, uname, eventId);
    var gp := FindProfile(st.attendees, uname, 0);
    if fp.None? && gp.None? {
      assert r.attendees == st.attendees + [AttendeeData(out.id, uname, contact, eventId, false)];
    } else {
      assert forall j :: 0 <= j < |r.attendees| ==> r.attendees[j].attendeeId == st.attendees[j].attendeeId;
    }
    CountersAfterChange(st, r);
  }

  /** The counters stay beyond the ids when the users, items and counters
      are kept, the events keep their ids and every attendee's id is below
      the attendee counter. */
  lemma CountersAfterChange(st: State, r: State)
    requires CountersAbove(st)
    requires r.users == st.users && r.inventory == st.inventory
    requires r.nextUserId == st.nextUserId && r.nextEventId == st.nextEventId && r.nextItemId == st.nextItemId
    requires |r.events| == |st.events| && forall j :: 0 <= j < |r.events| ==> r.events[j].eventId == st.events[j].eventId
    requires r.nextAttendeeId >= st.nextAttendeeId
    requires forall j :: 0 <= j < |r.attendees| ==>
      (j < |st.attendees| && r.attendees[j].attendeeId == st.attendees[j].attendeeId) || r.attendees[j].attendeeId < r.nextAttendeeId
    ensures CountersAbove(r)
  {
  }

  // ---------------------------------------------------------------------
  // Cancelling a registration
  // ---------------------------------------------------------------------

  /** Cancelling succeeds exactly when the user has a record tied to the
      event (whose id is not the "not found" value -1); the id then leaves
      the event's list (wholly, when the list had no duplicates) and every
      record with the id goes, while every other record stays. */
  lemma CancelRules(st: State, current: Option<UserData>, eventId: int)
    ensures var (r, out) := CancelOwnRegistration(st, current, eventId);
      && (out != Done ==> r == st)
      && (out == Done <==>
            IsRegularUser(current) && FindEventById(st.events, eventId).Some? &&
            FindProfile(st.attendees, current.value.username, eventId).Some? &&
            st.attendees[FindProfile(st.attendees, current.value.username, eventId).value].attendeeId != -1)
      && (out == Done ==>
            var ei := FindEventById(st.events, eventId).value;
            var id := st.attendees[FindProfile(st.attendees, current.value.username, eventId).value].attendeeId;
            && |r.events| == |st.events|
            && (forall j :: 0 <= j < |st.events| && j != ei ==> r.events[j] == st.events[j])
            && r.events[ei] == st.events[ei].(attendeeIds := RemoveFirst(st.events[ei].attendeeIds, id))
            && (NoDup(st.events[ei].attendeeIds) ==> id !in r.events[ei].attendeeIds)
            && (forall j :: 0 <= j < |r.attendees| ==> r.attendees[j].attendeeId != id && r.attendees[j] in st.attendees)
            && (forall j :: 0 <= j < |st.attendees| && st.attendees[j].attendeeId != id ==> st.attendees[j] in r.attendees))
  {
    var found := FindProfile(st.attendees, if current.Some? then current.value.username else "", eventId);
    if found.Some? {
      FilterMembers(st.attendees, KeepOtherAttendees(st.attendees[found.value].attendeeId));
    }
  }

  /** A registration made through the generic profile leaves that record
      tied to event 0, so cancelling it afterwards finds no record: the id
      stays on the event's list. */
  lemma ProfileRegistrationCannotBeCanceled(st: State, current: Option<UserData>, eventId: int, contact: string)
    requires IsRegularUser(current) && eventId != 0
    requires FindEventById(st.events, eventId).Some?
    requires st.events[FindEventById(st.events, eventId).value].status !in {Canceled, Completed}
    requires FindProfile(st.attendees, current.value.username, eventId).None?
    requires FindProfile(st.attendees, current.value.username, 0).Some?
    ensures var (r, out) := RegisterAttendeeForEvent(st, current, eventId, contact);
      && out.Associated?
      && out.id in r.events[FindEventById(st.events, eventId).value].attendeeIds
      && CancelOwnRegistration(r, current, eventId) == (r, NotRegistered)
  {
    var (r, out) := RegisterAttendeeForEvent(st, current, eventId, contact);
    var uname := current.value.username;
    var g := FindProfile(st.attendees, uname, 0).value;
    assert r.attendees == st.attendees[g := st.attendees[g].(contactInfo := contact)];
    SameEventIdsSameLookup(st.events, r.events, eventId);
    var p := (a: AttendeeData) => NameMatches(a, uname) && a.eventIdRegisteredFor == eventId;
    assert forall j :: 0 <= j < |r.attendees| ==> !p(r.attendees[j]) by {
      assert forall j :: 0 <= j < |st.attendees| ==> !p(st.attendees[j]);
    }
    FirstIs(r.attendees, p, |r.attendees|);
  }

  /** The lookup of an event by id only looks at the ids. */
  lemma SameEventIdsSameLookup(a: seq<EventData>, b: seq<EventData>, id: int)
    requires |a| == |b| && forall j :: 0 <= j < |a| ==> a[j].eventId == b[j].eventId
    ensures FindEventById(a, id) == FindEventById(b, id)
  {
    var r := FindEventById(a, id);
    FirstIs(b, (e: EventData) => e.eventId == id, if r.Some? then r.value else |b|);
  }

  /** Cancelling a registration that created a new record undoes it; only
      the attendee counter stays advanced. */
  lemma CancelUndoesNewRegistration(st: State, current: Option<UserData>, eventId: int, contact: string)
    requires CountersAbove(st) && st.nextAttendeeId > 0
    requires RegisterAttendeeForEvent(st, current, eventId, contact).1.Created?
    requires st.nextAttendeeId !in st.events[FindEventById(st.events, eventId).value].attendeeIds
    ensures CancelOwnRegistration(RegisterAttendeeForEvent(st, current, eventId, contact).0, current, eventId)
         == (st.(nextAttendeeId := st.nextAttendeeId + 1), Done)
  {
    var (r, out) := RegisterAttendeeForEvent(st, current, eventId, contact);
    var ei := FindEventById(st.events, eventId).value;
    var uname := current.value.username;
    var id := st.nextAttendeeId;
    var a := AttendeeData(id, uname, contact, eventId, false);
    var e := st.events[ei];
    assert r.attendees == st.attendees + [a];
    assert r.events == st.events[ei := e.(attendeeIds := e.attendeeIds + [id])];
    SameEventIdsSameLookup(st.events, r.events, eventId);
    FirstIs(r.attendees, (x: AttendeeData) => NameMatches(x, uname) && x.eventIdRegisteredFor == eventId, |st.attendees|);
    RemoveAfterAdd(e.attendeeIds, id);
    assert r.events[ei := e] == st.events;
    FilterAppendDropped(st.attendees, a);
  }

  /** Appending a record with a fresh id and filtering that id out again. */
  lemma FilterAppendDropped(atts: seq<AttendeeData>, a: AttendeeData)
    requires forall j :: 0 <= j < |atts| ==> atts[j].attendeeId != a.attendeeId
    ensures Filter(atts + [a], KeepOtherAttendees(a.attendeeId)) == atts
  {
    assert (atts + [a])[..|atts|] == atts;
    FilterKeepsAll(atts, KeepOtherAttendees(a.attendeeId));
  }

  // ---------------------------------------------------------------------
  // Check-in
  // ---------------------------------------------------------------------

  /** Check-in changes at most the record found by id, and only when it is
      registered for the event, which must exist; it never clears a flag,
      and it reports whether the flag was clear. */
  lemma CheckInRules(st: State, eventId: int, attendeeId: int)
    ensures var (r, out) := CheckInAttendeeForEvent(st, eventId, attendeeId);
      && r == st.(attendees := r.attendees)
      && |r.attendees| == |st.attendees|
      && (forall j :: 0 <= j < |st.attendees| && st.attendees[j].isCheckedIn ==> r.attendees[j].isCheckedIn)
      && (forall j :: 0 <= j < |st.attendees| ==>
            r.attendees[j] == st.attendees[j] ||
            (r.attendees[j] == st.attendees[j].(isCheckedIn := true) &&
             st.attendees[j].attendeeId == attendeeId && st.attendees[j].eventIdRegisteredFor == eventId))
      && (out.CheckedIn? <==>
            FindEventById(st.events, eventId).Some? && FindAttendeeInMasterList(st.attendees, attendeeId).Some? &&
            st.attendees[FindAttendeeInMasterList(st.attendees, attendeeId).value].eventIdRegisteredFor == eventId)
      && (out.CheckedIn? ==>
            var ai := FindAttendeeInMasterList(st.attendees, attendeeId).value;
            r.attendees[ai].isCheckedIn && out.changed == !st.attendees[ai].isCheckedIn)
      && (!out.CheckedIn? ==> r == st)
  {
  }

  /** Checking in a second time changes nothing and says so. */
  lemma CheckInTwice(st: State, eventId: int, attendeeId: int)
    requires CheckInAttendeeForEvent(st, eventId, attendeeId).1.CheckedIn?
    ensures var r := CheckInAttendeeForEvent(st, eventId, attendeeId).0;
      CheckInAttendeeForEvent(r, eventId, attendeeId) == (r, CheckedIn(false))
  {
    var r := CheckInAttendeeForEvent(st, eventId, attendeeId).0;
    var ai := FindAttendeeInMasterList(st.attendees, attendeeId).value;
    assert r.attendees == st.attendees[ai := st.attendees[ai].(isCheckedIn := true)];
    assert forall j :: 0 <= j < ai ==> r.attendees[j] == st.attendees[j];
    FirstIs(r.attendees, (a: AttendeeData) => a.attendeeId == attendeeId, ai);
    assert r.events == st.events;
    assert CheckInRecord(r.attendees[ai]) == (r.attendees[ai], false);
    assert r.attendees[ai := r.attendees[ai]] == r.attendees;
  }

  // ---------------------------------------------------------------------
  // Contact update
  // ---------------------------------------------------------------------

  /** The contact update changes only attendee records, and only in their
      contact: up to the user's generic profile every record of the user
      gets the new contact, and a new generic profile is added exactly when
      there was none. */
  lemma UpdateContactRecords(st: State, current: Option<UserData>, contact: string)
    requires IsRegularUser(current)
    ensures var (r, out) := UpdateContactInfo(st, current, contact);
      var uname := current.value.username;
      && r == st.(attendees := r.attendees, nextAttendeeId := r.nextAttendeeId)
      && (out.Created? <==> FindProfile(st.attendees, uname, 0).None?)
      && |r.attendees| == |st.attendees| + (if out.Created? then 1 else 0)
      && (forall j :: 0 <= j < |st.attendees| ==>
            r.attendees[j] == st.attendees[j] ||
            (NameMatches(st.attendees[j], uname) && r.attendees[j] == st.attendees[j].(contactInfo := contact)))
      && (out.Created? ==> r.attendees[|st.attendees|] == AttendeeData(out.id, uname, contact, 0, false))
  {
  }

  /** Afterwards the user's generic profile (the one found, or the new one)
      holds the new contact, and so does every record of the user before
      it. */
  lemma UpdateContactProfile(st: State, current: Option<UserData>, contact: string)
    requires IsRegularUser(current)
    ensures var r := UpdateContactInfo(st, current, contact).0;
      var uname := current.value.username;
      && FindProfile(r.attendees, uname, 0).Some?
      && (var g := FindProfile(r.attendees, uname, 0).value;
          && r.attendees[g].contactInfo == contact
          && forall j :: 0 <= j < g && NameMatches(r.attendees[j], uname) ==> r.attendees[j].contactInfo == contact)
  {
    var uname := current.value.username;
    var (atts, found) := UpdateUntilProfile(st.attendees, uname, contact);
    var r := UpdateContactInfo(st, current, contact).0;
    if found.Some? {
      assert r.attendees == atts[found.value := atts[found.value].(contactInfo := contact)];
    } else {
      assert r.attendees == atts + [AttendeeData(st.nextAttendeeId, uname, contact, 0, false)];
    }
    ProfileAfterSearch(st.attendees, uname, contact, st.nextAttendeeId);
  }

  /** The search-and-update of the contact update, on the attendee list. */
  lemma ProfileAfterSearch(atts: seq<AttendeeData>, uname: string, contact: string, newId: int)
    ensures var (u, found) := UpdateUntilProfile(atts, uname, contact);
      var r := if found.Some? then u[found.value := u[found.value].(contactInfo := contact)]
               else u + [AttendeeData(newId, uname, contact, 0, false)];
      && FindProfile(r, uname, 0).Some?
      && (var g := FindProfile(r, uname, 0).value;
          && r[g].contactInfo == contact
          && forall j :: 0 <= j < g && NameMatches(r[j], uname) ==> r[j].contactInfo == contact)
  {
    var (u, found) := UpdateUntilProfile(atts, uname, contact);
    var g := if found.Some? then found.value else |atts|;
    var r := if found.Some? then u[g := u[g].(contactInfo := contact)]
             else u + [AttendeeData(newId, uname, contact, 0, false)];
    assert forall j :: 0 <= j < g ==> r[j] == u[j];
    ProfileKept(atts, r, uname, g);
    ProfileAt(r, uname, contact, g);
  }

  /** A generic profile with the contact, preceded by no other generic
      profile of the user and only records of the user with the contact. */
  lemma ProfileAt(r: seq<AttendeeData>, uname: string, contact: string, g: nat)
    requires g < |r| && NameMatches(r[g], uname) && r[g].eventIdRegisteredFor == 0 && r[g].contactInfo == contact
    requires forall j :: 0 <= j < g ==> !(NameMatches(r[j], uname) && r[j].eventIdRegisteredFor == 0)
    requires forall j :: 0 <= j < g && NameMatches(r[j], uname) ==> r[j].contactInfo == contact
    ensures FindProfile(r, uname, 0) == Some(g)
  {
    FirstIs(r, (a: AttendeeData) => NameMatches(a, uname) && a.eventIdRegisteredFor == 0, g);
  }

  /** Records that keep their names and events keep the profile search. */
  lemma ProfileKept(atts: seq<AttendeeData>, r: seq<AttendeeData>, uname: string, g: nat)
    requires g <= |atts| && g <= |r|
    requires forall j :: 0 <= j < g ==> r[j].name == atts[j].name && r[j].eventIdRegisteredFor == atts[j].eventIdRegisteredFor
    requires forall j :: 0 <= j < g ==> !(NameMatches(atts[j], uname) && atts[j].eventIdRegisteredFor == 0)
    ensures forall j :: 0 <= j < g ==> !(NameMatches(r[j], uname) && r[j].eventIdRegisteredFor == 0)
  {
  }

  /** The contact update keeps the counters beyond the ids, and a new
      generic profile takes an id no record has. */
  lemma UpdateContactKeepsCounters(st: State, current: Option<UserData>, contact: string)
    requires CountersAbove(st)
    ensures var (r, out) := UpdateContactInfo(st, current, contact);
      && CountersAbove(r)
      && (out.Created? ==> forall j :: 0 <= j < |st.attendees| ==> st.attendees[j].attendeeId != out.id)
  {
    if IsRegularUser(current) {
      var (r, out) := UpdateContactInfo(st, current, contact);
      var (atts, found) := UpdateUntilProfile(st.attendees, current.value.username, contact);
      assert forall j :: 0 <= j < |st.attendees| ==> atts[j].attendeeId == st.attendees[j].attendeeId;
      CountersAfterChange(st, r);
    }
  }
}
