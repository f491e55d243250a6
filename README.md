# Event manager record layer, modelled in Dafny

This project models the in-memory record layer of a console event and
inventory manager written in C++ (`final-project-group8-inteprog.cpp`).
The model covers four things:

- the quantity pools of inventory items and the per-event allocation maps;
- attendee registration, cancellation, check-in and contact updates;
- user accounts;
- the comma-separated line format in which users, attendees, inventory
  items and events are stored, one record per line.

Each Dafny `char` stands for one byte of a `std::string`, so string
lengths (the password length test, the date and time formats) are byte
counts, and `toLower`, the whitespace test and `stoi` act byte by byte.

## Layout

| file | module | what it holds |
|---|---|---|
| `wrappers.dfy` | `Wrappers` | `Option`, used for lookups and for decoders that reject a line |
| `sequences.dfy` | `Sequences` | the two vector idioms the program uses: a linear search for the first match (`First`), and `erase(remove_if(...))` (`Filter`, `EraseRemoveIf`) |
| `text.dfy` | `Text` | `toLower`, the parser `std::stoi`, the printer `ss << n`, and the validators `isValidDate` / `isValidTime` |
| `streams.dfy` | `Streams` | a `std::stringstream` over one line: a read position plus the eof and fail bits, with `getline`, `peek` and the `while (getline(...))` splitting loop |
| `records.dfy` | `Records` | the enumerations, one record value per entity, and the operations of `InventoryItem`, `Attendee` and `Event` as functions on those values |
| `entities.dfy` | `Entities` | `InventoryItem`, `Attendee` and `Event` as classes whose methods change their fields in place, each proved to act as the matching `Records` function |
| `codec.dfy` | `Codec` | `toString` / `fromString` of the four entities, with the decoders written out read by read over the stream model |
| `bookkeeping.dfy` | `Bookkeeping` | the whole system state as a value, and each in-scope `System` operation as a function from the old state to the new state and what it reports |
| `system.dfy` | `Manager` | the `System` class: four vectors and the four next-id counters, with methods and loops proved to follow the `Bookkeeping` functions |
| `allocation.dfy` | `Allocation` | reconciliation, and the allocate, deallocate and delete operations keeping every item's allocated quantity equal to what the events hold |
| `properties.dfy` | `Properties` | what `loadData`, the account operations, registration, cancellation, check-in and the contact update promise |

Console input becomes parameters. The logged-in user becomes a parameter
`current: Option<UserData>`. The class-static next-id counters become fields
of `System`. Files become sequences of lines.

Events, items and attendees live in `std::vector`s of values. The program
changes one of them in place through a pointer into its vector. The
`System` model writes a new value at that index instead. The classes in
`Entities` show the same member functions acting on their own fields.

## How the decoders behave

The decoders read a line the way the C++ code does. A `getline` whose
stream is already failed leaves its target string as it was. So the
attendee line `5,Bob` decodes its event id from the text of the id field
(`Codec.AttendeeShortLine`). A malformed attendee or inventory line gives
the `ERROR` record, and loading still adds that record to the store.

`Event::fromString` has two more ways to fail. When the id or the status is
not a number, its handler builds `Event(0, "ERROR", ...)`. That call binds
to the six-string constructor and passes `0` as a null `const char*`, so
it throws again from inside the handler. A non-numeric attendee id reaches
a `stoi` that no `try` surrounds. Both are modelled as `None`. `loadData`
stops there and reports `false`.

In an allocation entry `k:v`, the value is converted before the key (C++17
sequencing of `=`). So an entry where either side is not a number inserts
nothing.

## Model

| member | source | states |
|---|---|---|
| `Text.ToLower` | final-project-group8-inteprog.cpp:31-35 | keeps the length; each character is mapped by C-locale `tolower`, so only `A`..`Z` change |
| `Text.ToLowerIdempotent` | final-project-group8-inteprog.cpp:31-35 | lower-casing twice equals lower-casing once, so the case-insensitive name match is an equivalence |
| `Text.Stoi` | final-project-group8-inteprog.cpp:729 | a parse that succeeds gives a 32-bit value and needs at least one digit in the text |
| `Text.StoiOfNumeral` | final-project-group8-inteprog.cpp:716-729 | parsing what `ss << n` wrote gives `n` back, whatever non-digit text follows it |
| `Text.StoiOfDigits` | final-project-group8-inteprog.cpp:85-87 | on a plain run of digits that fits in an int, `stoi` gives its decimal value |
| `Text.StoiWithoutDigits` | final-project-group8-inteprog.cpp:729 | `stoi` fails on any text without a digit, such as "", "ERROR" or "-" |
| `Text.DigitDateValidity` | final-project-group8-inteprog.cpp:81-97 | for a `YYYY-MM-DD` date written in digits: valid iff year is in [1900,2100], month in [1,12] and day in [1,31] |
| `Text.DateOfFields` | final-project-group8-inteprog.cpp:81-97 | for any length-10 date with `-` at 4 and 7 whose three fields convert: valid iff the three ranges hold |
| `Text.NoMonthLengthCheck` | final-project-group8-inteprog.cpp:89-91 | "2025-02-31" is valid: there is no month-length check |
| `Text.DateFieldMayEndInJunk` | final-project-group8-inteprog.cpp:82-91 | "2025-1x-05" is valid, because `stoi` stops at the first non-digit |
| `Text.DigitTimeValidity` | final-project-group8-inteprog.cpp:99-111 | for an `HH:MM` time written in digits: valid iff hour is in [0,23] and minute in [0,59] |
| `Text.TimeFieldsMayBeSignedOrEndInJunk` | final-project-group8-inteprog.cpp:100-106 | "9a:+5" is a valid time: a sign and trailing junk both pass `stoi` |
| `Streams.GetLineSplits` | final-project-group8-inteprog.cpp:729 | on a good stream, `getline` splits the rest into the piece (which holds no delimiter), the consumed delimiter unless the end was reached, and what is left |
| `Streams.Peek` | final-project-group8-inteprog.cpp:901 | `peek` yields a character iff the stream is good and not at the end; it then consumes nothing |
| `Streams.SegmentsOfJoin` | final-project-group8-inteprog.cpp:926-929 | the `while (getline(ss, x, ';'))` loop gives back the non-empty, separator-free pieces a list was joined from |
| `Records.StatusCodeRoundTrip` | final-project-group8-inteprog.cpp:879-899 | writing a status as its ordinal and casting the number back gives the same status |
| `Records.AllocateItem` | final-project-group8-inteprog.cpp:753-761 | succeeds iff 0 < q <= total - allocated; on success adds exactly q to allocated; nothing else changes, and a failure changes nothing |
| `Records.DeallocateItem` | final-project-group8-inteprog.cpp:762-770 | succeeds iff 0 < q <= allocated; on success subtracts exactly q; nothing else changes, and a failure changes nothing |
| `Records.SetTotalQuantity` | final-project-group8-inteprog.cpp:771-779 | the total becomes n unless n < 0 or n < allocated, in which case the item is unchanged; no other field changes |
| `Records.QuantityOpsKeepBounds` | final-project-group8-inteprog.cpp:752-779 | allocate, deallocate and setTotalQuantity all preserve 0 <= allocated <= total |
| `Records.DeallocateUndoesAllocate` | final-project-group8-inteprog.cpp:753-770 | deallocating what was just allocated succeeds and restores the item |
| `Records.CheckInRecord` | final-project-group8-inteprog.cpp:701-708 | the flag is true afterwards, the result says whether it was false before, and no other field changes |
| `Records.CheckInIdempotent` | final-project-group8-inteprog.cpp:701-708 | checking in a checked-in attendee changes nothing and reports "already checked in" |
| `Records.AddId` | final-project-group8-inteprog.cpp:823-829 | afterwards the id is in the list; a present id leaves the list as it was; an absent one is appended with the old list as prefix; no duplicates are introduced |
| `Records.RemoveFirst` | final-project-group8-inteprog.cpp:830-835 | removes the first occurrence of the id and keeps the others in order; an absent id changes nothing; in a duplicate-free list the id is gone |
| `Records.RemoveAfterAdd` | final-project-group8-inteprog.cpp:823-835 | removing a newly added id gives back the original list |
| `Records.AllocateEntry` | final-project-group8-inteprog.cpp:836-838 | a positive q adds q to the item's entry (creating it from 0); any other q changes nothing; other entries are unchanged |
| `Records.DeallocateEntry` | final-project-group8-inteprog.cpp:839-852 | returns 0 and changes nothing when q <= 0 or the id is absent; otherwise returns min(current, q), lowers the entry by it, and erases the entry exactly when it reaches 0 or less; other entries are unchanged |
| `Records.EntriesStayPositive` | final-project-group8-inteprog.cpp:836-852 | when every entry is positive, both map operations keep every entry positive, so no zero entry is created |
| `Records.DeallocateAfterAllocate` | final-project-group8-inteprog.cpp:836-852 | deallocating a fresh allocation of q returns q and restores the map |
| `Records.SortedKeys` | final-project-group8-inteprog.cpp:869-877 | a range `for` over a `std::map` visits exactly its keys, in strictly ascending order |
| `Entities.InventoryItem.AvailableQuantity` | final-project-group8-inteprog.cpp:752 | total minus allocated |
| `Entities.InventoryItem.Allocate` | final-project-group8-inteprog.cpp:753-761 | changes the item's fields exactly as `Records.AllocateItem` does and returns its success flag |
| `Entities.InventoryItem.Deallocate` | final-project-group8-inteprog.cpp:762-770 | changes the item's fields exactly as `Records.DeallocateItem` does and returns its success flag |
| `Entities.InventoryItem.SetTotal` | final-project-group8-inteprog.cpp:771-779 | changes the item's fields exactly as `Records.SetTotalQuantity` does |
| `Entities.Attendee.CheckIn` | final-project-group8-inteprog.cpp:701-708 | changes the attendee exactly as `Records.CheckInRecord` does |
| `Entities.Attendee.SetContact` | final-project-group8-inteprog.cpp:1388 | replaces the contact and nothing else |
| `Entities.Event.FindAttendee` | final-project-group8-inteprog.cpp:824 | `std::find`: the first position of the id, or the length when it is absent |
| `Entities.Event.AddAttendee` | final-project-group8-inteprog.cpp:823-829 | the attendee list becomes `Records.AddId` of the old list; nothing else changes |
| `Entities.Event.RemoveAttendee` | final-project-group8-inteprog.cpp:830-835 | the attendee list becomes `Records.RemoveFirst` of the old list; nothing else changes |
| `Entities.Event.AllocateInventoryItem` | final-project-group8-inteprog.cpp:836-838 | the allocation map becomes `Records.AllocateEntry` of the old map; nothing else changes |
| `Entities.Event.DeallocateInventoryItem` | final-project-group8-inteprog.cpp:839-852 | the map and the returned amount are those of `Records.DeallocateEntry`; nothing else changes |
| `Codec.UserFromString` | final-project-group8-inteprog.cpp:658-686 | a line with fewer than three commas is refused; an accepted user has role Admin or RegularUser and a 32-bit id |
| `Codec.UserRoundTrip` | final-project-group8-inteprog.cpp:658-686 | a user whose name and password hold no comma reads back from its `toString` line as itself, except that role NONE reads back as no user |
| `Codec.AttendeeFromString` | final-project-group8-inteprog.cpp:721-739 | the result is the ERROR record or has 32-bit ids |
| `Codec.AttendeeRoundTrip` | final-project-group8-inteprog.cpp:716-739 | an attendee whose name and contact hold no comma reads back from its line as itself, every field included |
| `Codec.AttendeeWithoutNumericId` | final-project-group8-inteprog.cpp:729-736 | a line whose first field holds no digit decodes to `Attendee(0, "ERROR", "ERROR", 0, false)` |
| `Codec.AttendeeShortLine` | final-project-group8-inteprog.cpp:728-733 | "5,Bob" decodes to id 5, name Bob, empty contact and event id 5, because the failed read keeps the id text |
| `Codec.ItemFromString` | final-project-group8-inteprog.cpp:792-807 | the result is the ERROR item or has 32-bit numbers |
| `Codec.ItemRoundTrip` | final-project-group8-inteprog.cpp:787-807 | an item whose name holds no comma reads back as itself; its description may hold commas but no newline, since it is read up to the end of the line |
| `Codec.ItemWithoutNumericId` | final-project-group8-inteprog.cpp:797-804 | a line whose first field holds no digit decodes to `InventoryItem(0, "ERROR", 0, 0, "ERROR")` |
| `Codec.AttendeesRoundTrip` | final-project-group8-inteprog.cpp:924-930 | the `;`-joined attendee field is split back into the same ids in the same order |
| `Codec.InventoryRoundTrip` | final-project-group8-inteprog.cpp:931-948 | the `;`-joined `id:qty` field is read back as the same map |
| `Codec.InventoryReadAsAttendees` | final-project-group8-inteprog.cpp:924-930 | read through the attendee loop, a non-empty allocation field yields its item ids in ascending order |
| `Codec.AddPairSplits` | final-project-group8-inteprog.cpp:936-944 | an entry is split at its first colon; it sets key to value only when both sides convert, and otherwise inserts nothing |
| `Codec.EventHeadOf` | final-project-group8-inteprog.cpp:891-899 | on a written event line the eight leading fields read back and leave the attendee and inventory texts, with the comma between them |
| `Codec.EventWithAttendeesLosesThem` | final-project-group8-inteprog.cpp:901-916 | an event with attendees reads back with no attendees, and its inventory is parsed from both list fields joined by the comma |
| `Codec.EventWithOnlyInventoryMovesIt` | final-project-group8-inteprog.cpp:901-916 | an event with no attendees but with allocations reads back with the item ids as its attendee ids and an empty map |
| `Codec.EventWithEmptyListsReadsBack` | final-project-group8-inteprog.cpp:879-916 | an event with both lists empty reads back as itself |
| `Codec.EventRoundTripOnlyWhenListsEmpty` | final-project-group8-inteprog.cpp:899-916 | a storable event reads back as itself iff both of its lists are empty |
| `Codec.EventFixedRoundTrip` | final-project-group8-inteprog.cpp:879-950 | the corrected decoder reads every storable event back as itself |
| `Bookkeeping.InitNextId` | final-project-group8-inteprog.cpp:141 | the counter ends up above the id and never goes down; it moves to id + 1 only when it was not already above it |
| `Bookkeeping.MaxId` | final-project-group8-inteprog.cpp:1053-1056 | the `maxId` loop gives a value >= 0 and >= every id, equal to 0 or to one of the ids |
| `Bookkeeping.RemoveIf` | final-project-group8-inteprog.cpp:1288-1290 | after `remove_if` the kept events come first, in order; each slot after them holds its old event, or that event's moved-from shell when the event was moved forward |
| `Sequences.First` | final-project-group8-inteprog.cpp:1216 | the `find*` loops: the position of the first element that passes the test, none passing before it; none exactly when no element passes |
| `Sequences.Filter` | final-project-group8-inteprog.cpp:1301-1302 | `erase(remove_if(...))` never grows the vector |
| `Sequences.FilterMembers` | final-project-group8-inteprog.cpp:1301-1302 | `erase(remove_if(...))` keeps every element that passes the test and only such elements |
| `Sequences.FilterKeepsAll` | final-project-group8-inteprog.cpp:1182-1194 | the removal leaves the vector as it was, and its length the same, exactly when every element passes; this is how "not found" is detected |
| `Sequences.EraseRemoveIf` | final-project-group8-inteprog.cpp:1301-1302 | the removal loop computes `Sequences.Filter` |
| `Manager.MaxOf` | final-project-group8-inteprog.cpp:1054 | the loop computes `Bookkeeping.MaxId` |
| `Manager.RemoveEvents` | final-project-group8-inteprog.cpp:1288-1290 | the search and move phases of `remove_if` leave the vector as `Bookkeeping.RemoveIf` and return the new logical end |
| `Manager.System.FindUserByUsername` | final-project-group8-inteprog.cpp:1196-1198 | returns the first user with the name, or none |
| `Manager.System.FindEventById` | final-project-group8-inteprog.cpp:1216 | returns the first event with the id, or none |
| `Manager.System.FindInventoryItemById` | final-project-group8-inteprog.cpp:1551-1553 | returns the first item with the id, or none |
| `Manager.System.FindAttendeeInMasterList` | final-project-group8-inteprog.cpp:1338-1343 | returns the first attendee with the id, or none |
| `Manager.System.FindProfile` | final-project-group8-inteprog.cpp:1377-1382 | returns the first attendee whose lower-cased name matches and who is tied to the event id, or none |
| `Manager.System.LoadUsers` | final-project-group8-inteprog.cpp:1079-1089 | appends each decoded non-empty line, skips rejected lines, and moves the counter past each loaded id |
| `Manager.System.LoadEvents` | final-project-group8-inteprog.cpp:1099-1106 | appends each decoded non-empty line and moves the counter past its id; a line that ends the program stops the load |
| `Manager.System.LoadInventory` | final-project-group8-inteprog.cpp:1116-1123 | appends each decoded non-empty line, the ERROR item included, and moves the counter past its id |
| `Manager.System.LoadAttendees` | final-project-group8-inteprog.cpp:1133-1140 | appends each decoded non-empty line, the ERROR attendee included, and moves the counter past its id |
| `Manager.System.SeedIds` | final-project-group8-inteprog.cpp:1053-1056 | each counter is moved past the largest loaded id of its kind |
| `Manager.System.ZeroAllocatedQuantities` | final-project-group8-inteprog.cpp:1059-1061 | every item's allocated quantity becomes 0 and nothing else changes |
| `Manager.System.AddAllocations` | final-project-group8-inteprog.cpp:1063-1068 | each entry of one event's map, in key order, is added to the item found by its id |
| `Manager.System.Reconcile` | final-project-group8-inteprog.cpp:1058-1069 | the inventory becomes `Bookkeeping.Reconcile` of the old inventory and the events |
| `Manager.System.LoadData` | final-project-group8-inteprog.cpp:1050-1070 | the four loads, the id seeding and the reconciliation, in the program's order |
| `Manager.System.CreateUserAccount` | final-project-group8-inteprog.cpp:1154-1162 | refuses a taken name, a password shorter than 6 bytes and role NONE; otherwise appends the account with the next user id |
| `Manager.System.DeleteUserAccount` | final-project-group8-inteprog.cpp:1175-1195 | refuses the logged-in user's own name; otherwise removes every account with the name, or reports that none exists |
| `Manager.System.GiveBackAllocations` | final-project-group8-inteprog.cpp:1294-1299 | deallocates each entry of a map, in key order, from the item found by its id |
| `Manager.System.DeleteEvent` | final-project-group8-inteprog.cpp:1286-1311 | removes every event with the id, gives back the map held in the slot at the new logical end, and erases the attendee records tied to the id |
| `Manager.System.RegisterAttendeeForEvent` | final-project-group8-inteprog.cpp:1351-1406 | regular users only, open events only; uses the event-specific record, else the generic profile (updating its contact), else a new record; then adds the id to the event |
| `Manager.System.CancelOwnRegistration` | final-project-group8-inteprog.cpp:1411-1444 | removes the user's record for the event from the event's list and from the attendee store |
| `Manager.System.CheckInAttendeeForEvent` | final-project-group8-inteprog.cpp:1469-1485 | checks in the attendee found by id when the event exists and the attendee is tied to it |
| `Manager.System.UpdateUntilProfileLoop` | final-project-group8-inteprog.cpp:1787-1798 | the search loop returns the position of the user's first generic profile (none when there is none); every record with the user's name before it, all of them when there is none, gets the new contact, and the rest stay as they were |
| `Manager.System.UpdateCurrentLoggedInUserContactInfo` | final-project-group8-inteprog.cpp:1776-1809 | after the loop, the generic profile gets the contact, or a new generic profile is created with it |
| `Manager.System.AllocateToEvent` | final-project-group8-inteprog.cpp:1602-1629 | the item must exist and accept the quantity; only then does the event record it |
| `Manager.System.DeallocateFromEvent` | final-project-group8-inteprog.cpp:1630-1653 | the event must hold the item; it gives back at most what it holds; a positive amount is deallocated from the item |
| `Allocation.ReconcileEstablishes` | final-project-group8-inteprog.cpp:1058-1069 | after reconciliation, the item the id lookup finds holds the sum of that id's entries over all events; a shadowed duplicate holds 0; nothing else changes |
| `Allocation.AllocateKeepsReconciled` | final-project-group8-inteprog.cpp:1602-1629 | succeeds iff event and item exist and 0 < q <= available; a failure changes nothing; reconciliation and positive entries are preserved |
| `Allocation.DeallocateKeepsReconciled` | final-project-group8-inteprog.cpp:1630-1653 | preserves reconciliation and positive entries; an amount given back is positive and at most q, and any other outcome changes nothing; "nothing deallocated" is reported exactly when event and item exist, the event holds the item and q <= 0 |
| `Allocation.DeleteLastAgrees` | final-project-group8-inteprog.cpp:1288-1299 | when the deleted event is the only one with its id and is last in the vector, `deleteEvent` gives back exactly its allocations |
| `Allocation.DeleteLastKeepsReconciled` | final-project-group8-inteprog.cpp:1286-1311 | hence deleting the last event keeps every item reconciled |
| `Allocation.DeleteEarlierReturnsNothing` | final-project-group8-inteprog.cpp:1288-1299 | deleting the only event with its id when another event follows it removes just that event and leaves the inventory as it was |
| `Allocation.UnreturnedAllocationBreaksReconciled` | final-project-group8-inteprog.cpp:1292-1299 | removing an event that holds an allocation of an existing item, without giving it back, leaves the items unreconciled |
| `Allocation.DeleteEarlierEventKeepsAllocation` | final-project-group8-inteprog.cpp:1292-1299 | hence deleting such an event when another follows it gives nothing back and leaves the items unreconciled |
| `Allocation.DeleteFixedKeepsReconciled` | final-project-group8-inteprog.cpp:1286-1311 | deleting with every removed event's allocations given back keeps every item reconciled and every entry positive |
| `Allocation.DeleteFixedReturnsAllocation` | final-project-group8-inteprog.cpp:1292-1299 | that corrected delete lowers each item by exactly what the deleted event held of it |
| `Properties.SeedIdsAbove` | final-project-group8-inteprog.cpp:1053-1056 | after seeding, every counter is above every loaded id of its kind |
| `Properties.LoadDataEstablishes` | final-project-group8-inteprog.cpp:1050-1070 | a completed load leaves every counter above every loaded id and every item holding what the events hold of it |
| `Properties.CreateAccountRules` | final-project-group8-inteprog.cpp:1154-1162 | an account is created iff the name is free, the password has >= 6 bytes and the role is not NONE; usernames stay unique; the new id is fresh; a refusal changes nothing |
| `Properties.DeleteEventRules` | final-project-group8-inteprog.cpp:1286-1311 | "not found" exactly when no event has the id, and then nothing changes; on success users and counters are kept, no event or attendee record with the id remains, and every event and attendee record without it stays |
| `Properties.DeleteAccountRules` | final-project-group8-inteprog.cpp:1175-1195 | refused exactly for one's own name; "not found" exactly when no account has the name; only accounts with the name go and all others stay |
| `Properties.RegisterClosedChangesNothing` | final-project-group8-inteprog.cpp:1363-1366 | registering for a CANCELED or COMPLETED event changes nothing |
| `Properties.RegisterOutcome` | final-project-group8-inteprog.cpp:1351-1366 | registration succeeds iff the user is a regular user and the event exists and is open; otherwise nothing changes |
| `Properties.RegisterAddsId` | final-project-group8-inteprog.cpp:1375-1405 | afterwards the event's list holds its old ids plus the chosen id and nothing else, and stays duplicate-free; no other event and no other field of the event changes; the id belongs to a record in the user's name |
| `Properties.RegisterKeepsCounters` | final-project-group8-inteprog.cpp:1399-1403 | registration keeps the counters above all ids, and a new record takes an id no record had |
| `Properties.CancelRules` | final-project-group8-inteprog.cpp:1411-1444 | cancelling succeeds iff the user is a regular user, the event exists and the user's first record tied to it has an id other than -1; then the first occurrence of the id leaves the event's list, every record with the id goes, all other records and events stay; otherwise nothing changes |
| `Properties.ProfileRegistrationCannotBeCanceled` | final-project-group8-inteprog.cpp:1384-1433 | a registration made through the generic profile cannot be cancelled: the profile stays tied to event 0 |
| `Properties.CancelUndoesNewRegistration` | final-project-group8-inteprog.cpp:1399-1437 | cancelling a registration that created a record restores the state, except the attendee counter |
| `Properties.CheckInRules` | final-project-group8-inteprog.cpp:1469-1485 | check-in changes only the record found by id, and only when the event exists and the record is tied to it; it sets the flag and never clears one |
| `Properties.CheckInTwice` | final-project-group8-inteprog.cpp:1479-1480 | a second check-in changes nothing and reports "already checked in" |
| `Properties.UpdateContactRecords` | final-project-group8-inteprog.cpp:1776-1809 | only attendee contacts of the user change; a new generic profile is added iff there was none |
| `Properties.UpdateContactProfile` | final-project-group8-inteprog.cpp:1786-1807 | afterwards the user's generic profile, and every record of the user before it, holds the new contact |
| `Properties.UpdateContactKeepsCounters` | final-project-group8-inteprog.cpp:1806 | the contact update keeps the counters above all ids, and a new profile takes a fresh id |

## Left out

- Console input and menus are not modelled: `getStringInput`, `getIntInput`, `getPositiveIntInput`, every `display*` and `*Menu`, `run`, `login`, `logout`, `searchEventsByNameOrDate`, `listAllUsers` and the `viewAll*` listings. The values they would read are parameters.
- Report printing is not modelled: `generateFullInventoryReport`, `generateAttendanceReportForEvent` (which uses a floating-point percentage) and `exportAttendeeListForEventToFile`.
- File access is not modelled: opening, reading, saving, the `export*` functions and `TextExportStrategy`. Loading is modelled as decoding a sequence of lines per file; a missing file is an empty sequence.
- Not modelled: the singleton (`getInstance`, `destroyInstance`), the `Admin` / `RegularUser` subclasses and `delete u`. A user is a value with a role tag.
- `seedInitialData` is not modelled; it only calls constructors and saves.
- The admin edit operations are not modelled (`createEvent`, `editEventDetails`, `updateEventStatus`, `addInventoryItem`, `updateInventoryItemDetails`, `publicRegisterNewUser`, `setPassword`). They only assign fields from console input. The `setTotalQuantity` call they make is modelled.
- Integer fields are unbounded. `stoi` refuses values outside the 32-bit range, as the C++ does, but no 32-bit wrap-around is modelled for `+=` / `-=` on quantities or for the sums in reconciliation.
- `Manager.System.DeleteEvent`: the map it gives back follows libstdc++, where a moved-from `std::map` is empty. The C++ standard leaves a moved-from map valid but unspecified.
- `Manager.System.LoadEvents`: an event line that ends the program ends the load, and nothing after it is modelled.
- Streams: only the eof and fail bits are modelled. The bad bit is left out, because a string stream never sets it.
- `Text.ToLower`: only the "C" locale is modelled, where `tolower` changes `A`..`Z` and nothing else.

## Findings

| source | as written | input that shows it | evidently intended | confidence | as-written member | corrected member |
|---|---|---|---|---|---|---|
| final-project-group8-inteprog.cpp:901-916 | the status read has already consumed the comma after the status, yet the decoder reads an attendee field only when the next character is another comma, that is, only when the attendee field is empty; otherwise the whole rest of the line becomes the allocation text | an event with attendee ids [7] and no allocations is written as `...,0,7,` and reads back with no attendees; an event with no attendees and allocation {5: 4} is written as `...,0,,5:4` and reads back with attendee id 5 and no allocations | read the attendee field up to the next comma, then the rest of the line as the allocation field | high (not executed) | `Codec.EventRoundTripOnlyWhenListsEmpty` | `Codec.EventFixedRoundTrip` |
| final-project-group8-inteprog.cpp:1292-1299 | after `remove_if`, the allocations are taken from the element at the new logical end; when a kept event follows the deleted one, that element is a moved-from kept event | events 1 then 2, event 1 holding 4 of item 5; deleting event 1 gives nothing back, and item 5 stays allocated 4 | give back the allocations of the deleted event | medium (not executed; libstdc++ moved-from map is empty) | `Allocation.DeleteEarlierEventKeepsAllocation` | `Allocation.DeleteFixedKeepsReconciled` |

`Manager.System.LoadData` keeps the decoder as written, because that is
what the program does. What is proved about `loadData` (counters above all
ids, items reconciled) holds for either decoder. The corrected
`deleteEvent` is `Bookkeeping.DeleteEventFixed`. `Allocation.DeleteLastAgrees`
shows that it agrees with the code as written whenever the deleted event is
the last one in the vector.
