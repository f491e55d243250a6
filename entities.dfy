/** The three entities whose fields the program updates in place: an
    inventory item, an attendee and an event. Each class shows its state as
    a record (`Data()`), and each method is proved to change that record
    exactly as the matching value operation of `Records` does. */
module Entities {
  import opened Records

  class InventoryItem {
    const itemId: int
    var name: string
    var totalQuantity: int
    var allocatedQuantity: int
    var description: string

    /** `InventoryItem(id, n, totalQty, allocQty, desc)`; the update of the
        next-id counter is done by the owner of the counters. */
    constructor (d: ItemData)
      ensures Data() == d
    {
      itemId := d.itemId;
      name := d.name;
      totalQuantity := d.totalQuantity;
      allocatedQuantity := d.allocatedQuantity;
      description := d.description;
    }

    function Data(): ItemData
      reads this
    {
      ItemData(itemId, name, totalQuantity, allocatedQuantity, description)
    }

    /** `getAvailableQuantity`. */
    function AvailableQuantity(): (n: int)
      reads this
      ensures n == Data().Available()
    {
      totalQuantity - allocatedQuantity
    }

    method Allocate(q: int) returns (ok: bool)
      modifies this
      ensures (Data(), ok) == AllocateItem(old(Data()), q)
    {
      if q <= 0 {
        return false;
      }
      if q <= AvailableQuantity() {
        allocatedQuantity := allocatedQuantity + q;
        return true;
      }
      return false;
    }

    method Deallocate(q: int) returns (ok: bool)
      modifies this
      ensures (Data(), ok) == DeallocateItem(old(Data()), q)
    {
      if q <= 0 {
        return false;
      }
      if q <= allocatedQuantity {
        allocatedQuantity := allocatedQuantity - q;
        return true;
      }
      return false;
    }

    method SetTotal(n: int)
      modifies this
      ensures Data() == SetTotalQuantity(old(Data()), n)
    {
      if n < 0 {
        return;
      }
      if n < allocatedQuantity {
        return;
      }
      totalQuantity := n;
    }
  }

  class Attendee {
    const attendeeId: int
    var name: string
    var contactInfo: string
    var eventIdRegisteredFor: int
    var isCheckedIn: bool

    /** `Attendee(id, n, contact, eventId, checkedInStatus)`. */
    constructor (d: AttendeeData)
      ensures Data() == d
    {
      attendeeId := d.attendeeId;
      name := d.name;
      contactInfo := d.contactInfo;
      eventIdRegisteredFor := d.eventIdRegisteredFor;
      isCheckedIn := d.isCheckedIn;
    }

    function Data(): AttendeeData
      reads this
    {
      AttendeeData(attendeeId, name, contactInfo, eventIdRegisteredFor, isCheckedIn)
    }

    /** `checkIn`; the result tells which of its two messages is printed. */
    method CheckIn() returns (changed: bool)
      modifies this
      ensures (Data(), changed) == CheckInRecord(old(Data()))
    {
      if !isCheckedIn {
        isCheckedIn := true;
        return true;
      }
      return false;
    }

    method SetContact(contact: string)
      modifies this
      ensures Data() == old(Data()).(contactInfo := contact)
    {
      contactInfo := contact;
    }
  }

  class Event {
    const eventId: int
    var name: string
    var date: string
    var time: string
    var location: string
    var description: string
    var category: string
    var status: EventStatus
    var attendeeIds: seq<int>
    var allocatedInventory: map<int, int>

    /** The eight-argument constructor, followed by the assignment of the
        two lists that `Event::fromString` makes. */
    constructor (d: EventData)
      ensures Data() == d
    {
      eventId := d.eventId;
      name := d.name;
      date := d.date;
      time := d.time;
      location := d.location;
      description := d.description;
      category := d.category;
      status := d.status;
      attendeeIds := d.attendeeIds;
      allocatedInventory := d.allocatedInventory;
    }

    function Data(): EventData
      reads this
    {
      EventData(eventId, name, date, time, location, description, category, status,
        attendeeIds, allocatedInventory)
    }

    /** The `std::find` over the attendee list: the first position of `id`,
        or the length of the list. */
    method FindAttendee(id: int) returns (i: nat)
      ensures i <= |attendeeIds| && id !in attendeeIds[..i]
      ensures i < |attendeeIds| ==> attendeeIds[i] == id
    {
      i := 0;
      while i < |attendeeIds| && attendeeIds[i] != id
        invariant i <= |attendeeIds| && id !in attendeeIds[..i]
      {
        assert attendeeIds[..i + 1] == attendeeIds[..i] + [attendeeIds[i]];
        i := i + 1;
      }
    }

    method AddAttendee(id: int)
      modifies this
      ensures Data() == old(Data()).(attendeeIds := AddId(old(attendeeIds), id))
    {
      var i := FindAttendee(id);
      if i == |attendeeIds| {
        assert attendeeIds[..i] == attendeeIds;
        attendeeIds := attendeeIds + [id];
      }
    }

    method RemoveAttendee(id: int)
      modifies this
      ensures Data() == old(Data()).(attendeeIds := RemoveFirst(old(attendeeIds), id))
    {
      var i := FindAttendee(id);
      if i < |attendeeIds| {
        IndexOfFirst(attendeeIds, id, i);
        attendeeIds := attendeeIds[..i] + attendeeIds[i + 1..];
      } else {
        assert attendeeIds[..i] == attendeeIds;
      }
    }

    method AllocateInventoryItem(itemId: int, q: int)
      modifies this
      ensures Data() == old(Data()).(allocatedInventory := AllocateEntry(old(allocatedInventory), itemId, q))
    {
      if q > 0 {
        allocatedInventory := allocatedInventory[itemId := Get(allocatedInventory, itemId) + q];
      }
    }

    method DeallocateInventoryItem(itemId: int, q: int) returns (actual: int)
      modifies this
      ensures (Data().allocatedInventory, actual) == DeallocateEntry(old(allocatedInventory), itemId, q)
      ensures Data() == old(Data()).(allocatedInventory := allocatedInventory)
    {
      if q <= 0 {
        return 0;
      }
      if itemId in allocatedInventory {
        var current := allocatedInventory[itemId];
        actual := if current < q then current else q;
        var left := current - actual;
        if left <= 0 {
          allocatedInventory := allocatedInventory - {itemId};
        } else {
          allocatedInventory := allocatedInventory[itemId := left];
        }
        return actual;
      }
      return 0;
    }
  }
}
