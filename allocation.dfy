/** The bookkeeping of allocated quantities: reconciliation makes every
    item hold what the events hold of it, the allocate and deallocate
    branches keep that true, and so does deleting an event, when the event
    is the last one in the vector or in the corrected form. */
module Allocation {
  import opened Wrappers
  import opened Records
  import opened Sequences
  import opened Bookkeeping
  import Codec

  /** Two item vectors with the same ids at the same positions. */
  predicate SameIds(a: seq<ItemData>, b: seq<ItemData>) {
    |a| == |b| && forall i :: 0 <= i < |a| ==> a[i].itemId == b[i].itemId
  }

  /** The lookup by id only looks at the ids. */
  lemma SameIdsSameLookup(a: seq<ItemData>, b: seq<ItemData>, k: int)
    requires SameIds(a, b)
    ensures FindInventoryItemById(a, k) == FindInventoryItemById(b, k)
  {
    var r := FindInventoryItemById(a, k);
    FirstIs(b, (i: ItemData) => i.itemId == k, if r.Some? then r.value else |b|);
  }

  lemma SameIdsSameFirst(a: seq<ItemData>, b: seq<ItemData>)
    requires SameIds(a, b)
    ensures forall i :: 0 <= i < |a| ==> (IsFirstWithId(a, i) <==> IsFirstWithId(b, i))
  {
    forall i | 0 <= i < |a|
      ensures IsFirstWithId(a, i) <==> IsFirstWithId(b, i)
    {
      SameIdsSameLookup(a, b, a[i].itemId);
    }
  }

  /** At most one position is the first with a given id. */
  lemma FirstWithIdUnique(items: seq<ItemData>, i: nat, j: nat)
    requires i < |items| && j < |items| && items[i].itemId == items[j].itemId
    requires IsFirstWithId(items, i) && IsFirstWithId(items, j)
    ensures i == j
  {
  }

  /** Changing the item found by id changes only that item. */
  lemma UpdateItemEffect(items: seq<ItemData>, k: int, c: ItemChange, delta: int)
    requires FindInventoryItemById(items, k).Some? ==>
      var j := FindInventoryItemById(items, k).value;
      ApplyChange(items[j], c) == items[j].(allocatedQuantity := items[j].allocatedQuantity + delta)
    ensures SameIds(UpdateItem(items, k, c), items)
    ensures forall i :: 0 <= i < |items| ==>
      UpdateItem(items, k, c)[i] == items[i].(allocatedQuantity := items[i].allocatedQuantity +
        (if IsFirstWithId(items, i) && items[i].itemId == k then delta else 0))
  {
    var found := FindInventoryItemById(items, k);
    forall i | 0 <= i < |items| && IsFirstWithId(items, i) && items[i].itemId == k
      ensures found == Some(i)
    {
    }
  }

  /** The item each entry of `ks` reaches gets that entry added, once. */
  lemma {:induction false} AddEntriesEffect(items: seq<ItemData>, m: map<int, int>, ks: seq<int>)
    requires forall i :: 0 <= i < |ks| ==> ks[i] in m
    requires NoDup(ks)
    ensures SameIds(AddEntries(items, m, ks), items)
    ensures forall i :: 0 <= i < |items| ==>
      AddEntries(items, m, ks)[i] == items[i].(allocatedQuantity := items[i].allocatedQuantity +
        (if IsFirstWithId(items, i) && items[i].itemId in ks then m[items[i].itemId] else 0))
    decreases |ks|
  {
    if ks != [] {
      var init := ks[..|ks| - 1];
      var k := ks[|ks| - 1];
      assert ks == init + [k];
      assert NoDup(init) by {
        assert forall a, b :: 0 <= a < b < |init| ==> init[a] == ks[a] && init[b] == ks[b];
      }
      assert k !in init by {
        assert forall a :: 0 <= a < |init| ==> init[a] == ks[a];
      }
      AddEntriesEffect(items, m, init);
      var prev := AddEntries(items, m, init);
      SameIdsSameFirst(prev, items);
      UpdateItemEffect(prev, k, AddAllocated(m[k]), m[k]);
      forall i | 0 <= i < |items|
        ensures AddEntries(items, m, ks)[i] == items[i].(allocatedQuantity := items[i].allocatedQuantity +
          (if IsFirstWithId(items, i) && items[i].itemId in ks then m[items[i].itemId] else 0))
      {
        assert items[i].itemId in ks <==> items[i].itemId in init || items[i].itemId == k;
      }
    }
  }

  /** One event's map, walked in key order, adds each entry to its item. */
  lemma AddMapEffect(items: seq<ItemData>, m: map<int, int>)
    ensures SameIds(AddEntries(items, m, SortedKeys(m)), items)
    ensures forall i :: 0 <= i < |items| ==>
      AddEntries(items, m, SortedKeys(m))[i] == items[i].(allocatedQuantity := items[i].allocatedQuantity +
        (if IsFirstWithId(items, i) then Get(m, items[i].itemId) else 0))
  {
    var ks := SortedKeys(m);
    assert NoDup(ks) by {
      assert forall a, b :: 0 <= a < b < |ks| ==> ks[a] < ks[b];
    }
    AddEntriesEffect(items, m, ks);
  }

  /** All events' maps together add what the events hold of each item. */
  lemma {:induction false} AddEventsEffect(items: seq<ItemData>, es: seq<EventData>)
    ensures SameIds(AddEvents(items, es), items)
    ensures forall i :: 0 <= i < |items| ==>
      AddEvents(items, es)[i] == items[i].(allocatedQuantity := items[i].allocatedQuantity +
        (if IsFirstWithId(items, i) then AllocatedTo(es, items[i].itemId) else 0))
    decreases |es|
  {
    if es != [] {
      var init := es[..|es| - 1];
      var m := es[|es| - 1].allocatedInventory;
      AddEventsEffect(items, init);
      var prev := AddEvents(items, init);
      AddMapEffect(prev, m);
      SameIdsSameFirst(prev, items);
    }
  }

  /** Reconciliation makes every item hold what the events hold of it and
      changes nothing but the allocated quantities. */
  lemma ReconcileEstablishes(items: seq<ItemData>, es: seq<EventData>)
    ensures |Reconcile(items, es)| == |items|
    ensures forall i :: 0 <= i < |items| ==>
      Reconcile(items, es)[i] == items[i].(allocatedQuantity := Reconcile(items, es)[i].allocatedQuantity)
    ensures Reconciled(Reconcile(items, es), es)
  {
    var z := ZeroAllocated(items);
    assert SameIds(z, items);
    AddEventsEffect(z, es);
    var r := Reconcile(items, es);
    SameIdsSameFirst(r, z);
  }

  // ---------------------------------------------------------------------
  // What the events hold
  // ---------------------------------------------------------------------

  lemma AllocatedToAppend(es: seq<EventData>, e: EventData, k: int)
    ensures AllocatedTo(es + [e], k) == AllocatedTo(es, k) + Get(e.allocatedInventory, k)
  {
    assert (es + [e])[..|es|] == es;
  }

  /** Changing one event's map changes the total by the change of its entry. */
  lemma {:induction false} AllocatedToUpdate(es: seq<EventData>, ei: nat, m: map<int, int>, k: int)
    requires ei < |es|
    ensures AllocatedTo(es[ei := es[ei].(allocatedInventory := m)], k)
         == AllocatedTo(es, k) - Get(es[ei].allocatedInventory, k) + Get(m, k)
    decreases |es|
  {
    var es2 := es[ei := es[ei].(allocatedInventory := m)];
    var n := |es| - 1;
    if ei == n {
      assert es2[..n] == es[..n];
    } else {
      assert es2[..n] == es[..n][ei := es[ei].(allocatedInventory := m)];
      AllocatedToUpdate(es[..n], ei, m, k);
    }
  }

  lemma {:induction false} AllocatedToBounds(es: seq<EventData>, k: int)
    requires PositiveEntries(es)
    ensures AllocatedTo(es, k) >= 0
    ensures forall ei :: 0 <= ei < |es| ==> AllocatedTo(es, k) >= Get(es[ei].allocatedInventory, k)
    decreases |es|
  {
    if es != [] {
      var n := |es| - 1;
      assert PositiveEntries(es[..n]) by {
        assert forall j :: 0 <= j < n ==> es[..n][j] == es[j];
      }
      AllocatedToBounds(es[..n], k);
      assert forall j :: 0 <= j < n ==> es[..n][j] == es[j];
    }
  }

  /** One item changing by what one entry of the event maps changes by. */
  lemma ItemFollowsEntry(items: seq<ItemData>, es: seq<EventData>, es2: seq<EventData>,
                         ii: nat, item: ItemData, delta: int)
    requires Reconciled(items, es)
    requires ii < |items| && IsFirstWithId(items, ii) && item.itemId == items[ii].itemId
    requires item.allocatedQuantity == items[ii].allocatedQuantity + delta
    requires AllocatedTo(es2, item.itemId) == AllocatedTo(es, item.itemId) + delta
    requires forall k :: k != item.itemId ==> AllocatedTo(es2, k) == AllocatedTo(es, k)
    ensures Reconciled(items[ii := item], es2)
  {
    var items2 := items[ii := item];
    assert SameIds(items2, items);
    SameIdsSameFirst(items2, items);
    forall i | 0 <= i < |items2| && i != ii && IsFirstWithId(items2, i)
      ensures items2[i].itemId != item.itemId
    {
      if items2[i].itemId == item.itemId {
        FirstWithIdUnique(items, i, ii);
      }
    }
  }

  /** The effect of one event map's entry change on all totals. */
  lemma EntryChange(es: seq<EventData>, ei: nat, m: map<int, int>, k: int, delta: int)
    requires ei < |es|
    requires Get(m, k) == Get(es[ei].allocatedInventory, k) + delta
    requires forall j :: j != k ==> Get(m, j) == Get(es[ei].allocatedInventory, j)
    ensures AllocatedTo(es[ei := es[ei].(allocatedInventory := m)], k) == AllocatedTo(es, k) + delta
    ensures forall j :: j != k ==> AllocatedTo(es[ei := es[ei].(allocatedInventory := m)], j) == AllocatedTo(es, j)
  {
    AllocatedToUpdate(es, ei, m, k);
    forall j | j != k
      ensures AllocatedTo(es[ei := es[ei].(allocatedInventory := m)], j) == AllocatedTo(es, j)
    {
      AllocatedToUpdate(es, ei, m, j);
    }
  }

  // ---------------------------------------------------------------------
  // trackInventoryAllocationToEvent
  // ---------------------------------------------------------------------

  /** Allocating to an event succeeds exactly when the event and the item
      exist and the item has the quantity available; it keeps every item
      reconciled with the events and every map entry positive. */
  lemma AllocateKeepsReconciled(st: State, eventId: int, itemId: int, q: int)
    requires Reconciled(st.inventory, st.events)
    ensures var r := AllocateToEvent(st, eventId, itemId, q);
      && (r.1 == Done <==>
            FindEventById(st.events, eventId).Some? && FindInventoryItemById(st.inventory, itemId).Some? &&
            0 < q <= st.inventory[FindInventoryItemById(st.inventory, itemId).value].Available())
      && (r.1 != Done ==> r.0 == st)
      && Reconciled(r.0.inventory, r.0.events)
      && (PositiveEntries(st.events) ==> PositiveEntries(r.0.events))
  {
    var r := AllocateToEvent(st, eventId, itemId, q);
    if r.1 == Done {
      var ei := FindEventById(st.events, eventId).value;
      var ii := FindInventoryItemById(st.inventory, itemId).value;
      var (item, ok) := AllocateItem(st.inventory[ii], q);
      var e := st.events[ei];
      var m := AllocateEntry(e.allocatedInventory, itemId, q);
      EntryChange(st.events, ei, m, itemId, q);
      ItemFollowsEntry(st.inventory, st.events, r.0.events, ii, item, q);
      if PositiveEntries(st.events) {
        EntriesStayPositive(e.allocatedInventory, itemId, q);
      }
    }
  }

  /** Deallocating from an event keeps every item reconciled with the
      events and every map entry positive; when something is given back
      it is positive and at most what was asked, and otherwise nothing
      changes. */
  lemma DeallocateKeepsReconciled(st: State, eventId: int, itemId: int, q: int)
    requires Reconciled(st.inventory, st.events) && PositiveEntries(st.events)
    ensures var r := DeallocateFromEvent(st, eventId, itemId, q);
      && Reconciled(r.0.inventory, r.0.events)
      && PositiveEntries(r.0.events)
      && (r.1.Deallocated? ==> 0 < r.1.amount <= q)
      && (!r.1.Deallocated? ==> r.0 == st)
      && (r.1 == NothingDeallocated <==>
            FindEventById(st.events, eventId).Some? && FindInventoryItemById(st.inventory, itemId).Some? &&
            itemId in st.events[FindEventById(st.events, eventId).value].allocatedInventory && q <= 0)
  {
    var r := DeallocateFromEvent(st, eventId, itemId, q);
    var fe := FindEventById(st.events, eventId);
    var fi := FindInventoryItemById(st.inventory, itemId);
    if fe.Some? && fi.Some? && itemId in st.events[fe.value].allocatedInventory {
      var ei := fe.value;
      var ii := fi.value;
      var e := st.events[ei];
      assert PositiveMap(e.allocatedInventory);
      var (m, actual) := DeallocateEntry(e.allocatedInventory, itemId, q);
      EntriesStayPositive(e.allocatedInventory, itemId, q);
      if q > 0 {
        AllocatedToBounds(st.events, itemId);
        EntryChange(st.events, ei, m, itemId, -actual);
        var item := DeallocateItem(st.inventory[ii], actual).0;
        ItemFollowsEntry(st.inventory, st.events, r.0.events, ii, item, -actual);
      } else {
        assert e.(allocatedInventory := m) == e;
        assert r.0.events == st.events;
      }
    }
  }

  // ---------------------------------------------------------------------
  // deleteEvent
  // ---------------------------------------------------------------------

  /** What the events with the given id hold of item `k`. */
  function HeldBy(es: seq<EventData>, id: int, k: int): int {
    if es == [] then 0
    else HeldBy(es[..|es| - 1], id, k) + (if es[|es| - 1].eventId == id then Get(es[|es| - 1].allocatedInventory, k) else 0)
  }

  /** The total splits into what the kept events hold and what the removed
      ones hold. */
  lemma {:induction false} AllocatedToSplit(es: seq<EventData>, id: int, k: int)
    ensures AllocatedTo(es, k) == AllocatedTo(Filter(es, KeepOtherEvents(id)), k) + HeldBy(es, id, k)
    decreases |es|
  {
    if es != [] {
      var init := es[..|es| - 1];
      AllocatedToSplit(init, id, k);
      if es[|es| - 1].eventId != id {
        AllocatedToAppend(Filter(init, KeepOtherEvents(id)), es[|es| - 1], k);
      }
    }
  }

  lemma {:induction false} HeldByBounds(es: seq<EventData>, id: int, k: int)
    requires PositiveEntries(es)
    ensures 0 <= HeldBy(es, id, k)
    decreases |es|
  {
    if es != [] {
      var n := |es| - 1;
      assert PositiveEntries(es[..n]) by {
        assert forall j :: 0 <= j < n ==> es[..n][j] == es[j];
      }
      HeldByBounds(es[..n], id, k);
      assert PositiveMap(es[n].allocatedInventory);
    }
  }

  /** With a single event of the id, the removed events hold what it holds. */
  lemma {:induction false} HeldByOnly(es: seq<EventData>, id: int, d: nat, k: int)
    requires d < |es| && es[d].eventId == id
    requires forall j :: 0 <= j < |es| && j != d ==> es[j].eventId != id
    ensures HeldBy(es, id, k) == Get(es[d].allocatedInventory, k)
    decreases |es|
  {
    var n := |es| - 1;
    assert forall j :: 0 <= j < n ==> es[..n][j] == es[j];
    if d == n {
      HeldByNone(es[..n], id, k);
    } else {
      HeldByOnly(es[..n], id, d, k);
    }
  }

  lemma {:induction false} HeldByNone(es: seq<EventData>, id: int, k: int)
    requires forall j :: 0 <= j < |es| ==> es[j].eventId != id
    ensures HeldBy(es, id, k) == 0
    decreases |es|
  {
    if es != [] {
      var n := |es| - 1;
      assert forall j :: 0 <= j < n ==> es[..n][j] == es[j];
      HeldByNone(es[..n], id, k);
    }
  }

  lemma PositiveEntriesFilter(es: seq<EventData>, id: int)
    requires PositiveEntries(es)
    ensures PositiveEntries(Filter(es, KeepOtherEvents(id)))
  {
    var kept := Filter(es, KeepOtherEvents(id));
    FilterMembers(es, KeepOtherEvents(id));
    forall i | 0 <= i < |kept|
      ensures PositiveMap(kept[i].allocatedInventory)
    {
      assert kept[i] in es;
    }
  }

  /** Giving back the entries of `ks` takes each off the item it reaches,
      when every such item holds at least that much. */
  lemma {:induction false} ReturnEntriesEffect(items: seq<ItemData>, m: map<int, int>, ks: seq<int>)
    requires forall i :: 0 <= i < |ks| ==> ks[i] in m
    requires NoDup(ks) && PositiveMap(m)
    requires forall i :: 0 <= i < |items| && IsFirstWithId(items, i) && items[i].itemId in m ==>
      m[items[i].itemId] <= items[i].allocatedQuantity
    ensures SameIds(ReturnEntries(items, m, ks), items)
    ensures forall i :: 0 <= i < |items| ==>
      ReturnEntries(items, m, ks)[i] == items[i].(allocatedQuantity := items[i].allocatedQuantity -
        (if IsFirstWithId(items, i) && items[i].itemId in ks then m[items[i].itemId] else 0))
    decreases |ks|
  {
    if ks != [] {
      var init := ks[..|ks| - 1];
      var k := ks[|ks| - 1];
      assert ks == init + [k];
      assert NoDup(init) by {
        assert forall a, b :: 0 <= a < b < |init| ==> init[a] == ks[a] && init[b] == ks[b];
      }
      assert k !in init by {
        assert forall a :: 0 <= a < |init| ==> init[a] == ks[a];
      }
      ReturnEntriesEffect(items, m, init);
      var prev := ReturnEntries(items, m, init);
      SameIdsSameLookup(prev, items, k);
      SameIdsSameFirst(prev, items);
      var found := FindInventoryItemById(items, k);
      if found.Some? {
        assert prev[found.value] == items[found.value];
      }
      UpdateItemEffect(prev, k, GiveBack(m[k]), -m[k]);
      forall i | 0 <= i < |items|
        ensures ReturnEntries(items, m, ks)[i] == items[i].(allocatedQuantity := items[i].allocatedQuantity -
          (if IsFirstWithId(items, i) && items[i].itemId in ks then m[items[i].itemId] else 0))
      {
        assert items[i].itemId in ks <==> items[i].itemId in init || items[i].itemId == k;
      }
    }
  }

  lemma ReturnInventoryEffect(items: seq<ItemData>, m: map<int, int>)
    requires PositiveMap(m)
    requires forall i :: 0 <= i < |items| && IsFirstWithId(items, i) ==>
      Get(m, items[i].itemId) <= items[i].allocatedQuantity
    ensures SameIds(ReturnInventory(items, m), items)
    ensures forall i :: 0 <= i < |items| ==>
      ReturnInventory(items, m)[i] == items[i].(allocatedQuantity := items[i].allocatedQuantity -
        (if IsFirstWithId(items, i) then Get(m, items[i].itemId) else 0))
  {
    var ks := SortedKeys(m);
    assert NoDup(ks) by {
      assert forall a, b :: 0 <= a < b < |ks| ==> ks[a] < ks[b];
    }
    ReturnEntriesEffect(items, m, ks);
  }

  /** Giving back the maps of every removed event. */
  lemma {:induction false} ReturnAllEffect(items: seq<ItemData>, es: seq<EventData>, id: int)
    requires PositiveEntries(es)
    requires forall i :: 0 <= i < |items| && IsFirstWithId(items, i) ==>
      HeldBy(es, id, items[i].itemId) <= items[i].allocatedQuantity
    ensures SameIds(ReturnAll(items, es, id), items)
    ensures forall i :: 0 <= i < |items| ==>
      ReturnAll(items, es, id)[i] == items[i].(allocatedQuantity := items[i].allocatedQuantity -
        (if IsFirstWithId(items, i) then HeldBy(es, id, items[i].itemId) else 0))
    decreases |es|
  {
    if es != [] {
      var n := |es| - 1;
      var init := es[..n];
      var e := es[n];
      assert PositiveEntries(init) by {
        assert forall j :: 0 <= j < n ==> init[j] == es[j];
      }
      assert PositiveMap(e.allocatedInventory);
      ReturnAllEffect(items, init, id);
      var prev := ReturnAll(items, init, id);
      SameIdsSameFirst(prev, items);
      if e.eventId == id {
        ReturnInventoryEffect(prev, e.allocatedInventory);
      }
    }
  }

  /** The corrected `deleteEvent` keeps every item reconciled with the
      events that remain, and every map entry positive. */
  lemma DeleteFixedKeepsReconciled(st: State, id: int)
    requires Reconciled(st.inventory, st.events) && PositiveEntries(st.events)
    ensures var r := DeleteEventFixed(st, id).0;
      Reconciled(r.inventory, r.events) && PositiveEntries(r.events)
  {
    var kept := Filter(st.events, KeepOtherEvents(id));
    PositiveEntriesFilter(st.events, id);
    forall i | 0 <= i < |st.inventory|
      ensures HeldBy(st.events, id, st.inventory[i].itemId) <= AllocatedTo(st.events, st.inventory[i].itemId)
      ensures AllocatedTo(st.events, st.inventory[i].itemId) - HeldBy(st.events, id, st.inventory[i].itemId)
           == AllocatedTo(kept, st.inventory[i].itemId)
    {
      AllocatedToSplit(st.events, id, st.inventory[i].itemId);
      AllocatedToBounds(kept, st.inventory[i].itemId);
    }
    ReturnAllEffect(st.inventory, st.events, id);
    SameIdsSameFirst(ReturnAll(st.inventory, st.events, id), st.inventory);
  }

  lemma {:induction false} ReturnAllNone(items: seq<ItemData>, es: seq<EventData>, id: int)
    requires forall j :: 0 <= j < |es| ==> es[j].eventId != id
    ensures ReturnAll(items, es, id) == items
    decreases |es|
  {
    if es != [] {
      var n := |es| - 1;
      assert forall j :: 0 <= j < n ==> es[..n][j] == es[j];
      ReturnAllNone(items, es[..n], id);
    }
  }

  /** When the only event with the id is the last one, `deleteEvent` as
      written gives back exactly that event's allocations. */
  lemma DeleteLastAgrees(st: State, id: int)
    requires |st.events| > 0 && st.events[|st.events| - 1].eventId == id
    requires forall j :: 0 <= j < |st.events| - 1 ==> st.events[j].eventId != id
    ensures DeleteEvent(st, id) == DeleteEventFixed(st, id)
  {
    var es := st.events;
    var n := |es| - 1;
    FilterAllButOne(es, KeepOtherEvents(id), n);
    assert es[..n] + es[n + 1..] == es[..n];
    assert forall j :: 0 <= j < n ==> es[..n][j] == es[j];
    ReturnAllNone(st.inventory, es[..n], id);
    assert RemoveIf(es, id)[n] == es[n];
  }

  /** Hence deleting the last event keeps the items reconciled. */
  lemma DeleteLastKeepsReconciled(st: State, id: int)
    requires Reconciled(st.inventory, st.events) && PositiveEntries(st.events)
    requires |st.events| > 0 && st.events[|st.events| - 1].eventId == id
    requires forall j :: 0 <= j < |st.events| - 1 ==> st.events[j].eventId != id
    ensures Reconciled(DeleteEvent(st, id).0.inventory, DeleteEvent(st, id).0.events)
  {
    DeleteLastAgrees(st, id);
    DeleteFixedKeepsReconciled(st, id);
  }

  /** `deleteEvent` as written, when the deleted event is followed by
      another one: the slot it walks holds that event moved-from, whose map
      is empty, so nothing is given back. */
  lemma DeleteEarlierReturnsNothing(st: State, id: int, d: nat)
    requires d < |st.events| - 1 && st.events[d].eventId == id
    requires forall j :: 0 <= j < |st.events| && j != d ==> st.events[j].eventId != id
    ensures DeleteEvent(st, id).0.events == st.events[..d] + st.events[d + 1..]
    ensures DeleteEvent(st, id).0.inventory == st.inventory
  {
    var es := st.events;
    FilterAllButOne(es, KeepOtherEvents(id), d);
    NothingReturnedAfterMove(es, id);
    Codec.SortedKeysEmpty(map[]);
  }

  /** When the slot past the kept events held a kept event, it now holds
      that event moved-from, with an empty map. */
  lemma NothingReturnedAfterMove(es: seq<EventData>, id: int)
    requires |Filter(es, KeepOtherEvents(id))| == |es| - 1
    requires es[|es| - 1].eventId != id
    ensures ReturnedMap(es, id) == map[]
  {
    var n := |es| - 1;
    assert RemoveIf(es, id)[n] == MovedFrom(es[n]);
  }

  /** An item holding the deleted event's allocation, left as it was, is no
      longer reconciled with the remaining events. */
  lemma UnreturnedAllocationBreaksReconciled(st: State, id: int, d: nat, k: int)
    requires Reconciled(st.inventory, st.events) && PositiveEntries(st.events)
    requires d < |st.events| && st.events[d].eventId == id
    requires forall j :: 0 <= j < |st.events| && j != d ==> st.events[j].eventId != id
    requires k in st.events[d].allocatedInventory && FindInventoryItemById(st.inventory, k).Some?
    ensures !Reconciled(st.inventory, st.events[..d] + st.events[d + 1..])
  {
    var es := st.events;
    FilterAllButOne(es, KeepOtherEvents(id), d);
    var i := FindInventoryItemById(st.inventory, k).value;
    AllocatedToSplit(es, id, k);
    HeldByOnly(es, id, d, k);
    assert PositiveMap(es[d].allocatedInventory);
    assert IsFirstWithId(st.inventory, i);
  }

  /** Hence `deleteEvent` as written loses the reconciliation whenever the
      deleted event is not the last one and holds an allocation of an item
      that exists. */
  lemma DeleteEarlierEventKeepsAllocation(st: State, id: int, d: nat, k: int)
    requires Reconciled(st.inventory, st.events) && PositiveEntries(st.events)
    requires d < |st.events| - 1 && st.events[d].eventId == id
    requires forall j :: 0 <= j < |st.events| && j != d ==> st.events[j].eventId != id
    requires k in st.events[d].allocatedInventory && FindInventoryItemById(st.inventory, k).Some?
    ensures DeleteEvent(st, id).0.inventory == st.inventory
    ensures !Reconciled(DeleteEvent(st, id).0.inventory, DeleteEvent(st, id).0.events)
  {
    DeleteEarlierReturnsNothing(st, id, d);
    UnreturnedAllocationBreaksReconciled(st, id, d, k);
  }

  /** The corrected `deleteEvent` gives the same allocations back in that
      situation. */
  lemma DeleteFixedReturnsAllocation(st: State, id: int, d: nat)
    requires Reconciled(st.inventory, st.events) && PositiveEntries(st.events)
    requires d < |st.events| && st.events[d].eventId == id
    requires forall j :: 0 <= j < |st.events| && j != d ==> st.events[j].eventId != id
    ensures forall i :: 0 <= i < |st.inventory| && IsFirstWithId(st.inventory, i) ==>
      DeleteEventFixed(st, id).0.inventory[i].allocatedQuantity
        == st.inventory[i].allocatedQuantity - Get(st.events[d].allocatedInventory, st.inventory[i].itemId)
  {
    FilterKeepsAll(st.events, KeepOtherEvents(id));
    forall i | 0 <= i < |st.inventory|
      ensures HeldBy(st.events, id, st.inventory[i].itemId) == Get(st.events[d].allocatedInventory, st.inventory[i].itemId)
      ensures IsFirstWithId(st.inventory, i) ==>
        HeldBy(st.events, id, st.inventory[i].itemId) <= st.inventory[i].allocatedQuantity
    {
      HeldByOnly(st.events, id, d, st.inventory[i].itemId);
      if IsFirstWithId(st.inventory, i) {
        AllocatedToSplit(st.events, id, st.inventory[i].itemId);
        PositiveEntriesFilter(st.events, id);
        AllocatedToBounds(Filter(st.events, KeepOtherEvents(id)), st.inventory[i].itemId);
      }
    }
    ReturnAllEffect(st.inventory, st.events, id);
  }
}
