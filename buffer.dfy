/**
 * Buffer.py: capacity-bounded buffers. `QueueBuffer` is a cell's storage; `InterfaceBuffer`
 * is a cell's input or output and connects it (`lower_cell`) with its parent (`upper_cell`).
 * Agents and waiting agents are named by id.
 *
 * `order_arrival` and `order_finished` (Order.py) change a buffer's lists and flags and are
 * methods here: they run on the order's starting buffer (the main cell's input) and on the
 * main cell's output buffer respectively.
 */
module Buffers {
  import opened Wrappers
  import opened Lists
  import opened Sorting
  import opened Orders
  import opened Cells
  import opened ProcessingSteps

  datatype BufferKind = QueueBuffer | InterfaceBuffer

  /** The number of orders in `items` that some agent has locked. */
  function LockedCount(items: seq<Order>): (n: nat)
    reads items`lockedBy
    ensures n <= |items|
    ensures n == 0 <==> forall i :: 0 <= i < |items| ==> items[i].lockedBy.None?
    ensures n == |items| <==> forall i :: 0 <= i < |items| ==> items[i].lockedBy.Some?
  {
    if items == [] then 0
    else
      var rest := LockedCount(items[1..]);
      assert forall i :: 1 <= i < |items| ==> items[i] == items[1..][i - 1];
      (if items[0].lockedBy.Some? then 1 else 0) + rest
  }

  /** Appending an order adds one to the locked count exactly when the order is locked. */
  lemma {:induction false} LockedCountAppend(items: seq<Order>, x: Order)
    ensures LockedCount(items + [x]) == LockedCount(items) + (if x.lockedBy.Some? then 1 else 0)
  {
    if items != [] {
      assert (items + [x])[1..] == items[1..] + [x];
      LockedCountAppend(items[1..], x);
    }
  }

  /**
   * The stored orders that no agent has locked, in storage order: those that stay, while
   * the locked ones are about to be carried away.
   */
  function Unlocked(items: seq<Order>): (r: seq<Order>)
    reads items`lockedBy
    ensures |r| == |items| - LockedCount(items)
    ensures forall i :: 0 <= i < |r| ==> r[i] in items && r[i].lockedBy.None?
    ensures forall i :: 0 <= i < |items| && items[i].lockedBy.None? ==> items[i] in r
  {
    if items == [] then []
    else
      var rest := Unlocked(items[1..]);
      assert forall i :: 1 <= i < |items| ==> items[i] == items[1..][i - 1];
      (if items[0].lockedBy.None? then [items[0]] else []) + rest
  }

  /** The sort key of `items_waiting`: the time an order started waiting. */
  function ByWaitTime(a: (Order, real), b: (Order, real)): bool {
    a.1 <= b.1
  }

  /**
   * `sorted(items_waiting, key=time)` puts an earliest-waiting order first, and of several
   * orders waiting since the same time the one queued first: every entry queued before it
   * has waited a strictly later time.
   */
  lemma SortedWaitingHeadEarliest(waiting: seq<(Order, real)>)
    requires waiting != []
    ensures var s := SortBy(waiting, ByWaitTime);
      && |s| == |waiting|
      && s[0] in waiting
      && (forall k :: 0 <= k < |waiting| ==> s[0].1 <= waiting[k].1)
      && exists k :: 0 <= k < |waiting| && waiting[k] == s[0] && forall j :: 0 <= j < k ==> waiting[j].1 > s[0].1
  {
    var s := SortBy(waiting, ByWaitTime);
    var any := (e: (Order, real)) => true;
    assert TotalPreorderOn(waiting, ByWaitTime);
    FirstWhereSorted(waiting, any, ByWaitTime);
    FirstMinimalProperties(waiting, any, ByWaitTime);
    SortByMultiset(waiting, ByWaitTime);
    SortBySorted(waiting, ByWaitTime);
    assert s[0] in multiset(s);
    forall k | 0 <= k < |waiting| ensures s[0].1 <= waiting[k].1 {
      assert waiting[k] in multiset(waiting);
      var j :| 0 <= j < |s| && s[j] == waiting[k];
      if j > 0 {
        assert ByWaitTime(s[0], s[j]);
      }
    }
  }

  class Buffer {
    const id: nat
    const capacity: nat
    const kind: BufferKind
    var lowerCell: Cell?
    var upperCell: Cell?
    var itemsInStorage: seq<Order>
    var full: bool
    var itemsWaiting: seq<(Order, real)>
    var agentsAtPosition: seq<nat>
    var waitingAgents: seq<nat>
    var expectedOrders: seq<Reservation>

    /** `Buffer.__init__` / `InterfaceBuffer.__init__` with both cells left at their default. */
    constructor (id: nat, capacity: nat, kind: BufferKind)
      ensures this.id == id && this.capacity == capacity && this.kind == kind
      ensures lowerCell == null && upperCell == null
      ensures itemsInStorage == [] && !full && itemsWaiting == [] && agentsAtPosition == []
      ensures waitingAgents == [] && expectedOrders == []
    {
      this.id := id;
      this.capacity := capacity;
      this.kind := kind;
      lowerCell, upperCell := null, null;
      itemsInStorage, full, itemsWaiting := [], false, [];
      agentsAtPosition, waitingAgents, expectedOrders := [], [], [];
    }

    /** `full` is only ever raised when the stored items reach the capacity. */
    ghost predicate FullConsistent()
      reads this
    {
      full ==> |itemsInStorage| >= capacity
    }

    /**
     * What the buffer has room promised for: the stored orders that stay (the locked ones
     * are about to leave) and the orders announced to arrive.
     */
    ghost function Committed(): int
      reads this, itemsInStorage`lockedBy
    {
      |itemsInStorage| - LockedCount(itemsInStorage) + |expectedOrders|
    }

    /** The buffer never promises more room than it has. */
    ghost predicate WithinCapacity()
      reads this, itemsInStorage`lockedBy
    {
      Committed() <= capacity
    }

    /**
     * `free_slots`: a slot is free when the stored orders nobody has locked, together with
     * the announced ones, leave a place.
     */
    predicate FreeSlots(): (r: bool)
      reads this, itemsInStorage`lockedBy
      ensures r <==> |Unlocked(itemsInStorage)| + |expectedOrders| < capacity
      ensures r <==> Committed() + 1 <= capacity
    {
      capacity > |itemsInStorage| - LockedCount(itemsInStorage) + |expectedOrders|
    }

    /** The orders of the waiting arrivals. */
    ghost function WaitingOrders(): set<Order>
      reads this
    {
      set i | 0 <= i < |itemsWaiting| :: itemsWaiting[i].0
    }

    /** The slot list of `occupancy`: the stored orders, then one empty slot per free place. */
    function Occupancy(): (r: seq<Option<Order>>)
      reads this
      ensures |r| == if |itemsInStorage| <= capacity then capacity else |itemsInStorage|
      ensures forall i :: 0 <= i < |itemsInStorage| ==> r[i] == Some(itemsInStorage[i])
      ensures forall i :: |itemsInStorage| <= i < |r| ==> r[i] == None
    {
      var items := itemsInStorage;
      seq(|items|, i requires 0 <= i < |items| => Some(items[i]))
        + seq(if |items| <= capacity then capacity - |items| else 0, _ => None)
    }

    /**
     * `order_arrival`, on the order's starting buffer: the order is placed when there is room
     * (raising `full` when the buffer fills up) and enters the main cell; otherwise it queues.
     */
    method OrderArrival(o: Order, mainCell: Cell, now: real)
      requires o.startingPosition == id
      modifies this`itemsInStorage, this`full, this`itemsWaiting
      modifies o`position, o`started, o`currentCell, o`inCellSince
      modifies mainCell`ordersInCell, mainCell`expectedOrders
      ensures old(|itemsInStorage|) < capacity ==>
        && itemsInStorage == old(itemsInStorage) + [o]
        && full == (old(full) || |itemsInStorage| == capacity)
        && itemsWaiting == old(itemsWaiting)
        && o.position == InBuffer(id) && o.started
        && o.currentCell == Some(mainCell.id) && o.inCellSince == Some(now)
        && mainCell.ordersInCell == old(mainCell.ordersInCell) + [o]
        && mainCell.expectedOrders == CancelFirst(old(mainCell.expectedOrders), o)
      ensures old(|itemsInStorage|) >= capacity ==>
        && itemsWaiting == old(itemsWaiting) + [(o, now)]
        && unchanged(this`itemsInStorage, this`full, o, mainCell)
      ensures old(FullConsistent()) ==> FullConsistent()
    {
      if |itemsInStorage| < capacity {
        o.position := InBuffer(id);
        o.started := true;
        itemsInStorage := itemsInStorage + [o];
        if |itemsInStorage| == capacity {
          full := true;
        }
        mainCell.NewOrderInCell(o, now);
      } else {
        itemsWaiting := itemsWaiting + [(o, now)];
      }
    }

    /**
     * The queued branch of `item_picked_up`: the waiting list is sorted by waiting time and
     * its head arrives (`order_arrival`), then the head entry of the sorted list is deleted.
     */
    method AdmitEarliestWaiting(mainCell: Cell, now: real)
      requires itemsWaiting != []
      requires forall i :: 0 <= i < |itemsWaiting| ==> itemsWaiting[i].0.startingPosition == id
      modifies this`itemsInStorage, this`full, this`itemsWaiting
      modifies WaitingOrders()`position, WaitingOrders()`started
      modifies WaitingOrders()`currentCell, WaitingOrders()`inCellSince
      modifies mainCell`ordersInCell, mainCell`expectedOrders
      ensures var sorted := SortBy(old(itemsWaiting), ByWaitTime);
        var next := sorted[0].0;
        && unchanged(old(WaitingOrders()) - {next})
        && (old(|itemsInStorage|) < capacity ==>
              && itemsInStorage == old(itemsInStorage) + [next]
              && full == (old(full) || |itemsInStorage| == capacity)
              && itemsWaiting == sorted[1..]
              && next.position == InBuffer(id) && next.started
              && next.currentCell == Some(mainCell.id) && next.inCellSince == Some(now)
              && mainCell.ordersInCell == old(mainCell.ordersInCell) + [next]
              && mainCell.expectedOrders == CancelFirst(old(mainCell.expectedOrders), next))
        && (old(|itemsInStorage|) >= capacity ==>
              && itemsInStorage == old(itemsInStorage) && full == old(full)
              && itemsWaiting == sorted[1..] + [(next, now)]
              && unchanged(mainCell) && unchanged(old(WaitingOrders())))
      ensures old(FullConsistent()) ==> FullConsistent()
    {
      ghost var before := itemsWaiting;
      SortByMultiset(itemsWaiting, ByWaitTime);
      var sorted := SortBy(itemsWaiting, ByWaitTime);
      assert sorted[0] in multiset(before);
      ghost var k :| 0 <= k < |before| && before[k] == sorted[0];
      itemsWaiting := sorted;
      OrderArrival(sorted[0].0, mainCell, now);
      if old(|itemsInStorage|) >= capacity {
        assert itemsWaiting == sorted + [(sorted[0].0, now)];
        assert (sorted + [(sorted[0].0, now)])[1..] == sorted[1..] + [(sorted[0].0, now)];
      }
      itemsWaiting := itemsWaiting[1..];
    }

    /**
     * `item_picked_up`: the item leaves (the source's `list.remove` raises when it is not
     * stored). A queued arrival, the earliest first, then takes the free place, and `full`
     * stays as it is; with no queue `full` is cleared and the first waiting agent, if any,
     * is the one woken.
     */
    method ItemPickedUp(item: Order, mainCell: Cell, now: real) returns (woken: Option<nat>)
      requires item in itemsInStorage
      requires forall i :: 0 <= i < |itemsWaiting| ==> itemsWaiting[i].0.startingPosition == id
      modifies this`itemsInStorage, this`full, this`itemsWaiting
      modifies WaitingOrders()`position, WaitingOrders()`started
      modifies WaitingOrders()`currentCell, WaitingOrders()`inCellSince
      modifies mainCell`ordersInCell, mainCell`expectedOrders
      ensures var removed := RemoveFirst(old(itemsInStorage), item);
        old(itemsWaiting) == [] ==>
          && itemsInStorage == removed && !full && itemsWaiting == []
          && woken == (if old(waitingAgents) == [] then None else Some(old(waitingAgents)[0]))
          && unchanged(mainCell)
      ensures var removed := RemoveFirst(old(itemsInStorage), item);
        old(itemsWaiting) != [] ==>
          var sorted := SortBy(old(itemsWaiting), ByWaitTime);
          var next := sorted[0].0;
          && woken == None
          && unchanged(old(WaitingOrders()) - {next})
          && (|removed| < capacity ==>
                && itemsInStorage == removed + [next]
                && full == (old(full) || |itemsInStorage| == capacity)
                && itemsWaiting == sorted[1..]
                && next.position == InBuffer(id) && next.started
                && next.currentCell == Some(mainCell.id) && next.inCellSince == Some(now)
                && mainCell.ordersInCell == old(mainCell.ordersInCell) + [next]
                && mainCell.expectedOrders == CancelFirst(old(mainCell.expectedOrders), next))
          && (|removed| >= capacity ==>
                && itemsInStorage == removed && full == old(full)
                && itemsWaiting == sorted[1..] + [(next, now)]
                && unchanged(mainCell) && unchanged(old(WaitingOrders())))
      ensures old(FullConsistent()) ==> FullConsistent()
    {
      itemsInStorage := RemoveFirst(itemsInStorage, item);
      if itemsWaiting != [] {
        AdmitEarliestWaiting(mainCell, now);
        woken := None;
      } else {
        full := false;
        woken := if waitingAgents == [] then None else Some(waitingAgents[0]);
      }
    }

    /**
     * `order_finished` as written (Order.py): a finished order standing in the main cell's
     * output buffer leaves the system, but `full` is left as it was.
     */
    method OrderFinishedAsWritten(o: Order, now: real)
      requires o.position == InBuffer(id) && o.tasksFinished ==> o in itemsInStorage
      modifies this`itemsInStorage, o`currentCell, o`position, o`completed, o`completedAt
      ensures old(o.position == InBuffer(id) && o.tasksFinished) ==>
        && itemsInStorage == RemoveFirst(old(itemsInStorage), o)
        && o.currentCell == None && o.position == Nowhere
        && o.completed && o.completedAt == Some(now)
      ensures !old(o.position == InBuffer(id) && o.tasksFinished) ==> unchanged(this, o)
      ensures full == old(full)
    {
      if o.position == InBuffer(id) && o.tasksFinished {
        itemsInStorage := RemoveFirst(itemsInStorage, o);
        o.currentCell := None;
        o.position := Nowhere;
        o.completed := true;
        o.completedAt := Some(now);
      }
    }

    /**
     * `order_finished` with the freed slot released as `item_picked_up` releases one:
     * `full` is cleared and the first waiting agent, if any, is woken.
     */
    method OrderFinished(o: Order, now: real) returns (woken: Option<nat>)
      requires o.position == InBuffer(id) && o.tasksFinished ==> o in itemsInStorage
      modifies this`itemsInStorage, this`full, o`currentCell, o`position, o`completed, o`completedAt
      ensures old(o.position == InBuffer(id) && o.tasksFinished) ==>
        && itemsInStorage == RemoveFirst(old(itemsInStorage), o) && !full
        && o.currentCell == None && o.position == Nowhere
        && o.completed && o.completedAt == Some(now)
        && woken == (if waitingAgents == [] then None else Some(waitingAgents[0]))
      ensures !old(o.position == InBuffer(id) && o.tasksFinished) ==> unchanged(this, o) && woken == None
      ensures old(FullConsistent()) ==> FullConsistent()
    {
      woken := None;
      if o.position == InBuffer(id) && o.tasksFinished {
        itemsInStorage := RemoveFirst(itemsInStorage, o);
        o.currentCell := None;
        o.position := Nowhere;
        o.completed := true;
        o.completedAt := Some(now);
        full := false;
        woken := if waitingAgents == [] then None else Some(waitingAgents[0]);
      }
    }
  }
}
