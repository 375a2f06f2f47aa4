/**
 * The state changes of ManufacturingAgent.py: taking on a task (locking and announcing the
 * order), moving, picking up, storing and, at the end of `item_from_to`, unlocking. Each
 * generator is split at the waits where another process can act (the move); the fixed
 * pick-up and store times are folded into the transition they belong to. An agent on a buffer or a machine is recorded in that
 * position's `agents_at_position`; the methods `Leave`/`Arrive` of the position are called
 * with the agent's moves.
 */
module Agents {
  import opened Wrappers
  import opened Lists
  import opened Sorting
  import opened ProcessingSteps
  import opened Orders
  import opened Cells
  import opened Buffers
  import opened Machines
  import opened Routing

  // ---------------------------------------------------------------------------------------
  // Reservations in `expected_orders`

  /** The index of the first reservation for `o` (the source's `[... if order == item][0]`). */
  function FirstReservationFor(s: seq<Reservation>, o: Order): (k: nat)
    requires exists i :: 0 <= i < |s| && s[i].order == o
    ensures k < |s| && s[k].order == o
    ensures forall j :: 0 <= j < k ==> s[j].order != o
  {
    if s[0].order == o then 0
    else
      assert exists i :: 0 <= i < |s| - 1 && s[1..][i].order == o by {
        var i :| 0 <= i < |s| && s[i].order == o;
        assert s[1..][i - 1] == s[i];
      }
      1 + FirstReservationFor(s[1..], o)
  }

  /**
   * `expected_orders.remove(first reservation for o)`: `list.remove` takes out the first
   * entry equal to that reservation, which is that reservation itself.
   */
  function ConsumeReservation(s: seq<Reservation>, o: Order): (r: seq<Reservation>)
    requires exists i :: 0 <= i < |s| && s[i].order == o
    ensures |r| == |s| - 1
    ensures multiset(r) == multiset(s) - multiset{s[FirstReservationFor(s, o)]}
    ensures r == RemoveFirst(s, s[FirstReservationFor(s, o)])
  {
    var k := FirstReservationFor(s, o);
    assert s == s[..k] + [s[k]] + s[k + 1..];
    assert s[k] !in s[..k] by {
      forall j | 0 <= j < k ensures s[..k][j] != s[k] {
        assert s[j].order != o;
      }
    }
    assert IndexOf(s, s[k]) == k;
    s[..k] + s[k + 1..]
  }

  /** A reservation announced and then consumed leaves the list with the multiset it had. */
  lemma AnnounceThenConsume(s: seq<Reservation>, r: Reservation)
    requires forall i :: 0 <= i < |s| ==> s[i].order != r.order
    ensures (s + [r])[|s|].order == r.order
    ensures ConsumeReservation(s + [r], r.order) == s
  {
    var t := s + [r];
    assert t[|s|].order == r.order;
    assert forall j :: 0 <= j < |s| ==> t[j].order != r.order by {
      forall j | 0 <= j < |s| ensures t[j].order != r.order {
        assert t[j] == s[j];
      }
    }
    assert FirstReservationFor(t, r.order) == |s|;
    assert t[..|s|] == s;
  }

  /**
   * The arrival time of `announce_arrival`: now, plus the walk to the order, plus the walk
   * from the order to the destination, plus the pick-up and store times. The source raises
   * when the order has no position, and fails on adding `None` when a leg has no distance
   * entry; both are `None` here.
   */
  function ArrivalTime(distances: Distances, speed: real, agentPosition: Position, orderPosition: Position,
                       destination: Position, now: real, pickUp: real, store: real): (r: Option<real>)
    requires speed != 0.0
    ensures var toOrder := TimeForDistance(distances, speed, agentPosition, orderPosition, Nowhere);
      var toDestination := TimeForDistance(distances, speed, agentPosition, destination, orderPosition);
      && (r.Some? <==> toOrder.Time? && toOrder.time.Some? && toDestination.Time? && toDestination.time.Some?)
      && (r.Some? ==> r.value == now + toOrder.time.value + toDestination.time.value + pickUp + store)
    ensures orderPosition == Nowhere || destination == Nowhere ==> r == None
    ensures agentPosition == orderPosition && orderPosition == destination && destination != Nowhere ==>
      r == Some(now + pickUp + store)
  {
    var toOrder := TimeForDistance(distances, speed, agentPosition, orderPosition, Nowhere);
    var toDestination := TimeForDistance(distances, speed, agentPosition, destination, orderPosition);
    match (toOrder, toDestination)
    case (Time(Some(a)), Time(Some(b))) => Some(now + a + b + pickUp + store)
    case _ => None
  }

  /** With positive speed and non-negative distances, no order arrives before it is handled. */
  lemma ArrivalNotBeforeHandling(distances: Distances, speed: real, agentPosition: Position,
                                 orderPosition: Position, destination: Position, now: real, pickUp: real, store: real)
    requires speed > 0.0
    requires forall i :: 0 <= i < |distances| ==> distances[i].2 >= 0.0
    requires ArrivalTime(distances, speed, agentPosition, orderPosition, destination, now, pickUp, store).Some?
    ensures ArrivalTime(distances, speed, agentPosition, orderPosition, destination, now, pickUp, store).value
      >= now + pickUp + store
  {
    TravelNonNegative(distances, speed, agentPosition, orderPosition, Nowhere);
    TravelNonNegative(distances, speed, agentPosition, destination, orderPosition);
  }

  lemma TravelNonNegative(distances: Distances, speed: real, agentPosition: Position,
                          destination: Position, start: Position)
    requires speed > 0.0
    requires forall i :: 0 <= i < |distances| ==> distances[i].2 >= 0.0
    ensures var t := TimeForDistance(distances, speed, agentPosition, destination, start);
      t.Time? && t.time.Some? ==> t.time.value >= 0.0
  {
    var from := if start == Nowhere then agentPosition else start;
    var l := RouteLength(distances, from, destination);
    if destination != Nowhere && destination != from && l.Some? {
      var k :| 0 <= k < |distances| && distances[k].2 == l.value;
    }
  }

  datatype PickUpResult = AlreadyHolding | WaitingForProcessing | PickedUp | NotThere
  datatype StoreResult = WaitingForSlot | WrongMachine | Stored

  // ---------------------------------------------------------------------------------------
  // Positions: who stands where

  /** An agent arrives at a buffer. */
  method ArriveAtBuffer(b: Buffer, agent: nat)
    modifies b`agentsAtPosition
    ensures b.agentsAtPosition == old(b.agentsAtPosition) + [agent]
  {
    b.agentsAtPosition := b.agentsAtPosition + [agent];
  }

  /** An agent leaves a buffer; `list.remove` raises when it is not recorded there. */
  method LeaveBuffer(b: Buffer, agent: nat)
    requires agent in b.agentsAtPosition
    modifies b`agentsAtPosition
    ensures b.agentsAtPosition == RemoveFirst(old(b.agentsAtPosition), agent)
    ensures multiset(b.agentsAtPosition) == multiset(old(b.agentsAtPosition)) - multiset{agent}
  {
    b.agentsAtPosition := RemoveFirst(b.agentsAtPosition, agent);
  }

  method ArriveAtMachine(m: Machine, agent: nat)
    modifies m`agentsAtPosition
    ensures m.agentsAtPosition == old(m.agentsAtPosition) + [agent]
  {
    m.agentsAtPosition := m.agentsAtPosition + [agent];
  }

  method LeaveMachine(m: Machine, agent: nat)
    requires agent in m.agentsAtPosition
    modifies m`agentsAtPosition
    ensures m.agentsAtPosition == RemoveFirst(old(m.agentsAtPosition), agent)
    ensures multiset(m.agentsAtPosition) == multiset(old(m.agentsAtPosition)) - multiset{agent}
  {
    m.agentsAtPosition := RemoveFirst(m.agentsAtPosition, agent);
  }

  class Agent {
    const id: nat
    /** The id of the agent's cell. */
    const cellId: nat

    var position: Position
    var moving: bool
    var movingStartPosition: Position
    var movingStartTime: Option<real>
    var nextPosition: Position
    var movingTime: real
    var remainingMovingTime: real
    var movingEndTime: Option<real>
    var pickedUpItem: Order?
    var lockedItem: Order?
    var hasTask: bool
    var startedTasks: nat

    constructor (id: nat, cellId: nat, position: Position)
      ensures this.id == id && this.cellId == cellId && this.position == position
      ensures !moving && movingStartPosition == Nowhere && movingStartTime == None
      ensures nextPosition == Nowhere && movingTime == 0.0 && remainingMovingTime == 0.0
      ensures movingEndTime == None && pickedUpItem == null && lockedItem == null
      ensures !hasTask && startedTasks == 0
      ensures Valid()
    {
      this.id := id;
      this.cellId := cellId;
      this.position := position;
      moving, movingStartPosition, movingStartTime := false, Nowhere, None;
      nextPosition, movingTime, remainingMovingTime := Nowhere, 0.0, 0.0;
      movingEndTime, pickedUpItem, lockedItem := None, null, null;
      hasTask, startedTasks := false, 0;
    }

    /** A moving agent is nowhere and heads somewhere; the order it locked is locked by it. */
    ghost predicate Valid()
      reads this, lockedItem
    {
      && (moving ==> position == Nowhere && nextPosition != Nowhere)
      && (lockedItem != null ==> lockedItem.lockedBy == Some(id))
    }

    /**
     * The decision of `main_process` when an order is chosen: the agent has a task, the
     * order is locked by this agent and is the agent's locked item.
     */
    method CommitTask(order: Order)
      modifies this`hasTask, this`startedTasks, this`lockedItem, order`lockedBy
      ensures hasTask && startedTasks == old(startedTasks) + 1
      ensures lockedItem == order && order.lockedBy == Some(id)
      ensures old(moving ==> position == Nowhere && nextPosition != Nowhere) ==> Valid()
    {
      hasTask := true;
      startedTasks := startedTasks + 1;
      order.lockedBy := Some(id);
      lockedItem := order;
    }

    /**
     * `announce_arrival` at a buffer: the reservation `(order, time, agent)` is appended; at
     * an interface buffer the cell on the other side learns of the order too (the lower cell
     * when the buffer's upper cell is this agent's cell, else the upper cell if there is one).
     * The buffer stays within its capacity exactly when `free_slots` held beforehand.
     */
    method AnnounceAtBuffer(order: Order, b: Buffer, myCell: Cell, arrival: real)
      requires b.kind == InterfaceBuffer && b.upperCell == myCell ==> b.lowerCell != null
      modifies b`expectedOrders
      modifies CellSlot(if b.kind == InterfaceBuffer && b.upperCell == myCell then b.lowerCell
                        else if b.kind == InterfaceBuffer then b.upperCell else null)`expectedOrders
      ensures b.expectedOrders == old(b.expectedOrders) + [Reservation(order, arrival, id)]
      ensures b.kind == InterfaceBuffer && b.upperCell == myCell ==>
        b.lowerCell.expectedOrders == old(b.lowerCell.expectedOrders) + [Announcement(order, arrival, InBuffer(b.id), id)]
      ensures b.kind == InterfaceBuffer && b.upperCell != myCell && b.upperCell != null ==>
        b.upperCell.expectedOrders == old(b.upperCell.expectedOrders) + [Announcement(order, arrival, InBuffer(b.id), id)]
      ensures b.Committed() == old(b.Committed()) + 1
      ensures b.WithinCapacity() <==> old(b.FreeSlots())
    {
      b.expectedOrders := b.expectedOrders + [Reservation(order, arrival, id)];
      if b.kind == InterfaceBuffer {
        if b.upperCell == myCell {
          b.lowerCell.InformIncomingOrder(id, order, arrival, InBuffer(b.id));
        } else if b.upperCell != null {
          b.upperCell.InformIncomingOrder(id, order, arrival, InBuffer(b.id));
        }
      }
    }

    /** `announce_arrival` at a machine: the reservation is appended. */
    method AnnounceAtMachine(order: Order, m: Machine, arrival: real)
      modifies m`expectedOrders
      ensures m.expectedOrders == old(m.expectedOrders) + [Reservation(order, arrival, id)]
    {
      m.expectedOrders := m.expectedOrders + [Reservation(order, arrival, id)];
    }

    /**
     * `moving_proc` up to its wait. An agent standing somewhere else than `destination`
     * sets off (taking `travel`, the source's `time_for_distance(destination)`) and a
     * carried item goes with it, nowhere in particular; an agent already there, or moving,
     * does not start again. A move resumed while under way (position `None`) just goes on.
     */
    method BeginMove(destination: Position, travel: real, now: real) returns (goes: bool)
      requires destination != Nowhere
      modifies this`moving, this`movingStartPosition, this`movingStartTime, this`nextPosition
      modifies this`movingTime, this`remainingMovingTime, this`movingEndTime, this`position
      modifies Slot(pickedUpItem)`position
      ensures old(position) == Nowhere ==> goes && unchanged(this) && unchanged(Slot(pickedUpItem))
      ensures old(position) != Nowhere && (old(moving) || old(position) == destination) ==>
        !goes && unchanged(this) && unchanged(Slot(pickedUpItem))
      ensures old(position) != Nowhere && !old(moving) && old(position) != destination ==>
        && goes && moving && position == Nowhere && movingStartPosition == old(position)
        && movingStartTime == Some(now) && nextPosition == destination
        && movingTime == travel && remainingMovingTime == travel && movingEndTime == Some(now + travel)
        && (pickedUpItem != null ==> pickedUpItem.position == Nowhere)
      ensures old(Valid()) && lockedItem != pickedUpItem ==> Valid()
    {
      if position == Nowhere {
        return true;
      }
      if moving || position == destination {
        return false;
      }
      moving := true;
      movingStartPosition := position;
      movingStartTime := Some(now);
      nextPosition := destination;
      movingTime := travel;
      remainingMovingTime := travel;
      movingEndTime := Some(now + travel);
      if pickedUpItem != null {
        pickedUpItem.position := Nowhere;
      }
      position := Nowhere;
      goes := true;
    }

    /** The end of a move: the agent, and the item it carries, are at the destination. */
    method FinishMove()
      modifies this`moving, this`remainingMovingTime, this`movingTime, this`movingEndTime
      modifies this`position, this`nextPosition, Slot(pickedUpItem)`position
      ensures !moving && remainingMovingTime == 0.0 && movingTime == 0.0 && movingEndTime == None
      ensures position == old(nextPosition) && nextPosition == Nowhere
      ensures pickedUpItem != null ==> pickedUpItem.position == position
      ensures old(Valid()) && lockedItem != pickedUpItem ==> Valid()
    {
      moving := false;
      remainingMovingTime := 0.0;
      movingTime := 0.0;
      movingEndTime := None;
      position := nextPosition;
      nextPosition := Nowhere;
      if pickedUpItem != null {
        pickedUpItem.position := position;
      }
    }

    /**
     * `pick_up` at a machine: with empty hands, the item is taken from the machine output
     * when it is there; otherwise the agent waits for the machine to release it.
     */
    method PickUpFromMachine(item: Order, m: Machine) returns (r: PickUpResult)
      requires position == InMachine(m.id)
      modifies this`pickedUpItem, item`pickedUpBy, item`position, item`waitingAgentPos, m`itemInOutput
      ensures old(pickedUpItem) != null ==> r == AlreadyHolding && unchanged(this, item, m)
      ensures old(pickedUpItem) == null && old(m.itemInOutput) != item ==>
        && r == WaitingForProcessing && unchanged(this, m)
        && item.waitingAgentPos == old(item.waitingAgentPos) + [(id, position)]
        && unchanged(item`pickedUpBy, item`position)
      ensures old(pickedUpItem) == null && old(m.itemInOutput) == item ==>
        && r == PickedUp && pickedUpItem == item && item.pickedUpBy == Some(id)
        && item.position == Nowhere && m.itemInOutput == null
        && unchanged(item`waitingAgentPos)
    {
      if pickedUpItem != null {
        return AlreadyHolding;
      }
      if m.itemInOutput != item {
        item.waitingAgentPos := item.waitingAgentPos + [(id, position)];
        return WaitingForProcessing;
      }
      pickedUpItem := item;
      item.pickedUpBy := Some(id);
      item.position := Nowhere;
      m.itemInOutput := null;
      r := PickedUp;
    }

    /**
     * `pick_up` at a buffer: with empty hands, an item stored there is taken and the buffer
     * releases its slot (`item_picked_up`, which may admit a queued arrival or name the
     * waiting agent to wake); an item that is not there is not picked up.
     */
    method PickUpFromBuffer(item: Order, b: Buffer, mainCell: Cell, now: real)
      returns (r: PickUpResult, woken: Option<nat>)
      requires position == InBuffer(b.id)
      requires forall i :: 0 <= i < |b.itemsWaiting| ==> b.itemsWaiting[i].0.startingPosition == b.id
      modifies this`pickedUpItem, item`pickedUpBy, item`position
      modifies b`itemsInStorage, b`full, b`itemsWaiting
      modifies b.WaitingOrders()`position, b.WaitingOrders()`started
      modifies b.WaitingOrders()`currentCell, b.WaitingOrders()`inCellSince
      modifies mainCell`ordersInCell, mainCell`expectedOrders
      ensures old(pickedUpItem) != null ==>
        r == AlreadyHolding && unchanged(this, item, b, mainCell) && woken == None
      ensures old(pickedUpItem) == null && item !in old(b.itemsInStorage) ==>
        r == NotThere && unchanged(this, item, b, mainCell) && woken == None
      ensures old(pickedUpItem) == null && item in old(b.itemsInStorage) ==>
        && r == PickedUp && pickedUpItem == item && item.pickedUpBy == Some(id)
        && item.position == Nowhere
      ensures var removed := RemoveFirst(old(b.itemsInStorage), item);
        old(pickedUpItem) == null && item in old(b.itemsInStorage) && old(b.itemsWaiting) == [] ==>
          && b.itemsInStorage == removed && !b.full && b.itemsWaiting == []
          && woken == (if b.waitingAgents == [] then None else Some(b.waitingAgents[0]))
          && unchanged(mainCell)
      ensures var removed := RemoveFirst(old(b.itemsInStorage), item);
        old(pickedUpItem) == null && item in old(b.itemsInStorage) && old(b.itemsWaiting) != [] ==>
          var sorted := SortBy(old(b.itemsWaiting), ByWaitTime);
          var next := sorted[0].0;
          && woken == None
          && unchanged(old(b.WaitingOrders()) - {next, item})
          && (|removed| < b.capacity ==>
                && b.itemsInStorage == removed + [next]
                && b.full == (old(b.full) || |b.itemsInStorage| == b.capacity)
                && b.itemsWaiting == sorted[1..]
                && (next != item ==> next.position == InBuffer(b.id)) && next.started
                && next.currentCell == Some(mainCell.id) && next.inCellSince == Some(now)
                && mainCell.ordersInCell == old(mainCell.ordersInCell) + [next]
                && mainCell.expectedOrders == CancelFirst(old(mainCell.expectedOrders), next))
          && (|removed| >= b.capacity ==>
                && b.itemsInStorage == removed && b.full == old(b.full)
                && b.itemsWaiting == sorted[1..] + [(next, now)]
                && unchanged(mainCell) && unchanged(old(b.WaitingOrders()) - {item}))
      ensures old(b.FullConsistent()) ==> b.FullConsistent()
    {
      woken := None;
      if pickedUpItem != null {
        return AlreadyHolding, None;
      }
      if item !in b.itemsInStorage {
        return NotThere, None;
      }
      pickedUpItem := item;
      item.pickedUpBy := Some(id);
      woken := b.ItemPickedUp(item, mainCell, now);
      item.position := Nowhere;
      r := PickedUp;
    }

    /** The end of `wait_for_item_processing`: the agent no longer waits at `pos` for `item`. */
    method EndWaitForProcessing(item: Order, pos: Position)
      requires (id, pos) in item.waitingAgentPos
      modifies item`waitingAgentPos
      ensures item.waitingAgentPos == RemoveFirst(old(item.waitingAgentPos), (id, pos))
      ensures multiset(item.waitingAgentPos) == multiset(old(item.waitingAgentPos)) - multiset{(id, pos)}
    {
      item.waitingAgentPos := RemoveFirst(item.waitingAgentPos, (id, pos));
    }

    /** The end of `wait_for_free_slot` at a buffer: the agent leaves its waiting list. */
    method EndWaitForSlotAtBuffer(b: Buffer)
      requires id in b.waitingAgents
      modifies b`waitingAgents
      ensures b.waitingAgents == RemoveFirst(old(b.waitingAgents), id)
      ensures multiset(b.waitingAgents) == multiset(old(b.waitingAgents)) - multiset{id}
    {
      b.waitingAgents := RemoveFirst(b.waitingAgents, id);
    }

    /** The end of `wait_for_free_slot` at a machine. */
    method EndWaitForSlotAtMachine(m: Machine)
      requires id in m.waitingAgents
      modifies m`waitingAgents
      ensures m.waitingAgents == RemoveFirst(old(m.waitingAgents), id)
      ensures multiset(m.waitingAgents) == multiset(old(m.waitingAgents)) - multiset{id}
    {
      m.waitingAgents := RemoveFirst(m.waitingAgents, id);
    }

    /**
     * `store_item` at a machine. An occupied or locked input makes the agent wait for a free
     * slot; an item whose next task is not the machine's raises; otherwise the item's
     * reservation is consumed, the item is in the machine input and the agent's hands are
     * empty; the agents waiting for the item at its position are the ones woken. (The input
     * lock is held only for the duration of the store.)
     */
    method StoreInMachine(m: Machine) returns (r: StoreResult, woken: seq<nat>)
      requires pickedUpItem != null && position == InMachine(m.id)
      requires exists i :: 0 <= i < |m.expectedOrders| && m.expectedOrders[i].order == pickedUpItem
      modifies this`pickedUpItem, Slot(pickedUpItem)`pickedUpBy
      modifies m`waitingAgents, m`expectedOrders, m`itemInInput
      ensures var item := old(pickedUpItem);
        old(m.itemInInput != null || m.inputLock) ==>
          && r == WaitingForSlot && m.waitingAgents == old(m.waitingAgents) + [id]
          && unchanged(this, item) && unchanged(m`expectedOrders, m`itemInInput) && woken == []
      ensures var item := old(pickedUpItem);
        old(m.itemInInput == null && !m.inputLock) && item.nextTask != m.performableTask ==>
          r == WrongMachine && unchanged(this, item, m) && woken == []
      ensures var item := old(pickedUpItem);
        old(m.itemInInput == null && !m.inputLock) && item.nextTask == m.performableTask ==>
          && r == Stored && m.itemInInput == item
          && m.expectedOrders == ConsumeReservation(old(m.expectedOrders), item)
          && pickedUpItem == null && item.pickedUpBy == None
          && unchanged(m`waitingAgents)
          && woken == AgentsWaitingAt(item.waitingAgentPos, item.position)
    {
      woken := [];
      var item := pickedUpItem;
      if m.itemInInput != null || m.inputLock {
        m.waitingAgents := m.waitingAgents + [id];
        return WaitingForSlot, [];
      }
      if item.nextTask != m.performableTask {
        return WrongMachine, [];
      }
      m.expectedOrders := ConsumeReservation(m.expectedOrders, item);
      m.itemInInput := item;
      woken := AgentsWaitingAt(item.waitingAgentPos, item.position);
      pickedUpItem := null;
      item.pickedUpBy := None;
      r := Stored;
    }

    /**
     * `store_item` at a buffer. A full buffer makes the agent wait for a free slot.
     * Otherwise the reservation is consumed, the item is appended (raising `full` when the
     * capacity is reached) and the agent's hands are empty. The stored order takes the place
     * its reservation held, so the buffer's commitment never grows. At an interface buffer
     * the store goes on with the item's cell change, `ChangeCell`.
     */
    method StoreInBuffer(b: Buffer) returns (r: StoreResult)
      requires pickedUpItem != null && position == InBuffer(b.id)
      requires exists i :: 0 <= i < |b.expectedOrders| && b.expectedOrders[i].order == pickedUpItem
      modifies this`pickedUpItem, Slot(pickedUpItem)`pickedUpBy
      modifies b`waitingAgents, b`expectedOrders, b`itemsInStorage, b`full
      ensures var item := old(pickedUpItem);
        old(b.full) ==>
          && r == WaitingForSlot && b.waitingAgents == old(b.waitingAgents) + [id]
          && unchanged(this, item) && unchanged(b`expectedOrders, b`itemsInStorage, b`full)
      ensures var item := old(pickedUpItem);
        !old(b.full) ==>
          && r == Stored && pickedUpItem == null && item.pickedUpBy == None
          && b.expectedOrders == ConsumeReservation(old(b.expectedOrders), item)
          && b.itemsInStorage == old(b.itemsInStorage) + [item]
          && b.full == (|b.itemsInStorage| == b.capacity)
          && unchanged(b`waitingAgents)
      ensures var item := old(pickedUpItem);
        !old(b.full) ==> b.Committed() == old(b.Committed()) - (if item.lockedBy.Some? then 1 else 0)
      ensures old(b.WithinCapacity()) ==> b.WithinCapacity()
      ensures old(b.FullConsistent()) ==> b.FullConsistent()
    {
      var item := pickedUpItem;
      if b.full {
        b.waitingAgents := b.waitingAgents + [id];
        return WaitingForSlot;
      }
      LockedCountAppend(b.itemsInStorage, item);
      b.expectedOrders := ConsumeReservation(b.expectedOrders, item);
      b.itemsInStorage := b.itemsInStorage + [item];
      if |b.itemsInStorage| == b.capacity {
        b.full := true;
      }
      pickedUpItem := null;
      item.pickedUpBy := None;
      r := Stored;
    }

    /**
     * The cell change after an item is stored in an interface buffer: it leaves the
     * agent's cell and enters the lower cell (when the buffer's upper cell is the agent's
     * cell) or the upper cell; at the main cell's output (no upper cell) it is finished.
     */
    method ChangeCell(item: Order, b: Buffer, myCell: Cell, now: real) returns (woken: Option<nat>)
      requires item in myCell.ordersInCell && item in b.itemsInStorage
      requires b.upperCell == myCell ==> b.lowerCell != null && b.lowerCell != myCell
      modifies item`inCellSince, item`currentCell, item`position, item`completed, item`completedAt
      modifies b`itemsInStorage, b`full
      modifies myCell`ordersInCell
      modifies CellSlot(b.lowerCell)`ordersInCell, CellSlot(b.lowerCell)`expectedOrders
      modifies CellSlot(b.upperCell)`ordersInCell, CellSlot(b.upperCell)`expectedOrders
      ensures myCell.ordersInCell == RemoveFirst(old(myCell.ordersInCell), item)
      ensures b.upperCell != null ==> unchanged(b) && woken == None
      ensures b.upperCell == myCell ==>
        && b.lowerCell.ordersInCell == old(b.lowerCell.ordersInCell) + [item]
        && b.lowerCell.expectedOrders == CancelFirst(old(b.lowerCell.expectedOrders), item)
        && item.currentCell == Some(b.lowerCell.id)
      ensures b.upperCell != myCell && b.upperCell != null ==>
        && b.upperCell.ordersInCell == old(b.upperCell.ordersInCell) + [item]
        && b.upperCell.expectedOrders == CancelFirst(old(b.upperCell.expectedOrders), item)
        && item.currentCell == Some(b.upperCell.id)
      ensures b.upperCell == null && old(item.position) == InBuffer(b.id) && item.tasksFinished ==>
        && item.completed && item.currentCell == None && !b.full
        && b.itemsInStorage == RemoveFirst(old(b.itemsInStorage), item)
      ensures old(b.FullConsistent()) ==> b.FullConsistent()
    {
      woken := None;
      myCell.RemoveOrderInCell(item);
      if b.upperCell == myCell {
        b.lowerCell.NewOrderInCell(item, now);
      } else if b.upperCell != null {
        item.currentCell := Some(b.upperCell.id);
        b.upperCell.NewOrderInCell(item, now);
      } else {
        woken := b.OrderFinished(item, now);
      }
    }

    /**
     * `ChangeCell` as the source writes it: at the main output it calls `order_finished` as
     * written, so the buffer's `full` flag stays as it was after the order leaves.
     */
    method ChangeCellAsWritten(item: Order, b: Buffer, myCell: Cell, now: real)
      requires item in myCell.ordersInCell && item in b.itemsInStorage
      requires b.upperCell == myCell ==> b.lowerCell != null && b.lowerCell != myCell
      modifies item`inCellSince, item`currentCell, item`position, item`completed, item`completedAt
      modifies b`itemsInStorage
      modifies myCell`ordersInCell
      modifies CellSlot(b.lowerCell)`ordersInCell, CellSlot(b.lowerCell)`expectedOrders
      modifies CellSlot(b.upperCell)`ordersInCell, CellSlot(b.upperCell)`expectedOrders
      ensures myCell.ordersInCell == RemoveFirst(old(myCell.ordersInCell), item)
      ensures b.upperCell != null ==> unchanged(b)
      ensures b.upperCell == myCell ==>
        && b.lowerCell.ordersInCell == old(b.lowerCell.ordersInCell) + [item]
        && b.lowerCell.expectedOrders == CancelFirst(old(b.lowerCell.expectedOrders), item)
        && item.currentCell == Some(b.lowerCell.id)
      ensures b.upperCell != myCell && b.upperCell != null ==>
        && b.upperCell.ordersInCell == old(b.upperCell.ordersInCell) + [item]
        && b.upperCell.expectedOrders == CancelFirst(old(b.upperCell.expectedOrders), item)
        && item.currentCell == Some(b.upperCell.id)
      ensures b.upperCell == null && old(item.position) == InBuffer(b.id) && item.tasksFinished ==>
        && item.completed && item.currentCell == None
        && b.itemsInStorage == RemoveFirst(old(b.itemsInStorage), item)
      ensures b.full == old(b.full)
    {
      myCell.RemoveOrderInCell(item);
      if b.upperCell == myCell {
        b.lowerCell.NewOrderInCell(item, now);
      } else if b.upperCell != null {
        item.currentCell := Some(b.upperCell.id);
        b.upperCell.NewOrderInCell(item, now);
      } else {
        b.OrderFinishedAsWritten(item, now);
      }
    }

    /**
     * The end of `item_from_to` and of the `main_process` that yielded it: the order is
     * unlocked, the agent holds no lock and has no task.
     */
    method EndTask(item: Order)
      modifies item`lockedBy, this`lockedItem, this`hasTask
      ensures item.lockedBy == None && lockedItem == null && !hasTask
      ensures old(moving ==> position == Nowhere && nextPosition != Nowhere) ==> Valid()
    {
      item.lockedBy := None;
      lockedItem := null;
      hasTask := false;
    }
  }

  function CellSlot(c: Cell?): set<Cell> {
    if c == null then {} else {c}
  }

  /** The start of the scenario below: an order arrives at the main input (id 1) and is finished. */
  method ArrivedFinishedOrder(step: Step) returns (input: Buffer, mainCell: Cell, o: Order)
    ensures fresh(input) && fresh(mainCell) && fresh(o)
    ensures input.id == 1 && input.itemsInStorage == [o] && input.itemsWaiting == []
    ensures o in mainCell.ordersInCell && o.tasksFinished
  {
    input := new Buffer(1, 1, InterfaceBuffer);
    mainCell := new Cell(0);
    o := new Order(OrderType(0, 0, [step]), 0.0, 10.0, 0, 1.0, 1);
    input.OrderArrival(o, mainCell, 0.0);
    o.ProcessingStepFinished(MakeStep(DummyConfig, true));
  }

  /**
   * ... then an agent at the main input locks the order and reserves a place for it in the
   * capacity-1 main output (id 0) ...
   */
  method ReservedFinishedOrder(step: Step) returns (agent: Agent, input: Buffer, output: Buffer, mainCell: Cell, o: Order)
    ensures fresh(agent) && fresh(input) && fresh(output) && fresh(mainCell) && fresh(o)
    ensures input.id == 1 && input.itemsInStorage == [o] && input.itemsWaiting == []
    ensures output.id == 0 && output.capacity == 1 && output.kind == InterfaceBuffer
    ensures output.itemsInStorage == [] && !output.full && output.upperCell == null && output.lowerCell == null
    ensures output.expectedOrders == [Reservation(o, 1.0, 0)]
    ensures agent.id == 0 && agent.position == InBuffer(1) && !agent.moving && agent.pickedUpItem == null
    ensures o in mainCell.ordersInCell && o.tasksFinished
  {
    input, mainCell, o := ArrivedFinishedOrder(step);
    output := new Buffer(0, 1, InterfaceBuffer);
    agent := new Agent(0, 0, InBuffer(1));
    agent.CommitTask(o);
    agent.AnnounceAtBuffer(o, output, mainCell, 1.0);
  }

  /** ... and picks it up. */
  method PickedUpFinishedOrder(step: Step) returns (agent: Agent, output: Buffer, mainCell: Cell, o: Order)
    ensures fresh(agent) && fresh(output) && fresh(mainCell) && fresh(o)
    ensures output.id == 0 && output.capacity == 1 && output.kind == InterfaceBuffer
    ensures output.itemsInStorage == [] && !output.full && output.upperCell == null && output.lowerCell == null
    ensures output.expectedOrders == [Reservation(o, 1.0, 0)]
    ensures agent.id == 0 && agent.position == InBuffer(1) && !agent.moving && agent.pickedUpItem == o
    ensures o in mainCell.ordersInCell && o.tasksFinished
  {
    var input;
    agent, input, output, mainCell, o := ReservedFinishedOrder(step);
    var picked, woken := agent.PickUpFromBuffer(o, input, mainCell, 0.0);
  }

  /**
   * The discrepancy of `order_finished` as written: the agent carries the finished order to
   * the capacity-1 main output buffer and stores it there, which raises `full`; the order
   * then leaves through the cell change, and the buffer is empty but still full, so the
   * next agent that brings an order waits for a slot that never frees.
   */
  method FinishedOrderLeavesOutputFull(step: Step) returns (output: Buffer, o: Order)
    ensures output.capacity == 1 && output.itemsInStorage == [] && output.full
    ensures !output.FullConsistent()
    ensures o.completed
  {
    var agent, mainCell;
    agent, output, mainCell, o := PickedUpFinishedOrder(step);
    var goes := agent.BeginMove(InBuffer(0), 1.0, 0.0);
    agent.FinishMove();
    assert output.expectedOrders[0].order == agent.pickedUpItem;
    var stored := agent.StoreInBuffer(output);
    agent.ChangeCellAsWritten(o, output, mainCell, 5.0);
  }
}
