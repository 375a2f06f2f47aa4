/**
 * Orders (Order.py): the unit of work. `work_schedule` is fixed at creation and
 * `remaining_tasks` is the suffix of it still to be performed; `next_task` is its head, or
 * the hidden dummy step once every step is done.
 *
 * References from an order to the places it occupies are ids (`Position`, cell and agent
 * ids), so that buffers, machines and cells can hold Order objects without an import cycle.
 * `order_arrival` and `order_finished` act on a buffer and are modelled in module Buffers.
 */
module Orders {
  import opened Wrappers
  import opened ProcessingSteps
  import opened ConsecutiveTasks

  /** An order type (`OrderType`); `instance` is the creation index its `__eq__` compares. */
  datatype OrderType = OrderType(instance: nat, typeId: int, workSchedule: seq<Step>)

  /** Where an order (or an agent) is: Python's `None`, a buffer, or a machine. */
  datatype Position = Nowhere | InBuffer(buffer: nat) | InMachine(machine: nat)

  /** A slot claim `(order, time, agent)` in a buffer's or machine's `expected_orders`. */
  datatype Reservation = Reservation(order: Order, time: real, agent: nat)

  /**
   * The agents of a `waiting_agent_pos` list that wait at `p`, in list order: those a loop
   * `for agent, place in waiting_agent_pos: if place == p` interrupts.
   */
  function AgentsWaitingAt(w: seq<(nat, Position)>, p: Position): (r: seq<nat>)
    ensures |r| <= |w|
    ensures forall a :: a in r <==> (a, p) in w
  {
    if w == [] then []
    else
      var rest := AgentsWaitingAt(w[1..], p);
      assert forall x :: x in w <==> x == w[0] || x in w[1..];
      (if w[0].1 == p then [w[0].0] else []) + rest
  }

  ghost predicate IsSuffix<T>(s: seq<T>, t: seq<T>) {
    |s| <= |t| && s == t[|t| - |s|..]
  }

  class Order {
    const orderType: OrderType
    const workSchedule: seq<Step>
    const start: real
    const dueTo: real
    const urgency: int
    const complexity: real
    /** Id of the buffer the order spawns in: the main cell's input buffer. */
    const startingPosition: nat

    var started: bool
    var overdue: bool
    var tasksFinished: bool
    var processing: bool
    var waitForRepair: bool
    var completed: bool
    var completedAt: Option<real>
    var remainingTasks: seq<Step>
    var nextTask: Step
    var position: Position
    var currentCell: Option<nat>
    var inCellSince: Option<real>
    var pickedUpBy: Option<nat>
    var blockedBy: Order?
    var lockedBy: Option<nat>
    var waitingAgentPos: seq<(nat, Position)>

    /** The remaining steps are a suffix of the schedule, headed by `next_task`. */
    ghost predicate Valid()
      reads this
    {
      && IsSuffix(remainingTasks, workSchedule)
      && (tasksFinished <==> remainingTasks == [])
      && (remainingTasks != [] ==> nextTask == remainingTasks[0])
    }

    /** `Order.__init__`; the source indexes `remaining_tasks[0]`, so the schedule is not empty. */
    constructor (orderType: OrderType, start: real, dueTo: real, urgency: int, complexity: real,
                 startingPosition: nat)
      requires |orderType.workSchedule| > 0
      ensures Valid()
      ensures this.orderType == orderType && workSchedule == orderType.workSchedule
      ensures this.start == start && this.dueTo == dueTo && this.urgency == urgency
      ensures this.complexity == complexity && this.startingPosition == startingPosition
      ensures remainingTasks == workSchedule && nextTask == workSchedule[0]
      ensures !started && !overdue && !tasksFinished && !processing && !waitForRepair && !completed
      ensures completedAt == None && position == Nowhere && currentCell == None
      ensures inCellSince == None && pickedUpBy == None && blockedBy == null && lockedBy == None
      ensures waitingAgentPos == []
    {
      this.orderType := orderType;
      workSchedule := orderType.workSchedule;
      this.start := start;
      this.dueTo := dueTo;
      this.urgency := urgency;
      this.complexity := complexity;
      this.startingPosition := startingPosition;
      started, overdue, tasksFinished := false, false, false;
      processing, waitForRepair, completed := false, false, false;
      completedAt := None;
      remainingTasks := orderType.workSchedule;
      nextTask := orderType.workSchedule[0];
      position, currentCell, inCellSince := Nowhere, None, None;
      pickedUpBy, blockedBy, lockedBy := None, null, None;
      waitingAgentPos := [];
    }

    /**
     * `processing_step_finished`: drop the head of `remaining_tasks`. When it was the last
     * step, `next_task` becomes the dummy and the order is finished. Deleting from an empty
     * list raises in the source, hence the precondition.
     */
    method ProcessingStepFinished(dummy: Step)
      requires remainingTasks != []
      modifies this`remainingTasks, this`nextTask, this`tasksFinished
      ensures remainingTasks == old(remainingTasks)[1..]
      ensures |old(remainingTasks)| == 1 ==> nextTask == dummy && tasksFinished
      ensures |old(remainingTasks)| > 1 ==> nextTask == remainingTasks[0] && tasksFinished == old(tasksFinished)
      ensures old(Valid()) ==> Valid()
    {
      if |remainingTasks| == 1 {
        remainingTasks := remainingTasks[1..];
        nextTask := dummy;
        tasksFinished := true;
      } else {
        remainingTasks := remainingTasks[1..];
        nextTask := remainingTasks[0];
      }
    }

    /** `machine_failure`: the order waits for repair exactly while its machine is broken. */
    method MachineFailure(broken: bool)
      modifies this`waitForRepair
      ensures waitForRepair == broken
    {
      waitForRepair := broken;
    }

    /** `set_order_overdue`, taken at time `due_to`: an uncompleted order becomes overdue. */
    method SetOrderOverdue()
      modifies this`overdue
      ensures overdue == (old(overdue) || !completed)
    {
      if !completed {
        overdue := true;
      }
    }

    /** The criteria `get_additional_ranking_criteria` returns for this order. */
    function AdditionalRankingCriteria(distance: Option<real>, access: Access, now: real,
                                       cellCounts: TaskCounts): (r: RankingCriteria)
      reads this
      ensures r.estAccessibleIn >= 0.0
      ensures var raw := RawAccessEstimate(processing, waitForRepair, access, now, distance.GetOr(0.0));
        (raw >= 0.0 ==> r.estAccessibleIn == raw) && (raw < 0.0 ==> r.estAccessibleIn == 0.0)
      ensures r.tasksInCellPerformable ==
        ConsecutivePerformableTasks(remainingTasks, cellCounts) - (if processing then 1 else 0)
      ensures r.relativeOrderDuration.Some? <==> dueTo != start
    {
      var d := distance.GetOr(0.0);
      var raw := RawAccessEstimate(processing, waitForRepair, access, now, d);
      var remaining := (|remainingTasks| as real) - (if processing then 0.5 else 0.0);
      var performable := ConsecutivePerformableTasks(remainingTasks, cellCounts) - (if processing then 1 else 0);
      var orderLength := dueTo - start;
      RankingCriteria(d, if raw < 0.0 then 0.0 else raw, remaining, performable, orderLength,
                      if orderLength == 0.0 then None else Some((now - start) / orderLength))
    }
  }

  /** The values of a machine's clock that the accessibility estimate reads. */
  datatype MachineClock = MachineClock(
    remainingManufacturingTime: real, manufacturingStartTime: real,
    failureFixedIn: real, failureTime: real,
    inSetup: bool, remainingSetupTime: real, setupStartTime: real)

  /** The item in a machine's internal slot, seen from an order waiting in the machine input. */
  datatype InnerItem = InnerItem(processing: bool, waitForRepair: bool, processingTime: real)

  /**
   * Where the order is, for the estimate: not at a machine, or at one (with the machine's
   * clock, whether the order is the machine's input item, the internal item if any, and the
   * order's own setup and processing time on that machine, which the source reads from files).
   */
  datatype Access =
    | NotAtMachine
    | AtMachine(clock: MachineClock, isInputItem: bool, inner: Option<InnerItem>,
                setupTime: real, ownProcessingTime: real)

  datatype RankingCriteria = RankingCriteria(
    distance: real, estAccessibleIn: real, remainingTasks: real,
    tasksInCellPerformable: int, orderLength: real, relativeOrderDuration: Option<real>)

  /** The unclipped estimate of when the order can be picked up (Order.py, the machine cases). */
  function RawAccessEstimate(processing: bool, waitForRepair: bool, access: Access, now: real,
                             distance: real): real
  {
    match access
    case NotAtMachine => 0.0
    case AtMachine(c, isInput, inner, setupTime, own) =>
      if processing then
        c.remainingManufacturingTime - (now - c.manufacturingStartTime) - distance
      else if waitForRepair then
        c.failureFixedIn - (now - c.failureTime) + c.remainingManufacturingTime - distance
      else if isInput && inner.Some? then
        if inner.value.processing then
          c.remainingManufacturingTime - (now - c.manufacturingStartTime) + setupTime + own - distance
        else if inner.value.waitForRepair then
          c.failureFixedIn - (now - c.failureTime) + c.remainingManufacturingTime + setupTime + own - distance
        else if c.inSetup then
          c.remainingSetupTime - (now - c.setupStartTime) + inner.value.processingTime + own - distance
        else 0.0
      else 0.0
  }
}
