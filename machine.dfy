/**
 * Machine.py: a machine with three slots (input, internal, output) that performs one
 * processing step. Each SimPy generator is split into atomic transitions at the `yield`s
 * where another process can act: the state before the wait and the state after it. The
 * fixed 0.1 s handling waits of loading and releasing an item are folded into one step.
 * Durations that the source draws at random or reads from files (processing time, first
 * error, repair length) are parameters.
 *
 * Order types are compared by `instance`, as `OrderType.__eq__` does; the identity checks
 * of `process_manufacturing` coincide with that comparison because each type object has its
 * own instance number.
 */
module Machines {
  import opened Wrappers
  import opened Lists
  import opened ProcessingSteps
  import opened Orders

  /** `item.type == current_setup`, where `current_setup` may still be `None`. */
  predicate SetUpFor(current: Option<OrderType>, t: OrderType) {
    current.Some? && current.value.instance == t.instance
  }

  /** `x < bound`, where `None` stands for `float('inf')`. */
  predicate Below(x: real, bound: Option<real>) {
    bound.None? || x < bound.value
  }

  /** The order in a slot, as a set for frames. */
  function Slot(o: Order?): set<Order> {
    if o == null then {} else {o}
  }

  datatype LoadResult = Loaded | WaitingForItem | CannotLoad
  datatype StartResult = Started | Refused
  datatype ReleaseResult = NothingToRelease | WaitingForOutput | Released
  datatype CancelResult = NotConcerned | AfterSetup | Cancelled

  // ---------------------------------------------------------------------------------------
  // The choice of the next expected order in `main_process`

  /** Reservation `k` has the least time, and every earlier one a strictly larger time. */
  ghost predicate IsEarliest(s: seq<Reservation>, k: int) {
    && 0 <= k < |s|
    && (forall j :: 0 <= j < |s| ==> s[k].time <= s[j].time)
    && (forall j :: 0 <= j < k ==> s[k].time < s[j].time)
  }

  /** The index a `min_time` scan with strict `<` settles on: the first earliest reservation. */
  function EarliestIndex(s: seq<Reservation>): (k: nat)
    requires s != []
    ensures IsEarliest(s, k)
    decreases |s|
  {
    if |s| == 1 then 0
    else
      var init := s[..|s| - 1];
      var k := EarliestIndex(init);
      assert forall j :: 0 <= j < |s| - 1 ==> s[j] == init[j];
      if s[|s| - 1].time < s[k].time then
        assert forall j :: 0 <= j < |s| - 1 ==> s[k].time <= s[j].time;
        |s| - 1
      else
        assert forall j :: 0 <= j < k ==> s[k].time < s[j].time;
        k
  }

  /**
   * With the loop as written (`min_time` is never lowered, so every entry passes the test)
   * the last reservation is chosen. Two reservations, the earlier one first: the choice is
   * the later one.
   */
  lemma LastReservationNotEarliest(o1: Order, o2: Order, agent: nat)
    requires o1 != o2
    ensures var s := [Reservation(o1, 1.0, agent), Reservation(o2, 2.0, agent)];
      s[|s| - 1].order != s[EarliestIndex(s)].order
  {
    var s := [Reservation(o1, 1.0, agent), Reservation(o2, 2.0, agent)];
    assert s[0].time < s[1].time;
  }

  class Machine {
    const id: nat
    const performableTask: Step
    const baseSetupTime: real
    const errorRate: nat

    var agentsAtPosition: seq<nat>
    var waitingAgents: seq<nat>
    var waitForSetupAndLoad: bool
    var expectedOrders: seq<Reservation>
    var nextExpectedOrder: Order?
    var currentSetup: Option<OrderType>
    var previousItem: Order?

    var itemInOutput: Order?
    var itemInMachine: Order?
    var itemInInput: Order?
    var inputLock: bool

    var idle: bool
    var loadItem: bool

    var manufacturing: bool
    var manufacturingStartTime: Option<real>
    var manufacturingTime: real
    var remainingManufacturingTime: real
    var manufacturingEndTime: Option<real>

    var setup: bool
    var setupStartTime: Option<real>
    var remainingSetupTime: real
    var setupFinishedAt: Option<real>
    /** The type being set up: the local `new_task` of the suspended `setup_process`. */
    var pendingSetup: Option<OrderType>

    var failure: bool
    var failureTime: Option<real>
    var failureFixedIn: real
    var failureFixedAt: Option<real>

    /** Manufacturing time already spent on the current item in runs that a failure ended. */
    ghost var elapsedWork: real

    /** `Machine.__init__`. */
    constructor (id: nat, performableTask: Step, baseSetupTime: real, errorRate: nat)
      ensures this.id == id && this.performableTask == performableTask
      ensures this.baseSetupTime == baseSetupTime && this.errorRate == errorRate
      ensures agentsAtPosition == [] && waitingAgents == [] && !waitForSetupAndLoad
      ensures expectedOrders == [] && nextExpectedOrder == null && currentSetup == None
      ensures previousItem == null
      ensures itemInOutput == null && itemInMachine == null && itemInInput == null && !inputLock
      ensures idle && !loadItem
      ensures !manufacturing && manufacturingStartTime == None && manufacturingTime == 0.0
      ensures remainingManufacturingTime == 0.0 && manufacturingEndTime == None
      ensures !setup && setupStartTime == None && remainingSetupTime == 0.0 && setupFinishedAt == None
      ensures pendingSetup == None
      ensures !failure && failureTime == None && failureFixedIn == 0.0 && failureFixedAt == Some(0.0)
      ensures Valid() && WorkAccounted()
    {
      this.id := id;
      this.performableTask := performableTask;
      this.baseSetupTime := baseSetupTime;
      this.errorRate := errorRate;
      agentsAtPosition, waitingAgents, waitForSetupAndLoad := [], [], false;
      expectedOrders, nextExpectedOrder, currentSetup := [], null, None;
      previousItem := null;
      itemInOutput, itemInMachine, itemInInput, inputLock := null, null, null, false;
      idle, loadItem := true, false;
      manufacturing, manufacturingStartTime, manufacturingTime := false, None, 0.0;
      remainingManufacturingTime, manufacturingEndTime := 0.0, None;
      setup, setupStartTime, remainingSetupTime, setupFinishedAt := false, None, 0.0, None;
      pendingSetup := None;
      failure, failureTime, failureFixedIn, failureFixedAt := false, None, 0.0, Some(0.0);
      elapsedWork := 0.0;
    }

    /**
     * At most one of setup, manufacturing and repair is under way; a running or broken
     * manufacturing has an item and a start time; the three slots hold different orders.
     */
    ghost predicate Valid()
      reads this
    {
      && !(setup && manufacturing) && !(setup && failure) && !(manufacturing && failure)
      && (manufacturing ==> itemInMachine != null && manufacturingStartTime.Some?)
      && (failure ==> itemInMachine != null)
      && (itemInInput != null ==> itemInInput != itemInMachine && itemInInput != itemInOutput)
      && (itemInMachine != null ==> itemInMachine != itemInOutput)
    }

    /** The time of the current item's processing is the time spent plus the time left. */
    ghost predicate WorkAccounted()
      reads this
    {
      manufacturingTime == elapsedWork + remainingManufacturingTime
    }

    /** `calculate_setup_time`: no setup for the type the machine is set up for. */
    function CalculateSetupTime(t: OrderType): (r: (real, Option<OrderType>))
      reads this`currentSetup
      ensures SetUpFor(currentSetup, t) ==> r == (0.0, None)
      ensures !SetUpFor(currentSetup, t) ==> r == (baseSetupTime, Some(t))
    {
      if SetUpFor(currentSetup, t) then (0.0, None) else (baseSetupTime, Some(t))
    }

    /** `get_remaining_time`: what is left of the current run at time `now`. */
    function RemainingTime(now: real): (r: real)
      reads this`remainingManufacturingTime, this`manufacturingStartTime
      requires manufacturingStartTime.Some?
      ensures r + (now - manufacturingStartTime.value) == remainingManufacturingTime
    {
      remainingManufacturingTime - (now - manufacturingStartTime.value)
    }

    // -------------------------------------------------------------------------------------
    // main_process

    /**
     * The start of a `main_process` cycle as written: the item in the input is the next
     * expected order; otherwise the scan over `expected_orders` keeps the last entry.
     */
    method BeginCycleAsWritten() returns (started: bool)
      modifies this`nextExpectedOrder, this`waitForSetupAndLoad
      ensures started == (expectedOrders != [] || itemInInput != null)
      ensures started && itemInInput != null ==> nextExpectedOrder == itemInInput
      ensures started && itemInInput == null ==>
        nextExpectedOrder == expectedOrders[|expectedOrders| - 1].order
      ensures started ==> waitForSetupAndLoad
      ensures !started ==> unchanged(this)
    {
      started := expectedOrders != [] || itemInInput != null;
      if !started {
        return;
      }
      if itemInInput != null {
        nextExpectedOrder := itemInInput;
      } else {
        var minTime: Option<real> := None;
        var i := 0;
        while i < |expectedOrders|
          invariant 0 <= i <= |expectedOrders|
          invariant minTime == None
          invariant i > 0 ==> nextExpectedOrder == expectedOrders[i - 1].order
        {
          if Below(expectedOrders[i].time, minTime) {
            nextExpectedOrder := expectedOrders[i].order;
          }
          i := i + 1;
        }
      }
      waitForSetupAndLoad := true;
    }

    /**
     * The start of a `main_process` cycle with `min_time` lowered as the scan goes: the
     * earliest reservation is the next expected order, the first of several equally early.
     */
    method BeginCycle() returns (started: bool)
      modifies this`nextExpectedOrder, this`waitForSetupAndLoad
      ensures started == (expectedOrders != [] || itemInInput != null)
      ensures started && itemInInput != null ==> nextExpectedOrder == itemInInput
      ensures started && itemInInput == null ==>
        nextExpectedOrder == expectedOrders[EarliestIndex(expectedOrders)].order
      ensures started ==> waitForSetupAndLoad
      ensures !started ==> unchanged(this)
    {
      started := expectedOrders != [] || itemInInput != null;
      if !started {
        return;
      }
      if itemInInput != null {
        nextExpectedOrder := itemInInput;
      } else {
        var s := expectedOrders;
        var k := 0;
        var minTime := s[0].time;
        nextExpectedOrder := s[0].order;
        var i := 1;
        while i < |s|
          invariant 1 <= i <= |s|
          invariant k == EarliestIndex(s[..i])
          invariant minTime == s[k].time && nextExpectedOrder == s[k].order
        {
          assert s[..i + 1][..i] == s[..i];
          if s[i].time < minTime {
            k, minTime := i, s[i].time;
            nextExpectedOrder := s[i].order;
          }
          i := i + 1;
        }
        assert s[..i] == s;
      }
      waitForSetupAndLoad := true;
    }

    /** The end of a cycle, once loading and setup are both over. */
    method EndCycle()
      modifies this`nextExpectedOrder, this`waitForSetupAndLoad
      ensures nextExpectedOrder == null && !waitForSetupAndLoad
    {
      nextExpectedOrder := null;
      waitForSetupAndLoad := false;
    }

    /**
     * `cancel_expected_order`: only the current next expected order of a running cycle is
     * cancelled; while a setup runs the cancellation waits for its end. The interrupted cycle
     * drops the expected order, and an interrupted loading stops.
     */
    method CancelExpectedOrder(o: Order) returns (r: CancelResult)
      modifies this`nextExpectedOrder, this`waitForSetupAndLoad, this`loadItem, this`idle
      ensures !old(o == nextExpectedOrder && waitForSetupAndLoad) ==> r == NotConcerned && unchanged(this)
      ensures old(o == nextExpectedOrder && waitForSetupAndLoad) && setup ==> r == AfterSetup && unchanged(this)
      ensures old(o == nextExpectedOrder && waitForSetupAndLoad) && !setup ==>
        && r == Cancelled && nextExpectedOrder == null && !waitForSetupAndLoad && !loadItem
        && idle == (old(idle) || old(loadItem))
    {
      if o != nextExpectedOrder || !waitForSetupAndLoad {
        return NotConcerned;
      }
      if setup {
        return AfterSetup;
      }
      if loadItem {
        loadItem := false;
        idle := true;
      }
      nextExpectedOrder := null;
      waitForSetupAndLoad := false;
      r := Cancelled;
    }

    // -------------------------------------------------------------------------------------
    // setup_process

    /**
     * `setup_process` up to its wait: nothing happens on a manufacturing or broken machine,
     * nor when the machine is already set up for the item's type; otherwise the setup for
     * that type starts and lasts `BASE_SETUP_TIME`.
     */
    method StartSetup(next: Order, now: real) returns (started: bool)
      modifies this`idle, this`setup, this`setupStartTime, this`remainingSetupTime
      modifies this`setupFinishedAt, this`pendingSetup
      ensures var (time, newType) := old(CalculateSetupTime(next.orderType));
        started == (!manufacturing && !failure && time != 0.0)
      ensures !started ==> unchanged(this)
      ensures started ==>
        && !idle && setup && setupStartTime == Some(now) && remainingSetupTime == baseSetupTime
        && setupFinishedAt == Some(now + baseSetupTime) && pendingSetup == Some(next.orderType)
      ensures old(Valid()) ==> Valid()
    {
      if manufacturing || failure {
        return false;
      }
      var (time, newType) := CalculateSetupTime(next.orderType);
      if time == 0.0 {
        return false;
      }
      idle := false;
      setup := true;
      setupStartTime := Some(now);
      remainingSetupTime := time;
      setupFinishedAt := Some(now + time);
      pendingSetup := newType;
      started := true;
    }

    /** The end of a setup: the machine is set up for the new type and needs no further setup for it. */
    method FinishSetup()
      requires setup
      modifies this`setup, this`idle, this`remainingSetupTime, this`setupFinishedAt
      modifies this`setupStartTime, this`currentSetup
      ensures !setup && idle == (old(idle) || !loadItem)
      ensures remainingSetupTime == 0.0 && setupFinishedAt == None && setupStartTime == None
      ensures currentSetup == pendingSetup
      ensures pendingSetup.Some? ==> CalculateSetupTime(pendingSetup.value) == (0.0, None)
      ensures old(Valid()) ==> Valid()
    {
      setup := false;
      if !loadItem {
        idle := true;
      }
      remainingSetupTime := 0.0;
      setupFinishedAt := None;
      setupStartTime := None;
      currentSetup := pendingSetup;
    }

    // -------------------------------------------------------------------------------------
    // get_item

    /**
     * `get_item`, the load taken as one step: with no item in the input the process waits;
     * the item moves into the machine only when the machine is empty and the item's next
     * step is the machine's; otherwise the source raises. After a load, the first agent at
     * the machine that has a waiting task is woken; which agents have one is the agents'
     * state, given as `withWaitingTask`.
     */
    method GetItem(withWaitingTask: set<nat>) returns (r: LoadResult, woken: Option<nat>)
      modifies this`itemInMachine, this`itemInInput, this`loadItem, this`idle
      ensures old(itemInInput) == null ==> r == WaitingForItem && unchanged(this) && woken == None
      ensures old(itemInInput) != null && (old(itemInMachine) != null || old(itemInInput).nextTask != performableTask) ==>
        r == CannotLoad && unchanged(this) && woken == None
      ensures old(itemInInput) != null && old(itemInMachine) == null && old(itemInInput).nextTask == performableTask ==>
        && r == Loaded && itemInMachine == old(itemInInput) && itemInInput == null
        && !loadItem && idle == !setup
        && woken == FirstIn(agentsAtPosition, withWaitingTask)
      ensures old(Valid()) ==> Valid()
    {
      woken := None;
      if itemInInput == null {
        return WaitingForItem, None;
      }
      if itemInMachine != null || itemInInput.nextTask != performableTask {
        return CannotLoad, None;
      }
      idle := false;
      loadItem := true;
      itemInMachine := itemInInput;
      itemInInput := null;
      loadItem := false;
      if !setup {
        idle := true;
      }
      woken := FirstIn(agentsAtPosition, withWaitingTask);
      r := Loaded;
    }

    // -------------------------------------------------------------------------------------
    // process_manufacturing and failure_event

    /** What `process_manufacturing` demands before it starts or resumes. */
    predicate CanManufacture()
      reads this, itemInMachine
    {
      && !setup
      && itemInMachine != null
      && itemInMachine.nextTask == performableTask
      && SetUpFor(currentSetup, itemInMachine.orderType)
    }

    /**
     * `process_manufacturing` up to its wait. A new item gets its full processing time
     * `duration`; a resumed one (`new=False`) keeps the remaining time frozen at the failure.
     */
    method StartManufacturing(isNew: bool, duration: real, now: real) returns (r: StartResult)
      modifies this`manufacturingTime, this`remainingManufacturingTime, this`idle, this`manufacturing
      modifies this`manufacturingStartTime, this`manufacturingEndTime, this`elapsedWork
      modifies Slot(itemInMachine)`processing
      ensures !old(CanManufacture()) ==> r == Refused && unchanged(this) && unchanged(Slot(itemInMachine))
      ensures old(CanManufacture()) ==>
        && r == Started && !idle && manufacturing && manufacturingStartTime == Some(now)
        && itemInMachine.processing
        && (isNew ==> manufacturingTime == duration && remainingManufacturingTime == duration && elapsedWork == 0.0)
        && (!isNew ==> unchanged(this`manufacturingTime, this`remainingManufacturingTime, this`elapsedWork))
        && manufacturingEndTime == Some(now + remainingManufacturingTime)
      ensures old(Valid()) && !failure ==> Valid()
      ensures isNew && r == Started ==> WorkAccounted()
      ensures old(WorkAccounted()) ==> WorkAccounted()
    {
      if !CanManufacture() {
        return Refused;
      }
      if isNew {
        manufacturingTime := duration;
        remainingManufacturingTime := duration;
        elapsedWork := 0.0;
      }
      idle := false;
      manufacturing := true;
      manufacturingStartTime := Some(now);
      manufacturingEndTime := Some(now + remainingManufacturingTime);
      itemInMachine.processing := true;
      r := Started;
    }

    /**
     * The end of an undisturbed run: the item has its step done (`processing_step_finished`
     * exactly once) and is blocked by the output item if the output is occupied.
     */
    method CompleteManufacturing(dummy: Step)
      requires manufacturing && itemInMachine != null && itemInMachine.remainingTasks != []
      modifies this`manufacturing, this`idle, this`manufacturingStartTime
      modifies this`remainingManufacturingTime, this`previousItem, this`elapsedWork
      modifies Slot(itemInMachine)`processing, itemInMachine`remainingTasks, itemInMachine`nextTask
      modifies itemInMachine`tasksFinished, itemInMachine`blockedBy
      ensures !manufacturing && idle && manufacturingStartTime == None && remainingManufacturingTime == 0.0
      ensures previousItem == itemInMachine && !itemInMachine.processing
      ensures itemInMachine.remainingTasks == old(itemInMachine.remainingTasks)[1..]
      ensures |old(itemInMachine.remainingTasks)| == 1 ==> itemInMachine.nextTask == dummy && itemInMachine.tasksFinished
      ensures |old(itemInMachine.remainingTasks)| > 1 ==> itemInMachine.nextTask == itemInMachine.remainingTasks[0]
      ensures itemInMachine.blockedBy == if itemInOutput != null then itemInOutput else old(itemInMachine.blockedBy)
      ensures old(itemInMachine.Valid()) ==> itemInMachine.Valid()
      ensures old(Valid()) ==> Valid()
      ensures old(WorkAccounted()) ==> WorkAccounted()
    {
      var item := itemInMachine;
      manufacturing := false;
      idle := true;
      manufacturingStartTime := None;
      elapsedWork := elapsedWork + remainingManufacturingTime;
      remainingManufacturingTime := 0.0;
      previousItem := item;
      item.processing := false;
      item.ProcessingStepFinished(dummy);
      if itemInOutput != null {
        item.blockedBy := itemInOutput;
      }
    }

    /**
     * `failure_event` up to its wait, as written: the time left is computed from the full
     * processing time `manufacturing_time` and the start of the current run only.
     */
    method FailureEventAsWritten(now: real, repair: real)
      requires manufacturing && manufacturingStartTime.Some? && itemInMachine != null
      modifies this`failure, this`failureTime, this`failureFixedIn, this`failureFixedAt
      modifies this`manufacturing, this`remainingManufacturingTime, this`manufacturingEndTime
      modifies itemInMachine`waitForRepair
      ensures failure && failureTime == Some(now) && failureFixedIn == repair
      ensures failureFixedAt == Some(repair + now) && !manufacturing
      ensures remainingManufacturingTime == manufacturingTime - (now - old(manufacturingStartTime).value)
      ensures manufacturingEndTime == Some(repair + now + remainingManufacturingTime)
      ensures itemInMachine.waitForRepair
    {
      failure := true;
      failureTime := Some(now);
      failureFixedIn := repair;
      failureFixedAt := Some(repair + now);
      manufacturing := false;
      remainingManufacturingTime := manufacturingTime - (now - manufacturingStartTime.value);
      manufacturingEndTime := Some(failureFixedAt.value + remainingManufacturingTime);
      itemInMachine.MachineFailure(true);
    }

    /**
     * `failure_event` up to its wait, with the time left taken from the time that was left
     * when the current run began: the work done before and after a failure adds up to the
     * item's processing time however many failures interrupt it.
     */
    method FailureEvent(now: real, repair: real)
      requires manufacturing && manufacturingStartTime.Some? && itemInMachine != null
      modifies this`failure, this`failureTime, this`failureFixedIn, this`failureFixedAt
      modifies this`manufacturing, this`remainingManufacturingTime, this`manufacturingEndTime
      modifies this`elapsedWork, itemInMachine`waitForRepair
      ensures failure && failureTime == Some(now) && failureFixedIn == repair
      ensures failureFixedAt == Some(repair + now) && !manufacturing
      ensures remainingManufacturingTime == old(RemainingTime(now))
      ensures manufacturingEndTime == Some(repair + now + remainingManufacturingTime)
      ensures itemInMachine.waitForRepair
      ensures old(Valid()) ==> Valid()
      ensures old(WorkAccounted()) ==> WorkAccounted()
    {
      failure := true;
      failureTime := Some(now);
      failureFixedIn := repair;
      failureFixedAt := Some(repair + now);
      manufacturing := false;
      elapsedWork := elapsedWork + (now - manufacturingStartTime.value);
      remainingManufacturingTime := remainingManufacturingTime - (now - manufacturingStartTime.value);
      manufacturingEndTime := Some(failureFixedAt.value + remainingManufacturingTime);
      itemInMachine.MachineFailure(true);
    }

    /** The end of a repair; `process_manufacturing(new=False)` follows. */
    method FailureEnd()
      requires itemInMachine != null
      modifies this`failure, this`failureTime, this`failureFixedIn, this`failureFixedAt
      modifies itemInMachine`waitForRepair
      ensures !failure && failureTime == None && failureFixedIn == 0.0 && failureFixedAt == None
      ensures !itemInMachine.waitForRepair
      ensures old(Valid()) ==> Valid()
    {
      failure := false;
      failureTime := None;
      failureFixedIn := 0.0;
      failureFixedAt := None;
      itemInMachine.MachineFailure(false);
    }

    // -------------------------------------------------------------------------------------
    // release_item_to_output

    /**
     * `release_item_to_output`: nothing to do while manufacturing or when empty; an
     * occupied output blocks the item, which then waits; otherwise the item moves out and
     * the agents waiting for it at this machine are woken.
     */
    method ReleaseItemToOutput() returns (r: ReleaseResult, woken: seq<nat>)
      modifies this`itemInMachine, this`itemInOutput, this`idle
      modifies Slot(itemInMachine)`blockedBy
      ensures old(manufacturing || itemInMachine == null) ==>
        r == NothingToRelease && unchanged(this) && unchanged(Slot(itemInMachine)) && woken == []
      ensures old(!manufacturing && itemInMachine != null && itemInOutput != null) ==>
        && r == WaitingForOutput && unchanged(this) && woken == []
        && old(itemInMachine).blockedBy == itemInOutput
      ensures old(!manufacturing && itemInMachine != null && itemInOutput == null) ==>
        && r == Released && itemInOutput == old(itemInMachine) && itemInMachine == null
        && idle == (!setup && !loadItem) && unchanged(old(itemInMachine))
        && woken == AgentsWaitingAt(itemInOutput.waitingAgentPos, InMachine(id))
      ensures old(Valid()) && !failure ==> Valid()
    {
      if manufacturing || itemInMachine == null {
        return NothingToRelease, [];
      }
      if itemInOutput != null {
        itemInMachine.blockedBy := itemInOutput;
        return WaitingForOutput, [];
      }
      r, woken := MoveToOutput();
    }

    /** The release resumed once the output slot is free again: the block is lifted first. */
    method ResumeRelease() returns (r: ReleaseResult, woken: seq<nat>)
      requires !manufacturing && itemInMachine != null && itemInOutput == null
      modifies this`itemInMachine, this`itemInOutput, this`idle
      modifies itemInMachine`blockedBy
      ensures r == Released && itemInOutput == old(itemInMachine) && itemInMachine == null
      ensures itemInOutput.blockedBy == null
      ensures idle == (!setup && !loadItem)
      ensures woken == AgentsWaitingAt(itemInOutput.waitingAgentPos, InMachine(id))
      ensures old(Valid()) && !failure ==> Valid()
    {
      itemInMachine.blockedBy := null;
      r, woken := MoveToOutput();
    }

    /**
     * The item leaves the machine for the free output slot, and every agent waiting for it
     * at this machine is woken.
     */
    method MoveToOutput() returns (r: ReleaseResult, woken: seq<nat>)
      requires !manufacturing && itemInMachine != null && itemInOutput == null
      modifies this`itemInMachine, this`itemInOutput, this`idle
      ensures r == Released && itemInOutput == old(itemInMachine) && itemInMachine == null
      ensures idle == (!setup && !loadItem)
      ensures woken == AgentsWaitingAt(itemInOutput.waitingAgentPos, InMachine(id))
      ensures old(Valid()) && !failure ==> Valid()
    {
      itemInOutput := itemInMachine;
      itemInMachine := null;
      idle := !setup && !loadItem;
      woken := AgentsWaitingAt(itemInOutput.waitingAgentPos, InMachine(id));
      r := Released;
    }
  }

  /** A machine set up for the type of the item in it, which needs `step`. */
  method LoadedMachine(step: Step) returns (m: Machine)
    ensures fresh(m) && m.itemInMachine != null && fresh(m.itemInMachine)
    ensures m.CanManufacture() && !m.failure && m.Valid() && m.WorkAccounted()
  {
    var t := OrderType(1, 1, [step]);
    var item := new Order(t, 0.0, 100.0, 0, 1.0, 0);
    m := new Machine(0, step, 1.0, 1);
    m.currentSetup := Some(t);
    m.itemInMachine := item;
  }

  /** An item of processing time 10 that fails after 3 (repaired in 2). */
  method FailOnce(step: Step) returns (m: Machine)
    ensures fresh(m) && m.itemInMachine != null && fresh(m.itemInMachine)
    ensures m.CanManufacture() && m.failure && m.Valid() && m.WorkAccounted()
    ensures m.manufacturingTime == 10.0 && m.remainingManufacturingTime == 7.0
  {
    m := LoadedMachine(step);
    var started := m.StartManufacturing(true, 10.0, 0.0);
    m.FailureEvent(3.0, 2.0);
  }

  /** ... which resumes at 5 with 7 left. */
  method FailOnceAndResume(step: Step) returns (m: Machine)
    ensures fresh(m) && m.itemInMachine != null && fresh(m.itemInMachine)
    ensures m.manufacturing && m.manufacturingStartTime == Some(5.0)
    ensures m.manufacturingTime == 10.0 && m.remainingManufacturingTime == 7.0 && m.WorkAccounted()
  {
    m := FailOnce(step);
    m.FailureEnd();
    var started := m.StartManufacturing(false, 10.0, 5.0);
  }

  /**
   * The discrepancy of `failure_event` as written: when the resumed run fails again after 2
   * more, 8 remain, so the item would be processed for 13 in all instead of 10.
   */
  method SecondFailureAsWritten(step: Step) returns (m: Machine)
    ensures m.remainingManufacturingTime == 8.0 && m.manufacturingTime == 10.0
    ensures !m.WorkAccounted()
  {
    m := FailOnceAndResume(step);
    m.FailureEventAsWritten(7.0, 2.0);
  }

  /** With the time left carried over, 5 remain and the work still adds up to 10. */
  method SecondFailure(step: Step) returns (m: Machine)
    ensures m.remainingManufacturingTime == 5.0 && m.manufacturingTime == 10.0
    ensures m.WorkAccounted()
  {
    m := FailOnceAndResume(step);
    m.FailureEvent(7.0, 2.0);
  }
}
