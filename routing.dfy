/**
 * The computations of ManufacturingAgent.py: where an order should go next
 * (`calculate_destination`), how long a route takes (`time_for_distance`) and which
 * order an agent takes on (`get_action`). They run on a snapshot of what the agent reads:
 * the cell's buffers, machines and children, and the order's own fields.
 */
module Routing {
  import opened Wrappers
  import opened Lists
  import opened Sorting
  import opened ProcessingSteps
  import opened ConsecutiveTasks
  import opened Orders
  import opened Cells
  import opened Buffers
  import opened Machines

  // ---------------------------------------------------------------------------------------
  // Snapshots

  /** What routing reads of a buffer: its id, `free_slots()` and `full`. */
  datatype BufferView = BufferView(id: nat, freeSlots: bool, full: bool)

  /** What routing reads of a machine. */
  datatype MachineView = MachineView(id: nat, task: Step, inputEmpty: bool, reservations: nat,
                                     setup: Option<OrderType>)

  /** A child cell: its subtree (for its machine counts and `check_best_path`) and its input buffer. */
  datatype ChildView = ChildView(tree: CellTree, input: BufferView)

  /** The agent's cell. `machines` is empty for a distribution cell. */
  datatype CellView = CellView(id: nat, tree: CellTree, output: BufferView, storage: BufferView,
                               machines: seq<MachineView>, children: seq<ChildView>)

  /** What routing reads of an order. */
  datatype OrderView = OrderView(currentCell: Option<nat>, tasksFinished: bool, nextTask: Step,
                                 remainingTasks: seq<Step>, workSchedule: seq<Step>,
                                 orderType: OrderType, position: Position)

  function BufferSnapshot(b: Buffer): BufferView
    reads b, b.itemsInStorage
  {
    BufferView(b.id, b.FreeSlots(), b.full)
  }

  function MachineSnapshot(m: Machine): MachineView
    reads m
  {
    MachineView(m.id, m.performableTask, m.itemInInput == null, |m.expectedOrders|, m.currentSetup)
  }

  function OrderSnapshot(o: Order): OrderView
    reads o
  {
    OrderView(o.currentCell, o.tasksFinished, o.nextTask, o.remainingTasks, o.workSchedule,
              o.orderType, o.position)
  }

  // ---------------------------------------------------------------------------------------
  // calculate_destination

  /**
   * The answer of `calculate_destination`: the order is not in the agent's cell (the source
   * returns the pair `(None, None)`), there is no destination (`None`), a destination, or
   * the computed destination is where the order already is (the source exits).
   */
  datatype Destination = NotInCell | NoDestination | To(position: Position) | AlreadyThere

  /** A machine for the order's next step, with an empty input and no reservation. */
  predicate FreeMachine(m: MachineView, next: Step) {
    m.task == next && m.inputEmpty && m.reservations == 0
  }

  /** ... that is moreover set up for the order's type (`setup == order.type`). */
  predicate OptimalMachine(m: MachineView, next: Step, t: OrderType) {
    FreeMachine(m, next) && SetUpFor(m.setup, t)
  }

  /** The storage, when it has a free slot and does not hold the order already. */
  function StorageFallback(cell: CellView, o: OrderView): Position {
    if cell.storage.freeSlots && o.position != InBuffer(cell.storage.id) then InBuffer(cell.storage.id)
    else Nowhere
  }

  /**
   * Finished orders and orders this cell cannot work on, as written: the output, else the
   * storage, even when the order already stands in the storage.
   */
  function LeaveCellAsWritten(cell: CellView): Position {
    if cell.output.freeSlots then InBuffer(cell.output.id)
    else if cell.storage.freeSlots then InBuffer(cell.storage.id)
    else Nowhere
  }

  /** ... with the storage fallback guarded as in the other two branches. */
  function LeaveCell(cell: CellView, o: OrderView): Position {
    if cell.output.freeSlots then InBuffer(cell.output.id)
    else StorageFallback(cell, o)
  }

  /** A manufacturing cell: an optimal machine, else a free machine, else the storage. */
  function MachineChoice(cell: CellView, o: OrderView): Position {
    var potential := Filter(cell.machines, (m: MachineView) => m.task == o.nextTask);
    var optimal := Filter(potential, (m: MachineView) => m.inputEmpty && m.reservations == 0 && SetUpFor(m.setup, o.orderType));
    if optimal != [] then InMachine(optimal[0].id)
    else
      var free := Filter(potential, (m: MachineView) => m.inputEmpty && m.reservations == 0);
      if free != [] then InMachine(free[0].id)
      else StorageFallback(cell, o)
  }

  /** The sort key of the best-path candidates, and of the consecutive-step candidates (descending). */
  function ByCount(a: (ChildView, Count), b: (ChildView, Count)): bool {
    CountLe(a.1, b.1)
  }

  function ByAmountDescending(a: (ChildView, nat), b: (ChildView, nat)): bool {
    a.1 >= b.1
  }

  /** `check_best_path(order, include_all=False)` of each child, kept where it is not 0. */
  function BestCandidates(instances: seq<Step>, cell: CellView, o: OrderView): seq<(ChildView, Count)> {
    var cs := cell.children;
    var all := seq(|cs|, i requires 0 <= i < |cs| =>
      (cs[i], BestPath(instances, cs[i].tree, o.workSchedule, o.remainingTasks)));
    Filter(all, (c: (ChildView, Count)) => c.1 != Finite(0))
  }

  /** `consecutive_performable_tasks` of each child, kept where it is positive. */
  function ConsecutiveCandidates(instances: seq<Step>, cell: CellView, o: OrderView): seq<(ChildView, nat)> {
    var cs := cell.children;
    var all := seq(|cs|, i requires 0 <= i < |cs| =>
      (cs[i], ConsecutivePerformableTasks(o.remainingTasks, CellCounts(instances, cs[i].tree))));
    Filter(all, (c: (ChildView, nat)) => c.1 > 0)
  }

  /**
   * A distribution cell: the input of the child needing fewest cells that has free slots,
   * else the input (not full) of the child performing most consecutive steps, else the
   * fallback. Both lists are sorted stably.
   */
  function PickChild(best: seq<(ChildView, Count)>, most: seq<(ChildView, nat)>, fallback: Position): Position {
    var free := FirstWhere(SortBy(best, ByCount), (c: (ChildView, Count)) => c.0.input.freeSlots);
    if free.Some? then InBuffer(free.value.0.input.id)
    else
      var open := FirstWhere(SortBy(most, ByAmountDescending), (c: (ChildView, nat)) => !c.0.input.full);
      if open.Some? then InBuffer(open.value.0.input.id)
      else fallback
  }

  function DistributionChoice(instances: seq<Step>, cell: CellView, o: OrderView): Position {
    PickChild(BestCandidates(instances, cell, o), ConsecutiveCandidates(instances, cell, o), StorageFallback(cell, o))
  }

  /** The order must leave: it is finished or its next step has no machine here. */
  predicate MustLeave(instances: seq<Step>, cell: CellView, o: OrderView) {
    o.tasksFinished || !Performable(o.nextTask, CellCounts(instances, cell.tree))
  }

  /** The destination an order in the agent's cell gets, before the `exit()` test. */
  function Choice(instances: seq<Step>, cell: CellView, o: OrderView): Position {
    if MustLeave(instances, cell, o) then LeaveCell(cell, o)
    else if cell.machines != [] then MachineChoice(cell, o)
    else DistributionChoice(instances, cell, o)
  }

  function ChoiceAsWritten(instances: seq<Step>, cell: CellView, o: OrderView): Position {
    if MustLeave(instances, cell, o) then LeaveCellAsWritten(cell) else Choice(instances, cell, o)
  }

  /** The last steps of `calculate_destination`: `exit()` when the order is there already. */
  function Decide(cell: CellView, o: OrderView, d: Position): (r: Destination)
    ensures r == NotInCell <==> o.currentCell != Some(cell.id)
    ensures r == AlreadyThere <==> o.currentCell == Some(cell.id) && d == o.position
    ensures r == NoDestination <==> o.currentCell == Some(cell.id) && d == Nowhere && d != o.position
    ensures r.To? ==> r.position == d && d != o.position && d != Nowhere
  {
    if o.currentCell != Some(cell.id) then NotInCell
    else if d == o.position then AlreadyThere
    else if d == Nowhere then NoDestination
    else To(d)
  }

  /** `calculate_destination` as written. `Nowhere` stands for the source's `None`. */
  function CalculateDestinationAsWritten(instances: seq<Step>, cell: CellView, o: OrderView): Destination {
    Decide(cell, o, ChoiceAsWritten(instances, cell, o))
  }

  /** `calculate_destination` with the storage fallback of the leaving branch guarded. */
  function CalculateDestination(instances: seq<Step>, cell: CellView, o: OrderView): Destination {
    Decide(cell, o, Choice(instances, cell, o))
  }

  /**
   * The discrepancy of the leaving branch as written: a finished order that waits in the
   * storage while the output buffer has no free slot is routed to the storage again, where
   * it stands, and the simulation exits.
   */
  lemma FinishedOrderInStorageExits(instances: seq<Step>, cell: CellView, o: OrderView)
    requires o.currentCell == Some(cell.id) && o.tasksFinished
    requires !cell.output.freeSlots && cell.storage.freeSlots
    requires o.position == InBuffer(cell.storage.id)
    ensures CalculateDestinationAsWritten(instances, cell, o) == AlreadyThere
  {
  }

  /**
   * With the guard, an order standing in the storage is never sent to the storage again,
   * so `exit()` is not reached for it (buffer ids told apart, as they are in a cell).
   */
  lemma StoredOrderNotSentBack(instances: seq<Step>, cell: CellView, o: OrderView)
    requires o.position == InBuffer(cell.storage.id)
    requires cell.output.id != cell.storage.id
    requires forall i :: 0 <= i < |cell.children| ==> cell.children[i].input.id != cell.storage.id
    ensures Choice(instances, cell, o) != o.position
    ensures CalculateDestination(instances, cell, o) != AlreadyThere
  {
    if !MustLeave(instances, cell, o) && cell.machines == [] {
      BestCandidatesSpec(instances, cell, o);
      ConsecutiveCandidatesSpec(instances, cell, o);
      PickChildIsChildOrFallback(BestCandidates(instances, cell, o), ConsecutiveCandidates(instances, cell, o),
                                 StorageFallback(cell, o));
    }
  }

  /** A distribution choice is a child's input buffer or the fallback. */
  lemma PickChildIsChildOrFallback(best: seq<(ChildView, Count)>, most: seq<(ChildView, nat)>, fallback: Position)
    ensures var r := PickChild(best, most, fallback);
      || r == fallback
      || (exists i :: 0 <= i < |best| && r == InBuffer(best[i].0.input.id))
      || (exists i :: 0 <= i < |most| && r == InBuffer(most[i].0.input.id))
  {
    SortByMultiset(best, ByCount);
    SortByMultiset(most, ByAmountDescending);
    var free := FirstWhere(SortBy(best, ByCount), (c: (ChildView, Count)) => c.0.input.freeSlots);
    var open := FirstWhere(SortBy(most, ByAmountDescending), (c: (ChildView, nat)) => !c.0.input.full);
    if free.Some? {
      assert free.value in multiset(best);
    } else if open.Some? {
      assert open.value in multiset(most);
    }
  }

  /**
   * A finished or unworkable order leaves for the output if it can, else goes to the
   * storage if it has room and the order is elsewhere; otherwise it has no destination.
   */
  lemma LeaveCellOrder(instances: seq<Step>, cell: CellView, o: OrderView)
    requires o.currentCell == Some(cell.id) && MustLeave(instances, cell, o)
    requires o.position != Nowhere && o.position != InBuffer(cell.output.id)
    ensures var r := CalculateDestination(instances, cell, o);
      && (cell.output.freeSlots ==> r == To(InBuffer(cell.output.id)))
      && (!cell.output.freeSlots && cell.storage.freeSlots && o.position != InBuffer(cell.storage.id) ==>
            r == To(InBuffer(cell.storage.id)))
      && (!cell.output.freeSlots && (!cell.storage.freeSlots || o.position == InBuffer(cell.storage.id)) ==>
            r == NoDestination)
  {
  }

  /**
   * In a manufacturing cell the order goes to the first machine for its next step that is
   * free and set up for its type; failing that, to the first free one; failing that, to
   * the storage fallback.
   */
  lemma MachineChoiceFirst(cell: CellView, o: OrderView)
    ensures var opt := FirstWhere(cell.machines, (m: MachineView) => OptimalMachine(m, o.nextTask, o.orderType));
      var fr := FirstWhere(cell.machines, (m: MachineView) => FreeMachine(m, o.nextTask));
      var r := MachineChoice(cell, o);
      && (opt.Some? ==> r == InMachine(opt.value.id))
      && (opt.None? && fr.Some? ==> r == InMachine(fr.value.id))
      && (fr.None? ==> r == StorageFallback(cell, o))
  {
    var isTask := (m: MachineView) => m.task == o.nextTask;
    var potential := Filter(cell.machines, isTask);
    var opt := (m: MachineView) => m.inputEmpty && m.reservations == 0 && SetUpFor(m.setup, o.orderType);
    var fr := (m: MachineView) => m.inputEmpty && m.reservations == 0;
    FirstWhereFilter(cell.machines, isTask, opt, (m: MachineView) => OptimalMachine(m, o.nextTask, o.orderType));
    FirstWhereFilter(cell.machines, isTask, fr, (m: MachineView) => FreeMachine(m, o.nextTask));
    FirstIsHead(potential, opt);
    FirstIsHead(potential, fr);
    FreeIfOptimal(cell.machines, o.nextTask, o.orderType);
  }

  /** A machine that is optimal is free, so no free machine means no optimal one. */
  lemma FreeIfOptimal(ms: seq<MachineView>, next: Step, t: OrderType)
    ensures FirstWhere(ms, (m: MachineView) => FreeMachine(m, next)).None? ==>
      FirstWhere(ms, (m: MachineView) => OptimalMachine(m, next, t)).None?
  {
  }

  lemma CountLePreorder(s: seq<(ChildView, Count)>)
    ensures TotalPreorderOn(s, ByCount)
  {
    forall x, y | x in s && y in s ensures ByCount(x, y) || ByCount(y, x) {
      CountLeTotal(x.1, y.1);
    }
  }

  /**
   * In a distribution cell the preferred child is, among those that can finish the
   * remaining steps (non-zero best path) and have a free input slot, one needing fewest
   * cells, the earliest such child on a tie; the order goes to its input buffer.
   */
  lemma PickFewestCells(best: seq<(ChildView, Count)>, most: seq<(ChildView, nat)>, fallback: Position)
    requires exists i :: 0 <= i < |best| && best[i].0.input.freeSlots
    ensures var r := PickChild(best, most, fallback);
      exists k :: 0 <= k < |best| && r == InBuffer(best[k].0.input.id)
        && best[k].0.input.freeSlots
        && (forall j :: 0 <= j < |best| && best[j].0.input.freeSlots ==> CountLe(best[k].1, best[j].1))
        && (forall j :: 0 <= j < k && best[j].0.input.freeSlots ==> !CountLe(best[j].1, best[k].1))
  {
    var p := (c: (ChildView, Count)) => c.0.input.freeSlots;
    CountLePreorder(best);
    FirstWhereSorted(best, p, ByCount);
    FirstMinimalProperties(best, p, ByCount);
  }

  lemma AmountPreorder(s: seq<(ChildView, nat)>)
    ensures TotalPreorderOn(s, ByAmountDescending)
  {
  }

  /**
   * When no such child has a free input, the order goes to the child performing most
   * consecutive steps whose input is not full (the earliest on a tie), if there is one,
   * and to the fallback otherwise.
   */
  lemma PickMostConsecutive(best: seq<(ChildView, Count)>, most: seq<(ChildView, nat)>, fallback: Position)
    requires forall i :: 0 <= i < |best| ==> !best[i].0.input.freeSlots
    ensures var r := PickChild(best, most, fallback);
      && ((exists i :: 0 <= i < |most| && !most[i].0.input.full) ==>
            exists k :: 0 <= k < |most| && r == InBuffer(most[k].0.input.id)
              && !most[k].0.input.full
              && (forall j :: 0 <= j < |most| && !most[j].0.input.full ==> most[k].1 >= most[j].1)
              && (forall j :: 0 <= j < k && !most[j].0.input.full ==> most[j].1 < most[k].1))
      && ((forall i :: 0 <= i < |most| ==> most[i].0.input.full) ==> r == fallback)
  {
    var p := (c: (ChildView, Count)) => c.0.input.freeSlots;
    var q := (c: (ChildView, nat)) => !c.0.input.full;
    CountLePreorder(best);
    FirstWhereSorted(best, p, ByCount);
    FirstMinimalProperties(best, p, ByCount);
    AmountPreorder(most);
    FirstWhereSorted(most, q, ByAmountDescending);
    FirstMinimalProperties(most, q, ByAmountDescending);
  }

  /**
   * The candidates are the children with a non-zero best path, with that count, and every
   * such child is a candidate.
   */
  lemma BestCandidatesSpec(instances: seq<Step>, cell: CellView, o: OrderView)
    ensures var b := BestCandidates(instances, cell, o);
      forall i :: 0 <= i < |b| ==> (
        && b[i].1 != Finite(0)
        && exists j :: 0 <= j < |cell.children| && b[i] == (cell.children[j],
             BestPath(instances, cell.children[j].tree, o.workSchedule, o.remainingTasks)))
    ensures var b := BestCandidates(instances, cell, o);
      forall j :: (0 <= j < |cell.children| &&
                   BestPath(instances, cell.children[j].tree, o.workSchedule, o.remainingTasks) != Finite(0)) ==>
          (cell.children[j], BestPath(instances, cell.children[j].tree, o.workSchedule, o.remainingTasks)) in b
  {
    var cs := cell.children;
    var all := seq(|cs|, i requires 0 <= i < |cs| =>
      (cs[i], BestPath(instances, cs[i].tree, o.workSchedule, o.remainingTasks)));
    assert BestCandidates(instances, cell, o) == Filter(all, (c: (ChildView, Count)) => c.1 != Finite(0));
    assert forall j :: 0 <= j < |cs| ==> all[j] == (cs[j], BestPath(instances, cs[j].tree, o.workSchedule, o.remainingTasks));
  }

  /**
   * The candidates are the children performing some of the next steps, with their number,
   * and every child performing at least one of them is a candidate.
   */
  lemma ConsecutiveCandidatesSpec(instances: seq<Step>, cell: CellView, o: OrderView)
    ensures var m := ConsecutiveCandidates(instances, cell, o);
      forall i :: 0 <= i < |m| ==> (
        && m[i].1 > 0
        && exists j :: 0 <= j < |cell.children| && m[i] == (cell.children[j],
             ConsecutivePerformableTasks(o.remainingTasks, CellCounts(instances, cell.children[j].tree))))
    ensures var m := ConsecutiveCandidates(instances, cell, o);
      forall j :: (0 <= j < |cell.children| &&
                   ConsecutivePerformableTasks(o.remainingTasks, CellCounts(instances, cell.children[j].tree)) > 0) ==>
          (cell.children[j], ConsecutivePerformableTasks(o.remainingTasks, CellCounts(instances, cell.children[j].tree))) in m
  {
    var cs := cell.children;
    var all := seq(|cs|, i requires 0 <= i < |cs| =>
      (cs[i], ConsecutivePerformableTasks(o.remainingTasks, CellCounts(instances, cs[i].tree))));
    assert ConsecutiveCandidates(instances, cell, o) == Filter(all, (c: (ChildView, nat)) => c.1 > 0);
    assert forall j :: 0 <= j < |cs| ==> all[j] == (cs[j], ConsecutivePerformableTasks(o.remainingTasks, CellCounts(instances, cs[j].tree)));
  }

  // ---------------------------------------------------------------------------------------
  // time_for_distance

  /** The cell's `DISTANCES`: (start, end, length) triples. */
  type Distances = seq<(Position, Position, real)>

  /** `time_for_distance`: no destination raises; `Time(None)` is the source's implicit `None`. */
  datatype Travel = NoDestinationError | Time(time: Option<real>)

  /** The first triple of the route, scanning as `get_time` does. */
  function RouteLength(distances: Distances, start: Position, end: Position): (r: Option<real>)
    ensures r.Some? <==> exists i :: 0 <= i < |distances| && distances[i].0 == start && distances[i].1 == end
    ensures r.Some? ==> exists i :: (
      && 0 <= i < |distances| && distances[i] == (start, end, r.value)
      && forall j :: 0 <= j < i ==> !(distances[j].0 == start && distances[j].1 == end))
  {
    if distances == [] then None
    else if distances[0].0 == start && distances[0].1 == end then Some(distances[0].2)
    else
      var r := RouteLength(distances[1..], start, end);
      assert forall i :: 1 <= i < |distances| ==> distances[i] == distances[1..][i - 1];
      r
  }

  /**
   * `time_for_distance(destination, start_position)`: `start` defaults to the agent's own
   * position; staying put takes no time; otherwise the route's length over `SPEED`.
   */
  function TimeForDistance(distances: Distances, speed: real, agentPosition: Position,
                           destination: Position, start: Position): (r: Travel)
    requires speed != 0.0
    ensures destination == Nowhere <==> r == NoDestinationError
    ensures var from := if start == Nowhere then agentPosition else start;
      destination != Nowhere && destination == from ==> r == Time(Some(0.0))
    ensures var from := if start == Nowhere then agentPosition else start;
      destination != Nowhere && destination != from ==>
        r == Time(match RouteLength(distances, from, destination)
                  case Some(l) => Some(l / speed)
                  case None => None)
  {
    if destination == Nowhere then NoDestinationError
    else
      var from := if start == Nowhere then agentPosition else start;
      if destination == from then Time(Some(0.0))
      else
        match RouteLength(distances, from, destination)
        case Some(l) => Time(Some(l / speed))
        case None => Time(None)
  }

  // ---------------------------------------------------------------------------------------
  // get_action

  /**
   * One row of the cell state, as far as `get_action` reads it: the order (if the slot
   * holds one), the lock code (0 free, 1 locked by the requester, 2 by another agent), the
   * 0/1 flags, the destination column (`None` for -1) and one value per ranking measure.
   */
  datatype Row = Row(order: Option<Order>, locked: nat, inMInput: bool, inM: bool, inSameCell: bool,
                     destination: Option<Destination>, measures: seq<real>)

  /** A ranking criterion: its weight and whether smaller values rank first (`ASC`). */
  datatype Criterion = Criterion(weight: real, ascending: bool)

  /**
   * The outcome of `get_action`: nothing to do, an order and its destination, or the end of
   * the program, which `add_destinations` reaches through `calculate_destination`'s `exit()`
   * while it fills the destination column.
   */
  datatype Action = NoAction | Take(order: Order, destination: Destination) | Exit

  /** `add_destinations`: only a free order outside machines gets a destination; -1 otherwise. */
  function AddDestination(hasOrder: bool, locked: nat, inMInput: bool, inM: bool, d: Destination): (r: Option<Destination>)
    ensures r.Some? <==> hasOrder && locked == 0 && !inMInput && !inM && d != NoDestination
    ensures r.Some? ==> r.value == d
  {
    if hasOrder && locked == 0 && !inMInput && !inM && d != NoDestination then Some(d) else None
  }

  /** Some row's destination is where its order stands: filling the column ran `exit()`. */
  predicate ExitReached(rows: seq<Row>) {
    exists i :: 0 <= i < |rows| && rows[i].destination == Some(AlreadyThere)
  }

  /** The first filter of `get_action`: an unlocked order in this cell, not at a machine. */
  predicate Usable(r: Row) {
    r.order.Some? && r.locked == 0 && !r.inMInput && !r.inM && r.inSameCell
  }

  /** The orders that may be chosen: usable and with a destination. */
  function Candidates(rows: seq<Row>): (c: seq<Row>)
    ensures forall i :: 0 <= i < |c| ==> Usable(c[i]) && c[i].destination.Some? && c[i] in rows
    ensures forall i :: 0 <= i < |rows| && Usable(rows[i]) && rows[i].destination.Some? ==> rows[i] in c
  {
    Filter(Filter(rows, Usable), (r: Row) => r.destination.Some?)
  }

  function MinOf(s: seq<real>): (m: real)
    requires s != []
    ensures m in s && forall x :: x in s ==> m <= x
  {
    if |s| == 1 then s[0]
    else
      var rest := MinOf(s[1..]);
      assert forall x :: x in s ==> x == s[0] || x in s[1..];
      if s[0] <= rest then s[0] else rest
  }

  function MaxOf(s: seq<real>): (m: real)
    requires s != []
    ensures m in s && forall x :: x in s ==> x <= m
  {
    if |s| == 1 then s[0]
    else
      var rest := MaxOf(s[1..]);
      assert forall x :: x in s ==> x == s[0] || x in s[1..];
      if s[0] >= rest then s[0] else rest
  }

  /** The values of measure `k` over the candidates (0 where a row lacks it). */
  function Column(c: seq<Row>, k: nat): (col: seq<real>)
    ensures |col| == |c|
  {
    seq(|c|, i requires 0 <= i < |c| => if k < |c[i].measures| then c[i].measures[k] else 0.0)
  }

  /**
   * The weighted score of candidate `i`: for each criterion `weight * norm` (ASC) or
   * `weight * (1 - norm)` (DESC), with the min-max norm computed by `div` (the source's
   * `div_possible_zero`, not part of this model).
   */
  function Score(c: seq<Row>, criteria: seq<Criterion>, div: (real, real) -> real, i: nat): real
    requires i < |c|
    decreases |criteria|
  {
    if criteria == [] then 0.0
    else
      var k := |criteria| - 1;
      var col := Column(c, k);
      var norm := div(col[i] - MinOf(col), MaxOf(col) - MinOf(col));
      var part := if criteria[k].ascending then criteria[k].weight * norm else criteria[k].weight * (1.0 - norm);
      Score(c, criteria[..k], div, i) + part
  }

  /** The score of every candidate, in candidate order. */
  function Scores(c: seq<Row>, criteria: seq<Criterion>, div: (real, real) -> real): (s: seq<real>)
    ensures |s| == |c| && forall i :: 0 <= i < |c| ==> s[i] == Score(c, criteria, div, i)
  {
    seq(|c|, i requires 0 <= i < |c| => Score(c, criteria, div, i))
  }

  /** The index of a least score among the first `upTo` (the first such). */
  function BestIndex(scores: seq<real>, upTo: nat): (k: nat)
    requires 0 < upTo <= |scores|
    ensures k < upTo
    ensures forall j :: 0 <= j < upTo ==> scores[k] <= scores[j]
  {
    if upTo == 1 then 0
    else
      var k := BestIndex(scores, upTo - 1);
      if scores[upTo - 1] < scores[k] then upTo - 1 else k
  }

  /**
   * `get_action` for a ruleset that is not dynamic: the candidates; one candidate is taken
   * at once; a random ruleset takes the candidate its shuffle puts first (`shuffleFirst`,
   * the seeded shuffle being outside this model); otherwise a least-score candidate. The
   * destination is that of the first row holding the chosen order. When a row's destination
   * is `AlreadyThere`, the program has ended before `get_action` runs.
   */
  function GetAction(rows: seq<Row>, random: bool, shuffleFirst: nat, criteria: seq<Criterion>,
                     div: (real, real) -> real): (a: Action)
  {
    var c := Candidates(rows);
    if ExitReached(rows) then Exit
    else if c == [] then NoAction
    else
      var k := if |c| == 1 then 0 else if random then shuffleFirst % |c| else BestIndex(Scores(c, criteria, div), |c|);
      var chosen := c[k].order.value;
      var row := FirstWhere(c, (r: Row) => r.order == Some(chosen));
      assert row.Some? by { assert c[k].order == Some(chosen); }
      Take(chosen, row.value.destination.value)
  }

  /**
   * The program ends exactly when some row is `AlreadyThere`; otherwise there is no action
   * exactly when no usable order has a destination, and a chosen order is usable and takes
   * its row's destination, which is never `AlreadyThere`.
   */
  lemma GetActionCandidate(rows: seq<Row>, random: bool, shuffleFirst: nat, criteria: seq<Criterion>,
                           div: (real, real) -> real)
    ensures var a := GetAction(rows, random, shuffleFirst, criteria, div);
      && (a == Exit <==> exists i :: 0 <= i < |rows| && rows[i].destination == Some(AlreadyThere))
      && (a == NoAction <==>
            && !ExitReached(rows)
            && forall i :: 0 <= i < |rows| ==> !(Usable(rows[i]) && rows[i].destination.Some?))
      && (a.Take? ==> exists i :: 0 <= i < |rows| && Usable(rows[i]) && rows[i].order == Some(a.order)
                        && rows[i].destination == Some(a.destination))
      && (a.Take? ==> a.destination != AlreadyThere)
  {
    var c := Candidates(rows);
    if ExitReached(rows) || c == [] {
    } else {
      var a := GetAction(rows, random, shuffleFirst, criteria, div);
      var row :| row in c && row.order == Some(a.order) && row.destination == Some(a.destination);
    }
  }

  /**
   * Unless the program has ended, a lone candidate is taken; with ranking, the chosen
   * candidate has the least score.
   */
  lemma GetActionRanking(rows: seq<Row>, criteria: seq<Criterion>, div: (real, real) -> real)
    requires Candidates(rows) != []
    ensures var c := Candidates(rows);
      var a := GetAction(rows, false, 0, criteria, div);
      !ExitReached(rows) ==> (
        && a.Take?
        && (|c| == 1 ==> Some(a.order) == c[0].order)
        && exists k :: 0 <= k < |c| && c[k].order == Some(a.order)
             && forall j :: 0 <= j < |c| ==> Score(c, criteria, div, k) <= Score(c, criteria, div, j))
  {
    if !ExitReached(rows) {
      var c := Candidates(rows);
      var scores := Scores(c, criteria, div);
      var k := if |c| == 1 then 0 else BestIndex(scores, |c|);
      assert GetAction(rows, false, 0, criteria, div).order == c[k].order.value;
      assert forall j :: 0 <= j < |c| ==> scores[k] <= scores[j];
    }
  }
}
