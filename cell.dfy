/**
 * Cell.py: the cell hierarchy. The static tree (which machines sit in which manufacturing
 * cell, which children a distribution cell has) is the value `CellTree`; the per-cell lists
 * that change while the simulation runs (`orders_in_cell`, `expected_orders`) are fields of
 * class `Cell`.
 *
 * `PERFORMABLE_TASKS` of a cell is `CellCounts(instances, tree)`: one (step, machine count)
 * entry per registered step, in registry order, summed bottom-up.
 */
module Cells {
  import opened Wrappers
  import opened Lists
  import opened ProcessingSteps
  import opened ConsecutiveTasks
  import opened Orders

  datatype CellTree =
    | ManufacturingCell(machineTasks: seq<Step>)
    | DistributionCell(children: seq<CellTree>)

  /** The result of `check_best_path`: a number of cells, or `float('inf')`. */
  datatype Count = Finite(n: nat) | Infinite

  predicate CountLe(a: Count, b: Count) {
    match (a, b)
    case (Finite(x), Finite(y)) => x <= y
    case (_, Infinite) => true
    case (Infinite, Finite(_)) => false
  }

  /** Every step of `schedule` has an entry with a machine count above zero. */
  predicate AllIncluded(schedule: seq<Step>, counts: TaskCounts) {
    forall i :: 0 <= i < |schedule| ==> Performable(schedule[i], counts)
  }

  /** `if alternative_tasks:` — an empty (or absent) alternative falls back to the cell's own list. */
  function ChosenTasks(own: TaskCounts, alternative: TaskCounts): TaskCounts {
    if alternative != [] then alternative else own
  }

  // ---------------------------------------------------------------------------------------
  // Machine counts, merged bottom-up

  /** Manufacturing cell: for each registered step, how many machines perform it. */
  function MachineCounts(instances: seq<Step>, machineTasks: seq<Step>): TaskCounts {
    seq(|instances|, i requires 0 <= i < |instances| => (instances[i], multiset(machineTasks)[instances[i]]))
  }

  /** The child lists concatenated, as `flatten_list += child_cell` builds them. */
  function Flatten(lists: seq<TaskCounts>): TaskCounts {
    if lists == [] then [] else Flatten(lists[..|lists| - 1]) + lists[|lists| - 1]
  }

  /** The sum of the counts of all entries for `task`. */
  function SumFor(task: Step, flat: TaskCounts): nat {
    if flat == [] then 0
    else SumFor(task, flat[..|flat| - 1]) + (if flat[|flat| - 1].0 == task then flat[|flat| - 1].1 else 0)
  }

  /** `combine_performable_tasks`: one entry per registered step, counts summed over all lists. */
  function Combined(instances: seq<Step>, lists: seq<TaskCounts>): TaskCounts {
    var flat := Flatten(lists);
    seq(|instances|, i requires 0 <= i < |instances| => (instances[i], SumFor(instances[i], flat)))
  }

  /** `PERFORMABLE_TASKS` of a cell after `init_performable_tasks`. */
  function CellCounts(instances: seq<Step>, tree: CellTree): TaskCounts
    decreases tree
  {
    match tree
    case ManufacturingCell(ms) => MachineCounts(instances, ms)
    case DistributionCell(cs) => Combined(instances, ChildCounts(instances, cs))
  }

  function ChildCounts(instances: seq<Step>, cs: seq<CellTree>): seq<TaskCounts>
    decreases cs
  {
    seq(|cs|, i requires 0 <= i < |cs| => CellCounts(instances, cs[i]))
  }

  /** Reference: some manufacturing cell below `tree` has a machine for `task`. */
  predicate HasMachineFor(tree: CellTree, task: Step)
    decreases tree
  {
    match tree
    case ManufacturingCell(ms) => task in ms
    case DistributionCell(cs) => exists i :: 0 <= i < |cs| && HasMachineFor(cs[i], task)
  }

  lemma {:induction false} SumForPositive(task: Step, flat: TaskCounts)
    ensures SumFor(task, flat) > 0 <==> Performable(task, flat)
    decreases |flat|
  {
    if flat != [] {
      var init := flat[..|flat| - 1];
      SumForPositive(task, init);
      if Performable(task, init) {
        var j :| 0 <= j < |init| && init[j].0 == task && init[j].1 > 0;
        assert flat[j] == init[j];
      }
      if Performable(task, flat) {
        var j :| 0 <= j < |flat| && flat[j].0 == task && flat[j].1 > 0;
        if j < |init| { assert init[j] == flat[j]; }
      }
    }
  }

  lemma {:induction false} FlattenPerformable(task: Step, lists: seq<TaskCounts>)
    ensures Performable(task, Flatten(lists)) <==>
            exists i :: 0 <= i < |lists| && Performable(task, lists[i])
    decreases |lists|
  {
    if lists != [] {
      var init := lists[..|lists| - 1];
      var last := lists[|lists| - 1];
      var fi := Flatten(init);
      FlattenPerformable(task, init);
      assert Flatten(lists) == fi + last;
      if Performable(task, fi + last) {
        var j :| 0 <= j < |fi + last| && (fi + last)[j].0 == task && (fi + last)[j].1 > 0;
        if j < |fi| {
          assert fi[j] == (fi + last)[j];
          var i :| 0 <= i < |init| && Performable(task, init[i]);
          assert lists[i] == init[i];
        } else {
          assert last[j - |fi|] == (fi + last)[j];
          assert Performable(task, lists[|lists| - 1]);
        }
      }
      if exists i :: 0 <= i < |lists| && Performable(task, lists[i]) {
        var i :| 0 <= i < |lists| && Performable(task, lists[i]);
        if i < |init| {
          assert init[i] == lists[i];
          var j :| 0 <= j < |fi| && fi[j].0 == task && fi[j].1 > 0;
          assert (fi + last)[j] == fi[j];
        } else {
          var j :| 0 <= j < |last| && last[j].0 == task && last[j].1 > 0;
          assert (fi + last)[|fi| + j] == last[j];
        }
      }
    }
  }

  /** A combined list makes a step performable iff it is registered and some input list does. */
  lemma CombinedPerformable(instances: seq<Step>, lists: seq<TaskCounts>, task: Step)
    ensures Performable(task, Combined(instances, lists)) <==>
            task in instances && exists i :: 0 <= i < |lists| && Performable(task, lists[i])
  {
    var c := Combined(instances, lists);
    SumForPositive(task, Flatten(lists));
    FlattenPerformable(task, lists);
    if task in instances {
      var k :| 0 <= k < |instances| && instances[k] == task;
      assert c[k] == (task, SumFor(task, Flatten(lists)));
    }
  }

  /** `PERFORMABLE_TASKS` of any cell agrees with the machines of its subtree. */
  lemma {:induction false} CellCountsSpec(instances: seq<Step>, tree: CellTree, task: Step)
    ensures Performable(task, CellCounts(instances, tree)) <==> task in instances && HasMachineFor(tree, task)
    decreases tree
  {
    match tree
    case ManufacturingCell(ms) =>
      var c := MachineCounts(instances, ms);
      if Performable(task, c) {
        var j :| 0 <= j < |c| && c[j].0 == task && c[j].1 > 0;
        assert instances[j] == task;
      }
      if task in instances && task in ms {
        var k :| 0 <= k < |instances| && instances[k] == task;
        assert c[k].1 > 0;
      }
    case DistributionCell(cs) =>
      var lists := ChildCounts(instances, cs);
      CombinedPerformable(instances, lists, task);
      forall i | 0 <= i < |cs|
        ensures Performable(task, lists[i]) <==> task in instances && HasMachineFor(cs[i], task)
      {
        CellCountsSpec(instances, cs[i], task);
      }
  }

  // ---------------------------------------------------------------------------------------
  // check_best_path

  /**
   * Can some `k` more of `cands`, taken in order, be added to `picked` so that the combined
   * list covers `schedule` (`itertools.combinations` with the fallback of `all_tasks_included`)?
   */
  function ExistsCover(instances: seq<Step>, own: TaskCounts, schedule: seq<Step>,
                       cands: seq<TaskCounts>, k: nat, picked: seq<TaskCounts>): bool
    decreases |cands|
  {
    if k == 0 then AllIncluded(schedule, ChosenTasks(own, Combined(instances, picked)))
    else if |cands| < k then false
    else
      || ExistsCover(instances, own, schedule, cands[1..], k - 1, picked + [cands[0]])
      || ExistsCover(instances, own, schedule, cands[1..], k, picked)
  }

  /** The loop over `length in range(k, len(cells) + 1)`: the first size whose subsets cover. */
  function MinCombination(instances: seq<Step>, own: TaskCounts, schedule: seq<Step>,
                          cands: seq<TaskCounts>, k: nat): (r: Count)
    decreases |cands| + 1 - k
    ensures r.Finite? ==> k <= r.n <= |cands| && ExistsCover(instances, own, schedule, cands, r.n, [])
    ensures r.Finite? ==> forall j :: k <= j < r.n ==> !ExistsCover(instances, own, schedule, cands, j, [])
    ensures r.Infinite? ==> forall j :: k <= j <= |cands| ==> !ExistsCover(instances, own, schedule, cands, j, [])
  {
    if k > |cands| then Infinite
    else if ExistsCover(instances, own, schedule, cands, k, []) then Finite(k)
    else MinCombination(instances, own, schedule, cands, k + 1)
  }

  /** The non-zero child results, in child order (`child_results[:] = (... if value != 0)`). */
  function NonZero(results: seq<Count>): (r: seq<Count>)
    ensures forall c :: c in r <==> c in results && c != Finite(0)
    ensures r == [] <==> forall i :: 0 <= i < |results| ==> results[i] == Finite(0)
  {
    if results == [] then []
    else if results[0] == Finite(0) then
      var rest := NonZero(results[1..]);
      assert forall i :: 1 <= i < |results| ==> results[i] == results[1..][i - 1];
      rest
    else [results[0]] + NonZero(results[1..])
  }

  lemma CountLeTotal(a: Count, b: Count)
    ensures CountLe(a, b) || CountLe(b, a)
  {
  }

  /** Python's `min` over a non-empty list of counts. */
  function MinCount(results: seq<Count>): (r: Count)
    requires results != []
    ensures r in results
    ensures forall c :: c in results ==> CountLe(r, c)
  {
    if |results| == 1 then results[0]
    else
      var m := MinCount(results[1..]);
      CountLeTotal(results[0], m);
      assert forall c :: c in results ==> c == results[0] || c in results[1..];
      if CountLe(results[0], m) then results[0] else m
  }

  /** The answers of the children, each asked with the work schedule. */
  function ChildResults(instances: seq<Step>, cs: seq<CellTree>, workSchedule: seq<Step>): (r: seq<Count>)
    decreases cs
  {
    seq(|cs|, i requires 0 <= i < |cs| => BestPath(instances, cs[i], workSchedule, workSchedule))
  }

  /**
   * `check_best_path(order, include_all)`: `schedule` is the work schedule when `include_all`
   * holds and the remaining tasks otherwise; children are always asked with the work schedule.
   */
  function BestPath(instances: seq<Step>, tree: CellTree, workSchedule: seq<Step>,
                    schedule: seq<Step>): Count
    decreases tree
  {
    match tree
    case ManufacturingCell(_) =>
      if AllIncluded(schedule, CellCounts(instances, tree)) then Finite(1) else Finite(0)
    case DistributionCell(cs) =>
      var nonzero := NonZero(ChildResults(instances, cs, workSchedule));
      if nonzero != [] then MinCount(nonzero)
      else if AllIncluded(schedule, CellCounts(instances, tree)) then
        if |cs| == 2 then Finite(2)
        else MinCombination(instances, CellCounts(instances, tree), workSchedule, ChildCounts(instances, cs), 2)
      else Finite(0)
  }

  /** When some child reports a non-zero count, the answer is the least such count. */
  lemma DistributionBestPathFromChildren(instances: seq<Step>, cs: seq<CellTree>, workSchedule: seq<Step>,
                                         schedule: seq<Step>, i: nat)
    requires i < |cs| && ChildResults(instances, cs, workSchedule)[i] != Finite(0)
    ensures var r := BestPath(instances, DistributionCell(cs), workSchedule, schedule);
      var results := ChildResults(instances, cs, workSchedule);
      && r != Finite(0)
      && r in results
      && forall j :: 0 <= j < |cs| && results[j] != Finite(0) ==> CountLe(r, results[j])
  {
    var results := ChildResults(instances, cs, workSchedule);
    var nonzero := NonZero(results);
    assert results[i] in nonzero;
    var r := MinCount(nonzero);
    assert BestPath(instances, DistributionCell(cs), workSchedule, schedule) == r;
    forall j | 0 <= j < |cs| && results[j] != Finite(0) ensures CountLe(r, results[j]) {
      assert results[j] in nonzero;
    }
  }

  /** The answer is 0 exactly when no child answers and the cell alone does not cover. */
  lemma BestPathZero(instances: seq<Step>, tree: CellTree, workSchedule: seq<Step>, schedule: seq<Step>)
    ensures BestPath(instances, tree, workSchedule, schedule) == Finite(0) <==>
      && !AllIncluded(schedule, CellCounts(instances, tree))
      && (tree.DistributionCell? ==>
            forall j :: 0 <= j < |tree.children| ==> ChildResults(instances, tree.children, workSchedule)[j] == Finite(0))
  {
    if tree.DistributionCell? {
      var cs := tree.children;
      var results := ChildResults(instances, cs, workSchedule);
      if j :| 0 <= j < |cs| && results[j] != Finite(0) {
        DistributionBestPathFromChildren(instances, cs, workSchedule, schedule, j);
      }
    }
  }

  /** Taking every remaining candidate is the same as combining them all. */
  lemma {:induction false} ExistsCoverAll(instances: seq<Step>, own: TaskCounts, schedule: seq<Step>,
                                          cands: seq<TaskCounts>, picked: seq<TaskCounts>)
    ensures ExistsCover(instances, own, schedule, cands, |cands|, picked) ==
            AllIncluded(schedule, ChosenTasks(own, Combined(instances, picked + cands)))
    decreases |cands|
  {
    if cands == [] {
      assert picked + cands == picked;
    } else {
      ExistsCoverAll(instances, own, schedule, cands[1..], picked + [cands[0]]);
      assert picked + [cands[0]] + cands[1..] == picked + cands;
    }
  }

  /**
   * With `include_all` and a cell that covers the work schedule while no child does, the
   * search over child subsets succeeds at the latest with all children: the answer is a
   * number between 2 and the number of children (when there are at least two).
   */
  lemma BestPathAtMostChildren(instances: seq<Step>, cs: seq<CellTree>, workSchedule: seq<Step>)
    requires |cs| >= 2
    requires forall j :: 0 <= j < |cs| ==> ChildResults(instances, cs, workSchedule)[j] == Finite(0)
    requires AllIncluded(workSchedule, CellCounts(instances, DistributionCell(cs)))
    ensures var r := BestPath(instances, DistributionCell(cs), workSchedule, workSchedule);
      r.Finite? && 2 <= r.n <= |cs|
  {
    if |cs| != 2 {
      var own := CellCounts(instances, DistributionCell(cs));
      var lists := ChildCounts(instances, cs);
      ExistsCoverAll(instances, own, workSchedule, lists, []);
      assert [] + lists == lists;
      assert ChosenTasks(own, Combined(instances, lists)) == own;
    }
  }

  /** The subset search answers the least size whose subsets cover, and no smaller one. */
  lemma BestPathMinimal(instances: seq<Step>, cs: seq<CellTree>, workSchedule: seq<Step>, schedule: seq<Step>)
    requires |cs| != 2
    requires forall j :: 0 <= j < |cs| ==> ChildResults(instances, cs, workSchedule)[j] == Finite(0)
    requires AllIncluded(schedule, CellCounts(instances, DistributionCell(cs)))
    ensures var r := BestPath(instances, DistributionCell(cs), workSchedule, schedule);
      var own := CellCounts(instances, DistributionCell(cs));
      var lists := ChildCounts(instances, cs);
      && (r.Finite? ==> 2 <= r.n && ExistsCover(instances, own, workSchedule, lists, r.n, []))
      && forall j :: 2 <= j <= |cs| && (r.Infinite? || j < r.n) ==> !ExistsCover(instances, own, workSchedule, lists, j, [])
  {
  }

  // ---------------------------------------------------------------------------------------
  // The loops of Cell.py, proved against the functions above

  /**
   * `all_tasks_included(order, all_tasks, alternative_tasks)`: 1 when every step of the work
   * schedule (or of the remaining tasks) has an entry with a positive count, else 0.
   */
  method AllTasksIncluded(order: Order, allTasks: bool, own: TaskCounts, alternative: TaskCounts)
    returns (r: nat)
    ensures var schedule := if allTasks then order.workSchedule else order.remainingTasks;
      r == if AllIncluded(schedule, ChosenTasks(own, alternative)) then 1 else 0
  {
    var performable := ChosenTasks(own, alternative);
    var schedule := if allTasks then order.workSchedule else order.remainingTasks;
    var i := 0;
    while i < |schedule|
      invariant 0 <= i <= |schedule|
      invariant forall k :: 0 <= k < i ==> Performable(schedule[k], performable)
    {
      var possible := false;
      var j := 0;
      while j < |performable|
        invariant 0 <= j <= |performable|
        invariant possible <==> exists m :: 0 <= m < j && performable[m].0 == schedule[i] && performable[m].1 > 0
      {
        if performable[j].0 == schedule[i] && performable[j].1 > 0 {
          possible := true;
        }
        j := j + 1;
      }
      if !possible {
        assert !Performable(schedule[i], performable);
        assert !AllIncluded(schedule, ChosenTasks(own, alternative));
        return 0;
      }
      i := i + 1;
    }
    return 1;
  }

  /** `combine_performable_tasks(task_array)` over the registry `instances`. */
  method CombinePerformableTasks(instances: seq<Step>, lists: seq<TaskCounts>) returns (r: TaskCounts)
    ensures r == Combined(instances, lists)
  {
    var flat: TaskCounts := [];
    var c := 0;
    while c < |lists|
      invariant 0 <= c <= |lists|
      invariant flat == Flatten(lists[..c])
    {
      assert lists[..c + 1][..c] == lists[..c];
      flat := flat + lists[c];
      c := c + 1;
    }
    assert lists[..|lists|] == lists;
    r := [];
    var t := 0;
    while t < |instances|
      invariant 0 <= t <= |instances|
      invariant |r| == t
      invariant forall k :: 0 <= k < t ==> r[k] == (instances[k], SumFor(instances[k], flat))
    {
      var n := 0;
      var e := 0;
      while e < |flat|
        invariant 0 <= e <= |flat|
        invariant n == SumFor(instances[t], flat[..e])
      {
        assert flat[..e + 1][..e] == flat[..e];
        if flat[e].0 == instances[t] {
          n := n + flat[e].1;
        }
        e := e + 1;
      }
      assert flat[..|flat|] == flat;
      r := r + [(instances[t], n)];
      t := t + 1;
    }
  }

  /**
   * Both `init_performable_tasks`: a manufacturing cell counts its machines per registered
   * step; a distribution cell initialises its children and combines their lists.
   */
  method InitPerformableTasks(instances: seq<Step>, tree: CellTree) returns (r: TaskCounts)
    ensures r == CellCounts(instances, tree)
    decreases tree
  {
    match tree
    case ManufacturingCell(ms) =>
      r := [];
      var t := 0;
      while t < |instances|
        invariant 0 <= t <= |instances|
        invariant |r| == t
        invariant forall k :: 0 <= k < t ==> r[k] == (instances[k], multiset(ms)[instances[k]])
      {
        var counter := 0;
        var m := 0;
        while m < |ms|
          invariant 0 <= m <= |ms|
          invariant counter == multiset(ms[..m])[instances[t]]
        {
          assert ms[..m + 1] == ms[..m] + [ms[m]];
          if ms[m] == instances[t] {
            counter := counter + 1;
          }
          m := m + 1;
        }
        assert ms[..|ms|] == ms;
        r := r + [(instances[t], counter)];
        t := t + 1;
      }
    case DistributionCell(cs) =>
      var childTasks: seq<TaskCounts> := [];
      var i := 0;
      while i < |cs|
        invariant 0 <= i <= |cs|
        invariant childTasks == ChildCounts(instances, cs[..i])
      {
        var tasks := InitPerformableTasks(instances, cs[i]);
        childTasks := childTasks + [tasks];
        i := i + 1;
      }
      assert cs[..|cs|] == cs;
      r := CombinePerformableTasks(instances, childTasks);
  }

  /** `check_best_path` with its loops: children first, then the search over child subsets. */
  method CheckBestPath(instances: seq<Step>, tree: CellTree, workSchedule: seq<Step>, schedule: seq<Step>)
    returns (r: Count)
    ensures r == BestPath(instances, tree, workSchedule, schedule)
    decreases tree
  {
    var own := InitPerformableTasks(instances, tree);
    match tree
    case ManufacturingCell(_) =>
      r := if AllIncluded(schedule, own) then Finite(1) else Finite(0);
    case DistributionCell(cs) =>
      var results: seq<Count> := [];
      var i := 0;
      while i < |cs|
        invariant 0 <= i <= |cs|
        invariant results == ChildResults(instances, cs[..i], workSchedule)
      {
        var c := CheckBestPath(instances, cs[i], workSchedule, workSchedule);
        results := results + [c];
        i := i + 1;
      }
      assert cs[..|cs|] == cs;
      var nonzero := NonZero(results);
      if nonzero != [] {
        r := MinCount(nonzero);
      } else if AllIncluded(schedule, own) {
        if |cs| == 2 {
          r := Finite(2);
        } else {
          var lists := ChildCounts(instances, cs);
          var minCombi := Infinite;
          var length := 2;
          while length <= |cs|
            invariant length >= 2
            invariant minCombi.Infinite? ==>
              MinCombination(instances, own, workSchedule, lists, 2) == MinCombination(instances, own, workSchedule, lists, length)
            invariant minCombi.Finite? ==> minCombi == MinCombination(instances, own, workSchedule, lists, 2)
            decreases |cs| + 1 - length
          {
            if ExistsCover(instances, own, workSchedule, lists, length, []) && !CountLe(minCombi, Finite(length)) {
              minCombi := Finite(length);
            }
            length := length + 1;
          }
          r := minCombi;
        }
      } else {
        r := Finite(0);
      }
  }

  // ---------------------------------------------------------------------------------------
  // Reservations and membership

  /** An entry `(order, time, position, agent)` of a cell's `expected_orders`. */
  datatype Announcement = Announcement(order: Order, time: real, position: Position, agent: nat)

  function OrdersOf(s: seq<Announcement>): (r: seq<Order>)
    ensures |r| == |s| && forall i :: 0 <= i < |s| ==> r[i] == s[i].order
  {
    seq(|s|, i requires 0 <= i < |s| => s[i].order)
  }

  /** `cancel_incoming_order`: drop the first entry for `o`; nothing when there is none. */
  function CancelFirst(s: seq<Announcement>, o: Order): (r: seq<Announcement>)
    ensures o !in OrdersOf(s) ==> r == s
    ensures o in OrdersOf(s) ==>
      exists k :: (0 <= k < |s| && s[k].order == o &&
                   (forall j :: 0 <= j < k ==> s[j].order != o) && r == s[..k] + s[k + 1..])
  {
    if o in OrdersOf(s) then
      var k := IndexOf(OrdersOf(s), o);
      assert forall j :: 0 <= j < k ==> OrdersOf(s)[..k][j] == s[j].order;
      s[..k] + s[k + 1..]
    else s
  }

  /** Cancelling removes one announcement of `o` from the orders, exactly as `list.remove` would. */
  lemma CancelFirstOrders(s: seq<Announcement>, o: Order)
    ensures OrdersOf(CancelFirst(s, o)) == RemoveFirst(OrdersOf(s), o)
  {
    if o in OrdersOf(s) {
      var k := IndexOf(OrdersOf(s), o);
      assert CancelFirst(s, o) == s[..k] + s[k + 1..];
      OrdersOfSplice(s, k);
    }
  }

  lemma OrdersOfSplice(s: seq<Announcement>, k: nat)
    requires k < |s|
    ensures OrdersOf(s[..k] + s[k + 1..]) == OrdersOf(s)[..k] + OrdersOf(s)[k + 1..]
  {
    var l := s[..k] + s[k + 1..];
    assert forall i :: 0 <= i < k ==> l[i] == s[i];
    assert forall i :: k <= i < |l| ==> l[i] == s[i + 1];
  }

  lemma OrdersOfAppend(s: seq<Announcement>, a: Announcement)
    ensures OrdersOf(s + [a]) == OrdersOf(s) + [a.order]
  {
    assert forall i :: 0 <= i < |s| ==> (s + [a])[i] == s[i];
  }

  /** Announcing and then cancelling an order restores the announced orders as a multiset. */
  lemma AnnounceThenCancel(s: seq<Announcement>, a: Announcement)
    ensures multiset(OrdersOf(CancelFirst(s + [a], a.order))) == multiset(OrdersOf(s))
  {
    CancelFirstOrders(s + [a], a.order);
    OrdersOfAppend(s, a);
    assert multiset(OrdersOf(s) + [a.order]) - multiset{a.order} == multiset(OrdersOf(s));
  }

  /** When the order had no earlier announcement, cancelling restores the list itself. */
  lemma AnnounceThenCancelFresh(s: seq<Announcement>, a: Announcement)
    requires a.order !in OrdersOf(s)
    ensures CancelFirst(s + [a], a.order) == s
  {
    var t := s + [a];
    OrdersOfAppend(s, a);
    assert forall j :: 0 <= j < |s| ==> OrdersOf(t)[j] != a.order;
    assert IndexOf(OrdersOf(t), a.order) == |s|;
    assert t[..|s|] == s && t[|s| + 1..] == [];
  }

  /** The code `get_order_attributes` writes for `locked_by` and `picked_up_by`. */
  function HolderCode(holder: Option<nat>, requester: nat): (r: nat)
    ensures r <= 2
    ensures r == 0 <==> holder.None?
    ensures r == 1 <==> holder == Some(requester)
  {
    if holder.None? then 0 else if holder.value == requester then 1 else 2
  }

  /** The `next_task` attribute: the id of the next step, or -1 once no tasks remain. */
  function NextTaskCode(o: Order): (r: int)
    reads o
    ensures o.remainingTasks == [] ==> r == -1
    ensures o.Valid() && o.remainingTasks != [] ==> r == o.remainingTasks[0].id
  {
    if |o.remainingTasks| != 0 then o.nextTask.id else -1
  }

  class Cell {
    const id: nat
    var ordersInCell: seq<Order>
    var expectedOrders: seq<Announcement>

    constructor (id: nat)
      ensures this.id == id && ordersInCell == [] && expectedOrders == []
    {
      this.id := id;
      ordersInCell := [];
      expectedOrders := [];
    }

    /** `inform_incoming_order`: append one announcement. */
    method InformIncomingOrder(agent: nat, item: Order, time: real, position: Position)
      modifies this`expectedOrders
      ensures expectedOrders == old(expectedOrders) + [Announcement(item, time, position, agent)]
    {
      expectedOrders := expectedOrders + [Announcement(item, time, position, agent)];
    }

    /** `cancel_incoming_order`: the loop that removes the first entry for `o` and returns. */
    method CancelIncomingOrder(o: Order)
      modifies this`expectedOrders
      ensures expectedOrders == CancelFirst(old(expectedOrders), o)
    {
      var i := 0;
      while i < |expectedOrders|
        invariant 0 <= i <= |expectedOrders|
        invariant expectedOrders == old(expectedOrders)
        invariant forall j :: 0 <= j < i ==> expectedOrders[j].order != o
      {
        if expectedOrders[i].order == o {
          var s := expectedOrders;
          assert OrdersOf(s)[i] == o;
          assert o !in OrdersOf(s)[..i] by {
            assert forall j :: 0 <= j < i ==> OrdersOf(s)[..i][j] == s[j].order;
          }
          assert IndexOf(OrdersOf(s), o) == i;
          expectedOrders := s[..i] + s[i + 1..];
          return;
        }
        i := i + 1;
      }
      assert o !in OrdersOf(expectedOrders);
    }

    /** `new_order_in_cell`: the order enters this cell; its announcement is consumed. */
    method NewOrderInCell(o: Order, now: real)
      modifies this`ordersInCell, this`expectedOrders, o`currentCell, o`inCellSince
      ensures o.currentCell == Some(id) && o.inCellSince == Some(now)
      ensures expectedOrders == CancelFirst(old(expectedOrders), o)
      ensures ordersInCell == old(ordersInCell) + [o]
    {
      o.currentCell := Some(id);
      o.inCellSince := Some(now);
      CancelIncomingOrder(o);
      ordersInCell := ordersInCell + [o];
    }

    /** `remove_order_in_cell`; `list.remove` raises when the order is not in the cell. */
    method RemoveOrderInCell(o: Order)
      requires o in ordersInCell
      modifies this`ordersInCell, o`inCellSince
      ensures o.inCellSince == None
      ensures ordersInCell == RemoveFirst(old(ordersInCell), o)
      ensures multiset(ordersInCell) == multiset(old(ordersInCell)) - multiset{o}
    {
      o.inCellSince := None;
      ordersInCell := RemoveFirst(ordersInCell, o);
    }
  }
}
