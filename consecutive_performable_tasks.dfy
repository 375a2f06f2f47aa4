/**
 * Utils/consecutive_performable_tasks.py: how many of an order's next steps, counted from
 * the front, a cell (or tree branch) can perform without rerouting.
 */
module ConsecutiveTasks {
  import opened ProcessingSteps

  /** A cell's `PERFORMABLE_TASKS`: one (step, machine count) entry per step. */
  type TaskCounts = seq<(Step, nat)>

  /** A step is performable when some entry for it has a machine count above zero. */
  predicate Performable(task: Step, counts: TaskCounts) {
    exists j :: 0 <= j < |counts| && counts[j].0 == task && counts[j].1 > 0
  }

  /** The first comprehension of the source: the steps with a positive count. */
  function PerformableSteps(counts: TaskCounts): (r: seq<Step>)
    ensures forall t :: t in r <==> Performable(t, counts)
  {
    if counts == [] then []
    else
      var rest := PerformableSteps(counts[1..]);
      assert forall t :: Performable(t, counts) <==>
        (counts[0].0 == t && counts[0].1 > 0) || Performable(t, counts[1..]) by {
        forall t ensures Performable(t, counts) ==>
          (counts[0].0 == t && counts[0].1 > 0) || Performable(t, counts[1..]) {
          if Performable(t, counts) {
            var j :| 0 <= j < |counts| && counts[j].0 == t && counts[j].1 > 0;
            if j > 0 { assert counts[1..][j - 1] == counts[j]; }
          }
        }
        forall t ensures Performable(t, counts[1..]) ==> Performable(t, counts) {
          if Performable(t, counts[1..]) {
            var j :| 0 <= j < |counts| - 1 && counts[1..][j].0 == t && counts[1..][j].1 > 0;
            assert counts[j + 1] == counts[1..][j];
          }
        }
      }
      if counts[0].1 > 0 then [counts[0].0] + rest else rest
  }

  /**
   * `consecutive_performable_tasks(next_tasks, performable_tasks)`: the index of the first
   * step that is not performable, or the number of steps when all of them are.
   */
  function ConsecutivePerformableTasks(nextTasks: seq<Step>, counts: TaskCounts): (r: nat)
    ensures r <= |nextTasks|
    ensures forall i :: 0 <= i < r ==> Performable(nextTasks[i], counts)
    ensures r < |nextTasks| ==> !Performable(nextTasks[r], counts)
  {
    var performable := PerformableSteps(counts);
    if nextTasks == [] then 0
    else if nextTasks[0] !in performable then 0
    else 1 + ConsecutivePerformableTasks(nextTasks[1..], counts)
  }

  /** Entries with count 0 behave exactly as if they were absent. */
  lemma {:induction false} ZeroCountsIgnored(nextTasks: seq<Step>, counts: TaskCounts, t: Step)
    ensures ConsecutivePerformableTasks(nextTasks, counts + [(t, 0)]) ==
            ConsecutivePerformableTasks(nextTasks, counts)
  {
    var counts' := counts + [(t, 0)];
    assert forall x :: Performable(x, counts') <==> Performable(x, counts) by {
      forall x | Performable(x, counts') ensures Performable(x, counts) {
        var j :| 0 <= j < |counts'| && counts'[j].0 == x && counts'[j].1 > 0;
        assert j < |counts|;
        assert counts[j] == counts'[j];
      }
      forall x | Performable(x, counts) ensures Performable(x, counts') {
        var j :| 0 <= j < |counts| && counts[j].0 == x && counts[j].1 > 0;
        assert counts'[j] == counts[j];
      }
    }
    if nextTasks != [] && Performable(nextTasks[0], counts) {
      ZeroCountsIgnored(nextTasks[1..], counts, t);
    }
  }
}
