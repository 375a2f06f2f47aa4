/**
 * RewardLayer.py: the penalty of a choice, one row of the cell state with the columns the
 * penalty reads (`order` 0 for an empty slot, `locked` 2 for another agent's lock, 0/1 flags,
 * `_destination` -1 for none).
 */
module RewardLayer {
  datatype Choice = Choice(order: int, locked: int, pickedUp: int, inMInput: int, inM: int,
                           processing: int, inSameCell: int, destination: int)

  /** The eight forbidden-choice conditions, in the order the source lists them. */
  function Violations(c: Choice): (r: seq<bool>)
    ensures |r| == 8
  {
    [c.order == 0, c.locked == 2, c.pickedUp == 1, c.inMInput == 1, c.inM == 1,
     c.processing == 1, c.inSameCell == 0, c.destination == -1]
  }

  /** The number of true entries (`sum` over booleans). */
  function CountTrue(s: seq<bool>): (n: nat)
    ensures n <= |s|
    ensures n == 0 <==> forall i :: 0 <= i < |s| ==> !s[i]
    ensures n == |s| <==> forall i :: 0 <= i < |s| ==> s[i]
  {
    if s == [] then 0
    else
      var rest := CountTrue(s[1..]);
      assert forall i :: 1 <= i < |s| ==> s[i] == s[1..][i - 1];
      (if s[0] then 1 else 0) + rest
  }

  /** `evaluate_choice`: -1000 per violated condition, so the penalty lies in [-8000, 0] and is a multiple of 1000. */
  function EvaluateChoice(c: Choice): (p: int)
    ensures -8000 <= p <= 0 && p % 1000 == 0
  {
    Penalty(CountTrue(Violations(c)))
  }

  /** A choice goes unpenalised exactly when it violates none of the eight conditions. */
  lemma NoPenaltyIffAllowed(c: Choice)
    ensures EvaluateChoice(c) == 0 <==>
      (&& c.order != 0 && c.locked != 2 && c.pickedUp != 1 && c.inMInput != 1
       && c.inM != 1 && c.processing != 1 && c.inSameCell != 0 && c.destination != -1)
  {
    var v := Violations(c);
    var allowed := && c.order != 0 && c.locked != 2 && c.pickedUp != 1 && c.inMInput != 1
                   && c.inM != 1 && c.processing != 1 && c.inSameCell != 0 && c.destination != -1;
    if allowed {
      forall i | 0 <= i < |v| ensures !v[i] { }
    } else {
      var i := if c.order == 0 then 0 else if c.locked == 2 then 1 else if c.pickedUp == 1 then 2
        else if c.inMInput == 1 then 3 else if c.inM == 1 then 4 else if c.processing == 1 then 5
        else if c.inSameCell == 0 then 6 else 7;
      assert v[i];
    }
  }

  /** The full penalty of -8000 is reached exactly when the choice violates all eight conditions. */
  lemma FullPenaltyIffAllViolated(c: Choice)
    ensures EvaluateChoice(c) == -8000 <==>
      (&& c.order == 0 && c.locked == 2 && c.pickedUp == 1 && c.inMInput == 1
       && c.inM == 1 && c.processing == 1 && c.inSameCell == 0 && c.destination == -1)
  {
    var v := Violations(c);
    var all := && c.order == 0 && c.locked == 2 && c.pickedUp == 1 && c.inMInput == 1
               && c.inM == 1 && c.processing == 1 && c.inSameCell == 0 && c.destination == -1;
    if all {
      forall i | 0 <= i < |v| ensures v[i] { }
    } else {
      var i := if c.order != 0 then 0 else if c.locked != 2 then 1 else if c.pickedUp != 1 then 2
        else if c.inMInput != 1 then 3 else if c.inM != 1 then 4 else if c.processing != 1 then 5
        else if c.inSameCell != 0 then 6 else 7;
      assert !v[i];
    }
  }

  /** -1000 per violation, for at most eight violations. */
  function Penalty(n: nat): (p: int)
    requires n <= 8
    ensures -8000 <= p <= 0 && p % 1000 == 0
    ensures p == 0 <==> n == 0
    ensures p == -8000 <==> n == 8
  {
    ThousandsAreMultiples(n);
    -1000 * n
  }

  lemma {:induction false} ThousandsAreMultiples(n: nat)
    ensures (-1000 * n) % 1000 == 0
  {
    if n > 0 {
      ThousandsAreMultiples(n - 1);
      assert -1000 * n == -1000 * (n - 1) - 1000;
    }
  }

  /** Fixing one violated condition (here: giving the choice a destination) gains exactly 1000. */
  lemma DestinationWorth1000(c: Choice, d: int)
    requires c.destination == -1 && d != -1
    ensures EvaluateChoice(c.(destination := d)) == EvaluateChoice(c) + 1000
  {
    var v := Violations(c);
    var w := Violations(c.(destination := d));
    assert v == v[..7] + [true];
    assert w == v[..7] + [false];
    CountTrueAppend(v[..7], true);
    CountTrueAppend(v[..7], false);
  }

  lemma {:induction false} CountTrueAppend(s: seq<bool>, b: bool)
    ensures CountTrue(s + [b]) == CountTrue(s) + (if b then 1 else 0)
  {
    if s != [] {
      assert (s + [b])[1..] == s[1..] + [b];
      CountTrueAppend(s[1..], b);
    }
  }

  /** `reward_action`: the reward of the action layer is constant. */
  function RewardAction(): (r: int)
    ensures r == 0
  {
    0
  }
}
