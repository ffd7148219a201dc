/** Induction along a run. */
module Runs {

  /** What every step keeps holds from the state on in which it holds first. */
  lemma {:induction false} HoldsAlong<S(!new)>(run: seq<S>, j: nat, k: nat, good: S -> bool, step: (S, S) -> bool)
    requires j <= k < |run| && good(run[j])
    requires forall i :: j <= i < k ==> step(run[i], run[i + 1])
    requires forall s, s' :: good(s) && step(s, s') ==> good(s')
    ensures good(run[k])
    decreases k - j
  {
    if j < k {
      HoldsAlong(run, j, k - 1, good, step);
      assert step(run[k - 1], run[k - 1 + 1]);
    }
  }

  /** How many steps of a run are of a kind. */
  ghost function Count<S>(run: seq<S>, own: (S, S) -> bool): nat {
    if |run| <= 1 then 0
    else Count(run[..|run| - 1], own) + (if own(run[|run| - 2], run[|run| - 1]) then 1 else 0)
  }

  /** If steps of a kind lower a weight and no other step raises it, there are no more of them in a
      run than the weight at first. */
  lemma {:induction false} WeightBoundsCount<S(!new)>(run: seq<S>, good: S -> bool, step: (S, S) -> bool,
                                                      own: (S, S) -> bool, weight: S -> nat)
    requires run != [] && good(run[0])
    requires forall i :: 0 <= i < |run| - 1 ==> step(run[i], run[i + 1])
    requires forall s, s' :: good(s) && step(s, s') ==>
      good(s') && weight(s') + (if own(s, s') then 1 else 0) <= weight(s)
    ensures good(run[|run| - 1]) && Count(run, own) + weight(run[|run| - 1]) <= weight(run[0])
  {
    if |run| > 1 {
      var n := |run| - 1;
      var init := run[..n];
      forall i | 0 <= i < n - 1 ensures step(init[i], init[i + 1]) {
        assert step(run[i], run[i + 1]);
      }
      WeightBoundsCount(init, good, step, own, weight);
      assert step(run[n - 1], run[n - 1 + 1]);
    }
  }
}
