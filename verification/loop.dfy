/**
 * The bounded, early-stopping loop of `value_iteration`, independent of what one sweep
 * computes: a step function on states and the `delta` it reports.
 */
module Loop {
  /** The state after `k` steps from `x`, with no early stop. */
  function Iter<T>(step: T -> T, x: T, k: nat): T
  {
    if k == 0 then x else step(Iter(step, x, k - 1))
  }

  /** One step followed by `k` more is `k + 1` steps. */
  lemma {:induction false} IterShift<T>(step: T -> T, x: T, k: nat)
    ensures Iter(step, step(x), k) == Iter(step, x, k + 1)
  {
    if k > 0 {
      IterShift(step, x, k - 1);
    }
  }

  /**
   * At most `budget` steps from `x`, stopping right after the first step whose reported `delta`
   * is below `eps`: the final state and the number of steps taken.
   */
  function Bounded<T>(step: T -> T, delta: T -> real, eps: real, x: T, budget: int): (r: (T, nat))
    ensures budget <= 0 ==> r == (x, 0)
    ensures budget > 0 ==> 1 <= r.1 <= budget
    decreases budget
  {
    if budget <= 0 then (x, 0)
    else if delta(x) < eps then (step(x), 1)
    else
      var rest := Bounded(step, delta, eps, step(x), budget - 1);
      (rest.0, rest.1 + 1)
  }

  /**
   * The loop runs no step when the budget is not positive and between 1 and `budget` steps
   * otherwise; its state is that of `Iter` after that many steps; every step but the last
   * reported a `delta` of at least `eps`; and if it stopped before the budget ran out, the last
   * step reported one below `eps`.
   */
  lemma {:induction false} BoundedStopsAtFirstSmallDelta<T>(step: T -> T, delta: T -> real, eps: real, x: T, budget: int)
    ensures var (y, n) := Bounded(step, delta, eps, x, budget);
      && (if budget <= 0 then n == 0 else 1 <= n <= budget)
      && y == Iter(step, x, n)
      && (forall k :: 0 <= k < n - 1 ==> delta(Iter(step, x, k)) >= eps)
      && (0 < n < budget ==> delta(Iter(step, x, n - 1)) < eps)
    decreases budget
  {
    if budget > 0 && delta(x) >= eps {
      var (y, n) := Bounded(step, delta, eps, step(x), budget - 1);
      BoundedStopsAtFirstSmallDelta(step, delta, eps, step(x), budget - 1);
      IterShift(step, x, n);
      forall k | 0 <= k < n
        ensures delta(Iter(step, x, k)) >= eps
      {
        if k > 0 {
          IterShift(step, x, k - 1);
        }
      }
      if 0 < n + 1 < budget {
        IterShift(step, x, n - 1);
      }
    }
  }

  /** When the loop stopped before the budget ran out, its last step reported a `delta` below `eps`. */
  lemma BoundedStoppedEarly<T>(step: T -> T, delta: T -> real, eps: real, x: T, budget: int, n: nat)
    requires n == Bounded(step, delta, eps, x, budget).1 && 0 < n < budget
    ensures delta(Iter(step, x, n - 1)) < eps
  {
    BoundedStopsAtFirstSmallDelta(step, delta, eps, x, budget);
  }

  /** Every step before the loop's last one reported a `delta` of at least `eps`. */
  lemma BoundedKeptGoing<T>(step: T -> T, delta: T -> real, eps: real, x: T, budget: int, k: nat)
    requires k < Bounded(step, delta, eps, x, budget).1 - 1
    ensures delta(Iter(step, x, k)) >= eps
  {
    BoundedStopsAtFirstSmallDelta(step, delta, eps, x, budget);
  }

  /**
   * The loop itself: steps from `x` while budget is left, stopping right after the first step
   * whose reported `delta` (measured before the step is applied) is below `eps`.
   */
  method BoundedLoop<T>(step: T -> T, delta: T -> real, eps: real, x: T, budget: int) returns (y: T, n: nat)
    ensures (y, n) == Bounded(step, delta, eps, x, budget)
  {
    y, n := x, 0;
    while n < budget
      invariant Bounded(step, delta, eps, x, budget)
        == (Bounded(step, delta, eps, y, budget - n).0, Bounded(step, delta, eps, y, budget - n).1 + n)
      decreases budget - n
    {
      var d := delta(y);
      y, n := step(y), n + 1;
      if d < eps {
        return;
      }
    }
  }
}
