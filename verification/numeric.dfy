/** Real-number helpers shared by the Bellman update and the policy. */
module Numeric {

  /** Absolute value, as `np.abs` computes it on a scalar. */
  function Abs(x: real): (r: real)
    ensures r >= 0.0
    ensures r == x || r == -x
  {
    if x < 0.0 then -x else x
  }

  /** Python's two-argument `max`: the first argument unless the second is strictly larger. */
  function Max2(a: real, b: real): (r: real)
    ensures a <= r && b <= r
    ensures r == a || r == b
  {
    if b > a then b else a
  }

  /** Python's `max` over a non-empty list: a left fold of `Max2`. */
  function MaxOf(xs: seq<real>): (m: real)
    requires |xs| > 0
    ensures m in xs
    ensures forall i :: 0 <= i < |xs| ==> xs[i] <= m
  {
    if |xs| == 1 then xs[0]
    else Max2(MaxOf(xs[..|xs| - 1]), xs[|xs| - 1])
  }
}
