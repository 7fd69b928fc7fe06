/** The random source of src/App.tsx, taken as parameters.

    Every call of `Math.random` in the source is modelled as a `real`
    draw in [0, 1) that the caller supplies, so each operation below is a
    pure function of its draws. */
module Random {

  /** A value `Math.random` may return. */
  predicate IsDraw(r: real) {
    0.0 <= r < 1.0
  }

  /** Every entry of `rs` is a value `Math.random` may return. */
  predicate AllDraws(rs: seq<real>) {
    forall k :: 0 <= k < |rs| ==> IsDraw(rs[k])
  }

  /** The floor of a draw times `n`: an index into a pool of `n` entries. */
  function PickIndex(r: real, n: nat): (k: nat)
    requires IsDraw(r) && n > 0
    ensures k < n
  {
    var x := r * n as real;
    assert x < n as real by { MulBelow(r, n as real); }
    x.Floor
  }

  /** `Math.round` for a non-negative `x`: the half-up rounding. */
  function RoundHalfUp(x: real): (k: int)
    requires x >= 0.0
    ensures k >= 0
    ensures x - 0.5 < k as real <= x + 0.5
  {
    (x + 0.5).Floor
  }

  lemma MulBelow(r: real, n: real)
    requires 0.0 <= r < 1.0 && n > 0.0
    ensures r * n < n
  {
    assert n - r * n == (1.0 - r) * n;
  }
}
