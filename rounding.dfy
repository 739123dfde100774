/**
 * `round(x, FLOAT_PRECISION)` as Python 2 defines it: the nearest multiple of
 * 10^-8, ties rounded away from zero. Coordinates are exact reals here, so the
 * binary representation of doubles plays no part.
 */
module Rounding {
  import opened Scene

  const FLOAT_PRECISION: nat := 8

  /** 10^FLOAT_PRECISION */
  const Scale: real := 100000000.0

  /** `x` is a multiple of 10^-8. */
  predicate OnGrid(x: real)
  {
    (x * Scale).Floor as real == x * Scale
  }

  /** The number of 10^-8 steps `round` lands on: the nearest integer to `x * Scale`, ties away from zero. */
  function Steps(x: real): (n: int)
    ensures -0.5 <= n as real - x * Scale <= 0.5
  {
    if x >= 0.0 then (x * Scale + 0.5).Floor
    else -((-x * Scale + 0.5).Floor)
  }

  function Round(x: real): (r: real)
    ensures OnGrid(r)
    ensures -0.5 <= (r - x) * Scale <= 0.5
  {
    var n := Steps(x);
    assert (n as real / Scale) * Scale == n as real;
    n as real / Scale
  }

  /** Rounding is symmetric about zero, so ties go away from zero on both sides. */
  lemma RoundOdd(x: real)
    ensures Round(-x) == -Round(x)
  {
    assert Steps(-x) == -Steps(x);
  }

  /** A value already on the grid is left unchanged, so rounding twice equals rounding once. */
  lemma RoundOnGrid(x: real)
    requires OnGrid(x)
    ensures Round(x) == x
  {
    var n := (x * Scale).Floor;
    assert Steps(x) == n;
    assert (n as real / Scale) == x;
  }

  lemma RoundIdempotent(x: real)
    ensures Round(Round(x)) == Round(x)
  {
    RoundOnGrid(Round(x));
  }

  /** A tie is rounded away from zero: half a step above `n * 10^-8` goes up. */
  lemma RoundTieAwayFromZero(n: nat)
    ensures Round((n as real + 0.5) / Scale) == (n + 1) as real / Scale
  {
    var x := (n as real + 0.5) / Scale;
    assert x * Scale + 0.5 == (n + 1) as real;
    assert Steps(x) == n + 1;
  }

  /** `_roundPos`: the three coordinates of a vector, each rounded. */
  function RoundPos(v: Vec3): (r: seq<real>)
    ensures |r| == 3
  {
    [Round(v.x), Round(v.y), Round(v.z)]
  }

  /** `_roundQuat`: the four components x, y, z, w of a quaternion, each rounded. */
  function RoundQuat(q: Quat): (r: seq<real>)
    ensures |r| == 4
  {
    [Round(q.x), Round(q.y), Round(q.z), Round(q.w)]
  }
}
