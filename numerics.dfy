/** The few float64 operations of Go's standard library that the simulation
    uses, stated on Dafny's exact reals. */
module Numerics {

  /** A value of `rand.Float64()`: uniform in the half-open interval [0, 1). */
  predicate IsDraw(u: real) {
    0.0 <= u < 1.0
  }

  /** `math.Round`: the nearest integer, halves rounded away from zero. */
  function Round(v: real): (n: int)
    ensures v >= 0.0 ==> v - 0.5 < n as real <= v + 0.5
    ensures v < 0.0 ==> v - 0.5 <= n as real < v + 0.5
  {
    if v >= 0.0 then (v + 0.5).Floor else -((0.5 - v).Floor)
  }

  /** Go's conversion `int(v)` of a float64: truncation toward zero. */
  function Trunc(v: real): (n: int)
    ensures v >= 0.0 ==> n as real <= v < n as real + 1.0
    ensures v < 0.0 ==> n as real - 1.0 < v <= n as real
  {
    if v >= 0.0 then v.Floor else -((-v).Floor)
  }

  /** `math.Max` on ordinary (non-NaN) values. */
  function Max(a: real, b: real): (m: real)
    ensures m >= a && m >= b && (m == a || m == b)
  {
    if a >= b then a else b
  }

  /** A draw scaled by a non-negative extent lands in [0, extent). */
  lemma DrawScaled(u: real, extent: real)
    ensures IsDraw(u) && extent >= 0.0 ==> 0.0 <= u * extent <= extent
    ensures IsDraw(u) && extent > 0.0 ==> u * extent < extent
  {
    assert extent - u * extent == (1.0 - u) * extent;
  }

  /** `rand.Float64() * extent`: a draw scaled to [0, extent). */
  function Scaled(u: real, extent: real): (v: real)
    ensures IsDraw(u) && extent >= 0.0 ==> 0.0 <= v <= extent
    ensures IsDraw(u) && extent > 0.0 ==> v < extent
  {
    DrawScaled(u, extent);
    u * extent
  }

  /** The same, with the factors the other way round. */
  lemma ScaleDraw(extent: real, u: real)
    ensures IsDraw(u) && extent >= 0.0 ==> 0.0 <= extent * u <= extent
    ensures IsDraw(u) && extent > 0.0 ==> extent * u < extent
  {
    assert extent * u == u * extent;
    DrawScaled(u, extent);
  }
}
