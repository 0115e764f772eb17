/** The wind model of `EbiSnow`: a target vector (direction, power), the
    previous target, and a counter that blends linearly from the previous
    target to the current one over 2000 frames. */
module WindModel {
  import opened Numerics

  /** `math.Pi` as a float64 literal. */
  const Pi: real := 3.141592653589793

  /** Frames over which the blend runs; passing it re-randomises the target. */
  const Transition: int := 2000

  /** The wind fields of `EbiSnow`. */
  datatype WindState = WindState(
    dir: real, power: real,          // current target
    lastDir: real, lastPower: real,  // previous target
    lastChange: int,                 // frames since the last randomisation
    intensity: real)                 // configured maximum power
  {
    /** What every reachable wind state satisfies. */
    predicate Valid() {
      0 <= lastChange <= Transition && 0.0 <= intensity &&
      0.0 <= dir < Pi && 0.0 <= lastDir < Pi &&
      0.0 <= power <= intensity && 0.0 <= lastPower
    }
  }

  /** The two `rand.Float64()` draws a randomisation consumes. */
  datatype WindDraw = WindDraw(dir: real, power: real) {
    predicate Valid() { IsDraw(dir) && IsDraw(power) }
  }

  /** `v` lies on the closed segment between `a` and `b`. */
  predicate Between(v: real, a: real, b: real) {
    (a <= v <= b) || (b <= v <= a)
  }

  /** Linear interpolation from `a` (at t = 0) to `b` (at t = 1). */
  function Lerp(a: real, b: real, t: real): (v: real)
    ensures t == 0.0 ==> v == a
    ensures t == 1.0 ==> v == b
    ensures 0.0 <= t <= 1.0 ==> Between(v, a, b)
  {
    LerpBetween(a, b, t);
    a + (b - a) * t
  }

  lemma LerpBetween(a: real, b: real, t: real)
    ensures 0.0 <= t <= 1.0 ==> Between(a + (b - a) * t, a, b)
  {
    if 0.0 <= t <= 1.0 {
      var e := b - a;
      NonNegProduct(if e >= 0.0 then e else -e, t);
      NonNegProduct(if e >= 0.0 then e else -e, 1.0 - t);
      assert e * t + e * (1.0 - t) == e;
    }
  }

  lemma NonNegProduct(x: real, y: real)
    requires x >= 0.0 && y >= 0.0
    ensures x * y >= 0.0
  {
  }

  /** `EbiSnow.Wind`: the blended wind at ratio `lastChange / 2000`. */
  function Wind(w: WindState): (r: (real, real))
    ensures w.lastChange == 0 ==> r == (w.lastDir, w.lastPower)
    ensures w.lastChange == Transition ==> r == (w.dir, w.power)
    ensures 0 <= w.lastChange <= Transition ==>
      Between(r.0, w.lastDir, w.dir) && Between(r.1, w.lastPower, w.power)
  {
    var t := w.lastChange as real / 2000.0;
    (Lerp(w.lastDir, w.dir, t), Lerp(w.lastPower, w.power, t))
  }

  /** A new target direction from the draw u: Pi * u, in [0, Pi). */
  function DrawDir(u: real): (v: real)
    ensures IsDraw(u) ==> 0.0 <= v < Pi
  {
    ScaleDraw(Pi, u);
    Pi * u
  }

  /** A new target power from the draw u: intensity * u, in [0, intensity),
      or 0 when the intensity is 0. */
  function DrawPower(intensity: real, u: real): (v: real)
    ensures IsDraw(u) && intensity >= 0.0 ==>
      0.0 <= v <= intensity &&
      (intensity > 0.0 ==> v < intensity) &&
      (intensity == 0.0 ==> v == 0.0)
  {
    ScaleDraw(intensity, u);
    intensity * u
  }

  /** `EbiSnow.RandomizeWind`: the old target becomes the previous one, the
      counter restarts and a new target is drawn, with the direction in
      [0, Pi) and the power in [0, intensity). */
  function Randomize(w: WindState, d: WindDraw): (r: WindState)
    ensures r.lastDir == w.dir && r.lastPower == w.power
    ensures r.lastChange == 0 && r.intensity == w.intensity
    ensures IsDraw(d.dir) ==> 0.0 <= r.dir < Pi
    ensures IsDraw(d.power) && w.intensity >= 0.0 ==>
      0.0 <= r.power <= w.intensity &&
      (w.intensity > 0.0 ==> r.power < w.intensity) &&
      (w.intensity == 0.0 ==> r.power == 0.0)
    ensures w.Valid() && d.Valid() ==> r.Valid()
  {
    WindState(DrawDir(d.dir), DrawPower(w.intensity, d.power), w.dir, w.power, 0, w.intensity)
  }

  /** The wind part of one running `Update`: the counter advances and, once
      it passes 2000, the target is re-randomised and the counter restarts. */
  function Tick(w: WindState, d: WindDraw): (r: WindState)
    ensures 0 <= w.lastChange ==> (r.lastChange == 0 <==> w.lastChange >= Transition)
    ensures w.lastChange < Transition ==>
      r == w.(lastChange := w.lastChange + 1)
    ensures w.lastChange >= Transition ==>
      r.lastDir == w.dir && r.lastPower == w.power && r.intensity == w.intensity
    ensures w.lastChange >= Transition ==> r == Randomize(w.(lastChange := w.lastChange + 1), d)
    ensures w.Valid() && d.Valid() ==> r.Valid()
  {
    var w1 := w.(lastChange := w.lastChange + 1);
    if w1.lastChange > Transition then Randomize(w1, d) else w1
  }

  /** The blend never jumps when the target is re-randomised: the wind of the
      last frame of a transition equals that of the first frame of the next. */
  lemma BlendContinuous(w: WindState, d: WindDraw)
    requires w.lastChange == Transition
    ensures Wind(Tick(w, d)) == Wind(w)
  {
    var r := Tick(w, d);
    assert r.lastChange == 0 && r.lastDir == w.dir && r.lastPower == w.power;
  }

  /** Re-randomising restarts the blend from the old target, not from the
      current blended wind: part way through a transition the wind jumps. */
  lemma RandomizeRestartsBlend(w: WindState, d: WindDraw)
    ensures Wind(Randomize(w, d)) == (w.dir, w.power)
  {
  }

  /** A running frame keeps the blend ratio in [0, 1], so the wind used by
      the particles is always on the segment between the two targets. */
  lemma TickBlendsWithinTargets(w: WindState, d: WindDraw)
    requires w.Valid() && d.Valid()
    ensures var r := Tick(w, d);
      Between(Wind(r).0, r.lastDir, r.dir) && Between(Wind(r).1, r.lastPower, r.power)
  {
  }
}
