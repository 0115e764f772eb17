/** The snowplow sweep of `EbiSnow`: a 4-frame animation counter and a
    leading edge that moves one pixel per frame across the screen, clearing
    one pile column ahead of the sprite, until it passes the right edge. */
module Snowplow {

  /** The plow fields of `EbiSnow`. `x` is a float64 in the source; every
      value ever assigned to it is an integer, so it is an `int` here. */
  datatype PlowState = PlowState(x: int, counter: int, index: int, plowing: bool)
  {
    /** The animation counters stay in range. */
    predicate Valid() {
      0 <= index < 4 && 0 <= counter <= 5
    }
  }

  /** One frame of an active sweep, given `limit` = screen width + snow sprite
      width: the counter counts to 6, when the animation frame advances by one
      modulo 4; the edge moves right by one; past `limit` the sweep stops and
      the edge returns to 0. */
  function Tick(p: PlowState, limit: int): (r: PlowState)
    ensures p.Valid() ==> r.Valid()
    ensures 0 <= p.counter <= 5 ==>
      r.counter == (p.counter + 1) % 6 &&
      r.index == (if p.counter == 5 then (p.index + 1) % 4 else p.index)
    ensures r.plowing <==> p.plowing && p.x + 1 <= limit
    ensures p.x + 1 <= limit ==> r.x == p.x + 1
    ensures p.x + 1 > limit ==> r.x == 0
  {
    var counter := p.counter + 1;
    var index := if counter > 5 then (p.index + 1) % 4 else p.index;
    var counter1 := if counter > 5 then 0 else counter;
    var x := p.x + 1;
    if x > limit then PlowState(0, counter1, index, false)
    else PlowState(x, counter1, index, p.plowing)
  }

  /** What a running `Update` does to the plow fields: an idle plow stays
      exactly as it is, and a sweep never starts by itself. */
  function Advance(p: PlowState, limit: int): (r: PlowState)
    ensures p.Valid() ==> r.Valid()
    ensures !p.plowing ==> r == p
    ensures r.plowing ==> p.plowing
  {
    if p.plowing then Tick(p, limit) else p
  }

  /** The plow fields after `n` running frames: the counters stay in
      range, an idle plow never moves, and a plow that is running after
      `n` frames was running at the start. */
  function Frames(p: PlowState, limit: int, n: nat): (r: PlowState)
    ensures p.Valid() ==> r.Valid()
    ensures !p.plowing ==> r == p
    ensures r.plowing ==> p.plowing
    decreases n
  {
    if n == 0 then p else Advance(Frames(p, limit, n - 1), limit)
  }

  /** The tray's "Snowplow" command: start a sweep with the sprite's leading
      edge at 1 - 2 * frameWidth, just entering from the left. The animation
      counters are left as they are. */
  function Trigger(p: PlowState, frameWidth: int): (r: PlowState)
    ensures r.plowing && r.counter == p.counter && r.index == p.index
    ensures r.x + 2 * frameWidth == 1
  {
    p.(plowing := true, x := -(2 * frameWidth - 1))
  }

  /** Until the edge passes `limit`, a sweep keeps going, one pixel per frame. */
  lemma {:induction false} Sweeping(p: PlowState, limit: int, k: nat)
    requires p.plowing && p.x + k <= limit
    ensures Frames(p, limit, k).plowing && Frames(p, limit, k).x == p.x + k
  {
    if k > 0 {
      Sweeping(p, limit, k - 1);
    }
  }

  /** A sweep from edge x ends after exactly limit + 1 - x frames, leaving the
      edge at 0. */
  lemma SweepEnds(p: PlowState, limit: int)
    requires p.plowing && p.x <= limit
    ensures var q := Frames(p, limit, limit + 1 - p.x); !q.plowing && q.x == 0
  {
    Sweeping(p, limit, limit - p.x);
  }

  /** During a sweep the animation frame advances by one, modulo 4, on
      every sixth frame. */
  lemma {:induction false} Animation(p: PlowState, limit: int, n: nat)
    requires p.plowing && p.Valid() && p.x + n <= limit + 1
    ensures Frames(p, limit, n).counter == (p.counter + n) % 6
    ensures Frames(p, limit, n).index == (p.index + (p.counter + n) / 6) % 4
  {
    if n > 0 {
      Animation(p, limit, n - 1);
      Sweeping(p, limit, n - 1);
      Carry(p.counter + n - 1, p.index);
    }
  }

  /** One more frame of the animation clock: the counter counts modulo 6
      and the frame index advances, modulo 4, when the counter wraps. */
  lemma Carry(a: nat, b: int)
    ensures (a % 6 + 1) % 6 == (a + 1) % 6
    ensures (if a % 6 == 5 then ((b + a / 6) % 4 + 1) % 4 else (b + a / 6) % 4) ==
            (b + (a + 1) / 6) % 4
  {
    var q := b + a / 6;
    assert (q % 4 + 1) % 4 == (q + 1) % 4;
    if a % 6 == 5 {
      assert (a + 1) / 6 == a / 6 + 1;
    } else {
      assert (a + 1) / 6 == a / 6;
    }
  }

  /** The plow is active in each of the first `n` frames. */
  predicate PlowingThrough(p: PlowState, limit: int, n: nat) {
    forall k: nat :: k < n ==> Frames(p, limit, k).plowing
  }

  /** A triggered sweep lasts exactly width + snowWidth + 2 * frameWidth
      frames, after which the plow is idle with its edge at 0. */
  lemma TriggeredSweepLength(p: PlowState, frameWidth: int, width: int, snowWidth: int)
    requires frameWidth > 0 && width >= 0 && snowWidth >= 0
    ensures var q := Trigger(p, frameWidth);
      var total := width + snowWidth + 2 * frameWidth;
      PlowingThrough(q, width + snowWidth, total) &&
      !Frames(q, width + snowWidth, total).plowing && Frames(q, width + snowWidth, total).x == 0
  {
    var q := Trigger(p, frameWidth);
    var limit := width + snowWidth;
    forall k: nat | k < width + snowWidth + 2 * frameWidth
      ensures Frames(q, limit, k).plowing
    {
      Sweeping(q, limit, k);
    }
    SweepEnds(q, limit);
  }

  /** The pile columns cleared in the first `n` frames: each sweeping frame
      clears the column 2 * frameWidth to the right of the new edge. */
  function Swept(p: PlowState, limit: int, frameWidth: int, n: nat): (r: set<int>)
    ensures !p.plowing ==> r == {}
    ensures forall m: nat :: m <= n ==> Swept(p, limit, frameWidth, m) <= r
    decreases n
  {
    if n == 0 then {}
    else
      Swept(p, limit, frameWidth, n - 1) +
      (if Frames(p, limit, n - 1).plowing then {Frames(p, limit, n).x + 2 * frameWidth} else {})
  }

  /** The first `n` frames clear exactly the columns lo .. hi. */
  ghost predicate SweepClears(p: PlowState, limit: int, frameWidth: int, n: nat, lo: int, hi: int) {
    forall c :: c in Swept(p, limit, frameWidth, n) <==> lo <= c <= hi
  }

  /** A triggered sweep clears exactly the columns 2 .. width + snowWidth +
      2 * frameWidth; its last frame, having reset the edge to 0, clears
      column 2 * frameWidth once more. Columns 0 and 1 are never cleared. */
  lemma TriggeredSweepColumns(p: PlowState, frameWidth: int, width: int, snowWidth: int)
    requires frameWidth > 0 && width >= 0 && snowWidth >= 0
    ensures var total := width + snowWidth + 2 * frameWidth;
      SweepClears(Trigger(p, frameWidth), width + snowWidth, frameWidth, total, 2, total)
  {
    var q := Trigger(p, frameWidth);
    var limit := width + snowWidth;
    var total := limit + 2 * frameWidth;
    SweptPrefix(q, limit, frameWidth, total - 1);
    Sweeping(q, limit, total - 1);
    SweepEnds(q, limit);
    assert Frames(q, limit, total).x == 0;
    assert Swept(q, limit, frameWidth, total) ==
      Swept(q, limit, frameWidth, total - 1) + {2 * frameWidth};
  }

  /** Before its last frame, frame k of a triggered sweep clears column k + 1. */
  lemma {:induction false} SweptPrefix(q: PlowState, limit: int, frameWidth: int, n: nat)
    requires q.plowing && q.x + 2 * frameWidth == 1 && q.x + n <= limit
    ensures SweepClears(q, limit, frameWidth, n, 2, n + 1)
  {
    if n > 0 {
      SweptPrefix(q, limit, frameWidth, n - 1);
      Sweeping(q, limit, n - 1);
      Sweeping(q, limit, n);
    }
  }
}
