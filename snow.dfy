/** Snow particles and the specification of one frame of the particle loop
    of `EbiSnow.Update`. */
module Particles {
  import opened Numerics
  import Pile

  /** One snow flake: position, fall speed and the frames it has lived. */
  datatype Snow = Snow(x: real, y: real, speed: real, lifetime: int)
  {
    /** Every flake made by `NewSnow` from genuine draws satisfies this, and
        no frame changes `speed`. */
    predicate Valid() {
      0.5 <= speed < 2.0 && lifetime >= 0
    }

    /** The side of the square the flake is drawn and stamped as. */
    function Side(): (k: int)
      ensures Valid() ==> (k == 1 <==> speed < 1.0) && (k == 2 <==> speed >= 1.0)
    {
      Round(0.5 + speed)
    }

    /** `Snow.Size`: the render scale, the same in both directions, 1 for a
        slow flake and 2 for a fast one. */
    function Size(): (wh: (real, real))
      ensures wh.0 == wh.1
      ensures -0.5 <= wh.0 - (0.5 + speed) <= 0.5
      ensures Valid() ==> (wh.0 == 1.0 || wh.0 == 2.0)
    {
      (Side() as real, Side() as real)
    }
  }

  /** The three `rand.Float64()` draws `AddSnow` consumes, in source order. */
  datatype SnowDraw = SnowDraw(x: real, y: real, speed: real) {
    predicate Valid() { IsDraw(x) && IsDraw(y) && IsDraw(speed) }
  }

  /** The flake `AddSnow` appends: somewhere across the width, up to one
      screen height above the top, with speed max(0.5, 2u) in [0.5, 2). */
  function NewSnow(d: SnowDraw, width: nat, height: nat): (s: Snow)
    ensures s.lifetime == 0
    ensures d.Valid() ==> s.Valid()
    ensures d.Valid() ==> 0.0 <= s.x && (width > 0 ==> s.x < width as real)
    ensures d.Valid() ==> s.y <= 0.0 && (height > 0 ==> -(height as real) < s.y)
  {
    Snow(Scaled(d.x, width as real), -Scaled(d.y, height as real), Max(0.5, d.speed * 2.0), 0)
  }

  /** The flakes a run of `AddSnow` calls appends, one per draw. */
  function NewSnows(ds: seq<SnowDraw>, width: nat, height: nat): (r: seq<Snow>)
    ensures |r| == |ds|
    ensures forall i :: 0 <= i < |ds| ==> r[i] == NewSnow(ds[i], width, height)
  {
    seq(|ds|, i requires 0 <= i < |ds| => NewSnow(ds[i], width, height))
  }

  /** What one frame of the particle loop reads from `EbiSnow`: whether the
      target wind power is positive, the wind displacement
      (cos(dir) * power, sin(dir) * power), gravity, the piling toggle and
      the screen size. */
  datatype Frame = Frame(windOn: bool, dx: real, dy: real, gravity: real,
                         pileSnow: bool, width: nat, height: nat)

  /** The position a flake moves to before the pile is consulted. */
  function Candidate(s: Snow, f: Frame): (c: (real, real))
    ensures !f.windOn ==> c == (s.x, s.y + s.speed * f.gravity)
    ensures f.windOn ==> c == (s.x + f.dx, s.y + f.dy + s.speed * f.gravity)
  {
    var x := if f.windOn then s.x + f.dx else s.x;
    var y := if f.windOn then s.y + f.dy else s.y;
    (x, y + s.speed * f.gravity)
  }

  /** Horizontal wrap of a falling flake: past the right edge to 0, past the
      left edge to the width. */
  function Wrap(x: real, width: nat): (r: real)
    ensures 0.0 <= r <= width as real
    ensures 0.0 <= x <= width as real ==> r == x
    ensures x > width as real ==> r == 0.0
    ensures x < 0.0 ==> r == width as real
  {
    if x > width as real then 0.0 else if x < 0.0 then width as real else x
  }

  /** Whether the pile blocks the flake: the pixel sampled at the truncated
      candidate x and one pixel below the flake's current y. */
  predicate Blocked(s: Snow, pile: set<(int, int)>, f: Frame) {
    (Trunc(Candidate(s, f).0), (s.y + 1.0).Floor) in pile
  }

  /** The pile only blocks at a pixel of the image: a sample outside the
      image reads as transparent. */
  lemma BlockedOnImage(s: Snow, pile: set<(int, int)>, f: Frame)
    requires pile <= Pile.Range(f.width, f.height) && Blocked(s, pile, f)
    ensures 0 <= Trunc(Candidate(s, f).0) < f.width
    ensures 0 <= (s.y + 1.0).Floor < f.height
  {
    assert (Trunc(Candidate(s, f).0), (s.y + 1.0).Floor) in Pile.Range(f.width, f.height);
  }

  /** A recycled flake restarts at the top, at x = u * width. */
  predicate Recycled(t: Snow, f: Frame, u: real) {
    t.y == 0.0 && t.x == Scaled(u, f.width as real)
  }

  /** The possible outcomes of one frame for one flake, whatever the pile:
      it ages by one frame and keeps its speed; without piling it moves to
      its candidate; with piling it is either recycled or keeps falling to
      the candidate y (above the floor) with the candidate x wrapped, and a
      candidate at or below the floor line always recycles it. */
  predicate Outcome(s: Snow, t: Snow, f: Frame, u: real) {
    var c := Candidate(s, f);
    t.lifetime == s.lifetime + 1 && t.speed == s.speed &&
    if !f.pileSnow then
      t.x == c.0 && t.y == c.1
    else
      (Recycled(t, f, u) ||
       (t.y == c.1 && t.y < f.height as real - 1.0 && t.x == Wrap(c.0, f.width))) &&
      (c.1 >= f.height as real - 1.0 ==> Recycled(t, f, u))
  }

  /** The pile after flake `s` settles at (x, y): the sprite is translated to
      (x, y) and then scaled by the flake's size k, so it covers the k x k
      square whose corner is (x * k, y * k). */
  function StampAt(pile: set<(int, int)>, f: Frame, s: Snow, x: real, y: real): (r: set<(int, int)>)
    ensures pile <= r && r - pile <= Pile.Range(f.width, f.height)
    ensures forall p :: p in r && p !in pile ==>
      Corner(s, x, y).0 <= p.0 < Corner(s, x, y).0 + s.Side() &&
      Corner(s, x, y).1 <= p.1 < Corner(s, x, y).1 + s.Side()
    ensures forall px, py ::
      (Corner(s, x, y).0 <= px < Corner(s, x, y).0 + s.Side() &&
       Corner(s, x, y).1 <= py < Corner(s, x, y).1 + s.Side() &&
       0 <= px < f.width && 0 <= py < f.height) ==> (px, py) in r
  {
    var corner := Corner(s, x, y);
    Pile.Stamp(pile, f.width, f.height, corner.0, corner.1, s.Side())
  }

  /** The top-left pixel of the square a flake of this size stamps at (x, y).
      Scaling after the translation scales the position too: a slow flake
      stamps at (x, y), a fast one at (2x, 2y). */
  function Corner(s: Snow, x: real, y: real): (r: (int, int))
    ensures s.Valid() && s.speed < 1.0 ==> r == (x.Floor, y.Floor)
    ensures s.Valid() && s.speed >= 1.0 ==> r == ((2.0 * x).Floor, (2.0 * y).Floor)
  {
    var k := s.Side() as real;
    ((x * k).Floor, (y * k).Floor)
  }

  /** With piling on, the y a flake comes to rest at: its old y when the
      pile blocks it, else its candidate y. */
  function RestY(s: Snow, pile: set<(int, int)>, f: Frame): real {
    if Blocked(s, pile, f) then s.y else Candidate(s, f).1
  }

  /** With piling on, a flake settles when the pile blocks it or when it
      comes to rest at or below the floor line. */
  predicate Settles(s: Snow, pile: set<(int, int)>, f: Frame) {
    Blocked(s, pile, f) || RestY(s, pile, f) >= f.height as real - 1.0
  }

  /** One iteration of the particle loop of `Update`: the flake's new value
      and the new pile. */
  function Step(s: Snow, pile: set<(int, int)>, f: Frame, u: real): (Snow, set<(int, int)>) {
    (StepFlake(s, pile, f, u), StepPile(s, pile, f))
  }

  /** The flake after one iteration: it ages by one frame; without piling
      it moves to its candidate; a settling flake restarts at the top at
      x = u * width; any other keeps falling, to its wrapped x and rest y. */
  function StepFlake(s: Snow, pile: set<(int, int)>, f: Frame, u: real): Snow {
    var c := Candidate(s, f);
    var aged := s.(lifetime := s.lifetime + 1);
    if !f.pileSnow then aged.(x := c.0, y := c.1)
    else if Settles(s, pile, f) then aged.(x := Scaled(u, f.width as real), y := 0.0)
    else aged.(x := Wrap(c.0, f.width), y := RestY(s, pile, f))
  }

  /** The pile after one iteration: a settling flake stamps its square at
      its candidate x and rest y; otherwise the pile is left as it is. */
  function StepPile(s: Snow, pile: set<(int, int)>, f: Frame): set<(int, int)> {
    if f.pileSnow && Settles(s, pile, f) then
      StampAt(pile, f, s, Candidate(s, f).0, RestY(s, pile, f))
    else pile
  }

  /** Without piling a flake moves to its candidate. */
  lemma FlakeDrifts(s: Snow, pile: set<(int, int)>, f: Frame, u: real)
    requires !f.pileSnow
    ensures StepFlake(s, pile, f, u) ==
      s.(lifetime := s.lifetime + 1, x := Candidate(s, f).0, y := Candidate(s, f).1)
  {
  }

  /** A settling flake restarts at the top, at x = u * width. */
  lemma FlakeSettles(s: Snow, pile: set<(int, int)>, f: Frame, u: real)
    requires f.pileSnow && Settles(s, pile, f)
    ensures StepFlake(s, pile, f, u) ==
      s.(lifetime := s.lifetime + 1, x := Scaled(u, f.width as real), y := 0.0)
  {
  }

  /** A flake that does not settle falls on to its wrapped x and rest y. */
  lemma FlakeFalls(s: Snow, pile: set<(int, int)>, f: Frame, u: real)
    requires f.pileSnow && !Settles(s, pile, f)
    ensures StepFlake(s, pile, f, u) ==
      s.(lifetime := s.lifetime + 1, x := Wrap(Candidate(s, f).0, f.width), y := RestY(s, pile, f))
  {
  }

  /** One frame of one flake, by the cases of the source: without piling
      the flake moves to its candidate and the pile is untouched; with
      piling, a flake the pile blocks is recycled and stamps its square at
      the candidate x and its old y; an unblocked flake whose candidate is
      above the floor line falls to it, x wrapped, and the pile is
      untouched; an unblocked flake at or below the floor line is recycled
      and stamps its square at its candidate. In every case the pile only
      gains pixels, inside the image. */
  lemma StepOutcome(s: Snow, pile: set<(int, int)>, f: Frame, u: real)
    ensures Outcome(s, Step(s, pile, f, u).0, f, u)
    ensures pile <= Step(s, pile, f, u).1
    ensures Step(s, pile, f, u).1 - pile <= Pile.Range(f.width, f.height)
    ensures !f.pileSnow ==>
      Step(s, pile, f, u) ==
        (s.(lifetime := s.lifetime + 1, x := Candidate(s, f).0, y := Candidate(s, f).1), pile)
    ensures f.pileSnow && Blocked(s, pile, f) ==>
      Recycled(Step(s, pile, f, u).0, f, u) &&
      Step(s, pile, f, u).1 == StampAt(pile, f, s, Candidate(s, f).0, s.y)
    ensures f.pileSnow && !Blocked(s, pile, f) && Candidate(s, f).1 < f.height as real - 1.0 ==>
      Step(s, pile, f, u) ==
        (s.(lifetime := s.lifetime + 1, x := Wrap(Candidate(s, f).0, f.width), y := Candidate(s, f).1),
         pile)
    ensures f.pileSnow && !Blocked(s, pile, f) && Candidate(s, f).1 >= f.height as real - 1.0 ==>
      Recycled(Step(s, pile, f, u).0, f, u) &&
      Step(s, pile, f, u).1 == StampAt(pile, f, s, Candidate(s, f).0, Candidate(s, f).1)
  {
    FlakeOutcome(s, pile, f, u);
    if !f.pileSnow {
      FlakeDrifts(s, pile, f, u);
    } else if Settles(s, pile, f) {
      FlakeSettles(s, pile, f, u);
    } else {
      FlakeFalls(s, pile, f, u);
    }
  }

  /** A slow flake that falls, unblocked, onto the floor line at a column
      of the image adds the pixel it lands on to the pile. */
  lemma SlowFlakePilesOnFloor(s: Snow, pile: set<(int, int)>, f: Frame)
    requires f.pileSnow && s.Valid() && s.speed < 1.0 && !Blocked(s, pile, f) && f.height > 0
    requires f.height as real - 1.0 <= Candidate(s, f).1 < f.height as real
    requires 0.0 <= Candidate(s, f).0 < f.width as real
    ensures (Candidate(s, f).0.Floor, Candidate(s, f).1.Floor) in StepPile(s, pile, f)
  {
    var c := Candidate(s, f);
    assert RestY(s, pile, f) == c.1;
    assert StepPile(s, pile, f) == StampAt(pile, f, s, c.0, c.1);
    SlowStampCovers(pile, f, s, c.0, c.1);
  }

  /** A slow flake's stamp at an on-image (x, y) covers the pixel there. */
  lemma SlowStampCovers(pile: set<(int, int)>, f: Frame, s: Snow, x: real, y: real)
    requires s.Valid() && s.speed < 1.0
    requires 0.0 <= x < f.width as real && 0.0 <= y < f.height as real
    ensures (x.Floor, y.Floor) in StampAt(pile, f, s, x, y)
  {
    var corner := Corner(s, x, y);
    assert corner == (x.Floor, y.Floor) && s.Side() == 1;
  }

  /** A fast flake the pile stops adds snow at twice its position: the
      pixel at twice its candidate x and twice its old y, when that pixel
      is on the image. */
  lemma FastFlakeStampsDoubled(s: Snow, pile: set<(int, int)>, f: Frame)
    requires f.pileSnow && s.Valid() && s.speed >= 1.0 && Blocked(s, pile, f)
    requires 0.0 <= 2.0 * Candidate(s, f).0 < f.width as real
    requires 0.0 <= 2.0 * s.y < f.height as real
    ensures ((2.0 * Candidate(s, f).0).Floor, (2.0 * s.y).Floor) in StepPile(s, pile, f)
  {
    var c := Candidate(s, f);
    assert StepPile(s, pile, f) == StampAt(pile, f, s, c.0, s.y);
    var corner := Corner(s, c.0, s.y);
    assert corner == ((2.0 * c.0).Floor, (2.0 * s.y).Floor) && s.Side() == 2;
  }

  /** A fast flake that comes to rest in the lower half of the screen
      stamps its square below the image, so the pile is left as it is. */
  lemma FastFlakeMissesPile(s: Snow, pile: set<(int, int)>, f: Frame)
    requires f.pileSnow && s.Valid() && s.speed >= 1.0
    requires 2.0 * RestY(s, pile, f) >= f.height as real
    ensures StepPile(s, pile, f) == pile
  {
    if Settles(s, pile, f) {
      var corner := Corner(s, Candidate(s, f).0, RestY(s, pile, f));
      assert corner.1 >= f.height;
      assert Pile.Block(f.width, f.height, corner.0, corner.1, s.Side()) == {};
    }
  }

  /** The flake half of `StepOutcome`. */
  lemma FlakeOutcome(s: Snow, pile: set<(int, int)>, f: Frame, u: real)
    ensures Outcome(s, StepFlake(s, pile, f, u), f, u)
  {
  }

  /** The whole particle loop of one frame, in array order: each flake sees
      the pile as the flakes before it left it. `us[i]` is the draw flake i
      uses if it is recycled. */
  function Run(snow: seq<Snow>, pile: set<(int, int)>, f: Frame, us: seq<real>): (r: (seq<Snow>, set<(int, int)>))
    requires |us| == |snow|
    ensures |r.0| == |snow|
    decreases |snow|
  {
    if snow == [] then ([], pile)
    else
      var n := |snow| - 1;
      var before := Run(snow[..n], pile, f, us[..n]);
      var last := Step(snow[n], before.1, f, us[n]);
      (before.0 + [last.0], last.1)
  }

  /** The particle loop over one more flake is one more `Step`. */
  lemma RunSnoc(snow: seq<Snow>, pile: set<(int, int)>, f: Frame, us: seq<real>, n: nat)
    requires |us| == |snow| && n < |snow|
    ensures var before := Run(snow[..n], pile, f, us[..n]);
      var last := Step(snow[n], before.1, f, us[n]);
      Run(snow[..n + 1], pile, f, us[..n + 1]) == (before.0 + [last.0], last.1)
  {
    assert snow[..n + 1][..n] == snow[..n] && us[..n + 1][..n] == us[..n];
    assert snow[..n + 1][n] == snow[n] && us[..n + 1][n] == us[n];
  }

  /** The particle loop's bookkeeping: if `cur` holds the first n flakes
      as `Run` leaves them and flake n as it was, stepping flake n in place
      extends that to the first n + 1 flakes. */
  lemma RunStepInPlace(snow: seq<Snow>, pile: set<(int, int)>, f: Frame, us: seq<real>, n: nat,
                       cur: seq<Snow>, before: set<(int, int)>)
    requires |us| == |snow| == |cur| && n < |snow|
    requires cur[n] == snow[n]
    requires (cur[..n], before) == Run(snow[..n], pile, f, us[..n])
    ensures var next := cur[n := StepFlake(cur[n], before, f, us[n])];
      (next[..n + 1], StepPile(cur[n], before, f)) == Run(snow[..n + 1], pile, f, us[..n + 1]) &&
      next[n + 1..] == cur[n + 1..]
  {
    RunSnoc(snow, pile, f, us, n);
    var next := cur[n := StepFlake(cur[n], before, f, us[n])];
    assert next[..n + 1] == cur[..n] + [next[n]];
  }

  /** Every flake of a frame has one of the outcomes of `Step`, and the
      frame only adds snow to the pile, inside the image, and none at all
      with piling off. */
  lemma {:induction false} RunOutcomes(snow: seq<Snow>, pile: set<(int, int)>, f: Frame, us: seq<real>)
    requires |us| == |snow|
    ensures var r := Run(snow, pile, f, us);
      (forall i :: 0 <= i < |snow| ==> Outcome(snow[i], r.0[i], f, us[i])) &&
      pile <= r.1 && r.1 - pile <= Pile.Range(f.width, f.height) &&
      (!f.pileSnow ==> r.1 == pile)
    decreases |snow|
  {
    if snow != [] {
      var n := |snow| - 1;
      RunOutcomes(snow[..n], pile, f, us[..n]);
      var before := Run(snow[..n], pile, f, us[..n]);
      StepOutcome(snow[n], before.1, f, us[n]);
      var r := Run(snow, pile, f, us);
      forall i | 0 <= i < |snow| ensures Outcome(snow[i], r.0[i], f, us[i]) {
        if i < n {
          assert snow[..n][i] == snow[i] && us[..n][i] == us[i];
        }
      }
    }
  }

  /** After a frame with piling on and genuine draws, every flake is within
      the screen horizontally, and either at the top or above the floor. */
  lemma {:induction false} RunInBounds(snow: seq<Snow>, pile: set<(int, int)>, f: Frame, us: seq<real>)
    requires |us| == |snow| && f.pileSnow
    requires forall i :: 0 <= i < |us| ==> IsDraw(us[i])
    ensures var r := Run(snow, pile, f, us).0;
      forall i :: 0 <= i < |r| ==>
        0.0 <= r[i].x <= f.width as real && (r[i].y == 0.0 || r[i].y < f.height as real - 1.0)
  {
    RunOutcomes(snow, pile, f, us);
    var r := Run(snow, pile, f, us).0;
    forall i | 0 <= i < |r|
      ensures 0.0 <= r[i].x <= f.width as real && (r[i].y == 0.0 || r[i].y < f.height as real - 1.0)
    {
      OutcomeInBounds(snow[i], r[i], f, us[i]);
    }
  }

  /** With piling on, a flake ends a frame within the screen horizontally,
      and either at the top or above the floor. */
  lemma OutcomeInBounds(s: Snow, t: Snow, f: Frame, u: real)
    requires Outcome(s, t, f, u) && f.pileSnow && IsDraw(u)
    ensures 0.0 <= t.x <= f.width as real
    ensures t.y == 0.0 || t.y < f.height as real - 1.0
  {
    if !Recycled(t, f, u) {
      assert t.x == Wrap(Candidate(s, f).0, f.width);
    }
  }

  /** A frame preserves the flakes' invariant. */
  lemma {:induction false} RunKeepsValid(snow: seq<Snow>, pile: set<(int, int)>, f: Frame, us: seq<real>)
    requires |us| == |snow|
    requires forall i :: 0 <= i < |snow| ==> snow[i].Valid()
    ensures var r := Run(snow, pile, f, us).0;
      forall i :: 0 <= i < |r| ==> r[i].Valid()
  {
    RunOutcomes(snow, pile, f, us);
    var r := Run(snow, pile, f, us).0;
    forall i | 0 <= i < |r| ensures r[i].Valid() {
      assert Outcome(snow[i], r[i], f, us[i]);
    }
  }
}
