/** `EbiSnow`, the state of the overlay: the particles, the piled-snow image,
    the wind, the snowplow and the configuration the tray menu changes. The
    per-frame step is `Update`; `Layout` follows the window size; the other
    methods are the state effects of the tray menu's entries. */
module Simulation {
  import opened Numerics
  import WindModel
  import Pile
  import opened Particles
  import Snowplow

  /** Width of the snow sprite, the default 1 x 1 white image. */
  const SnowImageWidth: nat := 1

  /** Particles created on the first frame. */
  const StartCount: nat := 200

  /** The five presets of the "Wind" and "Gravity" tray menus. */
  datatype Level = None | Low | Moderate | Strong | Extreme

  /** The wind intensity each "Wind" entry sets. */
  function WindIntensity(l: Level): (v: real)
    ensures v >= 0.0
  {
    match l
    case None => 0.0
    case Low => 1.0
    case Moderate => 3.0
    case Strong => 5.0
    case Extreme => 7.0
  }

  /** The gravity each "Gravity" entry sets. */
  function Gravity(l: Level): (v: real)
    ensures v >= 0.0
  {
    match l
    case None => 0.0
    case Low => 0.5
    case Moderate => 1.0
    case Strong => 2.0
    case Extreme => 4.0
  }

  /** The four entries of the "Snow count" tray menu. */
  datatype CountLevel = CountLow | CountModerate | CountHigh | CountExtreme

  /** The number of particles each "Snow count" entry creates. */
  function Count(c: CountLevel): (n: nat)
    ensures 100 <= n <= 800 && n % 100 == 0
  {
    match c
    case CountLow => 100
    case CountModerate => 200
    case CountHigh => 400
    case CountExtreme => 800
  }

  /** The conditions of the particle loop: the blended wind turned into a
      displacement by the given cosine and sine, applied only when the
      target power is positive, the gravity, the piling toggle and the
      screen size. */
  function FrameOf(w: WindModel.WindState, gravity: real, pileSnow: bool, width: nat, height: nat,
                   cos: real -> real, sin: real -> real): (f: Frame)
    ensures f.windOn <==> w.power > 0.0
    ensures f.gravity == gravity && f.pileSnow == pileSnow && f.width == width && f.height == height
    ensures w.lastChange == 0 ==> f.dx == cos(w.lastDir) * w.lastPower && f.dy == sin(w.lastDir) * w.lastPower
    ensures w.lastChange == WindModel.Transition ==> f.dx == cos(w.dir) * w.power && f.dy == sin(w.dir) * w.power
  {
    var wind := WindModel.Wind(w);
    Frame(w.power > 0.0, cos(wind.0) * wind.1, sin(wind.0) * wind.1, gravity, pileSnow, width, height)
  }

  /** With a target power of 0 the flakes only fall, however strong the
      blended wind still is. */
  lemma CalmFrame(w: WindModel.WindState, gravity: real, pileSnow: bool, width: nat, height: nat,
                  cos: real -> real, sin: real -> real, s: Snow)
    requires w.power <= 0.0
    ensures Candidate(s, FrameOf(w, gravity, pileSnow, width, height, cos, sin)) ==
      (s.x, s.y + s.speed * gravity)
  {
    var f := FrameOf(w, gravity, pileSnow, width, height, cos, sin);
    var c, e := Candidate(s, f), (s.x, s.y + s.speed * gravity);
    assert e.0 == c.0 && e.1 == c.1;
  }

  class EbiSnow {
    var snow: seq<Snow>
    var width: nat
    var height: nat
    var firstRun: bool
    /** The piled snow: pile[x, y] holds when that pixel's alpha is non-zero. */
    var pile: array2<bool>
    var pileSnow: bool

    var windDir: real
    var windPower: real
    var lastWindDir: real
    var lastWindPower: real
    var lastWindChange: int
    var windIntensity: real

    var gravity: real

    var snowPlowX: int
    var snowPlowIterator: int
    var snowPlowing: bool
    var snowPlowIndex: int

    var stopped: bool

    /** Width of one frame of the snowplow sprite sheet (a quarter of it). */
    const frameWidth: nat

    ghost predicate Valid()
      reads this
    {
      pile.Length0 == width && pile.Length1 == height && frameWidth > 0 &&
      WindFields().Valid() && PlowFields().Valid() &&
      forall i :: 0 <= i < |snow| ==> snow[i].Valid()
    }

    function WindFields(): WindModel.WindState
      reads this`windDir, this`windPower, this`lastWindDir, this`lastWindPower,
            this`lastWindChange, this`windIntensity
    {
      WindModel.WindState(windDir, windPower, lastWindDir, lastWindPower, lastWindChange, windIntensity)
    }

    function PlowFields(): Snowplow.PlowState
      reads this`snowPlowX, this`snowPlowIterator, this`snowPlowIndex, this`snowPlowing
    {
      Snowplow.PlowState(snowPlowX, snowPlowIterator, snowPlowIndex, snowPlowing)
    }

    /** The pixels of the piled-snow image that hold snow. */
    ghost function Marked(): (r: set<(int, int)>)
      reads this`pile, pile
      ensures r <= Pile.Range(pile.Length0, pile.Length1)
      ensures forall x, y :: 0 <= x < pile.Length0 && 0 <= y < pile.Length1 ==> ((x, y) in r <==> pile[x, y])
    {
      set x, y | 0 <= x < pile.Length0 && 0 <= y < pile.Length1 && pile[x, y] :: (x, y)
    }

    /** What the particle loop of `Update` reads from the current state. */
    function Conditions(cos: real -> real, sin: real -> real): Frame
      reads this`windDir, this`windPower, this`lastWindDir, this`lastWindPower,
            this`lastWindChange, this`windIntensity, this`gravity, this`pileSnow,
            this`width, this`height
    {
      FrameOf(WindFields(), gravity, pileSnow, width, height, cos, sin)
    }

    /** The particles and the pile are those the particle loop leaves when
        it starts from the particles `snow0` and the pile `marked0`, with
        the plow's column cleared first if the plow was running, under the
        current conditions. */
    ghost predicate Moved(snow0: seq<Snow>, marked0: set<(int, int)>, plowed: bool,
                          cos: real -> real, sin: real -> real, us: seq<real>)
      reads this, pile
    {
      |us| == |snow0| &&
      (snow, Marked()) ==
        Run(snow0, if plowed then Pile.Clear(marked0, snowPlowX + 2 * frameWidth) else marked0,
            Conditions(cos, sin), us)
    }

    /** The initial state `main` builds, followed by its `RandomizeWind`. The
        pile is empty until the first `Layout`. */
    constructor (frameWidth: nat, d: WindModel.WindDraw)
      requires frameWidth > 0 && d.Valid()
      ensures Valid() && fresh(pile)
      ensures this.frameWidth == frameWidth
      ensures snow == [] && width == 0 && height == 0 && Marked() == {}
      ensures firstRun && pileSnow && !stopped && gravity == 1.0
      ensures WindFields() == WindModel.Randomize(WindModel.WindState(0.0, 0.0, 0.0, 0.0, 0, 3.0), d)
      ensures PlowFields() == Snowplow.PlowState(0, 0, 0, false)
    {
      this.frameWidth := frameWidth;
      snow := [];
      width, height := 0, 0;
      firstRun := true;
      pile := new bool[0, 0];
      pileSnow := true;
      windDir, windPower, lastWindDir, lastWindPower := 0.0, 0.0, 0.0, 0.0;
      lastWindChange := 0;
      windIntensity := 3.0;
      gravity := 1.0;
      snowPlowX, snowPlowIterator, snowPlowing, snowPlowIndex := 0, 0, false, 0;
      stopped := false;
      new;
      RandomizeWind(d);
    }

    /** `RandomizeWind`. */
    method RandomizeWind(d: WindModel.WindDraw)
      modifies this`windDir, this`windPower, this`lastWindDir, this`lastWindPower, this`lastWindChange
      ensures WindFields() == WindModel.Randomize(old(WindFields()), d)
    {
      lastWindDir := windDir;
      lastWindPower := windPower;
      lastWindChange := 0;
      windDir := WindModel.Pi * d.dir;
      windPower := windIntensity * d.power;
    }

    /** `AddSnow`: append one new particle. */
    method AddSnow(d: SnowDraw)
      requires Valid() && d.Valid()
      modifies this`snow
      ensures Valid() && snow == old(snow) + [NewSnow(d, width, height)]
    {
      snow := snow + [NewSnow(d, width, height)];
    }

    /** A run of `AddSnow` calls, one per draw. */
    method AddSnows(ds: seq<SnowDraw>)
      requires Valid() && forall i :: 0 <= i < |ds| ==> ds[i].Valid()
      modifies this`snow
      ensures Valid() && snow == old(snow) + NewSnows(ds, width, height)
    {
      var i := 0;
      while i < |ds|
        invariant 0 <= i <= |ds| && Valid()
        invariant snow == old(snow) + NewSnows(ds[..i], width, height)
      {
        AddSnow(ds[i]);
        assert NewSnows(ds[..i + 1], width, height) ==
          NewSnows(ds[..i], width, height) + [NewSnow(ds[i], width, height)];
        i := i + 1;
      }
      assert ds[..i] == ds;
    }

    /** `Layout`: the pile is reallocated, blank, only when the size changes. */
    method Layout(outsideWidth: nat, outsideHeight: nat) returns (screenWidth: nat, screenHeight: nat)
      requires Valid()
      modifies this`width, this`height, this`pile
      ensures Valid() && screenWidth == outsideWidth && screenHeight == outsideHeight
      ensures width == outsideWidth && height == outsideHeight
      ensures old(width) == outsideWidth && old(height) == outsideHeight ==>
        pile == old(pile) && Marked() == old(Marked())
      ensures old(width) != outsideWidth || old(height) != outsideHeight ==>
        fresh(pile) && Marked() == {}
    {
      if width != outsideWidth || height != outsideHeight {
        pile := new bool[outsideWidth, outsideHeight]((x, y) => false);
        width, height := outsideWidth, outsideHeight;
      }
      screenWidth, screenHeight := outsideWidth, outsideHeight;
    }

    /** Draw the plow's clear image at column `col`: that column of the pile
        becomes empty (nothing, if the column is off the image). */
    method ClearColumn(col: int)
      modifies pile
      ensures Marked() == Pile.Clear(old(Marked()), col)
    {
      forall y | 0 <= y < pile.Length1 && 0 <= col < pile.Length0 {
        pile[col, y] := false;
      }
      forall p | p in Marked() ensures p in Pile.Clear(old(Marked()), col) {
        assert old(pile[p.0, p.1]);
      }
      forall p | p in Pile.Clear(old(Marked()), col) ensures p in Marked() {
        assert pile[p.0, p.1];
      }
    }

    /** Draw the snow sprite as the `side` x `side` square at (left, top):
        its on-image pixels become snow. */
    method StampBlock(left: int, top: int, side: int)
      requires pile.Length0 == width && pile.Length1 == height
      modifies pile
      ensures Marked() == Pile.Stamp(old(Marked()), width, height, left, top, side)
    {
      forall x, y | left <= x < left + side && top <= y < top + side &&
                    0 <= x < pile.Length0 && 0 <= y < pile.Length1 {
        pile[x, y] := true;
      }
      forall p | p in Marked() ensures p in Pile.Stamp(old(Marked()), width, height, left, top, side) {
        if !old(pile[p.0, p.1]) {
          assert p in Pile.Block(width, height, left, top, side);
        }
      }
      forall p | p in Pile.Stamp(old(Marked()), width, height, left, top, side) ensures p in Marked() {
        assert pile[p.0, p.1];
      }
    }

    /** The plow's animation and edge for one frame: the counter counts to
        6, when the animation frame advances; the edge moves right by one
        and, past the right edge, returns to 0 and the sweep stops. */
    method PlowTick()
      requires Valid()
      modifies this`snowPlowX, this`snowPlowIterator, this`snowPlowIndex, this`snowPlowing
      ensures Valid()
      ensures PlowFields() == Snowplow.Tick(old(PlowFields()), width + SnowImageWidth)
    {
      snowPlowIterator := snowPlowIterator + 1;
      if snowPlowIterator > 5 {
        snowPlowIndex := (snowPlowIndex + 1) % 4;
        snowPlowIterator := 0;
      }
      snowPlowX := snowPlowX + 1;
      if snowPlowX > width + SnowImageWidth {
        snowPlowX := 0;
        snowPlowing := false;
      }
    }

    /** The snowplow part of `Update` (only while plowing): one plow tick,
        then the column 2 * frameWidth to the right of the new edge is
        cleared. */
    method SweepStep()
      requires Valid() && snowPlowing
      modifies this`snowPlowX, this`snowPlowIterator, this`snowPlowIndex, this`snowPlowing, pile
      ensures Valid()
      ensures PlowFields() == Snowplow.Tick(old(PlowFields()), width + SnowImageWidth)
      ensures Marked() == Pile.Clear(old(Marked()), snowPlowX + 2 * frameWidth)
    {
      PlowTick();
      ClearColumn(snowPlowX + 2 * frameWidth);
    }

    /** One iteration of the particle loop of `Update`, for particle `i`;
        `u` is its draw for a new x if it is recycled. */
    method MoveFlake(i: nat, f: Frame, u: real)
      requires Valid() && i < |snow| && f.width == width && f.height == height
      modifies this`snow, pile
      ensures Valid()
      ensures snow == old(snow)[i := StepFlake(old(snow)[i], old(Marked()), f, u)]
      ensures Marked() == StepPile(old(snow)[i], old(Marked()), f)
    {
      var s := snow[i];
      ghost var before := Marked();
      var c := Candidate(s, f);
      var t := s.(lifetime := s.lifetime + 1);
      if !f.pileSnow {
        t := t.(x := c.0, y := c.1);
        FlakeDrifts(s, before, f, u);
      } else {
        var px, py := Trunc(c.0), (s.y + 1.0).Floor;
        var blocked := 0 <= px < width && 0 <= py < height && pile[px, py];
        assert blocked == Blocked(s, before, f) by {
          if Blocked(s, before, f) {
            var p :| p in before && p == (px, py);
          }
        }
        var y := if blocked then s.y else c.1;
        assert y == RestY(s, before, f);
        if blocked || y >= height as real - 1.0 {
          var corner := Corner(s, c.0, y);
          StampBlock(corner.0, corner.1, s.Side());
          t := t.(x := Scaled(u, f.width as real), y := 0.0);
          FlakeSettles(s, before, f, u);
        } else {
          t := t.(x := Wrap(c.0, width), y := y);
          FlakeFalls(s, before, f, u);
        }
      }
      snow := snow[i := t];
    }

    /** The particle loop of `Update`, in array order. `us[i]` is the draw
        particle i uses for its new x if it is recycled. */
    method Fall(f: Frame, us: seq<real>)
      requires Valid() && |us| == |snow| && f.width == width && f.height == height
      modifies this`snow, pile
      ensures Valid()
      ensures (snow, Marked()) == Run(old(snow), old(Marked()), f, us)
    {
      ghost var snow0, pile0 := snow, Marked();
      var i := 0;
      while i < |snow|
        invariant 0 <= i <= |snow| == |snow0| && Valid()
        invariant snow[i..] == snow0[i..]
        invariant (snow[..i], Marked()) == Run(snow0[..i], pile0, f, us[..i])
      {
        assert snow[i] == snow0[i] by { assert snow[i..][0] == snow0[i..][0]; }
        RunStepInPlace(snow0, pile0, f, us, i, snow, Marked());
        MoveFlake(i, f, us[i]);
        i := i + 1;
      }
      assert snow0[..i] == snow0 && us[..i] == us && snow[..i] == snow;
    }

    /** The wind part of `Update`: count one frame of the transition and
        re-randomise the wind once the counter passes 2000. */
    method TickWind(d: WindModel.WindDraw)
      requires Valid() && d.Valid()
      modifies this`windDir, this`windPower, this`lastWindDir, this`lastWindPower, this`lastWindChange
      ensures Valid()
      ensures WindFields() == WindModel.Tick(old(WindFields()), d)
    {
      lastWindChange := lastWindChange + 1;
      if lastWindChange > WindModel.Transition {
        RandomizeWind(d);
      }
    }

    /** The plow step, while plowing, and then the particle loop under the
        conditions `f`: the particles see the pile after the plow has
        cleared its column. */
    method PlowAndFall(f: Frame, us: seq<real>)
      requires Valid() && |us| == |snow| && f.width == width && f.height == height
      modifies this`snowPlowX, this`snowPlowIterator, this`snowPlowIndex, this`snowPlowing
      modifies this`snow, pile
      ensures Valid()
      ensures PlowFields() == Snowplow.Advance(old(PlowFields()), width + SnowImageWidth)
      ensures (snow, Marked()) ==
        Run(old(snow),
            if old(snowPlowing) then Pile.Clear(old(Marked()), snowPlowX + 2 * frameWidth)
            else old(Marked()),
            f, us)
    {
      if snowPlowing {
        SweepStep();
      }
      ghost var cleared, x := Marked(), snowPlowX;
      Fall(f, us);
      assert snowPlowX == x;
    }

    /** The running part of `Update`: the wind, then the plow, then the
        particles, which see the wind as it is after this frame's tick. */
    method Animate(cos: real -> real, sin: real -> real, d: WindModel.WindDraw, us: seq<real>)
      requires Valid() && d.Valid() && |us| == |snow|
      modifies this`windDir, this`windPower, this`lastWindDir, this`lastWindPower, this`lastWindChange
      modifies this`snowPlowX, this`snowPlowIterator, this`snowPlowIndex, this`snowPlowing
      modifies this`snow, pile
      ensures Valid()
      ensures WindFields() == WindModel.Tick(old(WindFields()), d)
      ensures PlowFields() == Snowplow.Advance(old(PlowFields()), width + SnowImageWidth)
      ensures Moved(old(snow), old(Marked()), old(snowPlowing), cos, sin, us)
    {
      TickWind(d);
      var f := Conditions(cos, sin);
      PlowAndFall(f, us);
    }

    /** The first-frame part of `Update`: the initial particles are created
        once, on the first frame only. */
    method Begin(start: seq<SnowDraw>)
      requires Valid()
      requires firstRun ==> |start| == StartCount && forall i :: 0 <= i < |start| ==> start[i].Valid()
      modifies this`firstRun, this`snow
      ensures Valid() && !firstRun
      ensures snow == old(snow) + (if old(firstRun) then NewSnows(start, width, height) else [])
      ensures !old(firstRun) ==> snow == old(snow)
    {
      if firstRun {
        firstRun := false;
        AddSnows(start);
      } else {
        assert snow == snow + [];
      }
    }

    /** `Update`, one frame: the first-frame particles, then, unless paused,
        the wind, the plow and the particles. `start` is used only on the
        first frame, `d` only if the wind is re-randomised, `us` holds one
        draw per particle for a recycled particle's new x. */
    method Update(cos: real -> real, sin: real -> real, start: seq<SnowDraw>,
                  d: WindModel.WindDraw, us: seq<real>)
      requires Valid() && d.Valid()
      requires firstRun ==> |start| == StartCount && forall i :: 0 <= i < |start| ==> start[i].Valid()
      requires |us| == |snow| + (if firstRun then StartCount else 0)
      modifies this`firstRun, this`snow, pile
      modifies this`windDir, this`windPower, this`lastWindDir, this`lastWindPower, this`lastWindChange
      modifies this`snowPlowX, this`snowPlowIterator, this`snowPlowIndex, this`snowPlowing
      ensures Valid() && !firstRun
      ensures old(stopped) && !old(firstRun) ==> unchanged(this) && unchanged(pile)
      ensures old(stopped) ==>
        snow == old(snow) + (if old(firstRun) then NewSnows(start, width, height) else []) &&
        Marked() == old(Marked()) &&
        WindFields() == old(WindFields()) && PlowFields() == old(PlowFields())
      ensures !old(stopped) ==> WindFields() == WindModel.Tick(old(WindFields()), d)
      ensures !old(stopped) ==>
        PlowFields() == Snowplow.Advance(old(PlowFields()), width + SnowImageWidth)
      ensures !old(stopped) ==>
        Moved(old(snow) + (if old(firstRun) then NewSnows(start, width, height) else []),
              old(Marked()), old(snowPlowing), cos, sin, us)
    {
      ghost var marked, wind, plow := Marked(), WindFields(), PlowFields();
      Begin(start);
      assert Marked() == marked && WindFields() == wind && PlowFields() == plow;
      if stopped {
        return;
      }
      Animate(cos, sin, d, us);
    }

    /** A "Wind" entry: set the intensity and re-randomise the wind. */
    method SetWindIntensity(level: Level, d: WindModel.WindDraw)
      requires Valid() && d.Valid()
      modifies this`windIntensity, this`windDir, this`windPower, this`lastWindDir,
               this`lastWindPower, this`lastWindChange
      ensures Valid()
      ensures WindFields() ==
        WindModel.Randomize(old(WindFields()).(intensity := WindIntensity(level)), d)
    {
      windIntensity := WindIntensity(level);
      RandomizeWind(d);
    }

    /** A "Gravity" entry. */
    method SetGravity(level: Level)
      requires Valid()
      modifies this`gravity
      ensures Valid() && gravity == Gravity(level)
    {
      gravity := Gravity(level);
    }

    /** A "Snow count" entry: the particles are replaced by exactly
        `Count(level)` new ones. */
    method SetSnowCount(level: CountLevel, ds: seq<SnowDraw>)
      requires Valid() && |ds| == Count(level)
      requires forall i :: 0 <= i < |ds| ==> ds[i].Valid()
      modifies this`snow
      ensures Valid() && |snow| == Count(level)
      ensures snow == NewSnows(ds, width, height)
    {
      snow := [];
      AddSnows(ds);
    }

    /** The "Snowplow" entry: start a sweep from the left edge. */
    method TriggerPlow()
      requires Valid()
      modifies this`snowPlowing, this`snowPlowX
      ensures Valid()
      ensures PlowFields() == Snowplow.Trigger(old(PlowFields()), frameWidth)
    {
      snowPlowing := true;
      snowPlowX := -(2 * frameWidth - 1);
    }

    /** The "Pile snow" entry. */
    method TogglePile()
      requires Valid()
      modifies this`pileSnow
      ensures Valid() && pileSnow == !old(pileSnow)
    {
      pileSnow := !pileSnow;
    }

    /** The "Pause" entry; the checkbox mirrors `stopped`. */
    method TogglePause()
      requires Valid()
      modifies this`stopped
      ensures Valid() && stopped == !old(stopped)
    {
      stopped := !stopped;
    }
  }
}
