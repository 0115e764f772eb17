# EbiSnow, modelled in Dafny

EbiSnow is a transparent desktop overlay written in Go on the Ebiten game
engine. Snow flakes fall across the screen and drift with a slowly changing
wind. With "Pile snow" on, they pile up in an off-screen image. A snowplow
can be sent across the screen to clear that pile. A system-tray menu sets
the wind intensity, the gravity and the number of flakes, and it toggles
piling and pausing.

This project models the simulation state `EbiSnow` and what happens to it
in one frame (`Update`), on a window resize (`Layout`), when flakes are
created (`AddSnow`), and when each tray command runs.

- `numerics.dfy` (`Numerics`): the float64 helpers the code relies on.
  - `math.Round` and the Go truncating conversion `int(x)`.
  - `math.Max`.
  - A `rand.Float64()` draw, written `IsDraw(u)`, meaning `0 <= u < 1`.
  - A draw scaled to an extent.
- `wind.dfy` (`WindModel`): the wind fields, `Wind`, `RandomizeWind`, and the
  wind part of a frame.
- `pile.dfy` (`Pile`): the piled-snow image, as the set of pixels whose alpha
  is non-zero. It covers stamping a flake's square and clearing the plow's
  column.
- `snow.dfy` (`Particles`): flakes, `Snow.Size`, `AddSnow`'s new flake, and a
  pure specification of the particle loop.
  - `Step` specifies one flake.
  - `Run` is a left fold of `Step` over the flakes in array order.
  - Lemmas about the possible outcomes of a step.
- `snowplow.dfy` (`Snowplow`): the plow fields, one plow frame, the tray
  trigger, and lemmas about a whole sweep (how long it lasts, which columns
  it clears, and the animation clock).
- `ebisnow.dfy` (`Simulation`): the class `EbiSnow`, with the source's fields.
  - The piled-snow image is an `array2<bool>`.
  - `Update` and its parts, `Layout`, `AddSnow` and the tray command effects
    are methods. Each is proved against the pure functions above.

Randomness, `math.Cos` and `math.Sin` are parameters:
- A `WindDraw` holds the two draws of a `RandomizeWind`.
- A `SnowDraw` holds the three draws of an `AddSnow`.
- `us[i]` is the draw flake `i` would use for its new x if it is recycled.
- `cos` and `sin` are function parameters.

float64 arithmetic is modelled by exact `real`s.

Five behaviours of the code are easy to misread:
- A settling flake's square is stamped at its candidate x, and not at its
  pre-step position. Its y is the old y when the pile blocks it, and the
  candidate y otherwise.
- The stamp translates and then scales, so the scale applies to the
  position too. A slow flake (size 1) stamps at (x, y); a fast flake
  (size 2) stamps at (2x, 2y). A fast flake that comes to rest in the lower
  half of the screen therefore stamps below the image and adds nothing to
  the pile (`Particles.FastFlakeMissesPile`). A slow flake that lands on
  the floor line does add the pixel it lands on
  (`Particles.SlowFlakePilesOnFloor`). So a flake that reaches the floor
  line adds snow only if it is slow. A fast flake adds snow only when the
  pile stops it in the upper half of the screen. Its square then lands at
  twice its position (`Particles.FastFlakeStampsDoubled`), possibly on the
  bottom rows or off the right edge.
- The wind moves flakes whenever the target power `windPower` is positive,
  not the blended power. The displacement uses the blended wind.
- The blended wind is read after this frame's counter tick and any
  re-randomisation.
  - The automatic re-randomisation at the end of a transition starts the
    new blend exactly where the old one ended (`WindModel.BlendContinuous`).
  - A "Wind" preset also re-randomises, but at any point of the
    transition. The blend then restarts from the old target, not from the
    current blended wind, so the wind jumps (`WindModel.RandomizeRestartsBlend`).
- A triggered sweep puts the sprite's edge at `1 - 2 * frameWidth`. It clears
  the pile columns `2 .. width + 1 + 2 * frameWidth`. Columns 0 and 1 are
  never cleared.

## Model

| member | source | states |
|---|---|---|
| Numerics.Round | main.go:219 | the result is within 1/2 of its argument, with halves rounded away from zero |
| Numerics.Trunc | main.go:128 | the result truncates toward zero, as Go's `int(x)` does |
| Numerics.Max | main.go:192 | the result is the larger of the two arguments |
| Numerics.Scaled | main.go:140 | a draw times a non-negative extent lies in `[0, extent]`, and below the extent when the extent is positive |
| WindModel.Lerp | main.go:61 | the interpolation is `a` at 0, `b` at 1, and between them for ratios in `[0, 1]` |
| WindModel.Wind | main.go:59-62 | the blend is the previous target at counter 0 and the current target at 2000; in between, each component lies between the two targets |
| WindModel.DrawDir | main.go:68 | a new direction lies in `[0, Pi)` |
| WindModel.DrawPower | main.go:69 | a new power lies in `[0, intensity)`, and is 0 when the intensity is 0 |
| WindModel.Randomize | main.go:64-70 | the old target becomes the previous one; the counter restarts; the new target is in range; the wind invariant is kept |
| WindModel.Tick | main.go:86-89 | the counter advances by one and nothing else changes, until it passes 2000; then the state is exactly `Randomize` of the advanced state, so the counter is 0 and the new power is below a positive intensity; the invariant is kept |
| WindModel.BlendContinuous | main.go:59-62 | re-randomising at the end of a transition leaves the blended wind unchanged |
| WindModel.RandomizeRestartsBlend | main.go:64-70 | re-randomising restarts the blend from the old target, so a preset change part way through a transition makes the wind jump |
| WindModel.TickBlendsWithinTargets | main.go:86-91 | after a frame's tick, the wind the flakes use lies between the previous and the current target |
| Pile.Stamp | main.go:135-138 | every on-image pixel of the stamped square becomes snow; nothing is removed; only pixels of the square inside the image are added |
| Pile.Clear | main.go:104-107 | exactly the pixels of the cleared column are removed |
| Pile.StampInRange | main.go:135-138 | stamping keeps the pile inside the image |
| Pile.ClearOffImage | main.go:104-107 | a column off the image clears nothing |
| Particles.Snow.Side | main.go:218-220 | a slow flake (speed below 1) is drawn 1 pixel wide, a fast one 2 |
| Particles.Snow.Size | main.go:218-220 | both scale factors are equal, within 1/2 of `0.5 + speed`, and are 1 or 2 |
| Particles.NewSnow | main.go:188-194 | a new flake has lifetime 0 and a valid speed; it lies across the width and up to one height above the top |
| Particles.NewSnows | main.go:77-79 | one new flake per draw, in order |
| Particles.Wrap | main.go:143-149 | past the right edge wraps to 0, past the left edge wraps to the width, otherwise unchanged; the result is always in `[0, width]` |
| Particles.Blocked | main.go:128-130 | the pile blocks a flake when the pixel at the truncated candidate x, one row below its old y, holds snow |
| Particles.BlockedOnImage | main.go:128-130 | only a pixel of the image can block: a sample outside it reads as empty |
| Particles.RestY | main.go:130-132 | a blocked flake keeps its old y; otherwise it takes its candidate y |
| Particles.Settles | main.go:134 | a flake settles when it is blocked or its rest y is at or below the floor line |
| Particles.StampAt | main.go:135-138 | every on-image pixel of the flake's square at `Corner` becomes snow; nothing is removed; the only pixels added are in that square and inside the image |
| Particles.Corner | main.go:136-137 | because the scale follows the translation, a slow flake's square is at (x, y) and a fast flake's at (2x, 2y) |
| Particles.SlowFlakePilesOnFloor | main.go:134-138 | a slow flake that falls, unblocked, onto the floor line over a column of the image adds the pixel it lands on to the pile |
| Particles.SlowStampCovers | main.go:135-138 | a slow flake's stamp at an on-image position covers the pixel there |
| Particles.FastFlakeStampsDoubled | main.go:130-138 | a fast flake the pile stops adds the pixel at twice its candidate x and twice its old y, when that pixel is on the image |
| Particles.FastFlakeMissesPile | main.go:134-138 | a fast flake that rests in the lower half of the screen leaves the pile unchanged |
| Particles.Step | main.go:111-150 | one iteration of the loop, as the flake and the pile after it; its cases are those `StepOutcome` states |
| Particles.StepFlake | main.go:111-149 | the flake after one iteration; `StepOutcome` states it case by case |
| Particles.StepPile | main.go:128-140 | the pile after one iteration; `StepOutcome` states it case by case |
| Particles.StepOutcome | main.go:110-150 | all the cases of one step. Piling off: the flake moves to its candidate and the pile is unchanged. Blocked: the flake is recycled and stamps at the candidate x and its old y. Unblocked above the floor line: it falls to its candidate, x wrapped, and the pile is unchanged. Unblocked at or below the floor line: it is recycled and stamps at its candidate. Always: the pile only gains pixels, inside the image |
| Particles.FlakeOutcome | main.go:110-150 | a flake's new value is one of the possible outcomes |
| Particles.Run | main.go:110-151 | the particle loop keeps the number of flakes |
| Particles.RunSnoc | main.go:110-151 | looping over one more flake is one more step, on the pile the earlier flakes left |
| Particles.RunStepInPlace | main.go:110-151 | stepping flake n in place extends the fold from n flakes to n + 1 and leaves the later flakes as they were |
| Particles.RunOutcomes | main.go:110-151 | every flake of a frame has a possible outcome; the frame only adds snow, inside the image, and none with piling off |
| Particles.RunInBounds | main.go:134-150 | with piling on, every flake ends the frame in `[0, width]` horizontally, and either at the top or above the floor line |
| Particles.OutcomeInBounds | main.go:134-150 | the same bound for one flake's outcome |
| Particles.RunKeepsValid | main.go:110-151 | a frame keeps every flake's speed and a non-negative lifetime |
| Snowplow.Tick | main.go:94-103 | the counter counts modulo 6 and the animation frame advances modulo 4 when it wraps; the edge moves by one; past the limit the edge returns to 0 and the sweep stops |
| Snowplow.Advance | main.go:93-103 | the counters stay in range; an idle plow stays exactly as it is; a sweep never starts by itself |
| Snowplow.Frames | main.go:93-103 | over n frames the counters stay in range; an idle plow never moves; a plow running after n frames was running at the start |
| Snowplow.Trigger | main.go:388-390 | the sweep starts with the edge at `1 - 2 * frameWidth`; the animation counters are kept |
| Snowplow.Sweeping | main.go:93-103 | until the edge passes the limit, the sweep keeps going, one pixel per frame |
| Snowplow.SweepEnds | main.go:99-103 | a sweep from edge x stops after exactly `limit + 1 - x` frames, with the edge at 0 |
| Snowplow.Animation | main.go:94-98 | during a sweep, after n frames the counter is `(c + n) mod 6` and the animation frame is `(i + (c + n) / 6) mod 4` |
| Snowplow.Carry | main.go:94-98 | one more frame of the animation clock, as modular arithmetic |
| Snowplow.TriggeredSweepLength | main.go:388-390 | a triggered sweep runs for exactly `width + 1 + 2 * frameWidth` frames and then ends with the edge at 0 |
| Snowplow.TriggeredSweepColumns | main.go:99-107 | a triggered sweep clears exactly the columns `2 .. width + 1 + 2 * frameWidth` |
| Snowplow.SweptPrefix | main.go:99-107 | before its last frame, frame k of a triggered sweep clears column k + 1 |
| Snowplow.Swept | main.go:104-107 | an idle plow clears no column; the columns cleared only accumulate frame by frame |
| Simulation.WindIntensity | main.go:287-321 | each wind preset is a non-negative intensity |
| Simulation.FrameOf | main.go:91-121 | the particle conditions apply the wind exactly when the target power is positive; at the start of a transition the displacement is that of the previous target, at its end that of the current target; gravity, piling and the screen size are carried over |
| Simulation.CalmFrame | main.go:116-121 | with a target power of 0 a flake's candidate is straight below it, by speed times gravity, however strong the blended wind still is |
| Simulation.Gravity | main.go:322-351 | each gravity preset is non-negative |
| Simulation.Count | main.go:352-387 | each snow-count preset is a multiple of 100 from 100 to 800 |
| Simulation.EbiSnow.Marked | main.go:128 | the abstraction of the piled-snow image: exactly the pixels whose array entry is set, all inside the image |
| Simulation.EbiSnow.Conditions | main.go:91-121 | the conditions `FrameOf` gives for the current wind fields, gravity, piling and size |
| Simulation.EbiSnow.Moved | main.go:93-151 | the flakes and pile are those the pure particle loop gives, started from the pile the plow left |
| Simulation.EbiSnow.constructor | main.go:222-229 | the initial state of `main`, with intensity 3, gravity 1 and piling on, followed by one `RandomizeWind` |
| Simulation.EbiSnow.RandomizeWind | main.go:64-70 | the wind fields become `Randomize` of the old ones |
| Simulation.EbiSnow.AddSnow | main.go:188-194 | exactly one new flake is appended |
| Simulation.EbiSnow.AddSnows | main.go:77-79 | the new flakes, one per draw, are appended in order |
| Simulation.EbiSnow.Layout | main.go:179-186 | the outside size is returned and stored; the pile is kept when the size is unchanged and replaced by a blank one otherwise |
| Simulation.EbiSnow.ClearColumn | main.go:104-107 | the pile becomes `Clear` of the old pile at that column |
| Simulation.EbiSnow.StampBlock | main.go:135-138 | the pile becomes `Stamp` of the old pile with that square |
| Simulation.EbiSnow.PlowTick | main.go:94-103 | the plow fields become `Tick` of the old ones, with limit width + sprite width |
| Simulation.EbiSnow.SweepStep | main.go:93-108 | one plow tick, then the column 2 * frameWidth right of the new edge is cleared |
| Simulation.EbiSnow.MoveFlake | main.go:111-150 | flake i becomes `StepFlake` of its old value and the pile becomes `StepPile`; nothing else changes |
| Simulation.EbiSnow.Fall | main.go:110-151 | the flakes and the pile become exactly `Run` of the old ones |
| Simulation.EbiSnow.TickWind | main.go:86-89 | the wind fields become `WindModel.Tick` of the old ones |
| Simulation.EbiSnow.PlowAndFall | main.go:93-151 | the plow advances if it was running, and the particle loop then runs on the pile the plow left |
| Simulation.EbiSnow.Animate | main.go:86-151 | wind tick, then plow, then particle loop, where the particles see the wind after its tick |
| Simulation.EbiSnow.Begin | main.go:73-80 | the first frame appends the 200 initial flakes and clears `firstRun`; later frames change nothing |
| Simulation.EbiSnow.Update | main.go:72-153 | when paused, only the first-frame flakes are added; when running, the wind, the plow and the flakes and pile are those of the pure model; the invariant is kept |
| Simulation.EbiSnow.SetWindIntensity | main.go:287-321 | the intensity becomes the preset's value and the wind is re-randomised under it |
| Simulation.EbiSnow.SetGravity | main.go:322-351 | the gravity becomes the preset's value |
| Simulation.EbiSnow.SetSnowCount | main.go:352-387 | the flakes are replaced by exactly the preset's number of new flakes |
| Simulation.EbiSnow.TriggerPlow | main.go:388-390 | the plow fields become `Trigger` of the old ones |
| Simulation.EbiSnow.TogglePile | main.go:391-397 | piling is switched |
| Simulation.EbiSnow.TogglePause | main.go:271-278 | pausing is switched |

## Left out

- Draw (main.go:155-177) only renders the state and changes nothing, so it is not modelled.
- Window setup, the tray icon, the menu checkmarks and the tray goroutine are left out. Each tray command is modelled as an atomic state change; races with `Update` are not.
- The "Select image" entry is left out: it replaces the snow sprite with a user file through a dialog. The sprite is taken as the default 1 x 1 white image, so its width is 1.
- "Quit" (`os.Exit`) and `trayFuncStart`, called on the first frame, are outside the state and are left out.
- float64 rounding, NaN and infinities: reals are exact.
- Ebiten's rasterisation and blending: a k x k square drawn at a non-integral corner is taken as the k x k pixels from the floor of that corner.
- `Update` takes one draw per flake for a recycled flake's new x. The source draws only for flakes that actually recycle, so the model does not capture how many draws are consumed.
- Flakes are values in a sequence, not pointers, so aliasing between `*Snow` entries is not modelled. No flake is shared in the source.
- The four snowplow frames are assumed to be equally wide (`frameWidth`). The source reads the current frame's width, and cuts the sheet with integer division, so the frames are exact quarters only when the sheet's width is a multiple of 4.
- Layout: the sizes are `nat`, because window sizes are never negative.
- Update: pausing through the tray is modelled as a flag flip. `TogglePause` assumes the checkbox mirrors `stopped`.
