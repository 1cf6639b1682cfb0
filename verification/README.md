# Drawee demo core in Dafny

This project models the two pieces of real logic inside a small Phaser demo
(`index.ts`). In the demo a player sprite walks over a map and the mouse
draws a freehand "spell" polygon:

- **Animation state machine.** `getNext` turns the current `AnimState`, a
  movement delta and the current time into the next state. That state has a
  walk/idle flag, one of 8 directions, a walk frame 0..7 and the time of the
  last frame change. `getClosestDir` picks the direction from the signs of the
  delta. `getFrame` names the atlas frame for a state. The delta comes from
  the W/A/S/D key sums in `getDelta`.
- **Freehand path sampler.** `drawLine` throttles pointer samples to 30 per
  second. It uses a module-level clock `lastDrawTime` that is never reset.
  `Spell.addPoint` appends a point to the polygon's flat `pathData` and updates
  min/max bounds with an `if / else if` shape. `Spell.box` exposes those bounds
  as a rectangle.

Modules (one file each):

- `JsNumbers`: sign, JavaScript's truncating `%`, and integer-to-decimal text with its inverse.
- `Optional`: `null`/`undefined` as `Option`.
- `Directions`: the 8 directions, their lower-case names, their compass steps, and `ClosestDir`.
- `Animation`: `AnimState`, `Next` (`getNext`), `FrameName` (`getFrame`), and runs of ticks.
- `Keys`: the key-sum part of `getDelta`.
- `Spells`: `AddPoint`, `Box`, and the naive min/max reference box.
- `Sampler`: `DrawLine`, the gesture start, and runs of samples. Runs are checked against a per-sample keep/drop rule that looks only at times.
- `Scene`: the pointer-down and pointer-up handlers, one `update` tick and runs of them, plus worked examples.

Times, coordinates and deltas are exact `real`s. The frame is an `int`, and
JavaScript's `%` is modelled explicitly.

Behaviour of index.ts worth noting:

- Both throttles use a strict `>`. A sample exactly 1000/30 ms after the last one is dropped.
- A new gesture does not seed the bounds with its start point. Only points passed to `addPoint` count, so a gesture with no accepted sample has no box.
- Starting to walk from the idle pose keeps the old `lastFrameChange`. The frame stays 0, and the stamp moves only when the frame value changes. `Scene.ExampleStartWalking` shows this.
- The throttle clock is shared across gestures and never reset (`Sampler.ThrottleSpansGestures`).
- Stopping mid-cycle resets the frame to 0 and stamps the time, so the frame can change without being in the walk state afterwards.

## Model

| member | source | states |
|---|---|---|
| JsNumbers.Rem | index.ts:317 | JavaScript `%`: the remainder keeps the dividend's sign, lies strictly between -n and n, and differs from the dividend by a multiple of n, which fixes it for negative dividends too |
| JsNumbers.DecimalRoundTrip | index.ts:300 | the decimal text of the frame number reads back as that number |
| JsNumbers.IntToStringInjective | index.ts:300 | distinct integers interpolate to distinct text |
| Directions.LowerNameInjective | index.ts:300-301 | `toLowerCase` keeps the 8 direction names distinct |
| Directions.OffsetOnto | index.ts:329-355 | every non-zero sign pair is the compass step of some direction |
| Directions.ClosestDir | index.ts:329-355 | null exactly for the zero delta; otherwise the chosen direction's step equals the signs of (dx, dy), with dy < 0 being north |
| Directions.ClosestDirComplete | index.ts:329-355 | conversely, a direction whose step matches the signs is the one returned, so the 8 non-zero sign pairs map one-to-one onto the 8 directions |
| Directions.ClosestDirScale | index.ts:329-355 | scaling both components by a positive factor does not change the result |
| Animation.Next | index.ts:307-327 | walk exactly when the delta is non-zero; the direction follows the delta's signs, or is kept when there is no delta; a non-negative frame gives a frame in [0, 8); frame 0 unless walking before and after; the stamp becomes `time` exactly when the frame value changes |
| Animation.WalkAdvances | index.ts:314-325 | walk to walk, with strictly more than 1000/15 ms elapsed: the frame becomes (frame+1) % 8 and the stamp becomes `time` |
| Animation.WalkHolds | index.ts:314-325 | walk to walk, before the interval has elapsed: frame and stamp stay, even when the direction changes |
| Animation.StartWalkKeepsStamp | index.ts:313-325 | idle to walk from frame 0 keeps frame 0 and the old stamp |
| Animation.StopResetsAndStamps | index.ts:313-325 | walk to idle from a frame above 0 resets it to 0, keeps the direction and stamps `time` |
| Animation.NextScale | index.ts:313-319 | the next state is the same for any positive rescaling of the delta, so the integer key sums stand in for the normalised vector |
| Animation.RunKeepsFrameValid | index.ts:315-318 | from a frame in [0, 8), every state reached by a run of ticks keeps its frame in [0, 8), and an idle state reached shows frame 0 |
| Animation.InitialRunsKeepFrameValid | index.ts:156-161 | from the scene's initial state (idle, N, frame 0, stamp 0) every reachable frame is in [0, 8) |
| Animation.FrameName | index.ts:298-302 | idle names the lower-cased direction whatever the frame; walk names start with the lower-cased direction and are 3 characters longer within the cycle |
| Animation.WalkFrameNameDigit | index.ts:298-302 | within the cycle a walk name ends in `_p` and one digit 1..8, equal to frame + 1 |
| Animation.WalkFrameNamesDistinct | index.ts:298-302 | distinct walking (direction, frame) pairs give distinct names |
| Animation.IdleWalkNamesDiffer | index.ts:298-302 | no idle name equals a walk name |
| Keys.Axis | index.ts:291-293 | one axis of the key sum is in {-1, 0, 1}; opposite keys cancel, and +1 means only the positive key is down |
| Keys.Delta | index.ts:290-293 | the key sum's x is negative exactly for "left" alone and positive for "right" alone; y is negative exactly for "up" alone |
| Keys.KeysChooseDirection | index.ts:290-293 | the keys face the player in direction d exactly when d's step is the key sum; opposite or absent keys give no direction |
| Spells.AddPoint | index.ts:68-87 | appends exactly x then y to `pathData`; defines the bounds on the first call; on ordered bounds the `if / else if` update equals the min/max widening, and keeps the bounds ordered and containing the point |
| Spells.BoxOfExact | index.ts:68-87 | the naive min/max fold is the smallest enclosing box: all points inside, each edge touched |
| Spells.BoxUnique | index.ts:68-87 | the smallest enclosing box is unique |
| Spells.Flatten | index.ts:69 | the flat path holds x at even and y at odd positions, point by point |
| Spells.AddPointsTracksBox | index.ts:68-87 | after any calls from undefined bounds, `pathData` is the old data followed by the added coordinates, and the bounds equal the naive min/max of all added points |
| Spells.Box | index.ts:88-95 | defined exactly when the bounds are; the rectangle's corners are exactly (minX, minY) and (maxX, maxY), so width and height are non-negative on ordered bounds |
| Spells.GestureBox | index.ts:163-166 | whatever initial `pathData` the constructor builds, a gesture's box is the tight rectangle around the points given to `addPoint`; the start vertex alone gives no box |
| Sampler.DrawLine | index.ts:357-365 | accepts exactly when strictly more than 1000/30 ms have passed; on acceptance adds the point once and the clock moves strictly forward to `time`; on rejection nothing changes |
| Sampler.PointerDown | index.ts:162-168 | a new spell holds the constructor's initial data and no bounds; the throttle clock is untouched |
| Sampler.ThrottleSpansGestures | index.ts:357 | a first sample within the interval of the previous gesture's last accepted one is dropped, leaving the new spell without a box |
| Sampler.ThrottleRuleUnique | index.ts:357-365 | the per-sample rule (keep a sample exactly when it is strictly more than 1000/30 ms after the last kept one, or after the clock's start) fixes every keep/drop choice |
| Sampler.DecisionsFollowRule | index.ts:357-365 | a choice obeying the rule exists for every sample sequence |
| Sampler.SelectSpaced | index.ts:357-365 | samples kept under the rule are each more than one interval after the previous kept one |
| Sampler.Accepted | index.ts:357-365 | the time-only reference: samples drawn from the input, spaced more than one interval apart, never before the clock's start, and equal to the ordered selection of any keep/drop choice obeying the rule, so every dropped sample lies within one interval of the last kept one |
| Sampler.SlowSamplesAllAccepted | index.ts:357-365 | samples that already keep the interval are all accepted |
| Sampler.DrawRunAddsAccepted | index.ts:357-365 | a run of `drawLine` adds exactly the reference-accepted samples in order and leaves the clock at the last accepted time |
| Sampler.GestureTracksAccepted | index.ts:162-168 | over a gesture, `pathData` is the constructor's initial data followed by the accepted samples, and the bounds are their exact min/max box |
| Scene.OnPointerDown | index.ts:162-170 | pointer down replaces the spell by a fresh one with the constructor's data and undefined bounds, leaving animation and clock alone |
| Scene.OnPointerUp | index.ts:270-272 | pointer up gets no rectangle while the bounds are undefined, otherwise one spanning exactly the tracked bounds |
| Scene.Tick | index.ts:367-381 | one update: walking exactly when the keys do not cancel; the frame stays in range; with the mouse down the spell and clock are exactly what `drawLine` makes of the pointer position; without it they are untouched |
| Scene.Ticks | index.ts:367-381 | a run of updates keeps a spell exactly when one existed before, and keeps a frame in [0, 8) in range |
| Scene.HeldTicksDraw | index.ts:378-379 | while the mouse is held, each update hands its time and pointer position to `drawLine`, so a run of updates leaves the spell and clock exactly as a run of `drawLine` over those samples |
| Scene.TicksAnimIsRun | index.ts:367-375 | over a run of updates the animation state is the state machine's run over the key sums and times, whatever the mouse does |
| Scene.GestureEndsWithBox | index.ts:270-272 | press, hold for any updates, release: the handler's rectangle is the tight box of the accepted pointer positions, and there is none if every position was dropped |
| Scene.TickMatchesScaledDelta | index.ts:290-296 | the tick's animation equals `getNext` fed the delta scaled by any positive factor, as `normalize().scale(5)` does |
| Scene.ExampleStartWalking | index.ts:307-327 | idle, north, frame 0, stamp 0, moved north at 100 ms: walking, frame 0, stamp still 0 |
| Scene.ExampleFrameAdvances | index.ts:314-317 | 67 ms after the stamp the frame advances to 1 and is stamped 167 |
| Scene.ExampleFrameHolds | index.ts:314-317 | 13 ms later the frame holds at 1 while the direction turns east |
| Scene.ExampleGesture | index.ts:357-365 | from (0, 0) with clock 0: the sample at 50 ms is taken and its box excludes the start, 60 ms is dropped, 90 ms is taken, and the box becomes (-3, 5, 13, 0) |

## Left out

- Phaser configuration, asset loading, scene and camera setup, text, and the sprite position update in `update`: engine wiring and I/O.
- The grayscale pipeline and the plasma shader: GPU code and floating point.
- `Vector2.normalize().scale(5)` in `getDelta`: it is float vector math in the engine. The model feeds the integer key sums. `Animation.NextScale` and `Scene.TickMatchesScaledDelta` show that any positive rescaling gives the same animation state.
- IEEE-754 doubles: times and coordinates are exact reals. The model has no NaN, infinities or rounding. For example, 1000/15 is exact.
- `Phaser.Geom.Rectangle` internals, such as `centerX` and its defaults for undefined arguments. `Spells.Box` returns `None` while the bounds are undefined, where the source would build a rectangle from undefined values.
- The pointer-up handler destroys the spell and places the shader from its box. `Scene.OnPointerUp` only reads the box. The scene's reference to the destroyed spell is not cleared, as in the source.
- Event order between the engine's pointer handlers and `update`: `Scene.Ticks` only requires that the mouse is not down before the first spell exists.
- The Polygon constructor's layout of the start point in `pathData`: the engine builds it, so the model takes it as an arbitrary `initial` sequence. `Scene.ExampleGesture` alone assumes it is the two coordinates.
- JsNumbers.IntToString: JavaScript's exponent notation for integers of 10^21 and above is not modelled. Frames never get near it.
- Directions.ToLower: it lower-cases ASCII letters only, not all of Unicode as `toLowerCase` does. The direction names are ASCII.
