/** The player's walk/idle animation state machine (`AnimState`, `getNext`
    and `getFrame` in index.ts). Times are milliseconds, as exact reals. */
module Animation {
  import opened JsNumbers
  import opened Directions

  datatype Locomotion = Walk | Idle

  datatype AnimState = AnimState(frame: int, state: Locomotion, direction: Direction, lastFrameChange: real)

  /** Walk cycle: 8 frames shown at 15 frames per second. */
  const FrameCount: int := 8
  const Fps: real := 15.0
  const FrameInterval: real := 1000.0 / Fps

  /** The state the scene starts with: facing north, idle, frame 0, stamped 0. */
  const Initial: AnimState := AnimState(0, Idle, N, 0.0)

  predicate Moving(dx: real, dy: real) {
    dx != 0.0 || dy != 0.0
  }

  /** Whether enough time has passed since the last frame change to show the next one. */
  predicate FrameDue(a: AnimState, time: real) {
    time - a.lastFrameChange > FrameInterval
  }

  predicate ValidFrame(a: AnimState) {
    0 <= a.frame < FrameCount
  }

  /** `getNext`: the animation state after one tick with movement (dx, dy) at `time`. */
  function Next(a: AnimState, dx: real, dy: real, time: real): (r: AnimState)
    ensures r.state == Walk <==> Moving(dx, dy)
    ensures !Moving(dx, dy) ==> r.direction == a.direction
    ensures Moving(dx, dy) ==> Offset(r.direction) == (Sign(dx), Sign(dy))
    ensures a.frame >= 0 ==> ValidFrame(r)
    ensures a.state == Idle || r.state == Idle ==> r.frame == 0
    ensures r.frame != a.frame ==> r.lastFrameChange == time
    ensures r.frame == a.frame ==> r.lastFrameChange == a.lastFrameChange
  {
    var newState := if dx != 0.0 || dy != 0.0 then Walk else Idle;
    var frameChange := if time - a.lastFrameChange > FrameInterval then 1 else 0;
    var nextFrame := if a.state == newState && newState == Walk then Rem(a.frame + frameChange, FrameCount) else 0;
    var direction := match ClosestDir(dx, dy) case Some(d) => d case None => a.direction;
    a.(frame := nextFrame, direction := direction, state := newState,
       lastFrameChange := if nextFrame != a.frame then time else a.lastFrameChange)
  }

  /** Walking on, once the interval has strictly elapsed: the frame moves one
      step round the cycle and the change is stamped with `time`. */
  lemma WalkAdvances(a: AnimState, dx: real, dy: real, time: real)
    requires a.state == Walk && Moving(dx, dy) && a.frame >= 0
    requires FrameDue(a, time)
    ensures Next(a, dx, dy, time).frame == (a.frame + 1) % FrameCount
    ensures Next(a, dx, dy, time).lastFrameChange == time
  {
  }

  /** Walking on before the interval has elapsed keeps frame and stamp,
      even when the direction changes. */
  lemma WalkHolds(a: AnimState, dx: real, dy: real, time: real)
    requires a.state == Walk && Moving(dx, dy) && ValidFrame(a)
    requires !FrameDue(a, time)
    ensures Next(a, dx, dy, time).frame == a.frame
    ensures Next(a, dx, dy, time).lastFrameChange == a.lastFrameChange
  {
  }

  /** Starting to walk from the idle pose (frame 0) keeps the old stamp: the
      frame did not change, so the first step's interval counts from it. */
  lemma StartWalkKeepsStamp(a: AnimState, dx: real, dy: real, time: real)
    requires a.state == Idle && a.frame == 0 && Moving(dx, dy)
    ensures Next(a, dx, dy, time) == AnimState(0, Walk, Next(a, dx, dy, time).direction, a.lastFrameChange)
  {
  }

  /** Stopping mid-cycle resets the frame to 0, which counts as a change and stamps `time`. */
  lemma StopResetsAndStamps(a: AnimState, time: real)
    requires a.state == Walk && a.frame > 0
    ensures Next(a, 0.0, 0.0, time) == AnimState(0, Idle, a.direction, time)
  {
  }

  /** Only the signs of the delta matter, so feeding the integer key sums gives
      the same state as feeding the normalised, scaled vector. */
  lemma NextScale(a: AnimState, k: real, dx: real, dy: real, time: real)
    requires k > 0.0
    ensures Next(a, k * dx, k * dy, time) == Next(a, dx, dy, time)
  {
    ClosestDirScale(k, dx, dy);
    SignScale(k, dx);
    SignScale(k, dy);
  }

  /** One tick's input to the state machine. */
  datatype Step = Step(dx: real, dy: real, time: real)

  /** The state after a sequence of ticks. */
  function Run(a: AnimState, steps: seq<Step>): AnimState
    decreases |steps|
  {
    if |steps| == 0 then a
    else
      var last := steps[|steps| - 1];
      Next(Run(a, steps[..|steps| - 1]), last.dx, last.dy, last.time)
  }

  /** From any state with a frame in range, every reachable state keeps its frame in [0, 8), and an idle state shows frame 0. */
  lemma {:induction false} RunKeepsFrameValid(a: AnimState, steps: seq<Step>)
    requires ValidFrame(a)
    ensures ValidFrame(Run(a, steps))
    ensures |steps| > 0 && Run(a, steps).state == Idle ==> Run(a, steps).frame == 0
    decreases |steps|
  {
    if |steps| > 0 {
      RunKeepsFrameValid(a, steps[..|steps| - 1]);
    }
  }

  /** In particular from the scene's initial state. */
  lemma InitialRunsKeepFrameValid(steps: seq<Step>)
    ensures ValidFrame(Run(Initial, steps))
  {
    RunKeepsFrameValid(Initial, steps);
  }

  /** `getFrame`: the texture-atlas frame name shown for a state — the
      lower-cased direction when idle, with `_p` and the 1-based frame
      number appended when walking. */
  function FrameName(a: AnimState): (s: string)
    ensures a.state == Idle ==> s == LowerName(a.direction)
    ensures a.state == Walk ==> |s| >= |LowerName(a.direction)| + 3 && s[..|LowerName(a.direction)|] == LowerName(a.direction)
    ensures a.state == Walk && ValidFrame(a) ==> |s| == |LowerName(a.direction)| + 3
  {
    if a.state == Walk then LowerName(a.direction) + "_p" + IntToString(a.frame + 1)
    else LowerName(a.direction)
  }

  /** Within the cycle the walk frame name ends in one digit `1`..`8`, the frame plus one. */
  lemma WalkFrameNameDigit(a: AnimState)
    requires a.state == Walk && ValidFrame(a)
    ensures var s := FrameName(a);
      && s[|s| - 3..|s| - 1] == "_p"
      && '1' <= s[|s| - 1] <= '8'
      && s[|s| - 1] as int - '0' as int == a.frame + 1
  {
  }

  /** A name without `_` in front of `_p` can be split back at the marker. */
  lemma SplitAtMarker(l1: string, r1: string, l2: string, r2: string)
    requires forall i :: 0 <= i < |l1| ==> l1[i] != '_'
    requires forall i :: 0 <= i < |l2| ==> l2[i] != '_'
    requires l1 + "_p" + r1 == l2 + "_p" + r2
    ensures l1 == l2 && r1 == r2
  {
    var s := l1 + "_p" + r1;
    assert s[|l1|] == '_' && s[|l2|] == '_';
    assert l1 == s[..|l1|] == l2;
    assert r1 == s[|l1| + 2..] == r2;
  }

  /** Distinct walking (direction, frame) pairs name distinct atlas frames. */
  lemma WalkFrameNamesDistinct(a: AnimState, b: AnimState)
    requires a.state == Walk && b.state == Walk
    requires FrameName(a) == FrameName(b)
    ensures a.direction == b.direction && a.frame == b.frame
  {
    var la, lb := LowerName(a.direction), LowerName(b.direction);
    var ia, ib := IntToString(a.frame + 1), IntToString(b.frame + 1);
    assert la + "_p" + ia == FrameName(a) == FrameName(b) == lb + "_p" + ib;
    SplitAtMarker(la, ia, lb, ib);
    LowerNameInjective(a.direction, b.direction);
    IntToStringInjective(a.frame + 1, b.frame + 1);
  }

  /** An idle name never equals a walking one, whatever the directions. */
  lemma IdleWalkNamesDiffer(a: AnimState, b: AnimState)
    requires a.state == Idle && b.state == Walk
    ensures FrameName(a) != FrameName(b)
  {
    var s, t := FrameName(a), FrameName(b);
    var lb := LowerName(b.direction);
    assert |s| <= 2 && |t| >= |lb| + 3;
  }
}
