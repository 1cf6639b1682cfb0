/** One frame of the demo (`update` in index.ts) reduced to the state the
    core keeps: the animation state, the current spell (none before the
    first pointer-down) and the draw throttle's clock. Sprite position,
    text and rendering are not modelled. */
module Scene {
  import opened Optional
  import opened Directions
  import opened Animation
  import opened Keys
  import opened Spells
  import opened Sampler

  datatype SceneState = SceneState(anim: AnimState, spell: Option<Spell>, lastDrawTime: real)

  /** The pointer-down handler: a new spell whose `pathData` is the Polygon
      constructor's `initial` data; animation and throttle clock stay. */
  function OnPointerDown(sc: SceneState, initial: seq<real>): (r: SceneState)
    ensures r.anim == sc.anim && r.lastDrawTime == sc.lastDrawTime
    ensures r.spell.Some? && r.spell.value.pathData == initial && r.spell.value.bounds.None?
  {
    sc.(spell := Some(NewSpell(initial)))
  }

  /** The pointer-up handler reads the spell's box to place the effect: a
      rectangle spanning exactly the tracked bounds. */
  function OnPointerUp(sc: SceneState): (r: Option<Rect>)
    requires sc.spell.Some?
    ensures r.None? <==> sc.spell.value.bounds.None?
    ensures r.Some? ==>
              Bounds(r.value.x, r.value.y, r.value.x + r.value.width, r.value.y + r.value.height)
              == sc.spell.value.bounds.value
  {
    Box(sc.spell.value)
  }

  /** One `update` call: advance the animation from the key sum, then, while
      the mouse is down (`pointer` is its world position), offer the position
      to `drawLine`. The source reads `scene.spell` there, so a spell must exist. */
  function Tick(sc: SceneState, keys: MoveKeys, time: real, pointer: Option<Point>): (r: SceneState)
    requires pointer.Some? ==> sc.spell.Some?
    ensures r.anim.state == Walk <==> !(keys.up == keys.down && keys.left == keys.right)
    ensures ValidFrame(sc.anim) ==> ValidFrame(r.anim)
    ensures r.spell.Some? <==> sc.spell.Some?
    ensures r.lastDrawTime >= sc.lastDrawTime
    ensures pointer.None? ==> r.spell == sc.spell && r.lastDrawTime == sc.lastDrawTime
    ensures pointer.Some? ==>
              Pen(r.spell.value, r.lastDrawTime)
              == DrawLine(Pen(sc.spell.value, sc.lastDrawTime), time, pointer.value.x, pointer.value.y)
  {
    var (dx, dy) := RealDelta(keys);
    var anim := Next(sc.anim, dx, dy, time);
    match pointer
    case None => sc.(anim := anim)
    case Some(at) =>
      var pen := DrawLine(Pen(sc.spell.value, sc.lastDrawTime), time, at.x, at.y);
      SceneState(anim, Some(pen.spell), pen.lastDrawTime)
  }

  /** What `update` reads each frame. */
  datatype TickInput = TickInput(keys: MoveKeys, time: real, pointer: Option<Point>)

  predicate MouseHeld(ins: seq<TickInput>) {
    forall i :: 0 <= i < |ins| ==> ins[i].pointer.Some?
  }

  predicate MouseUp(ins: seq<TickInput>) {
    forall i :: 0 <= i < |ins| ==> ins[i].pointer.None?
  }

  /** A sequence of `update` calls; with no spell yet the mouse must stay up.
      A frame in range stays in range over the whole run. */
  function Ticks(sc: SceneState, ins: seq<TickInput>): (r: SceneState)
    requires sc.spell.Some? || MouseUp(ins)
    ensures r.spell.Some? <==> sc.spell.Some?
    ensures ValidFrame(sc.anim) ==> ValidFrame(r.anim)
    decreases |ins|
  {
    if |ins| == 0 then sc
    else
      var last := ins[|ins| - 1];
      Tick(Ticks(sc, ins[..|ins| - 1]), last.keys, last.time, last.pointer)
  }

  /** The animation inputs of a run of updates: the key sums and times. */
  function StepsOf(ins: seq<TickInput>): (steps: seq<Step>)
    ensures |steps| == |ins|
  {
    seq(|ins|, i requires 0 <= i < |ins| => Step(RealDelta(ins[i].keys).0, RealDelta(ins[i].keys).1, ins[i].time))
  }

  /** The animation over a run of updates is the state machine's run over the
      key sums, whatever the mouse does. */
  lemma {:induction false} TicksAnimIsRun(sc: SceneState, ins: seq<TickInput>)
    requires sc.spell.Some? || MouseUp(ins)
    ensures Ticks(sc, ins).anim == Run(sc.anim, StepsOf(ins))
    decreases |ins|
  {
    if |ins| > 0 {
      var n := |ins| - 1;
      TicksAnimIsRun(sc, ins[..n]);
      assert StepsOf(ins)[..n] == StepsOf(ins[..n]);
    }
  }

  /** The pointer positions offered while the mouse is held. */
  function SamplesOf(ins: seq<TickInput>): (ss: seq<Sample>)
    requires MouseHeld(ins)
    ensures |ss| == |ins|
    ensures forall i :: 0 <= i < |ins| ==> ss[i] == Sample(ins[i].time, ins[i].pointer.value)
  {
    seq(|ins|, i requires 0 <= i < |ins| && MouseHeld(ins) => Sample(ins[i].time, ins[i].pointer.value))
  }

  /** While the mouse is held, the ticks feed every pointer position to `drawLine`. */
  lemma {:induction false} HeldTicksDraw(sc: SceneState, ins: seq<TickInput>)
    requires sc.spell.Some? && MouseHeld(ins)
    ensures Pen(Ticks(sc, ins).spell.value, Ticks(sc, ins).lastDrawTime)
            == DrawRun(Pen(sc.spell.value, sc.lastDrawTime), SamplesOf(ins))
    decreases |ins|
  {
    if |ins| > 0 {
      var n := |ins| - 1;
      HeldTicksDraw(sc, ins[..n]);
      assert SamplesOf(ins)[..n] == SamplesOf(ins[..n]);
    }
  }

  /** The rectangle the pointer-up handler gets after pressing, holding and
      releasing the mouse is the tight box of the accepted pointer positions,
      and there is none when every position was dropped. */
  lemma GestureEndsWithBox(sc: SceneState, initial: seq<real>, ins: seq<TickInput>)
    requires MouseHeld(ins)
    ensures var r := OnPointerUp(Ticks(OnPointerDown(sc, initial), ins));
      var pts := PointsOf(Accepted(sc.lastDrawTime, SamplesOf(ins)));
      && (r.None? <==> |pts| == 0)
      && (r.Some? ==> RectIsBoxOf(r.value, pts))
  {
    var down := OnPointerDown(sc, initial);
    HeldTicksDraw(down, ins);
    DrawRunAddsAccepted(Pen(NewSpell(initial), sc.lastDrawTime), SamplesOf(ins));
    GestureBox(initial, PointsOf(Accepted(sc.lastDrawTime, SamplesOf(ins))));
  }

  /** The animation a tick produces is the one the source computes from the
      normalised and scaled delta, whatever positive factor that applies. */
  lemma TickMatchesScaledDelta(sc: SceneState, keys: MoveKeys, time: real, pointer: Option<Point>, k: real)
    requires pointer.Some? ==> sc.spell.Some?
    requires k > 0.0
    ensures Tick(sc, keys, time, pointer).anim == Next(sc.anim, k * RealDelta(keys).0, k * RealDelta(keys).1, time)
  {
    NextScale(sc.anim, k, RealDelta(keys).0, RealDelta(keys).1, time);
  }

  /** Worked examples of the state machine as written. Starting to walk north
      from the initial pose keeps stamp 0 (the frame did not change). */
  lemma ExampleStartWalking()
    ensures Next(AnimState(0, Idle, N, 0.0), 0.0, -1.0, 100.0) == AnimState(0, Walk, N, 0.0)
  {
  }

  /** 67 ms after the stamp is more than 1000/15 ms: the frame advances. */
  lemma ExampleFrameAdvances()
    ensures Next(AnimState(0, Walk, N, 100.0), 0.0, -1.0, 167.0) == AnimState(1, Walk, N, 167.0)
  {
  }

  /** 13 ms later it does not, even when turning east. */
  lemma ExampleFrameHolds()
    ensures Next(AnimState(1, Walk, N, 167.0), 1.0, 0.0, 180.0) == AnimState(1, Walk, E, 167.0)
  {
  }

  /** A gesture from (0, 0), taking the constructor's data to be that one
      vertex (the engine may lay it out otherwise): the sample at 50 ms is taken (its box excludes the
      start vertex), the one at 60 ms is dropped, the one at 90 ms is taken. */
  lemma ExampleGesture()
    ensures var p0 := PointerDown(Pen(NewSpell([]), 0.0), [0.0, 0.0]);
      var p1 := DrawLine(p0, 50.0, 10.0, 5.0);
      var p2 := DrawLine(p1, 60.0, -3.0, 5.0);
      var p3 := DrawLine(p2, 90.0, -3.0, 5.0);
      && Box(p1.spell) == Some(Rect(10.0, 5.0, 0.0, 0.0))
      && p2 == p1
      && Box(p3.spell) == Some(Rect(-3.0, 5.0, 13.0, 0.0))
      && p3.spell.pathData == [0.0, 0.0, 10.0, 5.0, -3.0, 5.0]
  {
  }
}
