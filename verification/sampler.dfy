/** The time throttle on freehand drawing (`drawLine` in index.ts). Its
    clock, `lastDrawTime`, is a module-level variable: it starts at 0 and is
    never reset, so it carries over from one gesture to the next. */
module Sampler {
  import opened Spells

  /** At most 30 samples per second. */
  const DrawFps: real := 30.0
  const DrawInterval: real := 1000.0 / DrawFps

  /** The current spell together with the throttle's clock. */
  datatype Pen = Pen(spell: Spell, lastDrawTime: real)

  predicate SampleDue(lastDrawTime: real, time: real) {
    time - lastDrawTime > DrawInterval
  }

  /** `drawLine`: add the pointer position to the spell if strictly more than
      the draw interval has passed since the last accepted sample. */
  function DrawLine(p: Pen, time: real, x: real, y: real): (r: Pen)
    ensures r.spell.pathData != p.spell.pathData <==> SampleDue(p.lastDrawTime, time)
    ensures SampleDue(p.lastDrawTime, time) ==>
              r.spell == AddPoint(p.spell, x, y) && r.lastDrawTime == time && r.lastDrawTime > p.lastDrawTime
    ensures !SampleDue(p.lastDrawTime, time) ==> r == p
  {
    if time - p.lastDrawTime > DrawInterval then Pen(AddPoint(p.spell, x, y), time) else p
  }

  /** Pointer down: a new spell whose `pathData` is the constructor's `initial`
      data; the throttle clock is left as it was. */
  function PointerDown(p: Pen, initial: seq<real>): (r: Pen)
    ensures r.lastDrawTime == p.lastDrawTime
    ensures r.spell.bounds.None? && r.spell.pathData == initial
  {
    Pen(NewSpell(initial), p.lastDrawTime)
  }

  /** Because the clock is not reset, the first sample of a new gesture is
      dropped when it comes within the interval of the previous gesture's
      last accepted sample, and the new spell still has no bounds. */
  lemma ThrottleSpansGestures(p: Pen, initial: seq<real>, time: real, x: real, y: real)
    requires !SampleDue(p.lastDrawTime, time)
    ensures DrawLine(PointerDown(p, initial), time, x, y) == PointerDown(p, initial)
    ensures Box(DrawLine(PointerDown(p, initial), time, x, y).spell).None?
  {
  }

  /** A pointer position offered at a given time. */
  datatype Sample = Sample(time: real, at: Point)

  /** `drawLine` called once per sample, in order. */
  function DrawRun(p: Pen, ss: seq<Sample>): Pen
    decreases |ss|
  {
    if |ss| == 0 then p
    else
      var s := ss[|ss| - 1];
      DrawLine(DrawRun(p, ss[..|ss| - 1]), s.time, s.at.x, s.at.y)
  }

  /** The time of the last sample of `a`, or the clock's start `t0`. */
  function LastTime(t0: real, a: seq<Sample>): real {
    if |a| == 0 then t0 else a[|a| - 1].time
  }

  /** Kept samples are more than one interval apart, the first one more
      than an interval after `t0`. */
  predicate Spaced(t0: real, a: seq<Sample>) {
    && (|a| > 0 ==> SampleDue(t0, a[0].time))
    && (forall i :: 0 < i < |a| ==> SampleDue(a[i - 1].time, a[i].time))
  }

  /** Given a keep/drop choice per sample, the time of the last kept sample
      before position `j`, or `t0` when none was kept. */
  function PrevKeptTime(t0: real, ss: seq<Sample>, keep: seq<bool>, j: int): real
    requires |keep| == |ss| && 0 <= j <= |ss|
    decreases j
  {
    if j == 0 then t0
    else if keep[j - 1] then ss[j - 1].time
    else PrevKeptTime(t0, ss, keep, j - 1)
  }

  /** The throttle's rule, stated per sample: a sample is kept exactly when it
      comes strictly more than one interval after the last kept one. */
  predicate ThrottleRule(t0: real, ss: seq<Sample>, keep: seq<bool>) {
    && |keep| == |ss|
    && forall j :: 0 <= j < |ss| ==> (keep[j] <==> SampleDue(PrevKeptTime(t0, ss, keep, j), ss[j].time))
  }

  /** The kept samples, in their original order. */
  function Select(ss: seq<Sample>, keep: seq<bool>): (a: seq<Sample>)
    requires |keep| == |ss|
    ensures |a| <= |ss|
    ensures forall i :: 0 <= i < |a| ==> a[i] in ss
    decreases |ss|
  {
    if |ss| == 0 then []
    else
      var init := Select(ss[..|ss| - 1], keep[..|ss| - 1]);
      if keep[|ss| - 1] then init + [ss[|ss| - 1]] else init
  }

  /** `PrevKeptTime` at `j` looks only at the first `j` samples and choices. */
  lemma {:induction false} PrevKeptTimeLocal(t0: real, ss1: seq<Sample>, k1: seq<bool>, ss2: seq<Sample>, k2: seq<bool>, j: int)
    requires |k1| == |ss1| && |k2| == |ss2| && 0 <= j <= |ss1| && j <= |ss2|
    requires ss1[..j] == ss2[..j] && k1[..j] == k2[..j]
    ensures PrevKeptTime(t0, ss1, k1, j) == PrevKeptTime(t0, ss2, k2, j)
    decreases j
  {
    if j > 0 {
      assert ss1[j - 1] == ss1[..j][j - 1] && ss2[j - 1] == ss2[..j][j - 1];
      assert k1[j - 1] == k1[..j][j - 1] && k2[j - 1] == k2[..j][j - 1];
      assert ss1[..j - 1] == ss1[..j][..j - 1] && ss2[..j - 1] == ss2[..j][..j - 1];
      assert k1[..j - 1] == k1[..j][..j - 1] && k2[..j - 1] == k2[..j][..j - 1];
      PrevKeptTimeLocal(t0, ss1, k1, ss2, k2, j - 1);
    }
  }

  /** The rule on a run restricts to the rule on each of its prefixes. */
  lemma ThrottleRulePrefix(t0: real, ss: seq<Sample>, keep: seq<bool>)
    requires ThrottleRule(t0, ss, keep) && |ss| > 0
    ensures ThrottleRule(t0, ss[..|ss| - 1], keep[..|ss| - 1])
  {
    var n := |ss| - 1;
    forall j | 0 <= j < n
      ensures keep[..n][j] <==> SampleDue(PrevKeptTime(t0, ss[..n], keep[..n], j), ss[..n][j].time)
    {
      assert ss[..n][..j] == ss[..j] && keep[..n][..j] == keep[..j];
      PrevKeptTimeLocal(t0, ss[..n], keep[..n], ss, keep, j);
    }
  }

  /** The time of the last selected sample is the last kept time. */
  lemma {:induction false} LastTimeSelect(t0: real, ss: seq<Sample>, keep: seq<bool>)
    requires |keep| == |ss|
    ensures LastTime(t0, Select(ss, keep)) == PrevKeptTime(t0, ss, keep, |ss|)
    decreases |ss|
  {
    if |ss| > 0 {
      var n := |ss| - 1;
      LastTimeSelect(t0, ss[..n], keep[..n]);
      assert ss[..n][..n] == ss[..n] && keep[..n][..n] == keep[..n];
      PrevKeptTimeLocal(t0, ss[..n], keep[..n], ss, keep, n);
    }
  }

  /** The rule fixes every choice: two choices obeying it agree. */
  lemma {:induction false} ThrottleRuleUnique(t0: real, ss: seq<Sample>, k1: seq<bool>, k2: seq<bool>)
    requires ThrottleRule(t0, ss, k1) && ThrottleRule(t0, ss, k2)
    ensures k1 == k2
    decreases |ss|
  {
    if |ss| > 0 {
      var n := |ss| - 1;
      ThrottleRulePrefix(t0, ss, k1);
      ThrottleRulePrefix(t0, ss, k2);
      ThrottleRuleUnique(t0, ss[..n], k1[..n], k2[..n]);
      PrevKeptTimeLocal(t0, ss, k1, ss, k2, n);
      assert k1 == k1[..n] + [k1[n]] && k2 == k2[..n] + [k2[n]];
    }
  }

  /** The throttle's decisions, made sample by sample. */
  function Decisions(t0: real, ss: seq<Sample>): (keep: seq<bool>)
    ensures |keep| == |ss|
    decreases |ss|
  {
    if |ss| == 0 then []
    else
      var init := ss[..|ss| - 1];
      var k := Decisions(t0, init);
      k + [SampleDue(PrevKeptTime(t0, init, k, |init|), ss[|ss| - 1].time)]
  }

  /** The decisions obey the rule, so a choice obeying it always exists. */
  lemma {:induction false} DecisionsFollowRule(t0: real, ss: seq<Sample>)
    ensures ThrottleRule(t0, ss, Decisions(t0, ss))
    decreases |ss|
  {
    if |ss| > 0 {
      var n := |ss| - 1;
      var init, k := ss[..n], Decisions(t0, ss[..n]);
      var keep := Decisions(t0, ss);
      DecisionsFollowRule(t0, init);
      assert keep[..n] == k;
      forall j | 0 <= j <= n
        ensures PrevKeptTime(t0, ss, keep, j) == PrevKeptTime(t0, init, k, j)
      {
        assert ss[..j] == init[..j] && keep[..j] == k[..j];
        PrevKeptTimeLocal(t0, ss, keep, init, k, j);
      }
      forall j | 0 <= j < |ss|
        ensures keep[j] <==> SampleDue(PrevKeptTime(t0, ss, keep, j), ss[j].time)
      {
        if j < n {
          assert keep[j] == k[j] && ss[j] == init[j];
        }
      }
    }
  }

  /** Kept samples under the rule are spaced more than an interval apart. */
  lemma {:induction false} SelectSpaced(t0: real, ss: seq<Sample>, keep: seq<bool>)
    requires ThrottleRule(t0, ss, keep)
    ensures Spaced(t0, Select(ss, keep))
    decreases |ss|
  {
    if |ss| > 0 {
      var n := |ss| - 1;
      ThrottleRulePrefix(t0, ss, keep);
      SelectSpaced(t0, ss[..n], keep[..n]);
      LastTimeSelect(t0, ss[..n], keep[..n]);
      assert ss[..n][..n] == ss[..n] && keep[..n][..n] == keep[..n];
      PrevKeptTimeLocal(t0, ss[..n], keep[..n], ss, keep, n);
    }
  }

  /** The clock never goes back: the last kept time is at least `t0`. */
  lemma {:induction false} SelectLastNotBefore(t0: real, ss: seq<Sample>, keep: seq<bool>)
    requires ThrottleRule(t0, ss, keep)
    ensures LastTime(t0, Select(ss, keep)) >= t0
    decreases |ss|
  {
    if |ss| > 0 {
      var n := |ss| - 1;
      ThrottleRulePrefix(t0, ss, keep);
      SelectLastNotBefore(t0, ss[..n], keep[..n]);
      LastTimeSelect(t0, ss[..n], keep[..n]);
      assert ss[..n][..n] == ss[..n] && keep[..n][..n] == keep[..n];
      PrevKeptTimeLocal(t0, ss[..n], keep[..n], ss, keep, n);
    }
  }

  /** The samples a throttle started at `t0` keeps, looking only at times: kept
      samples are spaced more than an interval apart, and any keep/drop choice
      obeying the rule selects exactly these, in order. */
  function Accepted(t0: real, ss: seq<Sample>): (a: seq<Sample>)
    ensures |a| <= |ss|
    ensures forall i :: 0 <= i < |a| ==> a[i] in ss
    ensures Spaced(t0, a)
    ensures LastTime(t0, a) >= t0
    ensures forall keep :: ThrottleRule(t0, ss, keep) ==> a == Select(ss, keep)
  {
    DecisionsFollowRule(t0, ss);
    SelectSpaced(t0, ss, Decisions(t0, ss));
    SelectLastNotBefore(t0, ss, Decisions(t0, ss));
    AcceptedUnique(t0, ss);
    Select(ss, Decisions(t0, ss))
  }

  lemma AcceptedUnique(t0: real, ss: seq<Sample>)
    ensures forall keep :: ThrottleRule(t0, ss, keep) ==> keep == Decisions(t0, ss)
  {
    DecisionsFollowRule(t0, ss);
    forall keep | ThrottleRule(t0, ss, keep)
      ensures keep == Decisions(t0, ss)
    {
      ThrottleRuleUnique(t0, ss, keep, Decisions(t0, ss));
    }
  }

  /** Keeping every sample obeys the rule when the samples are already spaced. */
  lemma SpacedKeepsAll(t0: real, ss: seq<Sample>)
    requires Spaced(t0, ss)
    ensures ThrottleRule(t0, ss, seq(|ss|, i => true))
  {
    var all := seq(|ss|, i => true);
    forall j | 0 <= j <= |ss|
      ensures PrevKeptTime(t0, ss, all, j) == LastTime(t0, ss[..j])
    {
    }
  }

  lemma {:induction false} SelectAll(ss: seq<Sample>)
    ensures Select(ss, seq(|ss|, i => true)) == ss
    decreases |ss|
  {
    if |ss| > 0 {
      var n := |ss| - 1;
      SelectAll(ss[..n]);
      assert seq(|ss|, i => true)[..n] == seq(n, i => true);
      assert ss[..n] + [ss[n]] == ss;
    }
  }

  /** Samples that already keep the interval are all accepted. */
  lemma SlowSamplesAllAccepted(t0: real, ss: seq<Sample>)
    requires Spaced(t0, ss)
    ensures Accepted(t0, ss) == ss
  {
    SpacedKeepsAll(t0, ss);
    SelectAll(ss);
  }

  function PointsOf(a: seq<Sample>): (pts: seq<Point>)
    ensures |pts| == |a|
    ensures forall i :: 0 <= i < |a| ==> pts[i] == a[i].at
  {
    seq(|a|, i requires 0 <= i < |a| => a[i].at)
  }

  /** A run of `drawLine` adds exactly the accepted samples, in order, and
      leaves the clock at the last accepted time. */
  lemma {:induction false} DrawRunAddsAccepted(p: Pen, ss: seq<Sample>)
    ensures DrawRun(p, ss).spell == AddPoints(p.spell, PointsOf(Accepted(p.lastDrawTime, ss)))
    ensures DrawRun(p, ss).lastDrawTime == LastTime(p.lastDrawTime, Accepted(p.lastDrawTime, ss))
    decreases |ss|
  {
    if |ss| > 0 {
      var t0 := p.lastDrawTime;
      var n := |ss| - 1;
      var init, s := ss[..n], ss[n];
      DrawRunAddsAccepted(p, init);
      var k := Decisions(t0, init);
      var a := Accepted(t0, init);
      LastTimeSelect(t0, init, k);
      assert Decisions(t0, ss)[..n] == k;
      if SampleDue(LastTime(t0, a), s.time) {
        assert Accepted(t0, ss) == a + [s];
        assert PointsOf(a + [s])[..|a|] == PointsOf(a);
      } else {
        assert Accepted(t0, ss) == a;
      }
    }
  }

  /** Over a whole gesture, the spell's bounds are exactly the box of the
      accepted samples, and `pathData` is the initial data followed by them. */
  lemma GestureTracksAccepted(p: Pen, initial: seq<real>, ss: seq<Sample>)
    ensures var q := DrawRun(PointerDown(p, initial), ss);
      var pts := PointsOf(Accepted(p.lastDrawTime, ss));
      && q.spell.pathData == initial + Flatten(pts)
      && q.spell.bounds == BoxOf(pts)
  {
    var p0 := PointerDown(p, initial);
    DrawRunAddsAccepted(p0, ss);
    AddPointsTracksBox(p0.spell, PointsOf(Accepted(p.lastDrawTime, ss)));
  }
}
