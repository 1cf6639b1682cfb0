/** The freehand "spell" polygon (`Spell` in index.ts): a flat list of
    coordinates plus min/max bounds over the points added to it. */
module Spells {
  import opened Optional

  datatype Point = Point(x: real, y: real)

  /** The four tracked extremes; in the source they are `undefined` until the
      first `addPoint`, modelled by `None`. */
  datatype Bounds = Bounds(minX: real, minY: real, maxX: real, maxY: real)

  /** `pathData` is the polygon's flat `[x0, y0, x1, y1, ...]` array. */
  datatype Spell = Spell(pathData: seq<real>, bounds: Option<Bounds>)

  /** A rectangle as top-left corner, width and height. */
  datatype Rect = Rect(x: real, y: real, width: real, height: real)

  function Min(a: real, b: real): real { if a <= b then a else b }
  function Max(a: real, b: real): real { if a >= b then a else b }

  predicate Ordered(b: Bounds) {
    b.minX <= b.maxX && b.minY <= b.maxY
  }

  predicate Contains(b: Bounds, p: Point) {
    b.minX <= p.x <= b.maxX && b.minY <= p.y <= b.maxY
  }

  /** `b` is the smallest axis-aligned box around `pts`: every point lies in
      it and each of its four edges is touched by some point. */
  predicate IsBoxOf(b: Bounds, pts: seq<Point>) {
    && (forall i :: 0 <= i < |pts| ==> Contains(b, pts[i]))
    && (exists i :: 0 <= i < |pts| && pts[i].x == b.minX)
    && (exists i :: 0 <= i < |pts| && pts[i].x == b.maxX)
    && (exists i :: 0 <= i < |pts| && pts[i].y == b.minY)
    && (exists i :: 0 <= i < |pts| && pts[i].y == b.maxY)
  }

  /** There is only one such box. */
  lemma BoxUnique(b: Bounds, c: Bounds, pts: seq<Point>)
    requires IsBoxOf(b, pts) && IsBoxOf(c, pts)
    ensures b == c
  {
    var i :| 0 <= i < |pts| && pts[i].x == b.minX;
    var j :| 0 <= j < |pts| && pts[j].x == c.minX;
    assert Contains(b, pts[j]) && Contains(c, pts[i]);
    var k :| 0 <= k < |pts| && pts[k].x == b.maxX;
    var l :| 0 <= l < |pts| && pts[l].x == c.maxX;
    assert Contains(b, pts[l]) && Contains(c, pts[k]);
    var m :| 0 <= m < |pts| && pts[m].y == b.minY;
    var n :| 0 <= n < |pts| && pts[n].y == c.minY;
    assert Contains(b, pts[n]) && Contains(c, pts[m]);
    var o :| 0 <= o < |pts| && pts[o].y == b.maxY;
    var q :| 0 <= q < |pts| && pts[q].y == c.maxY;
    assert Contains(b, pts[q]) && Contains(c, pts[o]);
  }

  function Single(p: Point): Bounds {
    Bounds(p.x, p.y, p.x, p.y)
  }

  /** The textbook update: widen each extreme by min/max. */
  function Extend(b: Bounds, p: Point): Bounds {
    Bounds(Min(b.minX, p.x), Min(b.minY, p.y), Max(b.maxX, p.x), Max(b.maxY, p.y))
  }

  /** The reference: a naive min/max fold over the points, `None` for none. */
  function BoxOf(pts: seq<Point>): (r: Option<Bounds>)
    ensures r.None? <==> |pts| == 0
    ensures r.Some? ==> Ordered(r.value)
    decreases |pts|
  {
    if |pts| == 0 then None
    else if |pts| == 1 then Some(Single(pts[0]))
    else Some(Extend(BoxOf(pts[..|pts| - 1]).value, pts[|pts| - 1]))
  }

  lemma ExtendIsBox(b: Bounds, pts: seq<Point>, p: Point)
    requires IsBoxOf(b, pts)
    ensures IsBoxOf(Extend(b, p), pts + [p])
  {
    var e, all := Extend(b, p), pts + [p];
    assert all[|pts|] == p;
    forall i | 0 <= i < |all|
      ensures Contains(e, all[i])
    {
      if i < |pts| { assert all[i] == pts[i] && Contains(b, pts[i]); }
    }
    var i :| 0 <= i < |pts| && pts[i].x == b.minX;
    if e.minX == b.minX { assert all[i] == pts[i]; }
    var j :| 0 <= j < |pts| && pts[j].x == b.maxX;
    if e.maxX == b.maxX { assert all[j] == pts[j]; }
    var k :| 0 <= k < |pts| && pts[k].y == b.minY;
    if e.minY == b.minY { assert all[k] == pts[k]; }
    var l :| 0 <= l < |pts| && pts[l].y == b.maxY;
    if e.maxY == b.maxY { assert all[l] == pts[l]; }
  }

  /** The fold computes the exact enclosing box. */
  lemma {:induction false} BoxOfExact(pts: seq<Point>)
    requires |pts| > 0
    ensures BoxOf(pts).Some? && IsBoxOf(BoxOf(pts).value, pts)
    decreases |pts|
  {
    if |pts| == 1 {
      assert Contains(Single(pts[0]), pts[0]);
    } else {
      var init := pts[..|pts| - 1];
      BoxOfExact(init);
      ExtendIsBox(BoxOf(init).value, init, pts[|pts| - 1]);
      assert init + [pts[|pts| - 1]] == pts;
    }
  }

  /** The gesture as the pointer-down handler creates it. `initial` is the
      `pathData` the Polygon constructor builds from the start point (its
      layout belongs to the engine); the bounds stay undefined. */
  function NewSpell(initial: seq<real>): Spell {
    Spell(initial, None)
  }

  /** `Spell.addPoint`: push the coordinates, then update the bounds with the
      source's `if / else if` shape (a point below the minimum is never
      compared against the maximum). */
  function AddPoint(s: Spell, x: real, y: real): (r: Spell)
    ensures r.pathData == s.pathData + [x, y]
    ensures r.bounds.Some?
    ensures s.bounds.None? || Ordered(s.bounds.value) ==> Ordered(r.bounds.value) && Contains(r.bounds.value, Point(x, y))
    ensures s.bounds.None? ==> r.bounds == Some(Single(Point(x, y)))
    ensures s.bounds.Some? && Ordered(s.bounds.value) ==> r.bounds == Some(Extend(s.bounds.value, Point(x, y)))
  {
    var path := s.pathData + [x, y];
    match s.bounds
    case None => Spell(path, Some(Bounds(x, y, x, y)))
    case Some(b) =>
      var b1 := if x < b.minX then b.(minX := x) else if x > b.maxX then b.(maxX := x) else b;
      var b2 := if y < b1.minY then b1.(minY := y) else if y > b1.maxY then b1.(maxY := y) else b1;
      Spell(path, Some(b2))
  }

  /** The flat coordinate list of a point sequence. */
  function Flatten(pts: seq<Point>): (r: seq<real>)
    ensures |r| == 2 * |pts|
    ensures forall i :: 0 <= i < |pts| ==> r[2 * i] == pts[i].x && r[2 * i + 1] == pts[i].y
    decreases |pts|
  {
    if |pts| == 0 then []
    else Flatten(pts[..|pts| - 1]) + [pts[|pts| - 1].x, pts[|pts| - 1].y]
  }

  /** `addPoint` called for each point in turn. */
  function AddPoints(s: Spell, pts: seq<Point>): Spell
    decreases |pts|
  {
    if |pts| == 0 then s
    else
      var p := pts[|pts| - 1];
      AddPoint(AddPoints(s, pts[..|pts| - 1]), p.x, p.y)
  }

  /** After any calls, `pathData` is the old data followed by the added
      coordinates, and the bounds are exactly the naive min/max box of the
      added points, despite the `else if`. */
  lemma {:induction false} AddPointsTracksBox(s: Spell, pts: seq<Point>)
    requires s.bounds.None?
    ensures AddPoints(s, pts).pathData == s.pathData + Flatten(pts)
    ensures AddPoints(s, pts).bounds == BoxOf(pts)
    decreases |pts|
  {
    if |pts| > 0 {
      AddPointsTracksBox(s, pts[..|pts| - 1]);
    }
  }

  /** `Spell.box`: the bounds as a rectangle; `None` while they are undefined. */
  function Box(s: Spell): (r: Option<Rect>)
    ensures r.None? <==> s.bounds.None?
    ensures r.Some? && Ordered(s.bounds.value) ==> r.value.width >= 0.0 && r.value.height >= 0.0
    ensures r.Some? ==>
              Bounds(r.value.x, r.value.y, r.value.x + r.value.width, r.value.y + r.value.height)
              == s.bounds.value
  {
    match s.bounds
    case None => None
    case Some(b) => Some(Rect(b.minX, b.minY, b.maxX - b.minX, b.maxY - b.minY))
  }

  /** `r` is the tight rectangle around `pts`. */
  predicate RectIsBoxOf(r: Rect, pts: seq<Point>) {
    r.width >= 0.0 && r.height >= 0.0 && IsBoxOf(Bounds(r.x, r.y, r.x + r.width, r.y + r.height), pts)
  }

  /** The box of a gesture is the tight rectangle around the points that
      `addPoint` received; the start vertex alone gives no box at all. */
  lemma GestureBox(initial: seq<real>, pts: seq<Point>)
    ensures var r := Box(AddPoints(NewSpell(initial), pts));
      && (r.None? <==> |pts| == 0)
      && (r.Some? ==> RectIsBoxOf(r.value, pts))
  {
    AddPointsTracksBox(NewSpell(initial), pts);
    if |pts| > 0 {
      BoxOfExact(pts);
      var b := BoxOf(pts).value;
      var r := Box(Spell([], Some(b))).value;
      assert Bounds(r.x, r.y, r.x + r.width, r.y + r.height) == b;
    }
  }
}
