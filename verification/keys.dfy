/** The integer part of `getDelta` in index.ts: the W/A/S/D keys summed into
    a movement delta. The later `normalize().scale(5)` only rescales the
    vector by a positive factor, which `Animation.NextScale` shows is
    invisible to the animation state machine. */
module Keys {
  import opened Optional
  import opened JsNumbers
  import opened Directions

  datatype MoveKeys = MoveKeys(up: bool, down: bool, left: bool, right: bool)

  /** One axis: -1 for the negative key, +1 for the positive one; both cancel. */
  function Axis(neg: bool, pos: bool): (v: int)
    ensures -1 <= v <= 1
    ensures v == 0 <==> neg == pos
    ensures v > 0 <==> pos && !neg
  {
    (if neg then -1 else 0) + (if pos then 1 else 0)
  }

  /** The key sum (x, y); screen y grows downward, so "up" is -y. */
  function Delta(k: MoveKeys): (d: (int, int))
    ensures -1 <= d.0 <= 1 && -1 <= d.1 <= 1
    ensures d.0 < 0 <==> k.left && !k.right
    ensures d.0 > 0 <==> k.right && !k.left
    ensures d.1 < 0 <==> k.up && !k.down
    ensures d.1 > 0 <==> k.down && !k.up
  {
    (Axis(k.left, k.right), Axis(k.up, k.down))
  }

  /** The key sum as the real-valued delta the state machine reads. */
  function RealDelta(k: MoveKeys): (real, real) {
    var d := Delta(k);
    (d.0 as real, d.1 as real)
  }

  /** The player faces direction `d` after a key press exactly when `d`'s
      compass step is the key sum; with opposing or no keys there is no
      direction at all. */
  lemma KeysChooseDirection(k: MoveKeys, d: Direction)
    ensures ClosestDir(RealDelta(k).0, RealDelta(k).1) == Some(d) <==> Offset(d) == Delta(k)
    ensures ClosestDir(RealDelta(k).0, RealDelta(k).1).None? <==> k.up == k.down && k.left == k.right
  {
    var (dx, dy) := RealDelta(k);
    assert Sign(dx) == Delta(k).0 && Sign(dy) == Delta(k).1;
    if Offset(d) == Delta(k) {
      ClosestDirComplete(dx, dy, d);
    }
  }
}
