/** The eight facing directions of the player sprite and the sign-pair
    lookup (`getClosestDir` in index.ts) that picks one from a movement delta. */
module Directions {
  import opened Optional
  import opened JsNumbers

  datatype Direction = W | NW | N | NE | E | SE | S | SW

  /** The string literal the source uses for each direction. */
  function Name(d: Direction): string {
    match d
    case W => "W"
    case NW => "NW"
    case N => "N"
    case NE => "NE"
    case E => "E"
    case SE => "SE"
    case S => "S"
    case SW => "SW"
  }

  /** ASCII lower-casing: `toLowerCase` restricted to the characters the names use. */
  function ToLower(s: string): (r: string)
    ensures |r| == |s|
    ensures forall i :: 0 <= i < |s| && 'A' <= s[i] <= 'Z' ==> r[i] == (s[i] as int + 32) as char
    ensures forall i :: 0 <= i < |s| && !('A' <= s[i] <= 'Z') ==> r[i] == s[i]
  {
    if |s| == 0 then ""
    else
      var c := s[0];
      [if 'A' <= c <= 'Z' then (c as int + 32) as char else c] + ToLower(s[1..])
  }

  /** `direction.toLowerCase()`: the atlas key stem for a direction. */
  function LowerName(d: Direction): (r: string)
    ensures 1 <= |r| <= 2
    ensures forall i :: 0 <= i < |r| ==> 'a' <= r[i] <= 'z'
  {
    ToLower(Name(d))
  }

  lemma LowerNameInjective(d1: Direction, d2: Direction)
    requires LowerName(d1) == LowerName(d2)
    ensures d1 == d2
  {
    var l1, l2 := LowerName(d1), LowerName(d2);
    assert |l1| == |l2| && l1[0] == l2[0];
    assert |l1| == 2 ==> l1[1] == l2[1];
  }

  /** The screen-space step a direction stands for (y grows downward, so
      north is -y): an independent description of the compass rose. */
  function Offset(d: Direction): (int, int) {
    match d
    case W => (-1, 0)
    case NW => (-1, -1)
    case N => (0, -1)
    case NE => (1, -1)
    case E => (1, 0)
    case SE => (1, 1)
    case S => (0, 1)
    case SW => (-1, 1)
  }

  /** Distinct directions are distinct steps. */
  lemma OffsetInjective(d1: Direction, d2: Direction)
    requires Offset(d1) == Offset(d2)
    ensures d1 == d2
  {
  }

  /** Every non-zero sign pair is the step of some direction. */
  lemma OffsetOnto(sx: int, sy: int)
    requires -1 <= sx <= 1 && -1 <= sy <= 1
    requires sx != 0 || sy != 0
    ensures exists d :: Offset(d) == (sx, sy)
  {
    if sx == -1 {
      if sy == -1 { assert Offset(NW) == (sx, sy); }
      else if sy == 0 { assert Offset(W) == (sx, sy); }
      else { assert Offset(SW) == (sx, sy); }
    } else if sx == 0 {
      if sy == -1 { assert Offset(N) == (sx, sy); }
      else { assert Offset(S) == (sx, sy); }
    } else {
      if sy == -1 { assert Offset(NE) == (sx, sy); }
      else if sy == 0 { assert Offset(E) == (sx, sy); }
      else { assert Offset(SE) == (sx, sy); }
    }
  }

  /** `getClosestDir`: the direction whose step has the signs of (dx, dy),
      or `null` (None) for the zero delta. */
  function ClosestDir(dx: real, dy: real): (r: Option<Direction>)
    ensures r.None? <==> dx == 0.0 && dy == 0.0
    ensures r.Some? ==> Offset(r.value) == (Sign(dx), Sign(dy))
  {
    if dx > 0.0 && dy == 0.0 then Some(E)
    else if dx < 0.0 && dy == 0.0 then Some(W)
    else if dx > 0.0 && dy > 0.0 then Some(SE)
    else if dx > 0.0 && dy < 0.0 then Some(NE)
    else if dx < 0.0 && dy > 0.0 then Some(SW)
    else if dx < 0.0 && dy < 0.0 then Some(NW)
    else if dx == 0.0 && dy < 0.0 then Some(N)
    else if dx == 0.0 && dy > 0.0 then Some(S)
    else None
  }

  /** The converse: a direction whose step matches the signs is the one chosen. */
  lemma ClosestDirComplete(dx: real, dy: real, d: Direction)
    requires Offset(d) == (Sign(dx), Sign(dy))
    ensures ClosestDir(dx, dy) == Some(d)
  {
    var r := ClosestDir(dx, dy);
    assert r.Some?;
    OffsetInjective(r.value, d);
  }

  /** Only the signs matter: a positive rescaling (as `normalize().scale(5)`
      performs) picks the same direction. */
  lemma ClosestDirScale(k: real, dx: real, dy: real)
    requires k > 0.0
    ensures ClosestDir(k * dx, k * dy) == ClosestDir(dx, dy)
  {
    SignScale(k, dx);
    SignScale(k, dy);
    var a, b := ClosestDir(k * dx, k * dy), ClosestDir(dx, dy);
    if a.Some? && b.Some? {
      OffsetInjective(a.value, b.value);
    }
  }
}
