/** The active region and the rectangles the navigation actions propose for it
    (src/render.rs and src/app.rs). Coordinates are in user space, where the
    whole surface is the unit square; the cairo context maps user space to
    pixels by scaling with the surface's width and height. */
module Geometry {
  import opened Wrappers
  import opened Numeric

  /** `cairo::Rectangle`. */
  datatype Rect = Rect(x: real, y: real, width: real, height: real)

  /** The region a renderer starts with: the whole surface. */
  const FULL: Rect := Rect(0.0, 0.0, 1.0, 1.0)

  /** The origin lies on the surface. */
  predicate OriginInside(r: Rect) {
    0.0 <= r.x < 1.0 && 0.0 <= r.y < 1.0
  }

  /** The guard of `update_active_region`, with the context scaled by (sx, sy): the origin
      lies on the surface and the rectangle covers at least one device pixel each way. */
  predicate Accepts(r: Rect, sx: real, sy: real) {
    OriginInside(r) && r.width * sx >= 1.0 && r.height * sy >= 1.0
  }

  /** The stored region after `update_active_region(cand)`. */
  function Updated(cur: Rect, cand: Rect, sx: real, sy: real): Rect {
    if Accepts(cand, sx, sy) then cand else cur
  }

  /** The stored region always has its origin on the surface. */
  lemma UpdatedKeepsOrigin(cur: Rect, cand: Rect, sx: real, sy: real)
    requires OriginInside(cur)
    ensures OriginInside(Updated(cur, cand, sx, sy))
  {
  }

  /** The stored region is the candidate exactly when the guard accepts it, unless the
      candidate equals the stored region already; otherwise it is left as it was. */
  lemma UpdatedIsCandidateIff(cur: Rect, cand: Rect, sx: real, sy: real)
    requires cand != cur
    ensures Updated(cur, cand, sx, sy) == cand <==> Accepts(cand, sx, sy)
    ensures Updated(cur, cand, sx, sy) == cur <==> !Accepts(cand, sx, sy)
  {
  }

  /** Once the stored region passes the guard it keeps passing it while the scale is unchanged. */
  lemma UpdatedKeepsGuard(cur: Rect, cand: Rect, sx: real, sy: real)
    requires Accepts(cur, sx, sy)
    ensures Accepts(Updated(cur, cand, sx, sy), sx, sy)
  {
  }

  /** Proposing the same rectangle twice is the same as proposing it once. */
  lemma UpdatedIdempotent(cur: Rect, cand: Rect, sx: real, sy: real)
    ensures Updated(Updated(cur, cand, sx, sy), cand, sx, sy) == Updated(cur, cand, sx, sy)
  {
  }

  /** The right and bottom edges. */
  function Right(r: Rect): real { r.x + r.width }
  function Bottom(r: Rect): real { r.y + r.height }

  /** `a` lies within `b`. */
  predicate Within(a: Rect, b: Rect) {
    b.x <= a.x && Right(a) <= Right(b) && b.y <= a.y && Bottom(a) <= Bottom(b)
  }

  /** `cut_left(f)`: the left fraction `f` of the width. */
  function CutLeft(r: Rect, f: real): (c: Rect)
    ensures c.x == r.x && c.y == r.y && c.height == r.height
    ensures c.width == r.width * f
  {
    Rect(r.x, r.y, r.width * f, r.height)
  }

  /** `cut_right(f)`: the right fraction `f` of the width; the right edge stays put. */
  function CutRight(r: Rect, f: real): (c: Rect)
    ensures Right(c) == Right(r) && c.y == r.y && c.height == r.height
    ensures c.width == r.width * f
  {
    Rect(r.x + r.width * (1.0 - f), r.y, r.width * f, r.height)
  }

  /** `cut_up(f)`: the top fraction `f` of the height. */
  function CutUp(r: Rect, f: real): (c: Rect)
    ensures c.x == r.x && c.y == r.y && c.width == r.width
    ensures c.height == r.height * f
  {
    Rect(r.x, r.y, r.width, r.height * f)
  }

  /** `cut_down(f)`: the bottom fraction `f` of the height; the bottom edge stays put. */
  function CutDown(r: Rect, f: real): (c: Rect)
    ensures Bottom(c) == Bottom(r) && c.x == r.x && c.width == r.width
    ensures c.height == r.height * f
  {
    Rect(r.x, r.y + r.height * (1.0 - f), r.width, r.height * f)
  }

  /** A fraction between 0 and 1 of a rectangle that is not inverted cuts out a part of it. */
  lemma CutsStayWithin(r: Rect, f: real)
    requires 0.0 <= f <= 1.0 && r.width >= 0.0 && r.height >= 0.0
    ensures Within(CutLeft(r, f), r) && Within(CutRight(r, f), r)
    ensures Within(CutUp(r, f), r) && Within(CutDown(r, f), r)
  {
    assert r.width * f <= r.width * 1.0;
    assert r.height * f <= r.height * 1.0;
  }

  /** `cut_left(f)` and `cut_right(1 - f)` split the width at the same line. */
  lemma CutLeftRightMeet(r: Rect, f: real)
    ensures Right(CutLeft(r, f)) == CutRight(r, 1.0 - f).x
    ensures CutLeft(r, f).width + CutRight(r, 1.0 - f).width == r.width
  {
  }

  /** `cut_up(f)` and `cut_down(1 - f)` split the height at the same line. */
  lemma CutUpDownMeet(r: Rect, f: real)
    ensures Bottom(CutUp(r, f)) == CutDown(r, 1.0 - f).y
    ensures CutUp(r, f).height + CutDown(r, 1.0 - f).height == r.height
  {
  }

  /** `move_right(f)`: shifted right by `f` widths. */
  function MoveRight(r: Rect, f: real): (c: Rect)
    ensures c.y == r.y && c.width == r.width && c.height == r.height
    ensures c.x - r.x == r.width * f
  {
    Rect(r.x + r.width * f, r.y, r.width, r.height)
  }

  /** `move_left(f)`: shifted left by `f` widths. */
  function MoveLeft(r: Rect, f: real): (c: Rect)
    ensures c.y == r.y && c.width == r.width && c.height == r.height
    ensures r.x - c.x == r.width * f
  {
    Rect(r.x - r.width * f, r.y, r.width, r.height)
  }

  /** `move_up(f)`: shifted up by `f` heights. */
  function MoveUp(r: Rect, f: real): (c: Rect)
    ensures c.x == r.x && c.width == r.width && c.height == r.height
    ensures r.y - c.y == r.height * f
  {
    Rect(r.x, r.y - r.height * f, r.width, r.height)
  }

  /** `move_down(f)`: shifted down by `f` heights. */
  function MoveDown(r: Rect, f: real): (c: Rect)
    ensures c.x == r.x && c.width == r.width && c.height == r.height
    ensures c.y - r.y == r.height * f
  {
    Rect(r.x, r.y + r.height * f, r.width, r.height)
  }

  /** Opposite moves by the same fraction cancel out. */
  lemma MovesCancel(r: Rect, f: real)
    ensures MoveLeft(MoveRight(r, f), f) == r && MoveRight(MoveLeft(r, f), f) == r
    ensures MoveUp(MoveDown(r, f), f) == r && MoveDown(MoveUp(r, f), f) == r
  {
  }

  /** `cursor_zoom(w, h)`: a `w` by `h` pixel rectangle centred on the pointer at pixel
      (px, py) of a `sw` by `sh` surface, in user space. A zero-sized surface makes the
      floating-point quotients infinite or NaN, which no guard accepts: no candidate then. */
  function CursorZoom(px: int, py: int, w: nat, h: nat, sw: nat, sh: nat): (c: Option<Rect>)
    ensures c.None? <==> sw == 0 || sh == 0
    ensures c.Some? ==> c.value.width * sw as real == w as real && c.value.height * sh as real == h as real
    ensures c.Some? ==> c.value.x + c.value.width / 2.0 == px as real / sw as real
    ensures c.Some? ==> c.value.y + c.value.height / 2.0 == py as real / sh as real
  {
    if sw == 0 || sh == 0 then None
    else
      var width, height := w as real / sw as real, h as real / sh as real;
      Some(Rect(px as real / sw as real - width / 2.0, py as real / sh as real - height / 2.0, width, height))
  }

  /** The denominator of the fixed-point pointer coordinates. */
  const EXTENT: u32 := 10000

  /** `get_center_as_fixed_point`: the centre of the region in units of 1/10000 of the
      surface, each coordinate cast to `u32` as the source does. */
  function CenterFixedPoint(r: Rect): (p: (u32, u32, u32))
    ensures p.2 == EXTENT
    ensures 0.0 <= r.x + r.width / 2.0 && (r.x + r.width / 2.0) * 10000.0 < TWO_32 as real ==>
              p.0 as real <= (r.x + r.width / 2.0) * 10000.0 < p.0 as real + 1.0
    ensures 0.0 <= r.y + r.height / 2.0 && (r.y + r.height / 2.0) * 10000.0 < TWO_32 as real ==>
              p.1 as real <= (r.y + r.height / 2.0) * 10000.0 < p.1 as real + 1.0
    ensures 0.0 <= r.x + r.width / 2.0 <= 1.0 ==> p.0 <= EXTENT
    ensures 0.0 <= r.y + r.height / 2.0 <= 1.0 ==> p.1 <= EXTENT
    ensures r.x + r.width / 2.0 < 0.0 ==> p.0 == 0
    ensures r.y + r.height / 2.0 < 0.0 ==> p.1 == 0
    ensures (r.x + r.width / 2.0) * 10000.0 >= TWO_32 as real ==> p.0 == TWO_32 - 1
    ensures (r.y + r.height / 2.0) * 10000.0 >= TWO_32 as real ==> p.1 == TWO_32 - 1
  {
    (SatU32((r.x + r.width / 2.0) * EXTENT as real), SatU32((r.y + r.height / 2.0) * EXTENT as real), EXTENT)
  }

  /** The middle quarter of the surface is centred at (5000, 5000). */
  lemma CenterOfMiddleQuarter()
    ensures CenterFixedPoint(Rect(0.25, 0.25, 0.5, 0.5)) == (5000, 5000, 10000)
  {
    assert (0.25 + 0.5 / 2.0) * 10000.0 == 5000.0;
  }

  /** A region may reach past the surface's edge, since the guard checks only its origin:
      cursor_zoom(90, 90) at pixel (46, 46) of a 100 by 100 surface, then move_right, gives a
      centre past the right edge, cast as it is to 13600. */
  lemma CenterPastTheEdge()
    ensures CursorZoom(46, 46, 90, 90, 100, 100) == Some(Rect(0.01, 0.01, 0.9, 0.9))
    ensures Accepts(Rect(0.01, 0.01, 0.9, 0.9), 100.0, 100.0)
    ensures Accepts(MoveRight(Rect(0.01, 0.01, 0.9, 0.9), 1.0), 100.0, 100.0)
    ensures CenterFixedPoint(MoveRight(Rect(0.01, 0.01, 0.9, 0.9), 1.0)) == (13600, 4600, 10000)
  {
    assert (0.91 + 0.9 / 2.0) * 10000.0 == 13600.0;
    assert (0.01 + 0.9 / 2.0) * 10000.0 == 4600.0;
  }

  /** The whole surface is centred at (5000, 5000) too. */
  lemma CenterOfFull()
    ensures CenterFixedPoint(FULL) == (5000, 5000, 10000)
  {
    assert (0.0 + 1.0 / 2.0) * 10000.0 == 5000.0;
  }
}
