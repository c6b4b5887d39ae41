/**
 * Geometry of the layout editor: points and boxes in the SVG's logical
 * coordinates, grid snapping, box normalisation, the three box gestures
 * (draw, move, resize by a handle), and the proportional re-projection of a
 * port from an old box into a resized one.
 */
module Geometry {

  datatype Point = Point(x: real, y: real)

  /** A box `{ x, y, w, h }` with its top-left corner at `(x, y)`. */
  datatype Box = Box(x: real, y: real, w: real, h: real)

  function Max(a: real, b: real): real { if a >= b then a else b }

  function Min(a: real, b: real): real { if a <= b then a else b }

  function Abs(a: real): real { if a >= 0.0 then a else -a }

  /** `Math.round(v)`: the nearest integer, a half rounding up. */
  function Round(v: real): (k: int)
    ensures k as real - 0.5 <= v < k as real + 0.5
  {
    (v + 0.5).Floor
  }

  /** `v` is a whole multiple of `pitch`. */
  predicate OnGrid(v: real, pitch: int)
    requires pitch > 0
  {
    (v / pitch as real).Floor as real == v / pitch as real
  }

  lemma ScaleBounds(lo: real, v: real, hi: real, p: real)
    requires p > 0.0 && lo <= v < hi
    ensures lo * p <= v * p < hi * p
  {
    assert (v - lo) * p >= 0.0;
    assert (hi - v) * p > 0.0;
  }

  lemma ScaleWithin(f: real, m: real)
    requires 0.0 <= f <= 1.0 && m > 0.0
    ensures 0.0 <= f * m <= m
  {
    assert (1.0 - f) * m >= 0.0;
  }

  lemma DivMul(a: real, p: real)
    requires p != 0.0
    ensures (a * p) / p == a
  {
    var q := (a * p) / p;
    assert q * p == a * p;
    assert (q - a) * p == 0.0;
  }

  /** The multiple of `p` nearest to `v`, a half rounding up. */
  lemma NearestMultiple(v: real, p: real, k: int)
    requires p > 0.0 && k == Round(v / p)
    ensures ((k as real) * p / p).Floor == k
    ensures v - p / 2.0 < (k as real) * p <= v + p / 2.0
  {
    var r := (k as real) * p;
    DivMul(k as real, p);
    assert r / p == k as real;
    assert (k as real).Floor == k;
    ScaleBounds(k as real - 0.5, v / p, k as real + 0.5, p);
    assert (v / p) * p == v;
    assert (k as real - 0.5) * p == r - p / 2.0;
    assert (k as real + 0.5) * p == r + p / 2.0;
  }

  /**
   * `applySnap`: with a positive grid pitch the value moves to the nearest
   * multiple of the pitch (no further than half a pitch); with no pitch it is
   * left alone.
   */
  function Snap(pitch: int, v: real): (r: real)
    ensures pitch <= 0 ==> r == v
  {
    if pitch <= 0 then v
    else
      var p := pitch as real;
      (Round(v / p) as real) * p
  }

  /** With a positive pitch, the snapped value is a multiple of the pitch within half a pitch of the value. */
  lemma SnapNearest(pitch: int, v: real)
    requires pitch > 0
    ensures OnGrid(Snap(pitch, v), pitch)
    ensures v - (pitch as real) / 2.0 < Snap(pitch, v) <= v + (pitch as real) / 2.0
  {
    var p := pitch as real;
    var k := Round(v / p);
    NearestMultiple(v, p, k);
    DivMul(k as real, p);
    assert Snap(pitch, v) == (k as real) * p;
  }

  /** Snapping twice is snapping once. */
  lemma SnapIdempotent(pitch: int, v: real)
    ensures Snap(pitch, Snap(pitch, v)) == Snap(pitch, v)
  {
    if pitch > 0 {
      var p := pitch as real;
      var r := Snap(pitch, v);
      SnapNearest(pitch, v);
      var k := (r / p).Floor;
      assert r / p == k as real;
      assert Round(r / p) == k;
      assert (r / p) * p == r;
      assert (k as real) * p == r;
    }
  }

  /** `normBox`: a box at least 10 wide and 10 high; a larger dimension is kept as it is. */
  function NormBox(b: Box): (r: Box)
    ensures r.x == b.x && r.y == b.y
    ensures r.w >= 10.0 && r.h >= 10.0
    ensures b.w >= 10.0 ==> r.w == b.w
    ensures b.h >= 10.0 ==> r.h == b.h
  {
    Box(b.x, b.y, Max(10.0, b.w), Max(10.0, b.h))
  }

  function Clamp01(v: real): (r: real)
    ensures 0.0 <= r <= 1.0
    ensures 0.0 <= v <= 1.0 ==> r == v
  {
    Max(0.0, Min(1.0, v))
  }

  /** Drawing a box from the press point `s` to the pointer `p`, no smaller than the minimum size. */
  function DrawBox(s: Point, p: Point, minW: real, minH: real): (r: Box)
    ensures r.x <= s.x <= r.x + r.w && r.x <= p.x <= r.x + r.w
    ensures r.y <= s.y <= r.y + r.h && r.y <= p.y <= r.y + r.h
    ensures r.w >= minW && r.h >= minH
    ensures r.x == Min(s.x, p.x) && r.y == Min(s.y, p.y)
  {
    Box(Min(s.x, p.x), Min(s.y, p.y), Max(minW, Abs(p.x - s.x)), Max(minH, Abs(p.y - s.y)))
  }

  /** Dragging a box by the pointer's displacement. */
  function MoveBox(b: Box, dx: real, dy: real): (r: Box)
    ensures r.w == b.w && r.h == b.h
    ensures r.x - b.x == dx && r.y - b.y == dy
  {
    Box(b.x + dx, b.y + dy, b.w, b.h)
  }

  lemma MoveBoxBack(b: Box, dx: real, dy: real)
    ensures MoveBox(MoveBox(b, dx, dy), -dx, -dy) == b
  {
  }

  /**
   * Resizing by a handle named by its compass letters (`n`, `se`, ...): an east
   * or south letter moves the right or bottom edge, a west or north letter
   * moves the left or top edge, each no smaller than the minimum; the opposite
   * edge stays where it was.
   */
  function ResizeBox(b0: Box, handle: string, dx: real, dy: real, minW: real, minH: real): (r: Box)
    ensures 'w' !in handle ==> r.x == b0.x
    ensures 'w' in handle ==> r.x + r.w == b0.x + b0.w
    ensures 'n' !in handle ==> r.y == b0.y
    ensures 'n' in handle ==> r.y + r.h == b0.y + b0.h
    ensures 'e' !in handle && 'w' !in handle ==> r.w == b0.w
    ensures 's' !in handle && 'n' !in handle ==> r.h == b0.h
    ensures 'e' in handle || 'w' in handle ==> r.w >= minW
    ensures 's' in handle || 'n' in handle ==> r.h >= minH
  {
    var w1 := if 'e' in handle then Max(minW, b0.w + dx) else b0.w;
    var h1 := if 's' in handle then Max(minH, b0.h + dy) else b0.h;
    var nw := Max(minW, b0.w - dx);
    var nh := Max(minH, b0.h - dy);
    var x2, w2 := if 'w' in handle then b0.x + (b0.w - nw) else b0.x, if 'w' in handle then nw else w1;
    var y2, h2 := if 'n' in handle then b0.y + (b0.h - nh) else b0.y, if 'n' in handle then nh else h1;
    Box(x2, y2, w2, h2)
  }

  /** The smallest size used as a divisor or multiplier during a resize. */
  const Tiny: real := 0.000001

  /** Where a port at `c` (one coordinate) moves when its box's span `[o, o + ow]` becomes `[n, n + nw]`. */
  function Reproject1(c: real, o: real, ow: real, n: real, nw: real): (r: real)
    ensures n <= r <= n + Max(Tiny, nw)
  {
    var f := Clamp01((c - o) / Max(Tiny, ow));
    ScaleWithin(f, Max(Tiny, nw));
    n + f * Max(Tiny, nw)
  }

  /**
   * Resizing a box with ports captured in it: each port keeps its relative
   * position (clamped to the box) in the new box.
   */
  function Reproject(p: Point, b0: Box, nb: Box): (r: Point)
    ensures nb.x <= r.x <= nb.x + Max(Tiny, nb.w)
    ensures nb.y <= r.y <= nb.y + Max(Tiny, nb.h)
  {
    Point(Reproject1(p.x, b0.x, b0.w, nb.x, nb.w), Reproject1(p.y, b0.y, b0.h, nb.y, nb.h))
  }

  predicate InBox(p: Point, b: Box)
  {
    b.x <= p.x <= b.x + b.w && b.y <= p.y <= b.y + b.h
  }

  lemma {:induction false} Reproject1RoundTrip(c: real, o: real, ow: real, n: real, nw: real)
    requires ow >= Tiny && nw >= Tiny
    requires o <= c <= o + ow
    ensures (Reproject1(c, o, ow, n, nw) - n) / nw == (c - o) / ow
    ensures Reproject1(Reproject1(c, o, ow, n, nw), n, nw, o, ow) == c
  {
    var f := (c - o) / ow;
    assert 0.0 <= f by {
      assert c - o >= 0.0;
    }
    assert f <= 1.0 by {
      assert c - o <= ow;
      assert f * ow == c - o;
    }
    var r := n + f * nw;
    assert Reproject1(c, o, ow, n, nw) == r;
    assert (r - n) / nw == f;
    assert Reproject1(r, n, nw, o, ow) == o + f * ow;
    assert o + f * ow == c;
  }

  /**
   * Resizing a box and then resizing it back restores every port that was
   * inside it: the relative position is what a resize preserves.
   */
  lemma ReprojectRoundTrip(p: Point, b0: Box, nb: Box)
    requires b0.w >= Tiny && b0.h >= Tiny && nb.w >= Tiny && nb.h >= Tiny
    requires InBox(p, b0)
    ensures InBox(Reproject(p, b0, nb), nb)
    ensures Reproject(Reproject(p, b0, nb), nb, b0) == p
  {
    Reproject1RoundTrip(p.x, b0.x, b0.w, nb.x, nb.w);
    Reproject1RoundTrip(p.y, b0.y, b0.h, nb.y, nb.h);
  }

  /** The marquee test: `q` lies in the rectangle dragged from `s` to `p`, whatever the drag direction. */
  predicate InMarquee(q: Point, s: Point, p: Point)
  {
    var rx, ry := Min(s.x, p.x), Min(s.y, p.y);
    var rw, rh := Abs(p.x - s.x), Abs(p.y - s.y);
    rx <= q.x <= rx + rw && ry <= q.y <= ry + rh
  }

  /** The marquee covers exactly the points between the two corners on both axes. */
  lemma InMarqueeBetweenCorners(q: Point, s: Point, p: Point)
    ensures InMarquee(q, s, p) <==>
      Min(s.x, p.x) <= q.x <= Max(s.x, p.x) && Min(s.y, p.y) <= q.y <= Max(s.y, p.y)
  {
  }
}
