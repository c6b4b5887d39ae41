/**
 * Fitting a box to its member ports (`fitUplinkBoxToPorts`,
 * `fitPortsBoxToPorts` and the uplink refit during a port drag): one pass
 * over the members' rects collects the extreme edges and the first rect's
 * size, and the new box runs from the top-left extreme (clamped at 0) to the
 * bottom-right extreme, no smaller than a minimum size.
 */
module Fit {
  import opened Text
  import opened Geometry

  /** The extremes seen so far and the size of the first rect seen. */
  datatype Extent = Extent(minX: real, minY: real, maxX: real, maxY: real, firstW: real, firstH: real)

  /** Folds one member's rect into the extent; a member without a usable rect is skipped. */
  function Include(e: Option<Extent>, r: Option<Box>): Option<Extent>
  {
    match r
    case None => e
    case Some(b) =>
      match e
      case None => Some(Extent(b.x, b.y, b.x + b.w, b.y + b.h, b.w, b.h))
      case Some(x) => Some(Extent(Min(x.minX, b.x), Min(x.minY, b.y), Max(x.maxX, b.x + b.w), Max(x.maxY, b.y + b.h), x.firstW, x.firstH))
  }

  /** The extent of a list of members, folded from the first to the last. */
  function ExtentOf(rs: seq<Option<Box>>): Option<Extent>
    decreases |rs|
  {
    if rs == [] then None else Include(ExtentOf(rs[..|rs| - 1]), rs[|rs| - 1])
  }

  /** The measuring pass itself. */
  method MeasureExtent(rs: seq<Option<Box>>) returns (e: Option<Extent>)
    ensures e == ExtentOf(rs)
  {
    e := None;
    var i := 0;
    while i < |rs|
      invariant 0 <= i <= |rs|
      invariant e == ExtentOf(rs[..i])
    {
      assert rs[..i + 1][..i] == rs[..i];
      e := Include(e, rs[i]);
      i := i + 1;
    }
    assert rs[..i] == rs;
  }

  /** Edge `which` of a rect: 0 its left, 1 its top, 2 its right and 3 its bottom. */
  function Edge(b: Box, which: nat): real
  {
    if which == 0 then b.x else if which == 1 then b.y else if which == 2 then b.x + b.w else b.y + b.h
  }

  /** The same edge of an extent. */
  function ExtentEdge(e: Extent, which: nat): real
  {
    if which == 0 then e.minX else if which == 1 then e.minY else if which == 2 then e.maxX else e.maxY
  }

  /** Some member with a rect has edge `which` at `v`. */
  predicate EdgeReached(rs: seq<Option<Box>>, which: nat, v: real)
  {
    exists k :: 0 <= k < |rs| && rs[k].Some? && Edge(rs[k].value, which) == v
  }

  /** The member at `k` is the first with a rect and has the size recorded in `e`. */
  predicate FirstSized(rs: seq<Option<Box>>, k: int, e: Extent)
  {
    0 <= k < |rs| && rs[k].Some? && (forall j :: 0 <= j < k ==> rs[j].None?)
    && rs[k].value.w == e.firstW && rs[k].value.h == e.firstH
  }

  /** The extent is absent exactly when no member has a rect. */
  lemma {:induction false} ExtentAbsent(rs: seq<Option<Box>>)
    ensures ExtentOf(rs).None? <==> forall k :: 0 <= k < |rs| ==> rs[k].None?
    decreases |rs|
  {
    if rs != [] {
      var n := |rs| - 1;
      ExtentAbsent(rs[..n]);
      assert forall k :: 0 <= k < n ==> rs[..n][k] == rs[k];
    }
  }

  /** The extent's edges enclose every member's rect. */
  lemma {:induction false} ExtentEncloses(rs: seq<Option<Box>>)
    ensures ExtentOf(rs).Some? ==> var e := ExtentOf(rs).value;
      forall k :: 0 <= k < |rs| && rs[k].Some? ==>
        e.minX <= rs[k].value.x && e.minY <= rs[k].value.y
        && rs[k].value.x + rs[k].value.w <= e.maxX && rs[k].value.y + rs[k].value.h <= e.maxY
    decreases |rs|
  {
    if rs != [] {
      var n := |rs| - 1;
      ExtentEncloses(rs[..n]);
      ExtentAbsent(rs[..n]);
      assert forall k :: 0 <= k < n ==> rs[..n][k] == rs[k];
    }
  }

  /** Each edge of the extent is the same edge of some member. */
  lemma {:induction false} ExtentEdgeReached(rs: seq<Option<Box>>, which: nat)
    ensures ExtentOf(rs).Some? ==> EdgeReached(rs, which, ExtentEdge(ExtentOf(rs).value, which))
    decreases |rs|
  {
    if rs != [] {
      var n := |rs| - 1;
      var init := rs[..n];
      ExtentEdgeReached(init, which);
      if ExtentOf(rs).Some? {
        var v := ExtentEdge(ExtentOf(rs).value, which);
        if rs[n].Some? && v == Edge(rs[n].value, which) {
          assert rs[n].Some? && Edge(rs[n].value, which) == v;
        } else {
          assert ExtentOf(init).Some? && v == ExtentEdge(ExtentOf(init).value, which);
          var k :| 0 <= k < |init| && init[k].Some? && Edge(init[k].value, which) == v;
          assert rs[k] == init[k];
        }
      }
    }
  }

  /** The recorded size is that of the first member with a rect. */
  lemma {:induction false} ExtentFirstSize(rs: seq<Option<Box>>)
    ensures ExtentOf(rs).Some? ==> exists k :: FirstSized(rs, k, ExtentOf(rs).value)
    decreases |rs|
  {
    if rs != [] {
      var n := |rs| - 1;
      var init := rs[..n];
      ExtentFirstSize(init);
      ExtentAbsent(init);
      if ExtentOf(rs).Some? {
        if ExtentOf(init).None? {
          assert forall j :: 0 <= j < n ==> init[j] == rs[j];
          assert FirstSized(rs, n, ExtentOf(rs).value);
        } else {
          var k :| FirstSized(init, k, ExtentOf(init).value);
          assert ExtentOf(rs).value.firstW == ExtentOf(init).value.firstW;
          assert ExtentOf(rs).value.firstH == ExtentOf(init).value.firstH;
          assert forall j :: 0 <= j <= k ==> init[j] == rs[j];
          assert FirstSized(rs, k, ExtentOf(rs).value);
        }
      }
    }
  }

  /**
   * The extent is absent exactly when no member has a rect; otherwise its
   * edges enclose every member's rect, each extreme is reached by some member,
   * and the recorded size is that of the first member with a rect.
   */
  lemma ExtentCharacterised(rs: seq<Option<Box>>)
    ensures ExtentOf(rs).None? <==> forall k :: 0 <= k < |rs| ==> rs[k].None?
    ensures ExtentOf(rs).Some? ==> var e := ExtentOf(rs).value;
      (forall k :: 0 <= k < |rs| && rs[k].Some? ==>
         e.minX <= rs[k].value.x && e.minY <= rs[k].value.y
         && rs[k].value.x + rs[k].value.w <= e.maxX && rs[k].value.y + rs[k].value.h <= e.maxY)
      && (exists k :: 0 <= k < |rs| && rs[k].Some? && rs[k].value.x == e.minX)
      && (exists k :: 0 <= k < |rs| && rs[k].Some? && rs[k].value.y == e.minY)
      && (exists k :: 0 <= k < |rs| && rs[k].Some? && rs[k].value.x + rs[k].value.w == e.maxX)
      && (exists k :: 0 <= k < |rs| && rs[k].Some? && rs[k].value.y + rs[k].value.h == e.maxY)
      && (exists k :: 0 <= k < |rs| && rs[k].Some? && (forall j :: 0 <= j < k ==> rs[j].None?)
            && rs[k].value.w == e.firstW && rs[k].value.h == e.firstH)
  {
    ExtentAbsent(rs);
    ExtentEncloses(rs);
    ExtentFirstSize(rs);
    if ExtentOf(rs).Some? {
      var e := ExtentOf(rs).value;
      ExtentEdgeReached(rs, 0);
      ExtentEdgeReached(rs, 1);
      ExtentEdgeReached(rs, 2);
      ExtentEdgeReached(rs, 3);
      var k0 :| 0 <= k0 < |rs| && rs[k0].Some? && Edge(rs[k0].value, 0) == e.minX;
      var k1 :| 0 <= k1 < |rs| && rs[k1].Some? && Edge(rs[k1].value, 1) == e.minY;
      var k2 :| 0 <= k2 < |rs| && rs[k2].Some? && Edge(rs[k2].value, 2) == e.maxX;
      var k3 :| 0 <= k3 < |rs| && rs[k3].Some? && Edge(rs[k3].value, 3) == e.maxY;
      var f :| FirstSized(rs, f, e);
      assert rs[k0].value.x == e.minX && rs[k1].value.y == e.minY;
      assert rs[k2].value.x + rs[k2].value.w == e.maxX && rs[k3].value.y + rs[k3].value.h == e.maxY;
    }
  }

  /** The fitted box: origin at the top-left extreme clamped at 0, size the extent's, no smaller than the minimum. */
  function FitBox(e: Extent, minW: real, minH: real): (b: Box)
    ensures b.w >= minW && b.h >= minH
  {
    Box(Max(0.0, e.minX), Max(0.0, e.minY), Max(minW, e.maxX - e.minX), Max(minH, e.maxY - e.minY))
  }

  /** With members at non-negative coordinates, the fitted box encloses every member's rect. */
  lemma FitEnclosesMembers(rs: seq<Option<Box>>, minW: real, minH: real)
    requires forall k :: 0 <= k < |rs| && rs[k].Some? ==> rs[k].value.x >= 0.0 && rs[k].value.y >= 0.0
    requires ExtentOf(rs).Some?
    ensures var b := FitBox(ExtentOf(rs).value, minW, minH);
      forall k :: 0 <= k < |rs| && rs[k].Some? ==>
        b.x <= rs[k].value.x && rs[k].value.x + rs[k].value.w <= b.x + b.w
        && b.y <= rs[k].value.y && rs[k].value.y + rs[k].value.h <= b.y + b.h
  {
    ExtentCharacterised(rs);
  }
}
