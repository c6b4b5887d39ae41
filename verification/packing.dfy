/**
 * Auto-packing of port glyphs into the ports box and the uplinks box
 * (`applyPortsBoxLayout`, `applyUplinkBoxLayout`): which glyphs take part,
 * when packing is refused, the grid size, and the cell each glyph is placed in.
 * The placements are given as the list of `(entity id, top-left)` writes the
 * editor performs, in order.
 */
module Packing {
  import opened Text
  import opened Geometry
  import opened Lists
  import NaturalOrder

  /** A rendered port glyph: its entity id (`data-entity`) and its port name (`data-portname`). */
  datatype Glyph = Glyph(id: string, name: string)

  /** One `setPortXY(id, x, y)` performed by a layout. */
  type Write = (string, Point)

  // ----------------------------------------------------------------- helpers

  /** `Math.round(Math.sqrt(x))`, characterised by the half-open interval around the root. */
  function RoundSqrtFrom(x: real, k: nat): (r: nat)
    requires x >= 0.0
    requires k == 0 || (k as real - 0.5) * (k as real - 0.5) <= x
    ensures r >= k
    ensures r == 0 || (r as real - 0.5) * (r as real - 0.5) <= x
    ensures x < (r as real + 0.5) * (r as real + 0.5)
    decreases x.Floor - k
  {
    if x < (k as real + 0.5) * (k as real + 0.5) then k
    else
      assert x >= k as real by {
        assert (k as real + 0.5) * (k as real + 0.5) == (k as real) * (k as real) + k as real + 0.25;
        assert (k as real) * (k as real) >= 0.0;
      }
      RoundSqrtFrom(x, k + 1)
  }

  function RoundSqrt(x: real): (r: nat)
    requires x >= 0.0
    ensures r == 0 || (r as real - 0.5) * (r as real - 0.5) <= x
    ensures x < (r as real + 0.5) * (r as real + 0.5)
  {
    RoundSqrtFrom(x, 0)
  }

  /** `Math.ceil(n / d)` for whole numbers. */
  function CeilDiv(n: nat, d: nat): (q: nat)
    requires d > 0
    ensures q * d >= n
    ensures q == 0 || (q - 1) * d < n
  {
    (n + d - 1) / d
  }

  function MaxInt(a: int, b: int): int { if a >= b then a else b }

  function MinInt(a: int, b: int): int { if a <= b then a else b }

  /** `Math.max(1, parseInt(ports_per_row, 10) || 24)`: the column cap. */
  function ColumnCap(portsPerRow: int): (cap: nat)
    ensures cap >= 1
    ensures portsPerRow == 0 ==> cap == 24
    ensures portsPerRow >= 1 ==> cap == portsPerRow
  {
    MaxInt(1, if portsPerRow == 0 then 24 else portsPerRow)
  }

  /** A glyph size as read from `getBBox()`: zero, negative or missing reads as 18. */
  function GlyphExtent(measured: real): (r: real)
    ensures r > 0.0
  {
    if Max(0.0, measured) == 0.0 then 18.0 else measured
  }

  /** The distance between neighbouring cells when `k` cells spread over `span`. */
  function Step(span: real, k: nat): real
  {
    if k > 1 then span / (k - 1) as real else 0.0
  }

  lemma StepWithinSpan(span: real, k: nat, c: nat)
    requires span >= 0.0 && c < k
    ensures 0.0 <= Step(span, k) * c as real <= span
  {
    if k > 1 {
      var s := span / (k - 1) as real;
      assert s * (k - 1) as real == span;
      assert s >= 0.0;
      assert s * c as real <= s * (k - 1) as real;
    }
  }

  // ------------------------------------------------------------ participants

  /** `uplink_ports`, trimmed and lower-cased, blanks dropped. */
  function UplinkSet(uplinkPorts: seq<string>): set<string>
  {
    set s | s in uplinkPorts && Norm(s) != [] :: Norm(s)
  }

  /** A glyph packed into the ports box: it has an entity and is not set apart as an uplink. */
  predicate IsMain(g: Glyph, separateUplinks: bool, uplinks: set<string>)
  {
    g.id != [] && (!separateUplinks || |uplinks| == 0 || Norm(g.name) !in uplinks)
  }

  /** A glyph packed into the uplinks box: it has an entity and its name is an uplink. */
  predicate IsUplink(g: Glyph, uplinks: set<string>)
  {
    g.id != [] && Norm(g.name) in uplinks
  }

  /** The trimmed, lower-cased, non-blank keys of a layout map. */
  function PositionKeys(keys: seq<string>): set<string>
  {
    set k | k in keys && Norm(k) != [] :: Norm(k)
  }

  /** Packing is refused when any participant already has an explicit position. */
  predicate HasExplicitPosition(ps: seq<Glyph>, keys: seq<string>)
  {
    exists i :: 0 <= i < |ps| && Norm(ps[i].name) in PositionKeys(keys)
  }

  // ---------------------------------------------------------------- the grid

  /** A grid of `cols` by `rows` cells with the steps between neighbouring cells. */
  datatype Grid = Grid(cols: nat, rows: nat, stepX: real, stepY: real)

  /** The top-left corner of cell `(c, r)` of the grid laid over box `b`, snapped. */
  function Cell(b: Box, g: Grid, c: nat, r: nat, pitch: int): Point
  {
    Point(Snap(pitch, b.x + g.stepX * c as real), Snap(pitch, b.y + g.stepY * r as real))
  }

  /** The cell keeps the glyph's top-left inside the box, leaving room for the glyph itself. */
  lemma CellInside(b: Box, g: Grid, c: nat, r: nat, portW: real, portH: real)
    requires c < g.cols && r < g.rows
    requires g.stepX == Step(Max(0.0, b.w - portW), g.cols)
    requires g.stepY == Step(Max(0.0, b.h - portH), g.rows)
    ensures b.x <= Cell(b, g, c, r, 0).x <= b.x + Max(0.0, b.w - portW)
    ensures b.y <= Cell(b, g, c, r, 0).y <= b.y + Max(0.0, b.h - portH)
  {
    StepWithinSpan(Max(0.0, b.w - portW), g.cols, c);
    StepWithinSpan(Max(0.0, b.h - portH), g.rows, r);
  }

  // ------------------------------------------------------- ports box, numeric

  function ByName(a: Glyph, b: Glyph): int { NaturalOrder.Compare(a.name, b.name) }

  lemma ByNameAntisymmetric()
    ensures Antisymmetric(ByName)
  {
    forall a: Glyph, b: Glyph ensures ByName(a, b) == -ByName(b, a) {
      NaturalOrder.CompareAntisymmetric(a.name, b.name);
    }
  }

  /** The numeric-order grid for `n` glyphs in the (normalised) box `b`. */
  function NumericGrid(n: nat, b: Box, portW: real, portH: real, cap: nat): (g: Grid)
    requires cap >= 1 && b.w >= 10.0 && b.h >= 10.0
    ensures 1 <= g.cols <= cap && g.rows >= 1
    ensures g.cols * g.rows >= n
  {
    var w, h := Max(10.0, b.w), Max(10.0, b.h);
    var ratio := w / h;
    assert ratio > 0.0;
    NonNegativeProduct(n as real, ratio);
    var cols := MinInt(cap, MaxInt(1, RoundSqrt(n as real * ratio)));
    var rows := MaxInt(1, CeilDiv(n, cols));
    CeilDivCovers(n, cols, rows);
    Grid(cols, rows, Step(Max(0.0, w - portW), cols), Step(Max(0.0, h - portH), rows))
  }

  /** Row-major filling: the `i`-th glyph of the list goes to column `i % cols`, row `i / cols`. */
  function RowMajorWrites(list: seq<Glyph>, b: Box, g: Grid, pitch: int): (ws: seq<Write>)
    requires g.cols >= 1
    ensures |ws| == |list|
  {
    seq(|list|, i requires 0 <= i < |list| => (list[i].id, Cell(b, g, i % g.cols, i / g.cols, pitch)))
  }

  /** The whole numeric packing: sort by natural name order, then fill the grid row by row. */
  function NumericPacking(main: seq<Glyph>, b: Box, portW: real, portH: real, cap: nat, pitch: int): seq<Write>
    requires cap >= 1 && b.w >= 10.0 && b.h >= 10.0
  {
    RowMajorWrites(Sort(main, ByName), b, NumericGrid(|main|, b, portW, portH, cap), pitch)
  }

  lemma MulMono(a: nat, b: nat, c: nat)
    requires a <= b
    ensures a * c <= b * c
  {
    assert b * c == a * c + (b - a) * c;
  }

  lemma DivBelowRows(i: nat, n: nat, cols: nat, rows: nat)
    requires cols >= 1 && i < n && cols * rows >= n
    ensures i / cols < rows
  {
    var q := i / cols;
    assert q * cols <= i;
    if rows <= q {
      MulMono(rows, q, cols);
    }
  }

  /** Row-major filling keeps every glyph, with no snapping, inside the box when the grid has room for the list. */
  lemma RowMajorInside(list: seq<Glyph>, b: Box, g: Grid, portW: real, portH: real)
    requires g.cols >= 1 && g.cols * g.rows >= |list|
    requires g.stepX == Step(Max(0.0, b.w - portW), g.cols)
    requires g.stepY == Step(Max(0.0, b.h - portH), g.rows)
    ensures var ws := RowMajorWrites(list, b, g, 0);
      forall i :: 0 <= i < |ws| ==>
        (ws[i].0 == list[i].id
         && b.x <= ws[i].1.x <= b.x + Max(0.0, b.w - portW) && b.y <= ws[i].1.y <= b.y + Max(0.0, b.h - portH))
  {
    var ws := RowMajorWrites(list, b, g, 0);
    forall i | 0 <= i < |ws|
      ensures b.x <= ws[i].1.x <= b.x + Max(0.0, b.w - portW) && b.y <= ws[i].1.y <= b.y + Max(0.0, b.h - portH)
    {
      DivBelowRows(i, |list|, g.cols, g.rows);
      CellInside(b, g, i % g.cols, i / g.cols, portW, portH);
    }
  }

  /**
   * Numeric packing writes every main glyph exactly once, in natural name
   * order, with no more than `cap` glyphs in a row, and (with no snapping)
   * keeps every glyph inside the box.
   */
  lemma NumericPackingPlacesEveryGlyph(main: seq<Glyph>, b: Box, portW: real, portH: real, cap: nat)
    requires cap >= 1 && b.w >= 10.0 && b.h >= 10.0
    ensures var ws := NumericPacking(main, b, portW, portH, cap, 0);
      var sorted := Sort(main, ByName);
      |ws| == |main| && multiset(sorted) == multiset(main) && SortedBy(sorted, ByName)
      && NumericGrid(|main|, b, portW, portH, cap).cols <= cap
      && (forall i :: 0 <= i < |ws| ==>
            (ws[i].0 == sorted[i].id
             && b.x <= ws[i].1.x <= b.x + Max(0.0, b.w - portW) && b.y <= ws[i].1.y <= b.y + Max(0.0, b.h - portH)))
  {
    var sorted := Sort(main, ByName);
    ByNameAntisymmetric();
    SortIsSorted(main, ByName);
    RowMajorInside(sorted, b, NumericGrid(|main|, b, portW, portH, cap), portW, portH);
  }

  /** Two different positions of the list get two different cells, so no glyph covers another. */
  lemma RowMajorCellsDistinct(cols: nat, i: nat, j: nat)
    requires cols >= 1 && i != j
    ensures (i % cols, i / cols) != (j % cols, j / cols)
  {
    assert i == (i / cols) * cols + i % cols;
    assert j == (j / cols) * cols + j % cols;
  }

  // ------------------------------------------------------ ports box, odd/even

  /** The position just after the last digit of `s`, or 0 when `s` has none. */
  function LastDigitEnd(s: string): (e: nat)
    ensures e <= |s|
    ensures forall j :: e <= j < |s| ==> !IsDigit(s[j])
    ensures e > 0 ==> IsDigit(s[e - 1])
    decreases |s|
  {
    if s == [] then 0
    else if IsDigit(s[|s| - 1]) then |s|
    else LastDigitEnd(s[..|s| - 1])
  }

  /** The maximal run of digits that ends `s`. */
  function TrailingDigits(s: string): (d: string)
    ensures AllDigits(d) && |d| <= |s| && d == s[|s| - |d|..]
    ensures s != [] && IsDigit(s[|s| - 1]) ==> d != []
    ensures |d| < |s| ==> !IsDigit(s[|s| - |d| - 1])
    decreases |s|
  {
    if s == [] || !IsDigit(s[|s| - 1]) then []
    else
      var n := |s| - 1;
      var r := TrailingDigits(s[..n]);
      assert s[n - |r|..] == s[..n][n - |r|..] + [s[n]];
      assert |r| < n ==> s[n - |r| - 1] == s[..n][n - |r| - 1];
      r + [s[n]]
  }

  /** The last run of digits in a name (`/(\d+)(?!.*\d)/`), or empty when the name has no digit. */
  function LastNumeral(s: string): (d: string)
    ensures AllDigits(d)
    ensures d == [] <==> forall j :: 0 <= j < |s| ==> !IsDigit(s[j])
  {
    var e := LastDigitEnd(s);
    var d := TrailingDigits(s[..e]);
    assert e > 0 ==> d != [];
    d
  }

  /** `portNum`: the value of the last digit run of a name, if it has one. */
  function PortNumber(name: string): Option<nat>
  {
    var d := LastNumeral(name);
    if d == [] then None else Some(NumeralValue(d))
  }

  predicate IsEvenPort(g: Glyph)
  {
    var n := PortNumber(g.name);
    n.Some? && n.value % 2 == 0
  }

  /** `cmpNumThenNatural`: by port number when both have one and they differ, else by name. */
  function ByNumberThenName(a: Glyph, b: Glyph): int
  {
    var an, bn := PortNumber(a.name), PortNumber(b.name);
    if an.Some? && bn.Some? && an.value != bn.value then an.value - bn.value
    else NaturalOrder.Compare(a.name, b.name)
  }

  lemma ByNumberThenNameAntisymmetric()
    ensures Antisymmetric(ByNumberThenName)
  {
    forall a: Glyph, b: Glyph ensures ByNumberThenName(a, b) == -ByNumberThenName(b, a) {
      NaturalOrder.CompareAntisymmetric(a.name, b.name);
    }
  }

  /** Rows come in pairs when there are even ports, singly otherwise. */
  function GroupRows(nEven: nat): nat
  {
    if nEven > 0 then 2 else 1
  }

  /** The odd/even grid: one column per port of the longer group, capped, and a pair of rows per group of columns. */
  function OddEvenGrid(nOdd: nat, nEven: nat, b: Box, portW: real, portH: real, cap: nat): (g: Grid)
    requires cap >= 1
    ensures 1 <= g.cols <= cap
    ensures g.rows >= GroupRows(nEven)
  {
    var w, h := Max(10.0, b.w), Max(10.0, b.h);
    var maxLen := MaxInt(nOdd, nEven);
    var cols := MaxInt(1, MinInt(cap, if maxLen == 0 then 1 else maxLen));
    var groups := MaxInt(1, CeilDiv(maxLen, cols));
    var rows := groups * GroupRows(nEven);
    Grid(cols, rows, Step(Max(0.0, w - portW), cols), Step(Max(0.0, h - portH), rows))
  }

  /** The grid row of the `i`-th glyph of a group: row pair `i / cols`, then the group's own row in the pair. */
  function PairedRow(i: nat, cols: nat, groupRows: nat, rowOffset: nat): nat
    requires cols >= 1
  {
    (i / cols) * groupRows + rowOffset
  }

  /** `place(arr, rowOffset)`: the `i`-th glyph goes to column `i % cols` of row pair `i / cols`. */
  function OddEvenWrites(arr: seq<Glyph>, rowOffset: nat, groupRows: nat, b: Box, g: Grid, pitch: int): (ws: seq<Write>)
    requires g.cols >= 1
    ensures |ws| == |arr|
  {
    seq(|arr|, i requires 0 <= i < |arr| =>
      (arr[i].id, Cell(b, g, i % g.cols, PairedRow(i, g.cols, groupRows, rowOffset), pitch)))
  }

  /** The whole odd/even packing: odd (and unnumbered) glyphs on the first row of each pair, even ones on the second. */
  function OddEvenPacking(main: seq<Glyph>, b: Box, portW: real, portH: real, cap: nat, pitch: int): seq<Write>
    requires cap >= 1
  {
    OddEvenLayout(Odds(main), Evens(main), b, portW, portH, cap, pitch)
  }

  /** `place(odds, 0)` then, when there are even ports, `place(evens, 1)`. */
  function OddEvenLayout(odds: seq<Glyph>, evens: seq<Glyph>, b: Box, portW: real, portH: real, cap: nat, pitch: int): seq<Write>
    requires cap >= 1
  {
    var g := OddEvenGrid(|odds|, |evens|, b, portW, portH, cap);
    OddEvenWrites(odds, 0, GroupRows(|evens|), b, g, pitch) + (if |evens| > 0 then OddEvenWrites(evens, 1, 2, b, g, pitch) else [])
  }

  lemma MulAddDivMod(q: nat, g: nat, o: nat)
    requires o < g
    ensures (q * g + o) / g == q && (q * g + o) % g == o
  {
    var x := q * g + o;
    var q', r' := x / g, x % g;
    assert q' * g + r' == q * g + o;
    if q' > q {
      MulMono(q + 1, q', g);
    } else if q' < q {
      MulMono(q' + 1, q, g);
    }
  }

  /**
   * A group's glyphs stay on their own row of each pair (row parity, when the
   * even ports form a second group), and a group that fits the grid's columns
   * and pairs of rows stays within its rows.
   */
  lemma PairedRowInGroup(i: nat, n: nat, cols: nat, groupRows: nat, rowOffset: nat, rows: nat)
    requires cols >= 1 && rowOffset < groupRows && i < n
    requires rows >= groupRows * CeilDiv(n, cols)
    ensures PairedRow(i, cols, groupRows, rowOffset) % groupRows == rowOffset
    ensures PairedRow(i, cols, groupRows, rowOffset) / groupRows == i / cols
    ensures PairedRow(i, cols, groupRows, rowOffset) < rows
  {
    var q := i / cols;
    var groups := CeilDiv(n, cols);
    MulAddDivMod(q, groupRows, rowOffset);
    DivBelowRows(i, n, cols, groups);
    MulMono(q + 1, groups, groupRows);
  }

  /** Odd/even writes, with no snapping, keep every glyph of a group inside the box. */
  lemma OddEvenWritesInside(arr: seq<Glyph>, rowOffset: nat, groupRows: nat, b: Box, g: Grid, portW: real, portH: real)
    requires g.cols >= 1 && rowOffset < groupRows
    requires g.rows >= groupRows * CeilDiv(|arr|, g.cols)
    requires g.stepX == Step(Max(0.0, b.w - portW), g.cols)
    requires g.stepY == Step(Max(0.0, b.h - portH), g.rows)
    ensures var ws := OddEvenWrites(arr, rowOffset, groupRows, b, g, 0);
      forall i :: 0 <= i < |ws| ==>
        (ws[i].0 == arr[i].id
         && b.x <= ws[i].1.x <= b.x + Max(0.0, b.w - portW) && b.y <= ws[i].1.y <= b.y + Max(0.0, b.h - portH))
  {
    var ws := OddEvenWrites(arr, rowOffset, groupRows, b, g, 0);
    forall i | 0 <= i < |ws|
      ensures b.x <= ws[i].1.x <= b.x + Max(0.0, b.w - portW) && b.y <= ws[i].1.y <= b.y + Max(0.0, b.h - portH)
    {
      PairedRowInGroup(i, |arr|, g.cols, groupRows, rowOffset, g.rows);
      CellInside(b, g, i % g.cols, PairedRow(i, g.cols, groupRows, rowOffset), portW, portH);
    }
  }

  lemma CeilDivMono(m: nat, n: nat, d: nat)
    requires d > 0 && m <= n
    ensures CeilDiv(m, d) <= CeilDiv(n, d)
  {
    var a, b := CeilDiv(m, d), CeilDiv(n, d);
    if a > 0 {
      MulLessCancel(a - 1, b, d);
    }
  }

  lemma MulLessCancel(x: int, y: int, d: int)
    requires d > 0 && x * d < y * d
    ensures x < y
  {
    assert (y - x) * d == y * d - x * d;
  }

  /** The even-numbered glyphs, in number-then-name order. */
  function Evens(main: seq<Glyph>): seq<Glyph>
  {
    Sort(Filter(main, IsEvenPort), ByNumberThenName)
  }

  /** The odd-numbered and unnumbered glyphs, in number-then-name order. */
  function Odds(main: seq<Glyph>): seq<Glyph>
  {
    Sort(Filter(main, (p: Glyph) => !IsEvenPort(p)), ByNumberThenName)
  }

  /** The two groups split the main glyphs, by the parity of their port number, each sorted. */
  lemma OddEvenGroups(main: seq<Glyph>)
    ensures multiset(Odds(main)) + multiset(Evens(main)) == multiset(main)
    ensures |Odds(main)| + |Evens(main)| == |main|
    ensures forall p :: p in Evens(main) ==> IsEvenPort(p)
    ensures forall p :: p in Odds(main) ==> !IsEvenPort(p)
    ensures SortedBy(Odds(main), ByNumberThenName) && SortedBy(Evens(main), ByNumberThenName)
  {
    var ev := Filter(main, IsEvenPort);
    var od := Filter(main, (p: Glyph) => !IsEvenPort(p));
    FilterSplits(main, (p: Glyph) => !IsEvenPort(p), IsEvenPort);
    assert |multiset(Odds(main)) + multiset(Evens(main))| == |multiset(main)|;
    forall p | p in Evens(main) ensures IsEvenPort(p) {
      assert p in multiset(Evens(main));
    }
    forall p | p in Odds(main) ensures !IsEvenPort(p) {
      assert p in multiset(Odds(main));
    }
    ByNumberThenNameAntisymmetric();
    SortIsSorted(ev, ByNumberThenName);
    SortIsSorted(od, ByNumberThenName);
  }

  /** Each group fits the odd/even grid: its row pairs never run past the last row. */
  lemma OddEvenGridFits(nOdd: nat, nEven: nat, b: Box, portW: real, portH: real, cap: nat)
    requires cap >= 1
    ensures var g := OddEvenGrid(nOdd, nEven, b, portW, portH, cap);
      g.rows >= GroupRows(nEven) * CeilDiv(nOdd, g.cols) && g.rows >= GroupRows(nEven) * CeilDiv(nEven, g.cols)
  {
    var g := OddEvenGrid(nOdd, nEven, b, portW, portH, cap);
    var maxLen := MaxInt(nOdd, nEven);
    var groups := MaxInt(1, CeilDiv(maxLen, g.cols));
    assert g.rows == groups * GroupRows(nEven);
    CeilDivMono(nOdd, maxLen, g.cols);
    CeilDivMono(nEven, maxLen, g.cols);
    MulMono(CeilDiv(nOdd, g.cols), groups, GroupRows(nEven));
    MulMono(CeilDiv(nEven, g.cols), groups, GroupRows(nEven));
  }

  /**
   * The two-group layout writes the first group, then the second; the first
   * group's glyphs sit on the first row of each pair and the second group's on
   * the second, and (with no snapping) every glyph stays inside the box.
   */
  lemma OddEvenLayoutPlaces(odds: seq<Glyph>, evens: seq<Glyph>, b: Box, portW: real, portH: real, cap: nat)
    requires cap >= 1 && b.w >= 10.0 && b.h >= 10.0
    ensures var g := OddEvenGrid(|odds|, |evens|, b, portW, portH, cap);
      var ws := OddEvenLayout(odds, evens, b, portW, portH, cap, 0);
      |ws| == |odds| + |evens|
      && (forall i :: 0 <= i < |odds| ==> ws[i].0 == odds[i].id)
      && (forall i :: 0 <= i < |evens| ==> ws[|odds| + i].0 == evens[i].id)
      && (forall i :: 0 <= i < |evens| ==> PairedRow(i, g.cols, 2, 1) % 2 == 1)
      && (|evens| > 0 ==> forall i :: 0 <= i < |odds| ==> PairedRow(i, g.cols, 2, 0) % 2 == 0)
      && (forall i :: 0 <= i < |ws| ==>
            b.x <= ws[i].1.x <= b.x + Max(0.0, b.w - portW) && b.y <= ws[i].1.y <= b.y + Max(0.0, b.h - portH))
  {
    var g := OddEvenGrid(|odds|, |evens|, b, portW, portH, cap);
    var gr := GroupRows(|evens|);
    OddEvenGridFits(|odds|, |evens|, b, portW, portH, cap);
    OddEvenWritesInside(odds, 0, gr, b, g, portW, portH);
    if |evens| > 0 {
      forall i | 0 <= i < |odds| ensures PairedRow(i, g.cols, 2, 0) % 2 == 0 {
        PairedRowInGroup(i, |odds|, g.cols, 2, 0, g.rows);
      }
      OddEvenWritesInside(evens, 1, 2, b, g, portW, portH);
      forall i | 0 <= i < |evens| ensures PairedRow(i, g.cols, 2, 1) % 2 == 1 {
        PairedRowInGroup(i, |evens|, g.cols, 2, 1, g.rows);
      }
    }
  }

  // ------------------------------------------------------------- uplinks box

  /** The uplink grid: columns from the box's aspect ratio, with no cap. */
  function UplinkGrid(n: nat, b: Box, portW: real, portH: real): (g: Grid)
    ensures g.cols >= 1 && g.rows >= 1 && g.cols * g.rows >= n
  {
    var w, h := Max(10.0, b.w), Max(10.0, b.h);
    var spanX, spanY := Max(0.0, w - portW), Max(0.0, h - portH);
    var ratio := AspectRatio(spanX, spanY);
    NonNegativeProduct(n as real, ratio);
    var cols := MaxInt(1, RoundSqrt(n as real * ratio));
    var rows := MaxInt(1, CeilDiv(n, cols));
    CeilDivCovers(n, cols, rows);
    Grid(cols, rows, Step(spanX, cols), Step(spanY, rows))
  }

  /** The box's width-to-height ratio of free span (1 for a box with no free span). */
  function AspectRatio(spanX: real, spanY: real): (r: real)
    requires spanX >= 0.0 && spanY >= 0.0
    ensures r >= 0.0
  {
    if spanY > 0.0 then spanX / spanY else if spanX != 0.0 then spanX else 1.0
  }

  lemma NonNegativeProduct(a: real, b: real)
    requires a >= 0.0 && b >= 0.0
    ensures a * b >= 0.0
  {
  }

  /** At least `CeilDiv(n, cols)` rows of `cols` columns hold `n` cells. */
  lemma CeilDivCovers(n: nat, cols: nat, rows: nat)
    requires cols >= 1 && rows >= CeilDiv(n, cols)
    ensures cols * rows >= n
  {
    var q := CeilDiv(n, cols);
    assert cols * rows == cols * q + cols * (rows - q);
  }

  /** The uplink packing: uplink glyphs in page order (not sorted), row by row. */
  function UplinkPacking(upl: seq<Glyph>, b: Box, portW: real, portH: real, pitch: int): seq<Write>
  {
    RowMajorWrites(upl, b, UplinkGrid(|upl|, b, portW, portH), pitch)
  }

  /** Uplink packing keeps page order and, with no snapping, every uplink glyph inside the box. */
  lemma UplinkPackingInside(upl: seq<Glyph>, b: Box, portW: real, portH: real)
    requires b.w >= 10.0 && b.h >= 10.0
    ensures var ws := UplinkPacking(upl, b, portW, portH, 0);
      |ws| == |upl| &&
      forall i :: 0 <= i < |ws| ==>
        (ws[i].0 == upl[i].id
         && b.x <= ws[i].1.x <= b.x + Max(0.0, b.w - portW) && b.y <= ws[i].1.y <= b.y + Max(0.0, b.h - portH))
  {
    RowMajorInside(upl, b, UplinkGrid(|upl|, b, portW, portH), portW, portH);
  }
}
