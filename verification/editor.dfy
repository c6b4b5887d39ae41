/**
 * The Layout Editor (`_setupCalibrationUI`): the state it keeps while it is
 * open and the handlers that change it. Every handler is stated against the
 * functions of `EditorSpec`; the rendered port rects are part of the state
 * (keyed by entity id) because gestures read positions from them.
 */
module LayoutEditor {
  import opened Text
  import opened Json
  import opened Geometry
  import opened Lists
  import opened Packing
  import opened Fit
  import opened UndoLog
  import opened Storage
  import opened EditorSpec
  import Config

  /** What the JSON box holds once trimmed and parsed: `{}` when blank, an error unless it is a plain object. */
  function PastedObject(raw: Raw): (r: Option<Fields>)
    ensures r.Some? <==> raw == Blank || (raw.Doc? && raw.doc.JObj?)
  {
    match raw
    case Blank => Some([])
    case Malformed => None
    case Doc(j) => if j.JObj? then Some(j.fields) else None
  }

  /** The live map the editor starts from: the stored record's map, else the configured positions, else `{}`. */
  function InitialPositions(rec: Option<Record>, configPositions: JVal): Fields
  {
    if rec.Some? then Config.Spread(rec.value.positions)
    else if IsObject(configPositions) then Config.Spread(configPositions)
    else []
  }

  /** The ports order the editor starts with: the stored one when it is a non-empty text, else "numeric". */
  function InitialOrder(rec: Option<Record>): (r: string)
    ensures r != []
  {
    if rec.Some? && rec.value.portsOrder.Some? && rec.value.portsOrder.value != [] then rec.value.portsOrder.value
    else "numeric"
  }

  /**
   * `applySnapshot`: the layout after restoring `s` over `rects`. Every port
   * whose key holds a usable `{x, y}` moves there; then each box tool that
   * is on packs its ports again.
   */
  function Restore(glyphs: seq<Glyph>, st: Settings, bbox: Point, s: Snapshot, rects: map<string, Box>,
                   portsMode: bool, uplinkMode: bool): Layout
  {
    Repacked(glyphs, st, bbox, Layout(s.positions, RestoredRects(glyphs, rects, s.positions)),
             OrNull(s.portsBox), OrNull(s.uplinkBox), OrderOrNumeric(s.portsOrder), s.snap, portsMode, uplinkMode)
  }

  /** The packing that follows a restore: the ports box first when its tool is on, then the uplinks box when its tool is on. */
  function Repacked(glyphs: seq<Glyph>, st: Settings, bbox: Point, l: Layout, portsBox: Option<JVal>, uplinkBox: Option<JVal>,
                    order: string, snap: int, portsMode: bool, uplinkMode: bool): Layout
  {
    var l1 := if portsMode then Placed(l, glyphs, PortsPacking(glyphs, st, l.positions, portsBox, order, snap, bbox)) else l;
    if uplinkMode then Placed(l1, glyphs, UplinkPackingOf(glyphs, st, l1.positions, uplinkBox, snap, l1.rects)) else l1
  }

  /** The ports box's minimum size while it is dragged: the measured glyph, at least 10 by 10. */
  function PortsBoxMin(bbox: Point): Point { Point(Max(10.0, bbox.x), Max(10.0, bbox.y)) }

  /** The marquee's `forEach`: the entity ids of the ports whose rect corner lies in the dragged rectangle, in page order. */
  method SelectIn(gs: seq<Glyph>, rects: map<string, Box>, s: Point, p: Point) returns (next: seq<string>)
    ensures next == MarqueeHits(gs, rects, s, p)
  {
    next := [];
    var i := 0;
    while i < |gs|
      invariant 0 <= i <= |gs|
      invariant next == HitsSoFar(gs[..i], rects, s, p)
    {
      HitsSoFarStep(gs, rects, s, p, i);
      if Caught(rects, s, p, gs[i]) {
        next := next + [gs[i].id];
      }
      i := i + 1;
    }
    assert gs[..|gs|] == gs;
    HitsSoFarAreMarqueeHits(gs, rects, s, p);
  }

  /**
   * The JSON box's loop over the pasted entries: each accepted entry is filed
   * in the new map and its port's rect is moved.
   */
  method FileEntries(es: seq<Option<Resolved>>, rects: map<string, Box>) returns (next: Fields, moved: map<string, Box>)
    ensures next == LayoutOf(es) && moved == MovesOf(es, rects)
  {
    next, moved := [], rects;
    var i := 0;
    while i < |es|
      invariant 0 <= i <= |es|
      invariant next == LayoutOf(es[..i])
      invariant moved == MovesOf(es[..i], rects)
    {
      JsonStep(es, rects, i);
      if es[i].Some? {
        var e := es[i].value;
        next := Put(next, e.key, PointValue(e.at.x, e.at.y));
        moved := MoveRect(moved, e.ent, e.at);
      }
      i := i + 1;
    }
    assert es[..|es|] == es;
  }

  class Editor {
    // The rendered ports, the card settings, the measured glyph size and the storage key.
    const glyphs: seq<Glyph>
    const st: Settings
    const bbox: Point
    const key: string
    /** `_calibHist`. */
    const history: History

    /** `_calibMap`: port name to `{x, y}`. */
    var positions: Fields
    /** The drawn port rects, by entity id. */
    var rects: map<string, Box>
    /** `_calibSel`, in insertion order. */
    var sel: seq<string>
    /** `_calibPortsBox` and `_calibUplinkBox`. */
    var portsBox: Option<JVal>
    var uplinkBox: Option<JVal>
    /** `_calibPortsOrder` and `_calibSnap`. */
    var order: string
    var snap: int
    /** `_calibPortsBoxMode`, `_calibUplinkBoxMode` and `_calibDirty`. */
    var portsMode: bool
    var uplinkMode: bool
    var dirty: bool
    /** The gestures in progress: ports box, uplinks box, marquee and port drag. */
    var pb: Option<BoxDrag>
    var ub: Option<BoxDrag>
    var marquee: Option<Marquee>
    var drag: Option<PortDrag>
    /** The browser storage area. */
    var store: Store

    /**
     * Rendered entity ids are distinct, the selection has no repeats, there is
     * always an order, at most one box tool is on and the undo log is bounded.
     */
    predicate Valid()
      reads this`sel, this`order, this`portsMode, this`uplinkMode, history
    {
      Distinct(Ids(glyphs)) && Distinct(sel) && order != [] && !(portsMode && uplinkMode) && Bounded(history.State())
    }

    /** The live map and the drawn rects. */
    function Current(): Layout
      reads this`positions, this`rects
    {
      Layout(positions, rects)
    }

    /** `snapshotLayout`. */
    function Now(): Snapshot
      reads this`positions, this`portsBox, this`uplinkBox, this`order, this`snap
    {
      Snapshot(positions, portsBox, uplinkBox, order, snap)
    }

    /**
     * Opening the editor: the stored record's map, order and boxes when one
     * loads, otherwise the configured positions; nothing selected, no snap, no
     * tool on, nothing unsaved.
     */
    constructor (glyphs: seq<Glyph>, st: Settings, bbox: Point, key: string, store: Store,
                 configPositions: JVal, rects: map<string, Box>)
      requires Distinct(Ids(glyphs))
      ensures Valid() && fresh(history)
      ensures this.glyphs == glyphs && this.st == st && this.bbox == bbox && this.key == key
      ensures this.store == store && this.rects == rects
      ensures var rec := Load(store, key);
        positions == InitialPositions(rec, configPositions) && order == InitialOrder(rec)
        && portsBox == (if rec.Some? then rec.value.portsBox else None)
        && uplinkBox == (if rec.Some? then rec.value.uplinkBox else None)
      ensures sel == [] && snap == 0 && !portsMode && !uplinkMode && !dirty
      ensures pb.None? && ub.None? && marquee.None? && drag.None?
      ensures history.State() == Log([], [], None)
    {
      this.glyphs, this.st, this.bbox, this.key := glyphs, st, bbox, key;
      this.store, this.rects := store, rects;
      var rec := Load(store, key);
      positions := InitialPositions(rec, configPositions);
      order := InitialOrder(rec);
      portsBox := if rec.Some? then rec.value.portsBox else None;
      uplinkBox := if rec.Some? then rec.value.uplinkBox else None;
      sel, snap, portsMode, uplinkMode, dirty := [], 0, false, false, false;
      pb, ub, marquee, drag := None, None, None, None;
      history := new History();
    }

    // ----------------------------------------------------------- placement

    /** `setPortXY`: files the port under its name (its id when unnamed) and moves its rect, keeping its size. */
    method SetPortXY(id: string, p: Point)
      modifies this`positions, this`rects
      ensures positions == Put(old(positions), KeyFor(glyphs, id), PointValue(p.x, p.y))
      ensures rects == MoveRect(old(rects), id, p)
    {
      positions := Put(positions, KeyFor(glyphs, id), PointValue(p.x, p.y));
      rects := MoveRect(rects, id, p);
    }

    /** The `forEach` placement loops: `setPortXY` of each write in order. */
    method ApplyWrites(ws: seq<Write>)
      modifies this`positions, this`rects
      ensures Current() == Placed(old(Current()), glyphs, ws)
    {
      var i := 0;
      while i < |ws|
        invariant 0 <= i <= |ws|
        invariant positions == PositionsAfter(old(positions), glyphs, ws[..i])
        invariant rects == RectsAfter(old(rects), ws[..i])
      {
        PositionsStep(old(positions), glyphs, ws, i);
        RectsStep(old(rects), ws, i);
        SetPortXY(ws[i].0, ws[i].1);
        i := i + 1;
      }
      assert ws[..|ws|] == ws;
    }

    /** `applyPortsBoxLayout`. */
    method ApplyPortsBoxLayout()
      modifies this`positions, this`rects
      ensures Current() == Placed(old(Current()), glyphs, PortsPacking(glyphs, st, old(positions), portsBox, order, snap, bbox))
    {
      ApplyWrites(PortsPacking(glyphs, st, positions, portsBox, order, snap, bbox));
    }

    /** `applyUplinkBoxLayout`. */
    method ApplyUplinkBoxLayout()
      modifies this`positions, this`rects
      ensures Current() == Placed(old(Current()), glyphs, UplinkPackingOf(glyphs, st, old(positions), uplinkBox, snap, old(rects)))
    {
      ApplyWrites(UplinkPackingOf(glyphs, st, positions, uplinkBox, snap, rects));
    }

    // ----------------------------------------------------------- fitting

    /** `fitPortsBoxToPorts`: with the tool on, the ports box becomes the fitted box over the non-uplink ports. */
    method FitPortsBox()
      modifies this`portsBox, this`dirty
      ensures portsBox == FittedBox(PortsFit(glyphs, st, rects, portsMode), old(portsBox))
      ensures dirty == (old(dirty) || PortsFit(glyphs, st, rects, portsMode).Some?)
    {
      if !portsMode {
        return;
      }
      var e := MeasureExtent(RectsOf(NonUplinks(glyphs, st), rects));
      if e.Some? {
        portsBox := Some(BoxValue(FitBox(e.value, 40.0, 40.0)));
        dirty := true;
      }
    }

    /** `fitUplinkBoxToPorts`: with uplinks set apart and the tool on, the uplinks box hugs the uplink ports. */
    method FitUplinkBox()
      modifies this`uplinkBox, this`dirty
      ensures uplinkBox == FittedBox(UplinkFit(glyphs, st, rects, uplinkMode), old(uplinkBox))
      ensures dirty == (old(dirty) || UplinkFit(glyphs, st, rects, uplinkMode).Some?)
    {
      if !st.separateUplinks || |st.uplinks| == 0 || !uplinkMode {
        return;
      }
      var e := MeasureExtent(RectsOf(UplinkGlyphs(glyphs, st), rects));
      if e.Some? {
        uplinkBox := Some(BoxValue(FitBox(e.value, e.value.firstW, e.value.firstH)));
        dirty := true;
      }
    }

    // ----------------------------------------------------------- tool bar

    /**
     * The ports box button: flips the tool (turning the uplinks tool off when
     * it comes on), supplies a default box, fits it, and packs.
     */
    method TogglePortsBox()
      requires Valid()
      modifies this`portsMode, this`uplinkMode, this`portsBox, this`positions, this`rects, this`dirty
      ensures Valid()
      ensures portsMode == !old(portsMode)
      ensures uplinkMode == (old(uplinkMode) && !portsMode)
      ensures var b0 := if portsMode then WithDefault(old(portsBox), Box(20.0, 20.0, 240.0, 160.0)) else old(portsBox);
        portsBox == FittedBox(PortsFit(glyphs, st, old(rects), portsMode), b0)
      ensures Current() == Placed(old(Current()), glyphs, PortsPacking(glyphs, st, old(positions), portsBox, order, snap, bbox))
      ensures dirty
    {
      SwitchPortsTool();
      ApplyPortsBoxLayout();
      dirty := true;
    }

    /** The ports box button before packing: the modes flip and an opened box is made ready. */
    method SwitchPortsTool()
      requires Valid()
      modifies this`portsMode, this`uplinkMode, this`portsBox, this`dirty
      ensures Valid()
      ensures portsMode == !old(portsMode)
      ensures uplinkMode == (old(uplinkMode) && !portsMode)
      ensures var b0 := if portsMode then WithDefault(old(portsBox), Box(20.0, 20.0, 240.0, 160.0)) else old(portsBox);
        portsBox == FittedBox(PortsFit(glyphs, st, rects, portsMode), b0)
    {
      portsMode := !portsMode;
      if portsMode {
        uplinkMode := false;
        assert Valid();
        OpenPortsBox();
      }
    }

    /** Turning the ports box tool on: a default box when there is none usable, then fitted over the ports. */
    method OpenPortsBox()
      requires portsMode
      modifies this`portsBox, this`dirty
      ensures portsBox == FittedBox(PortsFit(glyphs, st, rects, portsMode), WithDefault(old(portsBox), Box(20.0, 20.0, 240.0, 160.0)))
    {
      portsBox := WithDefault(portsBox, Box(20.0, 20.0, 240.0, 160.0));
      FitPortsBox();
    }

    /**
     * The uplinks box button: turns the ports tool off when it comes on, flips
     * the tool, supplies a default box, fits it, and packs.
     */
    method ToggleUplinkBox()
      requires Valid()
      modifies this`portsMode, this`uplinkMode, this`uplinkBox, this`positions, this`rects, this`dirty
      ensures Valid()
      ensures uplinkMode == !old(uplinkMode)
      ensures portsMode == (old(portsMode) && !uplinkMode)
      ensures var b0 := if uplinkMode then WithDefault(old(uplinkBox), Box(20.0, 20.0, 200.0, 140.0)) else old(uplinkBox);
        uplinkBox == FittedBox(UplinkFit(glyphs, st, old(rects), uplinkMode), b0)
      ensures Current() == Placed(old(Current()), glyphs, UplinkPackingOf(glyphs, st, old(positions), uplinkBox, snap, old(rects)))
      ensures dirty
    {
      SwitchUplinkTool();
      ApplyUplinkBoxLayout();
      dirty := true;
    }

    /** The uplinks box button before packing: the modes flip and an opened box is made ready. */
    method SwitchUplinkTool()
      requires Valid()
      modifies this`portsMode, this`uplinkMode, this`uplinkBox, this`dirty
      ensures Valid()
      ensures uplinkMode == !old(uplinkMode)
      ensures portsMode == (old(portsMode) && !uplinkMode)
      ensures var b0 := if uplinkMode then WithDefault(old(uplinkBox), Box(20.0, 20.0, 200.0, 140.0)) else old(uplinkBox);
        uplinkBox == FittedBox(UplinkFit(glyphs, st, rects, uplinkMode), b0)
    {
      if uplinkMode {
        uplinkMode := false;
      } else {
        portsMode, uplinkMode := false, true;
        assert Valid();
        OpenUplinkBox();
      }
    }

    /** Turning the uplinks box tool on: a default box when there is none usable, then fitted around the uplinks. */
    method OpenUplinkBox()
      requires uplinkMode
      modifies this`uplinkBox, this`dirty
      ensures uplinkBox == FittedBox(UplinkFit(glyphs, st, rects, uplinkMode), WithDefault(old(uplinkBox), Box(20.0, 20.0, 200.0, 140.0)))
    {
      uplinkBox := WithDefault(uplinkBox, Box(20.0, 20.0, 200.0, 140.0));
      FitUplinkBox();
    }

    /** The order select: a blank choice means "numeric"; with the ports tool on the ports are packed again. */
    method ChangeOrder(value: string)
      requires Valid()
      modifies this`order, this`dirty, this`positions, this`rects
      ensures Valid()
      ensures order == OrderOrNumeric(value) && dirty
      ensures Current() == Placed(old(Current()), glyphs,
        if portsMode then PortsPacking(glyphs, st, old(positions), portsBox, order, snap, bbox) else [])
    {
      order, dirty := OrderOrNumeric(value), true;
      assert Valid();
      if portsMode {
        ApplyPortsBoxLayout();
      }
    }

    /** The snap field. */
    method ChangeSnap(value: string)
      modifies this`snap
      ensures snap == SnapFrom(value)
    {
      snap := SnapFrom(value);
    }

    // ----------------------------------------------------------- JSON box

    /**
     * Apply JSON: anything but a plain object (or a blank box) is an error and
     * changes nothing; otherwise the live map is replaced by the accepted
     * entries and their ports are moved.
     */
    method ApplyJson(raw: Raw) returns (ok: bool)
      modifies this`positions, this`rects, this`dirty
      ensures ok <==> PastedObject(raw).Some?
      ensures !ok ==> positions == old(positions) && rects == old(rects) && dirty == old(dirty)
      ensures ok ==> var es := Entries(glyphs, PastedObject(raw).value);
        positions == LayoutOf(es) && rects == MovesOf(es, old(rects)) && dirty
    {
      var obj := PastedObject(raw);
      if obj.None? {
        return false;
      }
      var next, moved := FileEntries(Entries(glyphs, obj.value), rects);
      positions, rects, dirty := next, moved, true;
      return true;
    }

    /** Clear JSON: the live map is emptied and every port with an entity is laid out on the default grid; the selection is cleared. */
    method ClearJson()
      requires Valid()
      modifies this`positions, this`rects, this`sel, this`dirty
      ensures Valid()
      ensures Current() == Placed(Layout([], old(rects)), glyphs, DefaultGrid(glyphs, old(rects), st, snap))
      ensures sel == [] && dirty
    {
      sel := [];
      dirty := true;
      assert Valid();
      positions := [];
      ApplyWrites(DefaultGrid(glyphs, rects, st, snap));
    }

    // ----------------------------------------------------------- save, reset, undo

    /** Save: the record is written under the editor's key and reads back as the current map, boxes and order. */
    method Save(now: real)
      modifies this`store, this`dirty
      ensures store == Persist(old(store), key, now, positions, uplinkBox, portsBox, order)
      ensures Load(store, key) == Some(Record(2.0, now, JObj(positions), ObjectOrNull(uplinkBox), ObjectOrNull(portsBox), Some(OrderOrNumeric(order))))
      ensures !dirty
    {
      store := Persist(store, key, now, positions, uplinkBox, portsBox, order);
      PersistThenLoad(old(store), key, now, positions, uplinkBox, portsBox, order);
      dirty := false;
    }

    /**
     * Reset: one undoable step that empties the live map and the selection;
     * the card then draws the ports afresh (`rendered`).
     */
    method Reset(rendered: map<string, Box>)
      requires Valid()
      modifies this`positions, this`sel, this`rects, this`dirty, history
      ensures Valid()
      ensures positions == [] && sel == [] && rects == rendered && dirty
      ensures history.State() == Commit(Begin(old(history.State()), old(Now())), Now())
    {
      OpenStep();
      positions, sel, rects, dirty := [], [], rendered, true;
      RecordStep();
    }

    /** `applySnapshot`: the map, boxes, order and snap come back, the ports move to their saved places and the active box tool packs. */
    method ApplySnapshot(s: Snapshot)
      modifies this`positions, this`rects, this`portsBox, this`uplinkBox, this`order, this`snap, this`dirty
      ensures Current() == Restore(glyphs, st, bbox, s, old(rects), portsMode, uplinkMode)
      ensures portsBox == OrNull(s.portsBox) && uplinkBox == OrNull(s.uplinkBox)
      ensures order == OrderOrNumeric(s.portsOrder) && snap == s.snap && dirty
    {
      positions := s.positions;
      portsBox := OrNull(s.portsBox);
      uplinkBox := OrNull(s.uplinkBox);
      order := OrderOrNumeric(s.portsOrder);
      snap := s.snap;
      RestoreRects();
      Repack();
      dirty := true;
    }

    /** The packing at the end of `applySnapshot`, for whichever box tool is on. */
    method Repack()
      modifies this`positions, this`rects
      ensures Current() == Repacked(glyphs, st, bbox, old(Current()), portsBox, uplinkBox, order, snap, portsMode, uplinkMode)
    {
      ghost var l := Current();
      if portsMode {
        ApplyPortsBoxLayout();
      }
      assert Current() == if portsMode then Placed(l, glyphs, PortsPacking(glyphs, st, l.positions, portsBox, order, snap, bbox)) else l;
      if uplinkMode {
        ApplyUplinkBoxLayout();
      }
    }

    /** The `forEach` of `applySnapshot`: each port with a usable saved `{x, y}` moves there. */
    method RestoreRects()
      modifies this`rects
      ensures rects == RestoredRects(glyphs, old(rects), positions)
    {
      var i := 0;
      while i < |glyphs|
        invariant 0 <= i <= |glyphs|
        invariant rects == RestoredRects(glyphs[..i], old(rects), positions)
      {
        assert glyphs[..i + 1][..i] == glyphs[..i];
        var at := SavedPoint(positions, glyphs[i]);
        if at.Some? {
          rects := MoveRect(rects, glyphs[i].id, at.value);
        }
        i := i + 1;
      }
      assert glyphs[..|glyphs|] == glyphs;
    }

    /** The undo button: the latest snapshot is restored and the current one is kept for redo; nothing happens when there is none. */
    method PressUndo()
      requires Valid()
      modifies this`positions, this`rects, this`portsBox, this`uplinkBox, this`order, this`snap, this`dirty, history
      ensures Valid()
      ensures history.State() == UndoLog.Undo(old(history.State()), old(Now())).0
      ensures var prev := UndoLog.Undo(old(history.State()), old(Now())).1;
        (prev.None? ==> Now() == old(Now()) && rects == old(rects) && dirty == old(dirty))
        && (prev.Some? ==> Current() == Restore(glyphs, st, bbox, prev.value, old(rects), portsMode, uplinkMode)
                           && portsBox == OrNull(prev.value.portsBox) && uplinkBox == OrNull(prev.value.uplinkBox)
                           && order == OrderOrNumeric(prev.value.portsOrder) && snap == prev.value.snap && dirty)
    {
      StepsStayBounded(history.State(), Now());
      var prev := history.DoUndo(Now());
      if prev.Some? {
        ApplySnapshot(prev.value);
      }
    }

    /** The redo button: the mirror image of undo. */
    method PressRedo()
      requires Valid()
      modifies this`positions, this`rects, this`portsBox, this`uplinkBox, this`order, this`snap, this`dirty, history
      ensures Valid()
      ensures history.State() == UndoLog.Redo(old(history.State()), old(Now())).0
      ensures var next := UndoLog.Redo(old(history.State()), old(Now())).1;
        (next.None? ==> Now() == old(Now()) && rects == old(rects) && dirty == old(dirty))
        && (next.Some? ==> Current() == Restore(glyphs, st, bbox, next.value, old(rects), portsMode, uplinkMode)
                           && portsBox == OrNull(next.value.portsBox) && uplinkBox == OrNull(next.value.uplinkBox)
                           && order == OrderOrNumeric(next.value.portsOrder) && snap == next.value.snap && dirty)
    {
      StepsStayBounded(history.State(), Now());
      var next := history.DoRedo(Now());
      if next.Some? {
        ApplySnapshot(next.value);
      }
    }

    // ----------------------------------------------------------- align and distribute

    /** `alignRow` (`X`: the selected ports take the first one's `y`) and `alignCol` (`Y`: its `x`). */
    method Align(axis: Axis)
      modifies this`positions, this`rects, this`dirty
      ensures Current() == Placed(old(Current()), glyphs, AlignWrites(sel, glyphs, old(rects), axis))
      ensures dirty == (old(dirty) || AlignApplies(sel, glyphs, old(rects)))
    {
      if !AlignApplies(sel, glyphs, rects) {
        return;
      }
      ApplyWrites(AlignWrites(sel, glyphs, rects, axis));
      dirty := true;
    }

    /** `distribute(axis)`, with the configured gap in the two-port case. */
    method DistributeAlong(axis: Axis)
      modifies this`positions, this`rects, this`dirty
      ensures Current() == Placed(old(Current()), glyphs, Distribute(sel, glyphs, old(rects), axis, st))
      ensures dirty == (old(dirty) || DistributeApplies(sel, glyphs, old(rects)))
    {
      if !DistributeApplies(sel, glyphs, rects) {
        return;
      }
      ApplyWrites(Distribute(sel, glyphs, rects, axis, st));
      dirty := true;
    }

    // ----------------------------------------------------------- gestures on the hit area

    /**
     * A press on the empty panel: with the ports tool on it starts drawing a
     * ports box, else with the uplinks tool on an uplinks box (both undoable),
     * else a marquee selection.
     */
    method HitDown(pid: int, pt: Point)
      requires Valid()
      modifies this`pb, this`ub, this`marquee, history
      ensures Valid()
      ensures portsMode ==>
        (pb == Some(BoxDrag(pid, Drawing, pt, None, [])) && ub == old(ub) && marquee == old(marquee)
         && history.State() == Begin(old(history.State()), Now()))
      ensures !portsMode && uplinkMode ==>
        (ub == Some(BoxDrag(pid, Drawing, pt, None, [])) && pb == old(pb) && marquee == old(marquee)
         && history.State() == Begin(old(history.State()), Now()))
      ensures !portsMode && !uplinkMode ==>
        (marquee == Some(Marquee(pid, pt)) && pb == old(pb) && ub == old(ub)
         && history.State() == old(history.State()))
    {
      if portsMode {
        OpenStep();
        pb := Some(BoxDrag(pid, Drawing, pt, None, []));
      } else if uplinkMode {
        OpenStep();
        ub := Some(BoxDrag(pid, Drawing, pt, None, []));
      } else {
        marquee := Some(Marquee(pid, pt));
      }
    }

    /** A press on the ports box (`handle` none) or one of its handles: with the tool on, an undoable move or resize that carries the non-uplink ports. */
    method StartPortsBoxDrag(pid: int, pt: Point, handle: Option<string>)
      requires Valid()
      modifies this`pb, history
      ensures Valid()
      ensures !portsMode ==> pb == old(pb) && history.State() == old(history.State())
      ensures portsMode ==>
        (history.State() == Begin(old(history.State()), Now())
         && pb == Some(BoxDrag(pid, if handle.Some? then Resizing(handle.value) else Moving, pt,
                               Some(if NormBoxOf(portsBox).Some? then NormBoxOf(portsBox).value else Box(pt.x, pt.y, 240.0, 160.0)),
                               PortsBoxMembers(glyphs, st, rects))))
    {
      if !portsMode {
        return;
      }
      OpenStep();
      var b := NormBoxOf(portsBox);
      var orig := if b.Some? then b.value else Box(pt.x, pt.y, 240.0, 160.0);
      pb := Some(BoxDrag(pid, if handle.Some? then Resizing(handle.value) else Moving, pt, Some(orig), PortsBoxMembers(glyphs, st, rects)));
    }

    /** A press on the uplinks box or one of its handles: the same for the uplink ports. */
    method StartUplinkBoxDrag(pid: int, pt: Point, handle: Option<string>)
      requires Valid()
      modifies this`ub, history
      ensures Valid()
      ensures !uplinkMode ==> ub == old(ub) && history.State() == old(history.State())
      ensures uplinkMode ==>
        (history.State() == Begin(old(history.State()), Now())
         && ub == Some(BoxDrag(pid, if handle.Some? then Resizing(handle.value) else Moving, pt,
                               Some(if NormBoxOf(uplinkBox).Some? then NormBoxOf(uplinkBox).value else Box(pt.x, pt.y, 140.0, 100.0)),
                               UplinkBoxMembers(glyphs, st, rects))))
    {
      if !uplinkMode {
        return;
      }
      OpenStep();
      var b := NormBoxOf(uplinkBox);
      var orig := if b.Some? then b.value else Box(pt.x, pt.y, 140.0, 100.0);
      ub := Some(BoxDrag(pid, if handle.Some? then Resizing(handle.value) else Moving, pt, Some(orig), UplinkBoxMembers(glyphs, st, rects)));
    }

    /**
     * A pointer move: the ports-box gesture of this pointer takes one step
     * (and a draw packs the ports into the new box); else the uplinks-box
     * gesture does; anything else changes nothing.
     */
    method HitMove(pid: int, pt: Point)
      modifies this`positions, this`rects, this`portsBox, this`uplinkBox, this`dirty
      ensures pb.Some? && pb.value.pid == pid ==>
        var min := PortsBoxMin(bbox);
        var step := BoxStep(pb.value, old(portsBox), pt, min.x, min.y, Point(240.0, 160.0), snap);
        var l1 := Placed(old(Current()), glyphs, step.1);
        portsBox == Some(BoxValue(step.0)) && uplinkBox == old(uplinkBox) && dirty
        && Current() == (if pb.value.kind == Drawing then Placed(l1, glyphs, PortsPacking(glyphs, st, l1.positions, portsBox, order, snap, bbox)) else l1)
      ensures !(pb.Some? && pb.value.pid == pid) && ub.Some? && ub.value.pid == pid ==>
        var step := BoxStep(ub.value, old(uplinkBox), pt, 40.0, 30.0, Point(120.0, 90.0), snap);
        uplinkBox == Some(BoxValue(step.0)) && portsBox == old(portsBox) && dirty
        && Current() == Placed(old(Current()), glyphs, step.1)
      ensures !(pb.Some? && pb.value.pid == pid) && !(ub.Some? && ub.value.pid == pid) ==>
        Current() == old(Current()) && portsBox == old(portsBox) && uplinkBox == old(uplinkBox) && dirty == old(dirty)
    {
      if pb.Some? && pb.value.pid == pid {
        PortsBoxDragTo(pb.value, pt);
      } else if ub.Some? && ub.value.pid == pid {
        UplinkBoxDragTo(ub.value, pt);
      }
    }

    /** One move of a ports-box gesture: the box follows the pointer, and while drawing the ports are packed into it again. */
    method PortsBoxDragTo(d: BoxDrag, pt: Point)
      modifies this`positions, this`rects, this`portsBox, this`dirty
      ensures var min := PortsBoxMin(bbox);
        var step := BoxStep(d, old(portsBox), pt, min.x, min.y, Point(240.0, 160.0), snap);
        var l1 := Placed(old(Current()), glyphs, step.1);
        portsBox == Some(BoxValue(step.0)) && dirty
        && Current() == (if d.kind == Drawing then Placed(l1, glyphs, PortsPacking(glyphs, st, l1.positions, portsBox, order, snap, bbox)) else l1)
    {
      var min := PortsBoxMin(bbox);
      var step := BoxStep(d, portsBox, pt, min.x, min.y, Point(240.0, 160.0), snap);
      ApplyWrites(step.1);
      portsBox := Some(BoxValue(step.0));
      if d.kind == Drawing {
        ApplyPortsBoxLayout();
      }
      dirty := true;
    }

    /** One move of an uplinks-box gesture: the box and the uplink ports in it follow the pointer. */
    method UplinkBoxDragTo(d: BoxDrag, pt: Point)
      modifies this`positions, this`rects, this`uplinkBox, this`dirty
      ensures var step := BoxStep(d, old(uplinkBox), pt, 40.0, 30.0, Point(120.0, 90.0), snap);
        uplinkBox == Some(BoxValue(step.0)) && dirty
        && Current() == Placed(old(Current()), glyphs, step.1)
    {
      var step := BoxStep(d, uplinkBox, pt, 40.0, 30.0, Point(120.0, 90.0), snap);
      ApplyWrites(step.1);
      uplinkBox := Some(BoxValue(step.0));
      dirty := true;
    }

    /**
     * A pointer release: the ports-box gesture ends and is recorded for undo;
     * else the uplinks-box gesture ends, the box is refitted and the gesture
     * recorded; else the marquee of this pointer replaces the selection with
     * the ports it covers.
     */
    method HitUp(pid: int, pt: Point)
      requires Valid()
      modifies this`pb, this`ub, this`marquee, this`sel, this`uplinkBox, this`dirty, history
      ensures Valid()
      ensures old(pb).Some? && old(pb).value.pid == pid ==>
        pb.None? && ub == old(ub) && marquee == old(marquee) && sel == old(sel)
        && uplinkBox == old(uplinkBox) && dirty == old(dirty)
        && history.State() == Commit(old(history.State()), Now())
      ensures !(old(pb).Some? && old(pb).value.pid == pid) && old(ub).Some? && old(ub).value.pid == pid ==>
        ub.None? && pb == old(pb) && marquee == old(marquee) && sel == old(sel)
        && uplinkBox == FittedBox(UplinkFit(glyphs, st, rects, uplinkMode), old(uplinkBox))
        && dirty == (old(dirty) || UplinkFit(glyphs, st, rects, uplinkMode).Some?)
        && history.State() == Commit(old(history.State()), Now())
      ensures !(old(pb).Some? && old(pb).value.pid == pid) && !(old(ub).Some? && old(ub).value.pid == pid) ==>
        pb == old(pb) && ub == old(ub) && uplinkBox == old(uplinkBox) && dirty == old(dirty)
        && history.State() == old(history.State())
        && (if old(marquee).Some? && old(marquee).value.pid == pid
            then marquee.None? && sel == MarqueeHits(glyphs, rects, old(marquee).value.start, pt)
            else marquee == old(marquee) && sel == old(sel))
    {
      if pb.Some? && pb.value.pid == pid {
        EndPortsBoxDrag();
      } else if ub.Some? && ub.value.pid == pid {
        EndUplinkBoxDrag();
      } else if marquee.Some? && marquee.value.pid == pid {
        EndMarquee(marquee.value.start, pt);
      }
    }

    /** The release of a ports-box gesture: it ends and the step is recorded. */
    method EndPortsBoxDrag()
      requires Bounded(history.State())
      modifies this`pb, history
      ensures pb.None? && Bounded(history.State())
      ensures history.State() == Commit(old(history.State()), Now())
    {
      pb := None;
      RecordStep();
    }

    /** The release of an uplinks-box gesture: it ends, the box is refitted around the uplinks and the step is recorded. */
    method EndUplinkBoxDrag()
      requires Bounded(history.State())
      modifies this`ub, this`uplinkBox, this`dirty, history
      ensures ub.None? && Bounded(history.State())
      ensures uplinkBox == FittedBox(UplinkFit(glyphs, st, rects, uplinkMode), old(uplinkBox))
      ensures dirty == (old(dirty) || UplinkFit(glyphs, st, rects, uplinkMode).Some?)
      ensures history.State() == Commit(old(history.State()), Now())
    {
      ub := None;
      FitUplinkBox();
      RecordStep();
    }

    /** `beginUndo` of a gesture or button that starts a step, which keeps the log bounded. */
    method OpenStep()
      requires Bounded(history.State())
      modifies history
      ensures history.State() == Begin(old(history.State()), Now()) && Bounded(history.State())
    {
      StepsStayBounded(history.State(), Now());
      history.BeginUndo(Now());
    }

    /** `commitUndo` of the gesture that just ended, which keeps the log bounded. */
    method RecordStep()
      requires Bounded(history.State())
      modifies history
      ensures history.State() == Commit(old(history.State()), Now()) && Bounded(history.State())
    {
      StepsStayBounded(history.State(), Now());
      history.CommitUndo(Now());
    }

    /** The marquee's release: the selection becomes the ports it covers, each once, and the marquee is gone. */
    method EndMarquee(s: Point, pt: Point)
      requires Distinct(Ids(glyphs))
      modifies this`sel, this`marquee
      ensures sel == MarqueeHits(glyphs, rects, s, pt) && Distinct(sel) && marquee.None?
    {
      sel := SelectIn(glyphs, rects, s, pt);
      MarqueeSelectsInside(glyphs, rects, s, pt, "");
      marquee := None;
    }

    // ----------------------------------------------------------- port drags

    /**
     * A press on a port: the selection follows the press rules, and an
     * undoable drag of the selected ports that have a rect begins.
     */
    method PortDown(pid: int, id: string, toggle: bool, pt: Point)
      requires Valid()
      modifies this`sel, this`drag, history
      ensures Valid()
      ensures id == [] ==> sel == old(sel) && drag == old(drag) && history.State() == old(history.State())
      ensures id != [] ==>
        (sel == PressSelect(old(sel), id, toggle)
         && drag == Some(PortDrag(pid, pt, DragMembers(sel, rects)))
         && history.State() == Begin(old(history.State()), Now()))
    {
      if id == [] {
        return;
      }
      PressSelectKeepsDistinct(sel, id, toggle);
      sel := PressSelect(sel, id, toggle);
      OpenStep();
      drag := Some(PortDrag(pid, pt, DragMembers(sel, rects)));
    }

    /**
     * A move of the dragging pointer: every carried port shifts by the
     * pointer's displacement (snapped), and with uplinks set apart the
     * uplinks box is refitted around the uplink ports.
     */
    method PortMove(pid: int, pt: Point)
      modifies this`positions, this`rects, this`uplinkBox, this`dirty
      ensures Current() == Placed(old(Current()), glyphs, DragWrites(old(drag), pid, pt, snap))
      ensures old(drag).Some? && old(drag).value.pid == pid ==>
        uplinkBox == FittedBox(DragRefit(glyphs, st, rects), old(uplinkBox)) && dirty
      ensures !(old(drag).Some? && old(drag).value.pid == pid) ==>
        Current() == old(Current()) && uplinkBox == old(uplinkBox) && dirty == old(dirty)
    {
      var moving := drag.Some? && drag.value.pid == pid;
      ApplyWrites(DragWrites(drag, pid, pt, snap));
      RefitUplinks(moving);
      dirty := dirty || moving;
    }

    /** While a drag moves, the uplinks box follows: with uplinks set apart it hugs every port named as an uplink. */
    method RefitUplinks(moving: bool)
      modifies this`uplinkBox
      ensures uplinkBox == if moving then FittedBox(DragRefit(glyphs, st, rects), old(uplinkBox)) else old(uplinkBox)
    {
      if moving && st.separateUplinks && |st.uplinks| > 0 {
        var e := MeasureExtent(RectsOf(NamedUplinks(glyphs, st), rects));
        if e.Some? {
          uplinkBox := Some(BoxValue(FitBox(e.value, 1.0, 1.0)));
        }
      }
    }

    /** The release of the dragging pointer: the drag ends and is recorded for undo. */
    method PortUp(pid: int)
      requires Valid()
      modifies this`drag, history
      ensures Valid()
      ensures old(drag).Some? && old(drag).value.pid == pid ==> drag.None? && history.State() == Commit(old(history.State()), Now())
      ensures !(old(drag).Some? && old(drag).value.pid == pid) ==> drag == old(drag) && history.State() == old(history.State())
    {
      if drag.Some? && drag.value.pid == pid {
        drag := None;
        RecordStep();
      }
    }
  }
}
