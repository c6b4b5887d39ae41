/**
 * The Layout Editor's operations as functions of its state: where a port is
 * filed and drawn when it is placed, the box records, which ports the box
 * tools pack and fit, and the effect of each pointer gesture, of the
 * advanced JSON box, of the default-grid reset and of align and distribute.
 * The editor class applies these one port at a time.
 */
module EditorSpec {
  import opened Text
  import opened Json
  import opened Geometry
  import opened Lists
  import opened Packing
  import opened Fit

  /** The card settings the editor reads (after `setConfig`). */
  datatype Settings = Settings(
    separateUplinks: bool,   // `show_uplinks_separately`
    uplinks: set<string>,    // `uplink_ports`, trimmed, lower-cased, blanks dropped
    portsPerRow: int,        // `parseInt(ports_per_row, 10)`, 0 when that is NaN
    portSize: real,          // `port_size`
    hGap: real,              // `horizontal_port_gap`
    vGap: real,              // `vertical_port_gap`
    panelWidth: real)        // `panel_width`

  /** The entity ids of the rendered glyphs, in page order. */
  function Ids(glyphs: seq<Glyph>): (ids: seq<string>)
    ensures |ids| == |glyphs| && forall i :: 0 <= i < |glyphs| ==> ids[i] == glyphs[i].id
  {
    seq(|glyphs|, i requires 0 <= i < |glyphs| => glyphs[i].id)
  }

  /** The first glyph with entity id `id` (`querySelector`), or `|glyphs|` when there is none. */
  function FirstWithId(glyphs: seq<Glyph>, id: string): (i: nat)
    ensures i <= |glyphs|
    ensures forall j :: 0 <= j < i ==> glyphs[j].id != id
    ensures i < |glyphs| ==> glyphs[i].id == id
    decreases |glyphs|
  {
    if glyphs == [] then 0
    else if glyphs[0].id == id then 0
    else 1 + FirstWithId(glyphs[1..], id)
  }

  /** The top-left corner of a rect. */
  function TopLeft(b: Box): Point { Point(b.x, b.y) }

  // ------------------------------------------------------------- placement

  /**
   * The key `setPortXY` files a port under: the trimmed port name of the
   * glyph with that entity id, or the entity id when the glyph is missing or
   * has no name.
   */
  function KeyFor(glyphs: seq<Glyph>, id: string): string
  {
    var i := FirstWithId(glyphs, id);
    if i < |glyphs| && Trim(glyphs[i].name) != [] then Trim(glyphs[i].name) else id
  }

  /** Moving the rect of a port (when it has one) to a new top-left; its size is kept. */
  function MoveRect(rects: map<string, Box>, id: string, p: Point): (r: map<string, Box>)
    ensures r.Keys == rects.Keys
    ensures id in rects ==> TopLeft(r[id]) == p && r[id].w == rects[id].w && r[id].h == rects[id].h
    ensures forall k :: k in rects && k != id ==> r[k] == rects[k]
  {
    if id in rects then rects[id := Box(p.x, p.y, rects[id].w, rects[id].h)] else rects
  }

  /** The live position map after `setPortXY` of each write in order: each port filed under its key. */
  function PositionsAfter(positions: Fields, glyphs: seq<Glyph>, ws: seq<Write>): Fields
    decreases |ws|
  {
    if ws == [] then positions
    else
      var last := ws[|ws| - 1];
      Put(PositionsAfter(positions, glyphs, ws[..|ws| - 1]), KeyFor(glyphs, last.0), PointValue(last.1.x, last.1.y))
  }

  /** The drawn rects after `setPortXY` of each write in order. */
  function RectsAfter(rects: map<string, Box>, ws: seq<Write>): map<string, Box>
    decreases |ws|
  {
    if ws == [] then rects else MoveRect(RectsAfter(rects, ws[..|ws| - 1]), ws[|ws| - 1].0, ws[|ws| - 1].1)
  }

  /** One more write files one more port. */
  lemma PositionsStep(positions: Fields, glyphs: seq<Glyph>, ws: seq<Write>, i: int)
    requires 0 <= i < |ws|
    ensures PositionsAfter(positions, glyphs, ws[..i + 1])
            == Put(PositionsAfter(positions, glyphs, ws[..i]), KeyFor(glyphs, ws[i].0), PointValue(ws[i].1.x, ws[i].1.y))
  {
    assert ws[..i + 1][..i] == ws[..i];
  }

  /** One more write moves one more rect. */
  lemma RectsStep(rects: map<string, Box>, ws: seq<Write>, i: int)
    requires 0 <= i < |ws|
    ensures RectsAfter(rects, ws[..i + 1]) == MoveRect(RectsAfter(rects, ws[..i]), ws[i].0, ws[i].1)
  {
    assert ws[..i + 1][..i] == ws[..i];
  }

  /** The ids heading a list of pairs: the ports a list of placements writes, or a list of located ports. */
  function PairIds<T>(ps: seq<(string, T)>): (ids: seq<string>)
    ensures |ids| == |ps| && forall i :: 0 <= i < |ps| ==> ids[i] == ps[i].0
  {
    seq(|ps|, i requires 0 <= i < |ps| => ps[i].0)
  }

  /**
   * After a list of placements the keys stay unique, no key is lost, and
   * every port written has its key in the map.
   */
  lemma {:induction false} PositionsAfterKeys(positions: Fields, glyphs: seq<Glyph>, ws: seq<Write>)
    requires UniqueKeys(positions)
    ensures UniqueKeys(PositionsAfter(positions, glyphs, ws))
    ensures forall k :: HasKey(positions, k) ==> HasKey(PositionsAfter(positions, glyphs, ws), k)
    ensures forall i :: 0 <= i < |ws| ==> HasKey(PositionsAfter(positions, glyphs, ws), KeyFor(glyphs, ws[i].0))
  {
    PositionsAfterUnique(positions, glyphs, ws);
    PositionsAfterHasKeys(positions, glyphs, ws);
  }

  lemma {:induction false} PositionsAfterUnique(positions: Fields, glyphs: seq<Glyph>, ws: seq<Write>)
    requires UniqueKeys(positions)
    ensures UniqueKeys(PositionsAfter(positions, glyphs, ws))
    decreases |ws|
  {
    if ws != [] {
      var n := |ws| - 1;
      PositionsAfterUnique(positions, glyphs, ws[..n]);
      PutKeepsKeysUnique(PositionsAfter(positions, glyphs, ws[..n]), KeyFor(glyphs, ws[n].0), PointValue(ws[n].1.x, ws[n].1.y));
    }
  }

  lemma PositionsAfterHasKeys(positions: Fields, glyphs: seq<Glyph>, ws: seq<Write>)
    ensures forall k :: HasKey(positions, k) ==> HasKey(PositionsAfter(positions, glyphs, ws), k)
    ensures forall i :: 0 <= i < |ws| ==> HasKey(PositionsAfter(positions, glyphs, ws), KeyFor(glyphs, ws[i].0))
  {
    forall k | HasKey(positions, k)
      ensures HasKey(PositionsAfter(positions, glyphs, ws), k)
    {
      PositionsAfterKeepsKey(positions, glyphs, ws, k);
    }
    forall i | 0 <= i < |ws|
      ensures HasKey(PositionsAfter(positions, glyphs, ws), KeyFor(glyphs, ws[i].0))
    {
      PositionsAfterHasWritten(positions, glyphs, ws, i);
    }
  }

  lemma {:induction false} PositionsAfterKeepsKey(positions: Fields, glyphs: seq<Glyph>, ws: seq<Write>, k: string)
    requires HasKey(positions, k)
    ensures HasKey(PositionsAfter(positions, glyphs, ws), k)
    decreases |ws|
  {
    if ws != [] {
      var n := |ws| - 1;
      PositionsAfterKeepsKey(positions, glyphs, ws[..n], k);
      var m := PositionsAfter(positions, glyphs, ws[..n]);
      assert PositionsAfter(positions, glyphs, ws) == Put(m, KeyFor(glyphs, ws[n].0), PointValue(ws[n].1.x, ws[n].1.y));
      PutHasKey(m, KeyFor(glyphs, ws[n].0), PointValue(ws[n].1.x, ws[n].1.y), k);
    }
  }

  lemma {:induction false} PositionsAfterHasWritten(positions: Fields, glyphs: seq<Glyph>, ws: seq<Write>, i: nat)
    requires i < |ws|
    ensures HasKey(PositionsAfter(positions, glyphs, ws), KeyFor(glyphs, ws[i].0))
    decreases |ws|
  {
    var n := |ws| - 1;
    var last := ws[n];
    var m := PositionsAfter(positions, glyphs, ws[..n]);
    var key := KeyFor(glyphs, ws[i].0);
    var lastKey, v := KeyFor(glyphs, last.0), PointValue(last.1.x, last.1.y);
    assert PositionsAfter(positions, glyphs, ws) == Put(m, lastKey, v);
    if i < n {
      assert ws[..n][i] == ws[i];
      PositionsAfterHasWritten(positions, glyphs, ws[..n], i);
    } else {
      assert key == lastKey;
    }
    PutHasKey(m, lastKey, v, key);
  }

  /**
   * A list of placements keeps the set of rects, leaves the rect of every
   * port it does not write, and (when no port is written twice) leaves each
   * written port that has a rect where it was placed.
   */
  lemma RectsAfterEffect(rects: map<string, Box>, ws: seq<Write>)
    ensures RectsAfter(rects, ws).Keys == rects.Keys
    ensures forall k :: k in rects && k !in PairIds(ws) ==> RectsAfter(rects, ws)[k] == rects[k]
    ensures Distinct(PairIds(ws)) ==>
      forall i :: 0 <= i < |ws| && ws[i].0 in rects ==> TopLeft(RectsAfter(rects, ws)[ws[i].0]) == ws[i].1
  {
    RectsAfterKeys(rects, ws);
    RectsAfterUntouched(rects, ws);
    if Distinct(PairIds(ws)) {
      RectsAfterPlaces(rects, ws);
    }
  }

  lemma {:induction false} RectsAfterKeys(rects: map<string, Box>, ws: seq<Write>)
    ensures RectsAfter(rects, ws).Keys == rects.Keys
    decreases |ws|
  {
    if ws != [] {
      RectsAfterKeys(rects, ws[..|ws| - 1]);
    }
  }

  lemma {:induction false} RectsAfterUntouched(rects: map<string, Box>, ws: seq<Write>)
    ensures forall k :: k in rects && k !in PairIds(ws) ==> k in RectsAfter(rects, ws) && RectsAfter(rects, ws)[k] == rects[k]
    decreases |ws|
  {
    RectsAfterKeys(rects, ws);
    if ws != [] {
      var init := ws[..|ws| - 1];
      RectsAfterUntouched(rects, init);
      PairIdsSnoc(ws);
    }
  }

  lemma {:induction false} RectsAfterPlaces(rects: map<string, Box>, ws: seq<Write>)
    requires Distinct(PairIds(ws))
    ensures RectsAfter(rects, ws).Keys == rects.Keys
    ensures forall i :: 0 <= i < |ws| && ws[i].0 in rects ==> TopLeft(RectsAfter(rects, ws)[ws[i].0]) == ws[i].1
    decreases |ws|
  {
    RectsAfterKeys(rects, ws);
    if ws != [] {
      var n := |ws| - 1;
      var init := ws[..n];
      PairIdsInit(ws);
      DistinctInit(PairIds(ws));
      RectsAfterPlaces(rects, init);
      RectsAfterKeys(rects, init);
      var prev := RectsAfter(rects, init);
      assert RectsAfter(rects, ws) == MoveRect(prev, ws[n].0, ws[n].1);
      forall i | 0 <= i < |ws| && ws[i].0 in rects
        ensures TopLeft(RectsAfter(rects, ws)[ws[i].0]) == ws[i].1
      {
        if i < n {
          assert init[i] == ws[i];
          assert PairIds(ws)[i] != PairIds(ws)[n];
        }
      }
    }
  }

  /** The ids written by a list of placements are those of all but the last, then the last one's. */
  lemma PairIdsSnoc(ws: seq<Write>)
    requires ws != []
    ensures PairIds(ws) == PairIds(ws[..|ws| - 1]) + [ws[|ws| - 1].0]
  {
  }

  lemma PairIdsInit(ws: seq<Write>)
    requires ws != []
    ensures PairIds(ws)[..|ws| - 1] == PairIds(ws[..|ws| - 1])
  {
  }

  /** Without its last element, a list without repeats has none, and lacks that element. */
  lemma DistinctInit<T>(s: seq<T>)
    requires s != [] && Distinct(s)
    ensures Distinct(s[..|s| - 1]) && s[|s| - 1] !in s[..|s| - 1]
  {
  }

  // ------------------------------------------------------------- boxes

  /** A box record `{ x, y, w, h }` as the editor stores it. */
  function BoxValue(b: Box): JVal
  {
    JObj([("x", JNum(b.x)), ("y", JNum(b.y)), ("w", JNum(b.w)), ("h", JNum(b.h))])
  }

  /** `normBox`: a usable box from a stored value, or `None` (`null`) for a missing, non-object or non-finite one. */
  function NormBoxOf(v: Option<JVal>): (r: Option<Box>)
    ensures r.Some? ==> r.value.w >= 10.0 && r.value.h >= 10.0
    ensures r.Some? ==> v.Some? && v.value.JObj?
  {
    if v.None? || !v.value.JObj? then None
    else
      var x, y := MemberNumber(v.value, "x"), MemberNumber(v.value, "y");
      var w, h := MemberNumber(v.value, "w"), MemberNumber(v.value, "h");
      if x.Some? && y.Some? && w.Some? && h.Some? then Some(NormBox(Box(x.value, y.value, w.value, h.value)))
      else None
  }

  /** The members of a box record, read back by name. */
  lemma BoxMembers(b: Box)
    ensures MemberNumber(BoxValue(b), "x") == Some(b.x) && MemberNumber(BoxValue(b), "y") == Some(b.y)
    ensures MemberNumber(BoxValue(b), "w") == Some(b.w) && MemberNumber(BoxValue(b), "h") == Some(b.h)
  {
    var fs := BoxValue(b).fields;
    assert fs[1..][1..][1..] == [("h", JNum(b.h))];
    assert fs[1..][1..] == [("w", JNum(b.w)), ("h", JNum(b.h))];
    assert "x" != "y" && "x" != "w" && "x" != "h" && "y" != "w" && "y" != "h" && "w" != "h" by {
      assert "x"[0] != "y"[0] && "x"[0] != "w"[0] && "x"[0] != "h"[0];
      assert "y"[0] != "w"[0] && "y"[0] != "h"[0] && "w"[0] != "h"[0];
    }
    assert Get(fs, "y") == Get(fs[1..], "y");
    assert Get(fs, "w") == Get(fs[1..], "w") == Get(fs[1..][1..], "w");
    assert Get(fs, "h") == Get(fs[1..], "h") == Get(fs[1..][1..], "h") == Get(fs[1..][1..][1..], "h");
  }

  /** Storing a box and normalising it again gives the box, at least 10 by 10. */
  lemma BoxValueRoundTrip(b: Box)
    ensures NormBoxOf(Some(BoxValue(b))) == Some(NormBox(b))
  {
    BoxMembers(b);
  }

  // ------------------------------------------------------------- packing

  /** The ports the ports box packs (`main`): with an entity, not set apart as uplinks. */
  function Mains(glyphs: seq<Glyph>, st: Settings): seq<Glyph>
  {
    Filter(glyphs, (g: Glyph) => IsMain(g, st.separateUplinks, st.uplinks))
  }

  /** The ports the uplinks box packs (`upl`): with an entity and named in `uplink_ports`. */
  function UplinkGlyphs(glyphs: seq<Glyph>, st: Settings): seq<Glyph>
  {
    Filter(glyphs, (g: Glyph) => IsUplink(g, st.uplinks))
  }

  /** The ports order that selects the paired odd/even rows; anything else packs in numeric order. */
  const OddEven: string := "odd_even"

  /**
   * `applyPortsBoxLayout`: the writes it performs. Nothing happens without a
   * usable ports box, without main ports, or when a main port already has an
   * explicit position in the live map; otherwise every main port is packed,
   * its size taken from the measured glyph (18 when that measures 0).
   */
  function PortsPacking(glyphs: seq<Glyph>, st: Settings, positions: Fields, portsBox: Option<JVal>,
                        order: string, pitch: int, bbox: Point): seq<Write>
  {
    var b := NormBoxOf(portsBox);
    var main := Mains(glyphs, st);
    if b.None? || main == [] || HasExplicitPosition(main, Keys(positions)) then []
    else
      var portW, portH := GlyphExtent(bbox.x), GlyphExtent(bbox.y);
      var cap := ColumnCap(st.portsPerRow);
      if order == OddEven then OddEvenPacking(main, b.value, portW, portH, cap, pitch)
      else NumericPacking(main, b.value, portW, portH, cap, pitch)
  }

  /** The first port that has a rect (`root.querySelector(".port-svg rect")`), if any. */
  function FirstRect(glyphs: seq<Glyph>, rects: map<string, Box>): (r: Option<Box>)
    ensures r.Some? ==> exists i :: 0 <= i < |glyphs| && glyphs[i].id in rects && r.value == rects[glyphs[i].id]
    ensures r.None? ==> forall i :: 0 <= i < |glyphs| ==> glyphs[i].id !in rects
    decreases |glyphs|
  {
    if glyphs == [] then None
    else if glyphs[0].id in rects then Some(rects[glyphs[0].id])
    else
      var r := FirstRect(glyphs[1..], rects);
      assert forall i :: 1 <= i < |glyphs| ==> glyphs[i] == glyphs[1..][i - 1];
      r
  }

  /**
   * `applyUplinkBoxLayout`: the writes it performs. Nothing happens without
   * a usable uplinks box, when uplinks are not shown separately or none are
   * named, without uplink ports, or when one already has an explicit
   * position; otherwise the uplink ports are packed in page order, sized by
   * the first rect drawn (the port size when there is none).
   */
  function UplinkPackingOf(glyphs: seq<Glyph>, st: Settings, positions: Fields, uplinkBox: Option<JVal>,
                           pitch: int, rects: map<string, Box>): seq<Write>
  {
    var b := NormBoxOf(uplinkBox);
    var upl := UplinkGlyphs(glyphs, st);
    if b.None? || !st.separateUplinks || |st.uplinks| == 0 || upl == [] || HasExplicitPosition(upl, Keys(positions)) then []
    else
      var first := FirstRect(glyphs, rects);
      var portW := if first.Some? then first.value.w else st.portSize;
      var portH := if first.Some? then first.value.h else portW;
      UplinkPacking(upl, b.value, portW, portH, pitch)
  }

  /** Every packed port is written: the ids a numeric packing writes cover the ports it packs. */
  lemma NumericPackingWritesEvery(main: seq<Glyph>, b: Box, portW: real, portH: real, cap: nat, pitch: int, g: Glyph)
    requires cap >= 1 && b.w >= 10.0 && b.h >= 10.0 && g in main
    ensures g.id in PairIds(NumericPacking(main, b, portW, portH, cap, pitch))
  {
    var sorted := Sort(main, ByName);
    var ws := NumericPacking(main, b, portW, portH, cap, pitch);
    assert g in multiset(sorted);
    var i :| 0 <= i < |sorted| && sorted[i] == g;
    assert ws[i].0 == g.id;
    assert PairIds(ws)[i] == g.id;
  }

  lemma IdsAppend(a: seq<Glyph>, b: seq<Glyph>)
    ensures Ids(a + b) == Ids(a) + Ids(b)
  {
    assert forall i :: 0 <= i < |a| + |b| ==> Ids(a + b)[i] == (Ids(a) + Ids(b))[i];
  }

  /** Filtering one more port of a list adds its id at the end exactly when it is kept. */
  lemma IdsFilterStep(gs: seq<Glyph>, i: int, keep: Glyph -> bool)
    requires 0 <= i < |gs|
    ensures keep(gs[i]) ==> Ids(Filter(gs[..i + 1], keep)) == Ids(Filter(gs[..i], keep)) + [gs[i].id]
    ensures !keep(gs[i]) ==> Ids(Filter(gs[..i + 1], keep)) == Ids(Filter(gs[..i], keep))
  {
    var init, g := gs[..i], gs[i];
    assert gs[..i + 1] == init + [g];
    FilterSnoc(init, g, keep);
    if keep(g) {
      IdsSnoc(Filter(init, keep), g);
    } else {
      assert Filter(init, keep) + [] == Filter(init, keep);
    }
  }

  lemma IdsSnoc(gs: seq<Glyph>, g: Glyph)
    ensures Ids(gs + [g]) == Ids(gs) + [g.id]
  {
    assert forall i :: 0 <= i < |gs| + 1 ==> Ids(gs + [g])[i] == (Ids(gs) + [g.id])[i];
  }

  /** The paired-row layout writes the first group's ids, then the second group's. */
  lemma OddEvenLayoutIds(odds: seq<Glyph>, evens: seq<Glyph>, b: Box, portW: real, portH: real, cap: nat, pitch: int)
    requires cap >= 1
    ensures PairIds(OddEvenLayout(odds, evens, b, portW, portH, cap, pitch)) == Ids(odds) + Ids(evens)
  {
  }

  /** Every packed port is written: the ids an odd/even packing writes cover the ports it packs. */
  lemma OddEvenPackingWritesEvery(main: seq<Glyph>, b: Box, portW: real, portH: real, cap: nat, pitch: int, g: Glyph)
    requires cap >= 1 && g in main
    ensures g.id in PairIds(OddEvenPacking(main, b, portW, portH, cap, pitch))
  {
    OddEvenLayoutIds(Odds(main), Evens(main), b, portW, portH, cap, pitch);
    OddsAndEvensCover(main, g);
    GlyphIdIn(Odds(main) + Evens(main), g);
    IdsAppend(Odds(main), Evens(main));
  }

  /** Every port of the ports box is among its odd-and-unnumbered or its even group. */
  lemma OddsAndEvensCover(main: seq<Glyph>, g: Glyph)
    requires g in main
    ensures g in Odds(main) + Evens(main)
  {
    if IsEvenPort(g) {
      assert g in Filter(main, IsEvenPort);
      assert g in multiset(Evens(main));
    } else {
      assert g in Filter(main, (p: Glyph) => !IsEvenPort(p));
      assert g in multiset(Odds(main));
    }
  }

  /** A port of a list has its id among the list's ids. */
  lemma GlyphIdIn(gs: seq<Glyph>, g: Glyph)
    requires g in gs
    ensures g.id in Ids(gs)
  {
    var k :| 0 <= k < |gs| && gs[k] == g;
    assert Ids(gs)[k] == g.id;
  }

  /** With distinct entity ids, the glyph `setPortXY` looks up for an id is the one carrying it. */
  lemma FirstWithIdFinds(glyphs: seq<Glyph>, k: nat)
    requires Distinct(Ids(glyphs)) && k < |glyphs|
    ensures FirstWithId(glyphs, glyphs[k].id) == k
  {
    var i := FirstWithId(glyphs, glyphs[k].id);
    assert i <= k;
    assert Ids(glyphs)[i] == Ids(glyphs)[k];
  }

  /** A port with a non-blank name is filed under a key that normalises to its name. */
  lemma KeyForNamedPort(glyphs: seq<Glyph>, k: nat)
    requires Distinct(Ids(glyphs)) && k < |glyphs| && Trim(glyphs[k].name) != []
    ensures KeyFor(glyphs, glyphs[k].id) == Trim(glyphs[k].name)
    ensures Norm(KeyFor(glyphs, glyphs[k].id)) == Norm(glyphs[k].name) != []
  {
    FirstWithIdFinds(glyphs, k);
    TrimIdempotent(glyphs[k].name);
  }

  /**
   * A ports-box packing runs once: the positions it writes count as explicit
   * positions, so once it has run (and some packed port has a name), packing
   * again over the resulting map writes nothing. This is why a box drawn
   * with the pointer packs the ports on the first move of the gesture only.
   */
  lemma PackingRunsOnce(glyphs: seq<Glyph>, st: Settings, positions: Fields, portsBox: Option<JVal>,
                        order: string, pitch: int, bbox: Point, g: Glyph)
    requires Distinct(Ids(glyphs)) && UniqueKeys(positions)
    requires g in Mains(glyphs, st) && Trim(g.name) != []
    ensures var ws := PortsPacking(glyphs, st, positions, portsBox, order, pitch, bbox);
      PortsPacking(glyphs, st, PositionsAfter(positions, glyphs, ws), portsBox, order, pitch, bbox) == []
  {
    var ws := PortsPacking(glyphs, st, positions, portsBox, order, pitch, bbox);
    var main := Mains(glyphs, st);
    if ws != [] {
      var b := NormBoxOf(portsBox).value;
      var portW, portH := GlyphExtent(bbox.x), GlyphExtent(bbox.y);
      var cap := ColumnCap(st.portsPerRow);
      if order == OddEven {
        OddEvenPackingWritesEvery(main, b, portW, portH, cap, pitch, g);
      } else {
        NumericPackingWritesEvery(main, b, portW, portH, cap, pitch, g);
      }
      var i :| 0 <= i < |ws| && PairIds(ws)[i] == g.id;
      PositionsAfterKeys(positions, glyphs, ws);
      var after := PositionsAfter(positions, glyphs, ws);
      assert g in glyphs;
      var k :| 0 <= k < |glyphs| && glyphs[k] == g;
      KeyForNamedPort(glyphs, k);
      var key := KeyFor(glyphs, g.id);
      assert key in Keys(after) && Norm(key) != [];
      assert Norm(g.name) in PositionKeys(Keys(after));
      var j :| 0 <= j < |main| && main[j] == g;
      assert HasExplicitPosition(main, Keys(after));
    }
  }

  // ------------------------------------------------------------- fitting

  /** The rect of each member, in order (absent for a port that has none). */
  function RectsOf(members: seq<Glyph>, rects: map<string, Box>): (rs: seq<Option<Box>>)
    ensures |rs| == |members|
    ensures forall i :: 0 <= i < |members| ==> rs[i] == if members[i].id in rects then Some(rects[members[i].id]) else None
  {
    seq(|members|, i requires 0 <= i < |members| => if members[i].id in rects then Some(rects[members[i].id]) else None)
  }

  /** The fitted box over some members' rects, or none when no member has a rect. */
  function FitOver(members: seq<Glyph>, rects: map<string, Box>, minW: real, minH: real): Option<Box>
  {
    var e := ExtentOf(RectsOf(members, rects));
    if e.None? then None else Some(FitBox(e.value, minW, minH))
  }

  /** The ports the ports box encloses when it is fitted: with an entity, not named as uplinks. */
  function NonUplinks(glyphs: seq<Glyph>, st: Settings): seq<Glyph>
  {
    Filter(glyphs, (g: Glyph) => g.id != [] && Norm(g.name) !in st.uplinks)
  }

  /** `fitPortsBoxToPorts`: the new ports box, at least 40 by 40, or none when the tool is off or no such port has a rect. */
  function PortsFit(glyphs: seq<Glyph>, st: Settings, rects: map<string, Box>, portsMode: bool): Option<Box>
  {
    if !portsMode then None else FitOver(NonUplinks(glyphs, st), rects, 40.0, 40.0)
  }

  /**
   * `fitUplinkBoxToPorts`: the new uplinks box, no smaller than the first
   * uplink's rect, or none when uplinks are not set apart, the tool is off or
   * no uplink port has a rect.
   */
  function UplinkFit(glyphs: seq<Glyph>, st: Settings, rects: map<string, Box>, uplinkMode: bool): Option<Box>
  {
    var e := ExtentOf(RectsOf(UplinkGlyphs(glyphs, st), rects));
    if !st.separateUplinks || |st.uplinks| == 0 || !uplinkMode || e.None? then None
    else Some(FitBox(e.value, e.value.firstW, e.value.firstH))
  }

  /** Every port whose name is listed as an uplink, with or without an entity. */
  function NamedUplinks(glyphs: seq<Glyph>, st: Settings): seq<Glyph>
  {
    Filter(glyphs, (g: Glyph) => Norm(g.name) in st.uplinks)
  }

  /** The uplinks box refitted while ports are dragged: over every port named as an uplink, at least 1 by 1. */
  function DragRefit(glyphs: seq<Glyph>, st: Settings, rects: map<string, Box>): Option<Box>
  {
    if !st.separateUplinks || |st.uplinks| == 0 then None
    else FitOver(NamedUplinks(glyphs, st), rects, 1.0, 1.0)
  }

  /**
   * A fitted box is at least its minimum size and, when the members lie at
   * non-negative coordinates, encloses every member's rect.
   */
  lemma FitOverEncloses(members: seq<Glyph>, rects: map<string, Box>, minW: real, minH: real)
    requires forall g :: g in members && g.id in rects ==> rects[g.id].x >= 0.0 && rects[g.id].y >= 0.0
    ensures FitOver(members, rects, minW, minH).None? <==> forall g :: g in members ==> g.id !in rects
    ensures FitOver(members, rects, minW, minH).Some? ==> var b := FitOver(members, rects, minW, minH).value;
      b.w >= minW && b.h >= minH
      && forall g :: g in members && g.id in rects ==>
        b.x <= rects[g.id].x && rects[g.id].x + rects[g.id].w <= b.x + b.w
        && b.y <= rects[g.id].y && rects[g.id].y + rects[g.id].h <= b.y + b.h
  {
    var rs := RectsOf(members, rects);
    ExtentCharacterised(rs);
    if ExtentOf(rs).Some? {
      FitEnclosesMembers(rs, minW, minH);
      forall g | g in members && g.id in rects
        ensures rs[IndexOf(members, g)] == Some(rects[g.id])
      {
      }
    } else {
      forall g | g in members ensures g.id !in rects {
        assert rs[IndexOf(members, g)].None?;
      }
    }
  }

  /** The position of an element of a list. */
  function IndexOf<T(==)>(s: seq<T>, x: T): (i: nat)
    requires x in s
    ensures i < |s| && s[i] == x
    decreases |s|
  {
    if s[0] == x then 0 else 1 + IndexOf(s[1..], x)
  }

  // ------------------------------------------------------------- box gestures

  /** What a box gesture does: draw a new box, move the box, or resize it by a handle. */
  datatype Gesture = Drawing | Moving | Resizing(handle: string)

  /**
   * A box gesture in progress: its pointer, kind and press point, the box
   * as it was at the press (none for a draw) and the start positions of the
   * member ports it carries.
   */
  datatype BoxDrag = BoxDrag(pid: int, kind: Gesture, start: Point, orig: Option<Box>, members: seq<(string, Point)>)

  /** The members a box carries: the ports that pass `keep` and have a rect, with their top-left corners. */
  function Captured(glyphs: seq<Glyph>, rects: map<string, Box>, keep: Glyph -> bool): (ms: seq<(string, Point)>)
    ensures forall i :: 0 <= i < |ms| ==> ms[i].0 in rects && ms[i].1 == TopLeft(rects[ms[i].0])
  {
    var test := (g: Glyph) => g.id != [] && keep(g) && g.id in rects;
    var inside := Filter(glyphs, test);
    forall i | 0 <= i < |inside| ensures inside[i].id in rects {
      assert inside[i] in inside;
      assert test(inside[i]);
    }
    seq(|inside|, i requires 0 <= i < |inside| => (inside[i].id, TopLeft(rects[inside[i].id])))
  }

  /** Each member shifted by the pointer's displacement, snapped. */
  function Shifted(members: seq<(string, Point)>, dx: real, dy: real, pitch: int): (ws: seq<Write>)
    ensures |ws| == |members|
    ensures forall i :: 0 <= i < |ws| ==> ws[i].0 == members[i].0
  {
    seq(|members|, i requires 0 <= i < |members| =>
      (members[i].0, Point(Snap(pitch, members[i].1.x + dx), Snap(pitch, members[i].1.y + dy))))
  }

  /** The writes of a pointer move: the drag's members shifted by the pointer's displacement when it is the dragging pointer, else none. */
  function DragWrites(drag: Option<PortDrag>, pid: int, pt: Point, pitch: int): seq<Write>
  {
    if drag.Some? && drag.value.pid == pid then
      var d := drag.value;
      Shifted(d.members, pt.x - d.start.x, pt.y - d.start.y, pitch)
    else []
  }

  /** Each member carried to the same relative place in the resized box, snapped. */
  function Carried(members: seq<(string, Point)>, b0: Box, nb: Box, pitch: int): (ws: seq<Write>)
    ensures |ws| == |members|
    ensures forall i :: 0 <= i < |ws| ==> ws[i].0 == members[i].0
  {
    seq(|members|, i requires 0 <= i < |members| =>
      var q := Reproject(members[i].1, b0, nb); (members[i].0, Point(Snap(pitch, q.x), Snap(pitch, q.y))))
  }

  /**
   * One pointer move of a box gesture: the new box and the member ports'
   * moves. A draw spans the press point and the pointer; a move shifts the
   * box and its members by the displacement; a resize moves the edges the
   * handle names and carries the members along.
   */
  function BoxStep(d: BoxDrag, current: Option<JVal>, pt: Point, minW: real, minH: real, fallback: Point, pitch: int): (Box, seq<Write>)
  {
    var b0 := if d.orig.Some? then d.orig.value
              else if NormBoxOf(current).Some? then NormBoxOf(current).value
              else Box(pt.x, pt.y, fallback.x, fallback.y);
    var dx, dy := pt.x - d.start.x, pt.y - d.start.y;
    match d.kind
    case Drawing => (DrawBox(d.start, pt, minW, minH), [])
    case Moving => (MoveBox(b0, dx, dy), Shifted(d.members, dx, dy, pitch))
    case Resizing(h) =>
      var nb := ResizeBox(b0, h, dx, dy, minW, minH);
      (nb, Carried(d.members, b0, nb, pitch))
  }

  /**
   * Moving a box carries its members rigidly: with no snapping, the box and
   * every member move by the same displacement, so each member keeps its
   * offset from the box's corner.
   */
  lemma MoveCarriesMembers(d: BoxDrag, current: Option<JVal>, pt: Point, minW: real, minH: real, fallback: Point)
    requires d.kind == Moving && d.orig.Some?
    ensures var (nb, ws) := BoxStep(d, current, pt, minW, minH, fallback, 0);
      |ws| == |d.members|
      && forall i :: 0 <= i < |ws| ==>
        ws[i].0 == d.members[i].0
        && ws[i].1.x - nb.x == d.members[i].1.x - d.orig.value.x
        && ws[i].1.y - nb.y == d.members[i].1.y - d.orig.value.y
  {
  }

  /**
   * Resizing a box keeps its members inside: with no snapping, every member
   * lands in the new box, and a member that was inside the old box keeps its
   * relative position, so resizing back puts it where it was.
   */
  lemma ResizeKeepsMembersInside(d: BoxDrag, current: Option<JVal>, pt: Point, minW: real, minH: real, fallback: Point)
    requires d.kind.Resizing? && d.orig.Some? && minW >= 10.0 && minH >= 10.0
    requires d.orig.value.w >= 10.0 && d.orig.value.h >= 10.0
    ensures var (nb, ws) := BoxStep(d, current, pt, minW, minH, fallback, 0);
      |ws| == |d.members|
      && forall i :: 0 <= i < |ws| ==>
        ws[i].0 == d.members[i].0 && InBox(ws[i].1, nb)
        && (InBox(d.members[i].1, d.orig.value) ==> Reproject(ws[i].1, nb, d.orig.value) == d.members[i].1)
  {
    var (nb, ws) := BoxStep(d, current, pt, minW, minH, fallback, 0);
    var b0 := d.orig.value;
    assert nb == ResizeBox(b0, d.kind.handle, pt.x - d.start.x, pt.y - d.start.y, minW, minH);
    assert nb.w >= 10.0 && nb.h >= 10.0;
    forall i | 0 <= i < |ws|
      ensures InBox(ws[i].1, nb)
      ensures InBox(d.members[i].1, b0) ==> Reproject(ws[i].1, nb, b0) == d.members[i].1
    {
      assert ws[i].1 == Reproject(d.members[i].1, b0, nb);
      if InBox(d.members[i].1, b0) {
        ReprojectRoundTrip(d.members[i].1, b0, nb);
      }
    }
  }

  // ------------------------------------------------------------- selection

  /**
   * The marquee selection: the entity ids of the ports whose rect's
   * top-left corner lies in the dragged rectangle, in page order.
   */
  function MarqueeHits(glyphs: seq<Glyph>, rects: map<string, Box>, s: Point, p: Point): seq<string>
  {
    Ids(Filter(glyphs, MarqueeTest(rects, s, p)))
  }

  /** Whether a port is caught by the marquee from `s` to `p`: it has an entity and its rect's corner lies inside. */
  predicate Caught(rects: map<string, Box>, s: Point, p: Point, g: Glyph)
  {
    g.id in rects && InMarquee(TopLeft(rects[g.id]), s, p) && g.id != []
  }

  function MarqueeTest(rects: map<string, Box>, s: Point, p: Point): Glyph -> bool
  {
    (g: Glyph) => Caught(rects, s, p, g)
  }

  /** The marquee's hits among a list of ports, as the `forEach` collects them: those of all but the last, then the last if caught. */
  function HitsSoFar(gs: seq<Glyph>, rects: map<string, Box>, s: Point, p: Point): seq<string>
    decreases |gs|
  {
    if gs == [] then []
    else
      var g := gs[|gs| - 1];
      HitsSoFar(gs[..|gs| - 1], rects, s, p) + (if Caught(rects, s, p, g) then [g.id] else [])
  }

  /** One more port of the page: its id is collected exactly when it is caught. */
  lemma HitsSoFarStep(gs: seq<Glyph>, rects: map<string, Box>, s: Point, p: Point, i: int)
    requires 0 <= i < |gs|
    ensures Caught(rects, s, p, gs[i]) ==> HitsSoFar(gs[..i + 1], rects, s, p) == HitsSoFar(gs[..i], rects, s, p) + [gs[i].id]
    ensures !Caught(rects, s, p, gs[i]) ==> HitsSoFar(gs[..i + 1], rects, s, p) == HitsSoFar(gs[..i], rects, s, p)
  {
    assert gs[..i + 1][..i] == gs[..i];
  }

  /** Collecting the hits one port at a time gives the filtered ids. */
  lemma {:induction false} HitsSoFarAreMarqueeHits(gs: seq<Glyph>, rects: map<string, Box>, s: Point, p: Point)
    ensures HitsSoFar(gs, rects, s, p) == MarqueeHits(gs, rects, s, p)
    decreases |gs|
  {
    if gs != [] {
      var n, keep := |gs| - 1, MarqueeTest(rects, s, p);
      HitsSoFarAreMarqueeHits(gs[..n], rects, s, p);
      IdsFilterStep(gs, n, keep);
      assert keep(gs[n]) == Caught(rects, s, p, gs[n]);
      assert gs[..n + 1] == gs;
    }
  }

  /**
   * The marquee selects exactly the ports, with an entity and a rect, whose
   * corner is between the two corners of the drag (edges included), each
   * once.
   */
  lemma MarqueeSelectsInside(glyphs: seq<Glyph>, rects: map<string, Box>, s: Point, p: Point, id: string)
    requires Distinct(Ids(glyphs))
    ensures Distinct(MarqueeHits(glyphs, rects, s, p))
    ensures id in MarqueeHits(glyphs, rects, s, p) <==>
      id != [] && id in Ids(glyphs) && id in rects
      && Min(s.x, p.x) <= rects[id].x <= Max(s.x, p.x) && Min(s.y, p.y) <= rects[id].y <= Max(s.y, p.y)
  {
    var keep := MarqueeTest(rects, s, p);
    FilterKeepsDistinctIds(glyphs, keep);
    if id in rects {
      InMarqueeBetweenCorners(TopLeft(rects[id]), s, p);
    }
    if id in MarqueeHits(glyphs, rects, s, p) {
      var k := IndexOf(MarqueeHits(glyphs, rects, s, p), id);
      assert Filter(glyphs, keep)[k] in glyphs;
    }
    if id != [] && id in Ids(glyphs) && id in rects && InMarquee(TopLeft(rects[id]), s, p) {
      var k := IndexOf(Ids(glyphs), id);
      assert glyphs[k] in Filter(glyphs, keep);
      var j := IndexOf(Filter(glyphs, keep), glyphs[k]);
      assert MarqueeHits(glyphs, rects, s, p)[j] == id;
    }
  }

  /** An id is among the ids of a list of ports exactly when some port in it carries it. */
  lemma IdIn(gs: seq<Glyph>, x: string)
    ensures x in Ids(gs) <==> exists g :: g in gs && g.id == x
  {
    if x in Ids(gs) {
      var k := IndexOf(Ids(gs), x);
      assert gs[k] in gs;
    }
    if exists g :: g in gs && g.id == x {
      var g :| g in gs && g.id == x;
      var k := IndexOf(gs, g);
      assert Ids(gs)[k] == x;
    }
  }

  /** Filtering a list of ports with distinct entity ids keeps them distinct. */
  lemma {:induction false} FilterKeepsDistinctIds(glyphs: seq<Glyph>, keep: Glyph -> bool)
    requires Distinct(Ids(glyphs))
    ensures Distinct(Ids(Filter(glyphs, keep)))
    decreases |glyphs|
  {
    if glyphs != [] {
      var tail := glyphs[1..];
      DistinctIdsTail(glyphs);
      FilterKeepsDistinctIds(tail, keep);
      var rest := Filter(tail, keep);
      if keep(glyphs[0]) {
        IdIn(tail, glyphs[0].id);
        IdIn(rest, glyphs[0].id);
        DistinctIdsCons(glyphs[0], rest);
      }
    }
  }

  /** Without its first port, a list with distinct ids still has them, and lacks that port's id. */
  lemma DistinctIdsTail(glyphs: seq<Glyph>)
    requires glyphs != [] && Distinct(Ids(glyphs))
    ensures Distinct(Ids(glyphs[1..])) && glyphs[0].id !in Ids(glyphs[1..])
  {
    var tail := glyphs[1..];
    assert forall i :: 0 <= i < |tail| ==> Ids(tail)[i] == Ids(glyphs)[i + 1];
  }

  /** Without its last port, a list with distinct ids still has them, and lacks that port's id. */
  lemma DistinctIdsInit(glyphs: seq<Glyph>)
    requires glyphs != [] && Distinct(Ids(glyphs))
    ensures Distinct(Ids(glyphs[..|glyphs| - 1])) && glyphs[|glyphs| - 1].id !in Ids(glyphs[..|glyphs| - 1])
  {
    var init := glyphs[..|glyphs| - 1];
    assert forall i :: 0 <= i < |init| ==> Ids(init)[i] == Ids(glyphs)[i];
  }

  /** A port whose id is new, put in front of a list with distinct ids, keeps them distinct. */
  lemma DistinctIdsCons(g: Glyph, rest: seq<Glyph>)
    requires Distinct(Ids(rest)) && g.id !in Ids(rest)
    ensures Distinct(Ids([g] + rest))
  {
    IdsAppend([g], rest);
  }

  /**
   * Pressing a port: with Ctrl or Meta held its membership is toggled (a new
   * one goes last); otherwise a port outside the selection becomes the only
   * one selected and a port inside keeps the group.
   */
  function PressSelect(sel: seq<string>, id: string, toggle: bool): seq<string>
  {
    if toggle then (if id in sel then Filter(sel, (x: string) => x != id) else sel + [id])
    else if id in sel then sel else [id]
  }

  /**
   * Pressing a port keeps the selection free of repeats; a toggle flips the
   * port's membership and leaves every other port's, and a plain press
   * always leaves the port selected.
   */
  lemma PressSelectEffect(sel: seq<string>, id: string, toggle: bool, other: string)
    requires Distinct(sel)
    ensures Distinct(PressSelect(sel, id, toggle))
    ensures toggle ==> (id in PressSelect(sel, id, toggle) <==> id !in sel)
    ensures toggle && other != id ==> (other in PressSelect(sel, id, toggle) <==> other in sel)
    ensures !toggle ==> id in PressSelect(sel, id, toggle)
    ensures !toggle && id !in sel ==> PressSelect(sel, id, toggle) == [id]
  {
    PressSelectKeepsDistinct(sel, id, toggle);
  }

  /** A press never puts an id in the selection twice. */
  lemma PressSelectKeepsDistinct(sel: seq<string>, id: string, toggle: bool)
    requires Distinct(sel)
    ensures Distinct(PressSelect(sel, id, toggle))
  {
    if toggle && id in sel {
      FilterKeepsDistinct(sel, (x: string) => x != id);
    }
  }

  /** Filtering a list without repeats keeps it without repeats. */
  lemma {:induction false} FilterKeepsDistinct<T(!new)>(s: seq<T>, keep: T -> bool)
    requires Distinct(s)
    ensures Distinct(Filter(s, keep))
    decreases |s|
  {
    if s != [] {
      assert Distinct(s[1..]) by {
        assert forall i :: 0 <= i < |s| - 1 ==> s[1..][i] == s[i + 1];
      }
      FilterKeepsDistinct(s[1..], keep);
      var rest := Filter(s[1..], keep);
      if keep(s[0]) {
        assert s[0] !in s[1..];
        assert s[0] !in rest;
      }
    }
  }

  /** The start positions a port drag carries: the selected ports that have a rect, in selection order. */
  function DragMembers(sel: seq<string>, rects: map<string, Box>): (ms: seq<(string, Point)>)
    ensures forall i :: 0 <= i < |ms| ==> ms[i].0 in sel && ms[i].0 in rects && ms[i].1 == TopLeft(rects[ms[i].0])
  {
    var test := (id: string) => id in rects;
    var located := Filter(sel, test);
    forall i | 0 <= i < |located| ensures located[i] in rects {
      assert located[i] in located;
      assert test(located[i]);
    }
    seq(|located|, i requires 0 <= i < |located| => (located[i], TopLeft(rects[located[i]])))
  }

  // ------------------------------------------------------------- the JSON box

  /** `byPortName`: each named port's lower-cased trimmed name to its trimmed entity id; a later port wins. */
  function NameTable(glyphs: seq<Glyph>): map<string, string>
    decreases |glyphs|
  {
    if glyphs == [] then map[]
    else
      var g := glyphs[|glyphs| - 1];
      var m := NameTable(glyphs[..|glyphs| - 1]);
      if Trim(g.name) != [] then m[Lower(Trim(g.name)) := Trim(g.id)] else m
  }

  /** `byEntity`: each lower-cased trimmed entity id to the trimmed id; a later port wins. */
  function EntityTable(glyphs: seq<Glyph>): map<string, string>
    decreases |glyphs|
  {
    if glyphs == [] then map[]
    else
      var g := glyphs[|glyphs| - 1];
      var m := EntityTable(glyphs[..|glyphs| - 1]);
      if Trim(g.id) != [] then m[Lower(Trim(g.id)) := Trim(g.id)] else m
  }

  /** The entity a key of the pasted map names: by port name first, then by entity id, ignoring case; empty when neither matches. */
  function ResolveEntity(glyphs: seq<Glyph>, key: string): string
  {
    var l := Lower(key);
    var byName := if l in NameTable(glyphs) then NameTable(glyphs)[l] else [];
    if byName != [] then byName else if l in EntityTable(glyphs) then EntityTable(glyphs)[l] else []
  }

  /** An accepted entry of the pasted map: the key it is filed under, the port it moves and where to. */
  datatype Resolved = Resolved(key: string, ent: string, at: Point)

  /**
   * One entry `k: v` of the pasted map. It is skipped when the trimmed key
   * is blank, the value is not an object with finite `x` and `y`, or the key
   * names no port; otherwise it is filed under the port's trimmed name (the
   * trimmed key when the port has no name).
   */
  function JsonEntry(glyphs: seq<Glyph>, k: string, v: JVal): (r: Option<Resolved>)
    ensures r.Some? ==> r.value.key != [] && r.value.ent != []
    ensures r.Some? ==> MemberNumber(v, "x") == Some(r.value.at.x) && MemberNumber(v, "y") == Some(r.value.at.y)
  {
    var key := Trim(k);
    var x, y := MemberNumber(v, "x"), MemberNumber(v, "y");
    if key == [] || !Truthy(v) || !IsObject(v) || x.None? || y.None? then None
    else
      var ent := ResolveEntity(glyphs, key);
      if ent == [] then None
      else
        var i := FirstWithId(glyphs, ent);
        var pn := if i < |glyphs| && Trim(glyphs[i].name) != [] then Trim(glyphs[i].name) else key;
        Some(Resolved(pn, ent, Point(x.value, y.value)))
  }

  /** What the JSON box makes of each entry of the pasted map, in order. */
  function Entries(glyphs: seq<Glyph>, fs: Fields): (es: seq<Option<Resolved>>)
    ensures |es| == |fs| && forall i :: 0 <= i < |fs| ==> es[i] == JsonEntry(glyphs, fs[i].0, fs[i].1)
  {
    seq(|fs|, i requires 0 <= i < |fs| => JsonEntry(glyphs, fs[i].0, fs[i].1))
  }

  /** The map the JSON box builds (`next`): each accepted entry filed in order, a later one replacing an earlier one. */
  function LayoutOf(es: seq<Option<Resolved>>): Fields
    decreases |es|
  {
    if es == [] then []
    else
      var prev := LayoutOf(es[..|es| - 1]);
      var e := es[|es| - 1];
      if e.Some? then Put(prev, e.value.key, PointValue(e.value.at.x, e.value.at.y)) else prev
  }

  /** The rects after the JSON box moves each accepted entry's port. */
  function MovesOf(es: seq<Option<Resolved>>, rects: map<string, Box>): map<string, Box>
    decreases |es|
  {
    if es == [] then rects
    else
      var prev := MovesOf(es[..|es| - 1], rects);
      var e := es[|es| - 1];
      if e.Some? then MoveRect(prev, e.value.ent, e.value.at) else prev
  }

  /** One more entry of the JSON box is filed and moved when it is accepted, and skipped otherwise. */
  lemma JsonStep(es: seq<Option<Resolved>>, rects: map<string, Box>, i: int)
    requires 0 <= i < |es|
    ensures LayoutOf(es[..i + 1]) == if es[i].Some? then Put(LayoutOf(es[..i]), es[i].value.key, PointValue(es[i].value.at.x, es[i].value.at.y))
                                     else LayoutOf(es[..i])
    ensures MovesOf(es[..i + 1], rects) == if es[i].Some? then MoveRect(MovesOf(es[..i], rects), es[i].value.ent, es[i].value.at)
                                           else MovesOf(es[..i], rects)
  {
    assert es[..i + 1][..i] == es[..i];
  }

  /** Entry `i` is accepted and filed under `k`. */
  predicate FiledAt(es: seq<Option<Resolved>>, i: int, k: string)
  {
    0 <= i < |es| && es[i].Some? && es[i].value.key == k
  }

  /**
   * The JSON box replaces the map with exactly the accepted entries: a key
   * is present exactly when some accepted entry is filed under it, and it
   * holds the point of the last such entry; no key occurs twice.
   */
  lemma {:induction false} LayoutOfReads(es: seq<Option<Resolved>>, k: string)
    ensures UniqueKeys(LayoutOf(es))
    ensures Get(LayoutOf(es), k).None? <==> forall i :: !FiledAt(es, i, k)
    ensures Get(LayoutOf(es), k).Some? ==>
      exists i :: FiledAt(es, i, k) && (forall j :: i < j ==> !FiledAt(es, j, k))
        && Get(LayoutOf(es), k) == Some(PointValue(es[i].value.at.x, es[i].value.at.y))
    decreases |es|
  {
    if es != [] {
      var n := |es| - 1;
      var init := es[..n];
      LayoutOfReads(init, k);
      assert forall i :: 0 <= i < n ==> init[i] == es[i];
      assert forall i :: i != n ==> (FiledAt(init, i, k) <==> FiledAt(es, i, k));
      var prev := LayoutOf(init);
      var e := es[n];
      if e.Some? {
        var v := PointValue(e.value.at.x, e.value.at.y);
        PutGet(prev, e.value.key, v, k);
        PutKeepsKeysUnique(prev, e.value.key, v);
        if e.value.key == k {
          assert FiledAt(es, n, k);
        } else {
          assert !FiledAt(es, n, k);
        }
      } else {
        assert !FiledAt(es, n, k);
      }
    }
  }

  // ------------------------------------------------------------- the default grid

  /** The trimmed entity ids of the ports that have one, in page order. */
  function GridIds(glyphs: seq<Glyph>): (ids: seq<string>)
    ensures forall i :: 0 <= i < |ids| ==> ids[i] != []
    decreases |glyphs|
  {
    if glyphs == [] then []
    else
      var rest := GridIds(glyphs[..|glyphs| - 1]);
      var id := Trim(glyphs[|glyphs| - 1].id);
      if id != [] then rest + [id] else rest
  }

  /** The port pitch of the default grid: the first port's rect width, else the port size, else 28. */
  function GridPort(glyphs: seq<Glyph>, rects: map<string, Box>, st: Settings): real
  {
    if |glyphs| > 0 && glyphs[0].id in rects then rects[glyphs[0].id].w
    else if st.portSize != 0.0 then st.portSize else 28.0
  }

  /** The left edge of the default grid: the rows centred in the panel less 28 on each side, never left of 28. */
  function GridStart(P: real, st: Settings): (x: real)
    ensures x >= 28.0
  {
    var perRow := ColumnCap(st.portsPerRow);
    28.0 + Max(0.0, ((st.panelWidth - 56.0) - (perRow as real * P + (perRow - 1) as real * st.hGap)) / 2.0)
  }

  /**
   * The "Clear JSON" default grid: the ports with an entity, in page order,
   * `ports_per_row` to a row, one port plus one gap apart, the first row 42
   * below the top.
   */
  function DefaultGrid(glyphs: seq<Glyph>, rects: map<string, Box>, st: Settings, pitch: int): (ws: seq<Write>)
  {
    var ids := GridIds(glyphs);
    var P := GridPort(glyphs, rects, st);
    var x0 := GridStart(P, st);
    seq(|ids|, i requires 0 <= i < |ids| => (ids[i], GridCell(x0, P + st.hGap, P + st.vGap, ColumnCap(st.portsPerRow), i, pitch)))
  }

  /** Write `i` of the default grid moves the `i`-th port with an entity to cell `i`. */
  lemma DefaultGridCells(glyphs: seq<Glyph>, rects: map<string, Box>, st: Settings, pitch: int)
    ensures var ws := DefaultGrid(glyphs, rects, st, pitch);
      var P := GridPort(glyphs, rects, st);
      |ws| == |GridIds(glyphs)|
      && (forall i :: 0 <= i < |ws| ==> ws[i].0 == GridIds(glyphs)[i])
      && (forall i :: 0 <= i < |ws| ==> ws[i].1 == GridCell(GridStart(P, st), P + st.hGap, P + st.vGap, ColumnCap(st.portsPerRow), i, pitch))
  {
  }

  /** Cell `i` of a grid `perRow` wide whose first cell is at `(x0, 42)`, with the given pitches, snapped. */
  function GridCell(x0: real, pitchX: real, pitchY: real, perRow: nat, i: nat, snap: int): Point
    requires perRow >= 1
  {
    Point(Snap(snap, x0 + (i % perRow) as real * pitchX), Snap(snap, 24.0 + (i / perRow) as real * pitchY + 18.0))
  }

  lemma NextInRow(i: nat, r: nat)
    requires r >= 1 && (i + 1) % r != 0
    ensures (i + 1) % r == i % r + 1 && (i + 1) / r == i / r
  {
    var q, m := i / r, i % r;
    assert i == q * r + m;
    if m + 1 < r {
      MulAddDivMod(q, r, m + 1);
    } else {
      assert (q + 1) * r == q * r + r;
      MulAddDivMod(q + 1, r, 0);
    }
  }

  lemma NextRow(i: nat, r: nat)
    requires r >= 1
    ensures (i + r) % r == i % r && (i + r) / r == i / r + 1
  {
    MulAddDivMod(i / r, r, i % r);
    assert i + r == (i / r + 1) * r + i % r;
    MulAddDivMod(i / r + 1, r, i % r);
  }

  /** A step of one along a row or down a column adds one pitch. */
  lemma OneMore(a: nat, c: real)
    ensures (a + 1) as real * c - a as real * c == c
  {
  }

  /** With no snapping, neighbours in a row of a grid are one pitch apart and on the same line. */
  lemma GridRow(x0: real, pitchX: real, pitchY: real, perRow: nat, i: nat)
    requires perRow >= 1 && (i + 1) % perRow != 0
    ensures GridCell(x0, pitchX, pitchY, perRow, i + 1, 0).x - GridCell(x0, pitchX, pitchY, perRow, i, 0).x == pitchX
    ensures GridCell(x0, pitchX, pitchY, perRow, i + 1, 0).y == GridCell(x0, pitchX, pitchY, perRow, i, 0).y
  {
    NextInRow(i, perRow);
    OneMore(i % perRow, pitchX);
  }

  /** With no snapping, a cell of a grid and the one a row below share a column and are one pitch apart. */
  lemma GridColumn(x0: real, pitchX: real, pitchY: real, perRow: nat, i: nat)
    requires perRow >= 1
    ensures GridCell(x0, pitchX, pitchY, perRow, i + perRow, 0).x == GridCell(x0, pitchX, pitchY, perRow, i, 0).x
    ensures GridCell(x0, pitchX, pitchY, perRow, i + perRow, 0).y - GridCell(x0, pitchX, pitchY, perRow, i, 0).y == pitchY
  {
    NextRow(i, perRow);
    OneMore(i / perRow, pitchY);
  }

  /**
   * With no snapping, the default grid starts at the centred left edge, 42
   * down; neighbours in a row are one port plus the horizontal gap apart,
   * and a port and the one a row below it share a column and are one port
   * plus the vertical gap apart.
   */
  lemma DefaultGridSpacing(glyphs: seq<Glyph>, rects: map<string, Box>, st: Settings)
    ensures var ws := DefaultGrid(glyphs, rects, st, 0);
      var P := GridPort(glyphs, rects, st);
      var perRow := ColumnCap(st.portsPerRow);
      (|ws| > 0 ==> ws[0].1 == Point(GridStart(P, st), 42.0))
      && (forall i :: 0 <= i && i + 1 < |ws| && (i + 1) % perRow != 0 ==>
            ws[i + 1].1.x - ws[i].1.x == P + st.hGap && ws[i + 1].1.y == ws[i].1.y)
      && (forall i :: 0 <= i && i + perRow < |ws| ==>
            ws[i + perRow].1.x == ws[i].1.x && ws[i + perRow].1.y - ws[i].1.y == P + st.vGap)
  {
    var ws := DefaultGrid(glyphs, rects, st, 0);
    var P := GridPort(glyphs, rects, st);
    var perRow := ColumnCap(st.portsPerRow);
    DefaultGridCells(glyphs, rects, st, 0);
    GridSpacing(ws, GridStart(P, st), P + st.hGap, P + st.vGap, perRow);
  }

  /** Writes laid on an unsnapped grid are one pitch apart along a row and down a column. */
  lemma GridSpacing(ws: seq<Write>, x0: real, pitchX: real, pitchY: real, perRow: nat)
    requires perRow >= 1
    requires forall i :: 0 <= i < |ws| ==> ws[i].1 == GridCell(x0, pitchX, pitchY, perRow, i, 0)
    ensures |ws| > 0 ==> ws[0].1 == Point(x0, 42.0)
    ensures forall i :: 0 <= i && i + 1 < |ws| && (i + 1) % perRow != 0 ==>
      ws[i + 1].1.x - ws[i].1.x == pitchX && ws[i + 1].1.y == ws[i].1.y
    ensures forall i :: 0 <= i && i + perRow < |ws| ==>
      ws[i + perRow].1.x == ws[i].1.x && ws[i + perRow].1.y - ws[i].1.y == pitchY
  {
    forall i | 0 <= i && i + 1 < |ws| && (i + 1) % perRow != 0
      ensures ws[i + 1].1.x - ws[i].1.x == pitchX && ws[i + 1].1.y == ws[i].1.y
    {
      GridRow(x0, pitchX, pitchY, perRow, i);
    }
    forall i | 0 <= i && i + perRow < |ws|
      ensures ws[i + perRow].1.x == ws[i].1.x && ws[i + perRow].1.y - ws[i].1.y == pitchY
    {
      GridColumn(x0, pitchX, pitchY, perRow, i);
    }
  }

  // ------------------------------------------------------------- align and distribute

  /** `getSelectedGs`: the selected ids that name a rendered port, in selection order. */
  function Selected(sel: seq<string>, glyphs: seq<Glyph>): seq<string>
  {
    Filter(sel, (id: string) => id in Ids(glyphs))
  }

  /** The selected ports with an entity and a rect, in selection order, with their rects. */
  function Located(sel: seq<string>, glyphs: seq<Glyph>, rects: map<string, Box>): (ls: seq<(string, Box)>)
    ensures forall i :: 0 <= i < |ls| ==> ls[i].0 in rects && ls[i].1 == rects[ls[i].0] && ls[i].0 in sel
  {
    var test := (id: string) => id != [] && id in rects;
    var ids := Filter(Selected(sel, glyphs), test);
    forall i | 0 <= i < |ids| ensures ids[i] in rects && ids[i] in sel {
      assert ids[i] in ids;
      assert test(ids[i]);
    }
    seq(|ids|, i requires 0 <= i < |ids| => (ids[i], rects[ids[i]]))
  }

  /** The axis a distribution works along. */
  datatype Axis = X | Y

  function Along(p: Point, axis: Axis): real
  {
    if axis == X then p.x else p.y
  }

  /** `p` with its coordinate along `axis` replaced by `v`. */
  function WithAlong(p: Point, axis: Axis, v: real): (q: Point)
    ensures Along(q, axis) == v
    ensures axis == X ==> q.y == p.y
    ensures axis == Y ==> q.x == p.x
    ensures Along(q, Other(axis)) == Along(p, Other(axis))
  {
    if axis == X then Point(v, p.y) else Point(p.x, v)
  }

  /**
   * `alignRow` (`alignCol` for `Y`): with at least two selected ports and a
   * rect for the first, every selected port with a rect moves onto the first
   * one's line (row: same `y`; column: same `x`), keeping its other
   * coordinate.
   */
  function AlignWrites(sel: seq<string>, glyphs: seq<Glyph>, rects: map<string, Box>, axis: Axis): (ws: seq<Write>)
    ensures ws != [] ==> AlignApplies(sel, glyphs, rects)
    ensures AlignApplies(sel, glyphs, rects) ==> PairIds(ws) == PairIds(Located(sel, glyphs, rects))
    ensures forall i :: 0 <= i < |ws| ==>
      ws[i].0 in sel && ws[i].0 in rects
      && Along(ws[i].1, Other(axis)) == Along(TopLeft(rects[Selected(sel, glyphs)[0]]), Other(axis))
      && Along(ws[i].1, axis) == Along(TopLeft(rects[ws[i].0]), axis)
  {
    var gs := Selected(sel, glyphs);
    if !AlignApplies(sel, glyphs, rects) then []
    else
      var ref := TopLeft(rects[gs[0]]);
      var ls := Located(sel, glyphs, rects);
      var ws := seq(|ls|, i requires 0 <= i < |ls| => (ls[i].0, WithAlong(TopLeft(ls[i].1), Other(axis), Along(ref, Other(axis)))));
      assert PairIds(ws) == PairIds(ls);
      ws
  }

  /** Align acts when at least two selected ports are rendered and the first of them has a rect. */
  predicate AlignApplies(sel: seq<string>, glyphs: seq<Glyph>, rects: map<string, Box>)
  {
    |Selected(sel, glyphs)| >= 2 && Selected(sel, glyphs)[0] in rects
  }

  /** The other axis: aligning a row fixes `y`, aligning a column fixes `x`. */
  function Other(axis: Axis): Axis { if axis == X then Y else X }

  lemma LocatedDistinct(sel: seq<string>, glyphs: seq<Glyph>, rects: map<string, Box>)
    requires Distinct(sel)
    ensures Distinct(PairIds(Located(sel, glyphs, rects)))
  {
    var test := (id: string) => id != [] && id in rects;
    FilterKeepsDistinct(sel, (id: string) => id in Ids(glyphs));
    FilterKeepsDistinct(Selected(sel, glyphs), test);
    assert PairIds(Located(sel, glyphs, rects)) == Filter(Selected(sel, glyphs), test);
  }

  /**
   * After aligning a row (column), every selected port with a rect sits on
   * the first selected port's line with its other coordinate unchanged, and
   * every other port's rect is as it was.
   */
  lemma AlignLinesUp(sel: seq<string>, glyphs: seq<Glyph>, rects: map<string, Box>, axis: Axis)
    requires Distinct(sel)
    ensures var ws := AlignWrites(sel, glyphs, rects, axis);
      var after := RectsAfter(rects, ws);
      var gs := Selected(sel, glyphs);
      after.Keys == rects.Keys
      && (forall k :: k in rects && k !in PairIds(ws) ==> after[k] == rects[k])
      && (ws != [] ==>
            (|gs| >= 2 && gs[0] in rects
             && forall i :: 0 <= i < |ws| ==>
                  ws[i].0 in sel && ws[i].0 in rects
                  && Along(TopLeft(after[ws[i].0]), Other(axis)) == Along(TopLeft(rects[gs[0]]), Other(axis))
                  && Along(TopLeft(after[ws[i].0]), axis) == Along(TopLeft(rects[ws[i].0]), axis)))
  {
    var ws := AlignWrites(sel, glyphs, rects, axis);
    RectsAfterEffect(rects, ws);
    if ws != [] {
      LocatedDistinct(sel, glyphs, rects);
    }
  }

  /** Comparing two located ports by their coordinate along the axis (`a.xy[axis] - b.xy[axis]`, by sign). */
  function ByAxis(axis: Axis): ((string, Box), (string, Box)) -> int
  {
    (a: (string, Box), b: (string, Box)) => Sign(Along(TopLeft(a.1), axis) - Along(TopLeft(b.1), axis))
  }

  function Sign(d: real): int { if d < 0.0 then -1 else if d > 0.0 then 1 else 0 }

  lemma ByAxisAntisymmetric(axis: Axis)
    ensures Antisymmetric(ByAxis(axis))
  {
    forall a: (string, Box), b: (string, Box) ensures ByAxis(axis)(a, b) == -ByAxis(axis)(b, a) {
      var d := Along(TopLeft(a.1), axis) - Along(TopLeft(b.1), axis);
      assert ByAxis(axis)(a, b) == Sign(d);
      assert ByAxis(axis)(b, a) == Sign(-d);
    }
  }

  /**
   * Three or more ports: the first and last (in order along the axis) stay,
   * and the ports between them are spread at equal steps, keeping their other
   * coordinate.
   */
  /** Where the `i`-th of the sorted ports goes: `first + step * i` along the axis. */
  function SpreadPoint(sorted: seq<(string, Box)>, axis: Axis, i: nat): (p: Point)
    requires |sorted| >= 2 && i < |sorted|
    ensures Along(p, axis) == Along(TopLeft(sorted[0].1), axis) + SpreadStep(sorted, axis) * i as real
    ensures Along(p, Other(axis)) == Along(TopLeft(sorted[i].1), Other(axis))
  {
    WithAlong(TopLeft(sorted[i].1), axis, Along(TopLeft(sorted[0].1), axis) + SpreadStep(sorted, axis) * i as real)
  }

  function SpreadEvenly(sorted: seq<(string, Box)>, axis: Axis): (ws: seq<Write>)
    requires |sorted| >= 2
    ensures |ws| == |sorted|
    ensures forall i :: 0 <= i < |ws| ==> ws[i] == (sorted[i].0, SpreadPoint(sorted, axis, i))
  {
    seq(|sorted|, i requires 0 <= i < |sorted| => (sorted[i].0, SpreadPoint(sorted, axis, i)))
  }

  /** The common step between spread ports. */
  function SpreadStep(sorted: seq<(string, Box)>, axis: Axis): real
    requires |sorted| >= 2
  {
    (Along(TopLeft(sorted[|sorted| - 1].1), axis) - Along(TopLeft(sorted[0].1), axis)) / (|sorted| - 1) as real
  }

  lemma DivMul(d: real, m: real)
    requires m > 0.0
    ensures d / m * m == d
  {
  }

  /**
   * Spreading keeps every port's other coordinate and leaves the first and
   * the last port where they were.
   */
  lemma SpreadEvenlyEnds(sorted: seq<(string, Box)>, axis: Axis)
    requires |sorted| >= 2
    ensures var ws := SpreadEvenly(sorted, axis);
      (forall i :: 0 <= i < |sorted| ==> ws[i].0 == sorted[i].0 && Along(ws[i].1, Other(axis)) == Along(TopLeft(sorted[i].1), Other(axis)))
      && ws[0].1 == TopLeft(sorted[0].1) && ws[|sorted| - 1].1 == TopLeft(sorted[|sorted| - 1].1)
  {
    var n := |sorted|;
    var ws := SpreadEvenly(sorted, axis);
    var first := Along(TopLeft(sorted[0].1), axis);
    var step := SpreadStep(sorted, axis);
    DivMul(Along(TopLeft(sorted[n - 1].1), axis) - first, (n - 1) as real);
  }

  /** Consecutive spread ports are one common step apart along the axis. */
  lemma SpreadEvenlySteps(sorted: seq<(string, Box)>, axis: Axis, i: nat)
    requires |sorted| >= 2 && i < |sorted| - 1
    ensures Along(SpreadEvenly(sorted, axis)[i + 1].1, axis) - Along(SpreadEvenly(sorted, axis)[i].1, axis) == SpreadStep(sorted, axis)
  {
    var ws := SpreadEvenly(sorted, axis);
    var first := Along(TopLeft(sorted[0].1), axis);
    var step := SpreadStep(sorted, axis);
    assert ws[i + 1].1 == SpreadPoint(sorted, axis, i + 1) && ws[i].1 == SpreadPoint(sorted, axis, i);
    NextMultiple(first, step, i);
  }

  lemma NextMultiple(first: real, step: real, i: nat)
    ensures (first + step * (i + 1) as real) - (first + step * i as real) == step
  {
  }

  /**
   * Two ports: the second (along the axis) is placed one step after the
   * first, the step being the first port's width plus `gap`; a step that is
   * not positive leaves it where it was.
   */
  function PlacePair(sorted: seq<(string, Box)>, axis: Axis, gap: real): (ws: seq<Write>)
    requires |sorted| == 2
  {
    var step := sorted[0].1.w + gap;
    var v1 := if step > 0.0 then Along(TopLeft(sorted[0].1), axis) + step else Along(TopLeft(sorted[1].1), axis);
    [(sorted[1].0, WithAlong(TopLeft(sorted[1].1), axis, v1))]
  }

  /** Distribute acts when at least two selected ports are rendered and at least two of those have a rect. */
  predicate DistributeApplies(sel: seq<string>, glyphs: seq<Glyph>, rects: map<string, Box>)
  {
    |Selected(sel, glyphs)| >= 2 && |Located(sel, glyphs, rects)| >= 2
  }

  /** `distribute(axis)` with the gap the two-port case adds to the port width. */
  function DistributeWith(sel: seq<string>, glyphs: seq<Glyph>, rects: map<string, Box>, axis: Axis, gap: real): seq<Write>
  {
    var ls := Located(sel, glyphs, rects);
    if !DistributeApplies(sel, glyphs, rects) then []
    else
      var sorted := Sort(ls, ByAxis(axis));
      assert |sorted| == |multiset(sorted)| == |multiset(ls)| == |ls|;
      if |sorted| == 2 then PlacePair(sorted, axis, gap) else SpreadEvenly(sorted, axis)
  }

  /**
   * `distribute` as written: the two-port gap is read from `port_gap`, a
   * key the card's configuration never carries, so it is always 0.
   */
  function DistributeAsWritten(sel: seq<string>, glyphs: seq<Glyph>, rects: map<string, Box>, axis: Axis): seq<Write>
  {
    DistributeWith(sel, glyphs, rects, axis, 0.0)
  }

  /** `distribute` as evidently intended: the two-port gap is the configured gap along the axis. */
  function Distribute(sel: seq<string>, glyphs: seq<Glyph>, rects: map<string, Box>, axis: Axis, st: Settings): seq<Write>
  {
    DistributeWith(sel, glyphs, rects, axis, if axis == X then st.hGap else st.vGap)
  }

  /**
   * The two-port case as written places the second port exactly one port
   * width after the first, flush against it; with the intended gap it lands
   * one port plus the configured gap after it, the spacing of the default
   * grid. With the default gap of 10 the two differ.
   */
  lemma PairSpacing(sorted: seq<(string, Box)>, st: Settings)
    requires |sorted| == 2 && sorted[0].1.w > 0.0 && st.hGap >= 0.0
    ensures PlacePair(sorted, X, 0.0)[0].1.x == sorted[0].1.x + sorted[0].1.w
    ensures PlacePair(sorted, X, st.hGap)[0].1.x == sorted[0].1.x + sorted[0].1.w + st.hGap
    ensures st.hGap > 0.0 ==> PlacePair(sorted, X, 0.0) != PlacePair(sorted, X, st.hGap)
  {
  }

  /**
   * A concrete case: two 18-wide ports selected at x = 0 and x = 100 with
   * the default 10 horizontal gap. As written the second goes to 18,
   * touching the first; intended is 28, one grid pitch.
   */
  lemma PairSpacingExample()
    ensures var ls := [("switch.a", Box(0.0, 0.0, 18.0, 18.0)), ("switch.b", Box(100.0, 0.0, 18.0, 18.0))];
      PlacePair(ls, X, 0.0) == [("switch.b", Point(18.0, 0.0))]
      && PlacePair(ls, X, 10.0) == [("switch.b", Point(28.0, 0.0))]
  {
  }

  // ------------------------------------------------------------- restoring a snapshot

  /** The key `applySnapshot` reads for a port: its trimmed name, else its entity id. */
  function SnapshotKey(g: Glyph): string
  {
    if Trim(g.name) != [] then Trim(g.name) else g.id
  }

  /** Where `applySnapshot` puts a port: the entry under its key, when that has finite `x` and `y`. */
  function SavedPoint(positions: Fields, g: Glyph): Option<Point>
  {
    var key := SnapshotKey(g);
    var xy := if key != [] then Get(positions, key) else None;
    if xy.Some? && MemberNumber(xy.value, "x").Some? && MemberNumber(xy.value, "y").Some?
    then Some(Point(MemberNumber(xy.value, "x").value, MemberNumber(xy.value, "y").value))
    else None
  }

  /** The rects after `applySnapshot` moves each port, in page order. */
  function RestoredRects(glyphs: seq<Glyph>, rects: map<string, Box>, positions: Fields): map<string, Box>
    decreases |glyphs|
  {
    if glyphs == [] then rects
    else
      var g := glyphs[|glyphs| - 1];
      var prev := RestoredRects(glyphs[..|glyphs| - 1], rects, positions);
      var at := SavedPoint(positions, g);
      if at.Some? then MoveRect(prev, g.id, at.value) else prev
  }

  /**
   * Restoring a snapshot moves the rect of every port that has one to the
   * point its usable entry gives, keeping its size, and leaves it alone when
   * the entry is missing or unusable.
   */
  lemma {:induction false} RestoredRectsPlace(glyphs: seq<Glyph>, rects: map<string, Box>, positions: Fields, g: Glyph)
    requires Distinct(Ids(glyphs)) && g in glyphs && g.id in rects
    ensures RestoredRects(glyphs, rects, positions).Keys == rects.Keys
    ensures var b, at := rects[g.id], SavedPoint(positions, g);
      RestoredRects(glyphs, rects, positions)[g.id] == if at.Some? then Box(at.value.x, at.value.y, b.w, b.h) else b
    decreases |glyphs|
  {
    RestoredRectsKeys(glyphs, rects, positions);
    var n := |glyphs| - 1;
    var init := glyphs[..n];
    DistinctIdsInit(glyphs);
    if g == glyphs[n] {
      RestoredRectsUntouched(init, rects, positions, g.id);
      RestoreStepLast(glyphs, rects, positions);
    } else {
      var k :| 0 <= k < |glyphs| && glyphs[k] == g;
      assert k < n && init[k] == g && Ids(init)[k] == g.id;
      RestoredRectsPlace(init, rects, positions, g);
      RestoreStepOther(glyphs, rects, positions, g.id);
    }
  }

  /** Restoring the last port leaves every other port's rect as restoring the others left it. */
  lemma RestoreStepOther(glyphs: seq<Glyph>, rects: map<string, Box>, positions: Fields, id: string)
    requires glyphs != [] && id != glyphs[|glyphs| - 1].id && id in rects
    ensures id in RestoredRects(glyphs[..|glyphs| - 1], rects, positions)
    ensures RestoredRects(glyphs, rects, positions)[id] == RestoredRects(glyphs[..|glyphs| - 1], rects, positions)[id]
  {
    RestoredRectsKeys(glyphs[..|glyphs| - 1], rects, positions);
  }

  /** Restoring the last port moves its rect to its entry's point, or leaves it. */
  lemma RestoreStepLast(glyphs: seq<Glyph>, rects: map<string, Box>, positions: Fields)
    requires glyphs != [] && glyphs[|glyphs| - 1].id in RestoredRects(glyphs[..|glyphs| - 1], rects, positions)
    ensures var g := glyphs[|glyphs| - 1];
      var b, at := RestoredRects(glyphs[..|glyphs| - 1], rects, positions)[g.id], SavedPoint(positions, g);
      RestoredRects(glyphs, rects, positions)[g.id] == if at.Some? then Box(at.value.x, at.value.y, b.w, b.h) else b
  {
  }

  lemma {:induction false} RestoredRectsKeys(glyphs: seq<Glyph>, rects: map<string, Box>, positions: Fields)
    ensures RestoredRects(glyphs, rects, positions).Keys == rects.Keys
    decreases |glyphs|
  {
    if glyphs != [] {
      RestoredRectsKeys(glyphs[..|glyphs| - 1], rects, positions);
    }
  }

  lemma {:induction false} RestoredRectsUntouched(glyphs: seq<Glyph>, rects: map<string, Box>, positions: Fields, id: string)
    requires id !in Ids(glyphs) && id in rects
    ensures id in RestoredRects(glyphs, rects, positions) && RestoredRects(glyphs, rects, positions)[id] == rects[id]
    decreases |glyphs|
  {
    if glyphs != [] {
      var n := |glyphs| - 1;
      assert Ids(glyphs) == Ids(glyphs[..n]) + [glyphs[n].id];
      RestoredRectsKeys(glyphs[..n], rects, positions);
      RestoredRectsUntouched(glyphs[..n], rects, positions, id);
    }
  }

  // ------------------------------------------------------------- editor state

  /** The live map together with the drawn rects: what every placement changes. */
  datatype Layout = Layout(positions: Fields, rects: map<string, Box>)

  /** The layout after `setPortXY` of each write in order. */
  function Placed(l: Layout, glyphs: seq<Glyph>, ws: seq<Write>): Layout
  {
    Layout(PositionsAfter(l.positions, glyphs, ws), RectsAfter(l.rects, ws))
  }

  /** A marquee selection in progress: its pointer and press point. */
  datatype Marquee = Marquee(pid: int, start: Point)

  /** A port drag in progress: its pointer, its press point and the start positions of the ports it carries. */
  datatype PortDrag = PortDrag(pid: int, start: Point, members: seq<(string, Point)>)

  /** The ports a ports-box move or resize carries: those not named as uplinks, with a rect. */
  function PortsBoxMembers(glyphs: seq<Glyph>, st: Settings, rects: map<string, Box>): seq<(string, Point)>
  {
    Captured(glyphs, rects, (g: Glyph) => Norm(g.name) !in st.uplinks)
  }

  /** The ports an uplinks-box move or resize carries: those named as uplinks, with a rect. */
  function UplinkBoxMembers(glyphs: seq<Glyph>, st: Settings, rects: map<string, Box>): seq<(string, Point)>
  {
    Captured(glyphs, rects, (g: Glyph) => Norm(g.name) in st.uplinks)
  }

  /** A box record, replaced by `d` when it is not a usable box (turning a box tool on). */
  function WithDefault(current: Option<JVal>, d: Box): Option<JVal>
  {
    if NormBoxOf(current).Some? then current else Some(BoxValue(d))
  }

  /** A box record after a fit: the fitted box when there is one, otherwise as it was. */
  function FittedBox(fit: Option<Box>, current: Option<JVal>): Option<JVal>
  {
    if fit.Some? then Some(BoxValue(fit.value)) else current
  }

  /** Turning a box tool on leaves a usable box: the record kept when it is usable, else the default. */
  lemma WithDefaultUsable(current: Option<JVal>, d: Box)
    ensures NormBoxOf(WithDefault(current, d)).Some?
    ensures NormBoxOf(current).Some? ==> WithDefault(current, d) == current
    ensures NormBoxOf(current).None? ==> NormBoxOf(WithDefault(current, d)) == Some(NormBox(d))
  {
    BoxValueRoundTrip(d);
  }

  /** A fit reads back as the fitted box (at least 10 by 10); without a fit the record is untouched. */
  lemma FittedBoxReads(fit: Option<Box>, current: Option<JVal>)
    ensures fit.Some? ==> NormBoxOf(FittedBox(fit, current)) == Some(NormBox(fit.value))
    ensures fit.None? ==> FittedBox(fit, current) == current
  {
    if fit.Some? {
      BoxValueRoundTrip(fit.value);
    }
  }

  /** A box tool that comes on always ends with a usable box, fitted or not. */
  lemma OpenedBoxUsable(fit: Option<Box>, current: Option<JVal>, d: Box)
    ensures NormBoxOf(FittedBox(fit, WithDefault(current, d))).Some?
  {
    WithDefaultUsable(current, d);
    FittedBoxReads(fit, WithDefault(current, d));
  }

  /** `v || null` for a box record read back from a snapshot. */
  function OrNull(v: Option<JVal>): (r: Option<JVal>)
    ensures r.Some? ==> r == v && Truthy(r.value)
  {
    if v.Some? && Truthy(v.value) then v else None
  }

  // ------------------------------------------------------------- the snap field

  /** The longest run of decimal digits at the start of `s`. */
  function DigitRun(s: string): (d: string)
    ensures AllDigits(d) && |d| <= |s| && d == s[..|d|]
    ensures |d| < |s| ==> !IsDigit(s[|d|])
    decreases |s|
  {
    if s != [] && IsDigit(s[0]) then
      var rest := DigitRun(s[1..]);
      assert ([s[0]] + rest)[1..] == rest;
      [s[0]] + rest
    else []
  }

  /**
   * `parseInt(s, 10)`: leading white space is skipped, an optional sign is
   * read, then the digits up to the first non-digit; `None` (`NaN`) when
   * there are none.
   */
  function ParseInt(s: string): (r: Option<int>)
    ensures r.Some? ==> exists k :: 0 <= k < |s| && IsDigit(s[k])
  {
    var t := TrimStart(s);
    TrimStartDropsSpace(s);
    var signed := t != [] && (t[0] == '-' || t[0] == '+');
    var body := if signed then t[1..] else t;
    var d := DigitRun(body);
    if d == [] then None
    else
      assert IsDigit(s[|s| - |body|]);
      Some(if signed && t[0] == '-' then -(NumeralValue(d) as int) else NumeralValue(d))
  }

  /** The snap pitch the snap field sets: `parseInt(value, 10) || 0`. */
  function SnapFrom(value: string): int
  {
    var n := ParseInt(value);
    if n.Some? then n.value else 0
  }

  /** Reading back the pitch the snap field shows (`String(snap)`) gives the pitch. */
  lemma SnapFieldRoundTrip(pitch: nat)
    ensures SnapFrom(NatToString(pitch)) == pitch
  {
    var s := NatToString(pitch);
    assert TrimStart(s) == s by {
      assert !IsSpace(s[0]);
    }
    assert s[0] != '-' && s[0] != '+';
    AllDigitsRun(s);
    NatToStringValue(pitch);
  }

  /** A string of digits is its own digit run. */
  lemma {:induction false} AllDigitsRun(s: string)
    requires AllDigits(s)
    ensures DigitRun(s) == s
    decreases |s|
  {
    if s != [] {
      AllDigitsRun(s[1..]);
    }
  }
}
