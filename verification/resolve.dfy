/**
 * Where the panel view draws each port: the slot of the default grid, unless
 * a position map has an entry for the port, in which case each finite
 * coordinate of the entry replaces the slot's; the configured offsets are
 * added last. The position map is the editor's live map while the editor is
 * on, else the saved layout, else the configured `port_positions`; its keys
 * are matched trimmed and case-insensitively.
 */
module Resolve {
  import opened Text
  import opened Json
  import opened Geometry
  import Config
  import Storage

  /** The position map the panel reads, by precedence; `None` when there is none. */
  function PositionSource(calibrating: bool, live: Option<JVal>, stored: Option<Storage.Record>, configured: Option<JVal>): (r: Option<JVal>)
    ensures r.Some? ==> IsObject(r.value)
    ensures calibrating && live.Some? && IsObject(live.value) ==> r == live
    ensures (!(calibrating && live.Some? && IsObject(live.value)) && stored.Some? && IsObject(stored.value.positions))
              ==> r == Some(stored.value.positions)
    ensures r.None? <==>
              !(calibrating && live.Some? && IsObject(live.value))
              && !(stored.Some? && IsObject(stored.value.positions))
              && !(configured.Some? && IsObject(configured.value))
    ensures r.Some? ==> r == live || r == configured || (stored.Some? && r == Some(stored.value.positions))
  {
    if calibrating && live.Some? && IsObject(live.value) then live
    else if stored.Some? && IsObject(stored.value.positions) then Some(stored.value.positions)
    else if configured.Some? && IsObject(configured.value) then configured
    else None
  }

  /**
   * The lookup table built from a position map's entries, keyed by the
   * normalised key; of two keys that normalise alike, the later entry wins.
   */
  function NormMap(fs: Fields): (m: map<string, JVal>)
    ensures forall i :: 0 <= i < |fs| ==> Norm(fs[i].0) in m
    ensures |fs| > 0 ==> m[Norm(fs[|fs| - 1].0)] == fs[|fs| - 1].1
    decreases |fs|
  {
    if fs == [] then map[]
    else
      var n := |fs| - 1;
      var init := NormMap(fs[..n]);
      assert forall i :: 0 <= i < n ==> fs[..n][i] == fs[i];
      init[Norm(fs[n].0) := fs[n].1]
  }

  /** Entry `i` is the last one whose key normalises to `k`. */
  predicate LastWith(fs: Fields, k: string, i: int)
  {
    0 <= i < |fs| && Norm(fs[i].0) == k && forall j :: i < j < |fs| ==> Norm(fs[j].0) != k
  }

  /** Every key of the table comes from an entry, and reads that of the last entry normalising to it. */
  lemma {:induction false} NormMapLast(fs: Fields, k: string) returns (i: nat)
    requires k in NormMap(fs)
    ensures LastWith(fs, k, i) && NormMap(fs)[k] == fs[i].1
    decreases |fs|
  {
    var n := |fs| - 1;
    if Norm(fs[n].0) == k {
      i := n;
    } else {
      var init := fs[..n];
      assert NormMap(fs) == NormMap(init)[Norm(fs[n].0) := fs[n].1];
      i := NormMapLast(init, k);
      assert init[i] == fs[i];
      assert forall j :: i < j < n ==> init[j] == fs[j];
    }
  }

  /** The table has a key exactly when some entry's key normalises to it. */
  lemma NormMapDomain(fs: Fields, k: string)
    ensures k in NormMap(fs) <==> exists i :: 0 <= i < |fs| && Norm(fs[i].0) == k
  {
    if k in NormMap(fs) {
      var i := NormMapLast(fs, k);
    }
  }

  /** The entry for a port: by its normalised name, or (when that is missing or falsy) by its normalised object id. */
  function Lookup(table: map<string, JVal>, name: string, id: string): (r: Option<JVal>)
    ensures Norm(name) in table && Truthy(table[Norm(name)]) ==> r == Some(table[Norm(name)])
    ensures !(Norm(name) in table && Truthy(table[Norm(name)])) ==>
              r == (if Norm(IdSuffix(id)) in table then Some(table[Norm(IdSuffix(id))]) else None)
  {
    if Norm(name) in table && Truthy(table[Norm(name)]) then Some(table[Norm(name)])
    else if Norm(IdSuffix(id)) in table then Some(table[Norm(IdSuffix(id))])
    else None
  }

  /** The default-grid slot of the `i`-th panel port: column `i % perRow`, row `i / perRow`. */
  function GridSlot(start: Point, pitchX: real, pitchY: real, perRow: nat, i: nat): (p: Point)
    requires perRow >= 1
    ensures p.x == start.x + (i % perRow) as real * pitchX
    ensures p.y == start.y + (i / perRow) as real * pitchY
  {
    Point(start.x + (i % perRow) as real * pitchX, start.y + (i / perRow) as real * pitchY)
  }

  /** `Number.isFinite(v) ? v : 0` for a configured offset: only a number is taken. */
  function Offset(v: Option<JVal>): real
  {
    if v.Some? && v.value.JNum? then v.value.n else 0.0
  }

  /**
   * The drawn top-left of a port: its slot, overridden coordinate by
   * coordinate by a finite value of its entry (when the entry is an object),
   * plus the offsets.
   */
  function PortPosition(slot: Point, source: Option<JVal>, name: string, id: string, off: Point): (p: Point)
  {
    var ov := EntryFor(source, name, id);
    Point(CoordOr(ov, "x", slot.x) + off.x, CoordOr(ov, "y", slot.y) + off.y)
  }

  /** The entry the panel finds for a port in the position map, if any. */
  function EntryFor(source: Option<JVal>, name: string, id: string): Option<JVal>
  {
    if source.Some? then Lookup(NormMap(Config.Spread(source.value)), name, id) else None
  }

  /** A coordinate of the entry when the entry is an object and the coordinate is finite, else the default. */
  function CoordOr(ov: Option<JVal>, k: string, d: real): real
  {
    if ov.Some? && IsObject(ov.value) && MemberNumber(ov.value, k).Some? then MemberNumber(ov.value, k).value else d
  }

  /** With no position map, or no entry for the port, the port is drawn at its slot, shifted by the offsets. */
  lemma NoEntryKeepsSlot(slot: Point, source: Option<JVal>, name: string, id: string, off: Point)
    requires source.None? || forall k :: HasKey(Config.Spread(source.value), k) ==> Norm(k) != Norm(name) && Norm(k) != Norm(IdSuffix(id))
    ensures PortPosition(slot, source, name, id, off) == Point(slot.x + off.x, slot.y + off.y)
  {
    if source.Some? {
      var fs := Config.Spread(source.value);
      var table := NormMap(fs);
      forall i | 0 <= i < |fs| ensures Norm(fs[i].0) != Norm(name) && Norm(fs[i].0) != Norm(IdSuffix(id)) {
        KeysAt(fs, i);
      }
      NormMapDomain(fs, Norm(name));
      NormMapDomain(fs, Norm(IdSuffix(id)));
    }
  }

  /**
   * Each coordinate of an entry found by name is used when it is finite; a
   * coordinate that is not (missing, text that is no number, ...) keeps the slot's.
   */
  lemma EntryOverridesFiniteCoordinates(slot: Point, source: JVal, name: string, id: string, off: Point)
    requires var table := NormMap(Config.Spread(source));
      Norm(name) in table && table[Norm(name)].JObj?
    ensures var entry := NormMap(Config.Spread(source))[Norm(name)];
      var p := PortPosition(slot, Some(source), name, id, off);
      p.x == (if MemberNumber(entry, "x").Some? then MemberNumber(entry, "x").value else slot.x) + off.x
      && p.y == (if MemberNumber(entry, "y").Some? then MemberNumber(entry, "y").value else slot.y) + off.y
  {
    var table := NormMap(Config.Spread(source));
    var entry := table[Norm(name)];
    assert Truthy(entry) && IsObject(entry);
    assert Lookup(table, name, id) == Some(entry);
    assert EntryFor(Some(source), name, id) == Some(entry);
  }

  /**
   * A port the editor has just placed, while the editor is on, is drawn where
   * it was placed (plus the offsets): the editor keys its map by the trimmed
   * port name, and the panel finds that key again by the normalised name,
   * provided no other key of the map normalises to the same name.
   */
  lemma PlacedPortIsDrawnThere(slot: Point, live: Fields, stored: Option<Storage.Record>, configured: Option<JVal>,
                               name: string, id: string, x: real, y: real, off: Point)
    requires UniqueKeys(live)
    requires forall k :: HasKey(live, k) && k != Trim(name) ==> Norm(k) != Norm(name)
    ensures var edited := JObj(Put(live, Trim(name), PointValue(x, y)));
      PortPosition(slot, PositionSource(true, Some(edited), stored, configured), name, id, off) == Point(x + off.x, y + off.y)
  {
    TrimIdempotent(name);
    TableReadsWrite(live, Trim(name), PointValue(x, y), Norm(name));
  }

  /** After writing key `key`, the table reads the written value under the key's normal form, if no other key shares it. */
  lemma TableReadsWrite(live: Fields, key: string, v: JVal, nk: string)
    requires UniqueKeys(live) && Norm(key) == nk
    requires forall k :: HasKey(live, k) && k != key ==> Norm(k) != nk
    ensures nk in NormMap(Put(live, key, v)) && NormMap(Put(live, key, v))[nk] == v
  {
    var fs := Put(live, key, v);
    PutKeys(live, key, v);
    PutKeepsKeysUnique(live, key, v);
    PutGet(live, key, v, key);
    var i0 := KeyIndex(fs, key);
    NormMapDomain(fs, nk);
    var i := NormMapLast(fs, nk);
    KeysAt(fs, i);
    assert fs[i].0 == key by {
      if fs[i].0 != key {
        assert HasKey(live, fs[i].0);
      }
    }
    forall j | 0 <= j < i ensures fs[j].0 != fs[i].0 {
      KeysAt(fs, j);
    }
    GetIndex(fs, i);
  }
}
