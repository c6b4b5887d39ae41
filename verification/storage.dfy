/**
 * The saved layout (`_calibStorageKey`, `_loadCalibMapFromStorage`,
 * `_persistCalibMapToStorage`): one record per device prefix and background
 * image, holding the position map, the two boxes and the ports order, with
 * a fallback for the older records that were the bare position map.
 */
module Storage {
  import opened Text
  import opened Json

  /**
   * What the browser's storage holds under a key, already read as JSON: the
   * empty text, text that does not parse, or a parsed document.
   */
  datatype Raw = Blank | Malformed | Doc(doc: JVal)

  /** The storage area: key to stored text. A missing key reads as `null`. */
  type Store = map<string, Raw>

  /** The loaded record: version, time stamp, position map and the optional extras. */
  datatype Record = Record(v: real, ts: real, positions: JVal, uplinkBox: Option<JVal>, portsBox: Option<JVal>, portsOrder: Option<string>)

  /** `_calibStorageKey`: scoped by device prefix (`unknown` when there is none) and background image. */
  function StorageKey(prefix: string, background: string): (k: string)
    ensures prefix != [] ==> k == "ssm_calib_v2:" + prefix + ":" + background
    ensures prefix == [] ==> k == "ssm_calib_v2:unknown:" + background
  {
    "ssm_calib_v2:" + (if prefix != [] then prefix else "unknown") + ":" + background
  }

  /** Different prefixes or backgrounds without a colon give different keys. */
  lemma StorageKeysDistinct(p1: string, b1: string, p2: string, b2: string)
    requires ':' !in p1 && ':' !in p2
    requires StorageKey(p1, b1) == StorageKey(p2, b2)
    ensures (if p1 != [] then p1 else "unknown") == (if p2 != [] then p2 else "unknown") && b1 == b2
  {
    var q1 := if p1 != [] then p1 else "unknown";
    var q2 := if p2 != [] then p2 else "unknown";
    var head := "ssm_calib_v2:";
    var k := StorageKey(p1, b1);
    assert k == head + (q1 + ([':'] + b1)) == head + (q2 + ([':'] + b2));
    var t1, t2 := q1 + ([':'] + b1), q2 + ([':'] + b2);
    assert t1 == k[|head|..] == t2;
    assert ':' !in q1 && ':' !in q2;
    ColonAt(q1, b1, q2, b2);
    assert q1 == t1[..|q1|] == t2[..|q2|] == q2;
    assert b1 == t1[|q1| + 1..] == t2[|q2| + 1..] == b2;
  }

  /** The first colon of `q + ":" + b` sits right after `q` when `q` has none. */
  lemma ColonAt(q1: string, b1: string, q2: string, b2: string)
    requires ':' !in q1 && ':' !in q2
    requires q1 + ([':'] + b1) == q2 + ([':'] + b2)
    ensures |q1| == |q2|
  {
    var t := q1 + ([':'] + b1);
    assert forall j :: 0 <= j < |q1| ==> t[j] == q1[j] != ':';
    assert forall j :: 0 <= j < |q2| ==> t[j] == q2[j] != ':';
    assert t[|q1|] == ':' && t[|q2|] == ':';
  }

  /** `typeof v === "object" && v` for a member that may be missing. */
  function ObjectOrNull(v: Option<JVal>): (r: Option<JVal>)
    ensures r.Some? ==> IsObject(r.value) && r == v
  {
    if v.Some? && IsObject(v.value) then v else None
  }

  /** `typeof v === "string" ? v : null`. */
  function TextOrNull(v: Option<JVal>): (r: Option<string>)
    ensures r.Some? <==> v.Some? && v.value.JStr?
    ensures r.Some? ==> v.value == JStr(r.value)
  {
    if v.Some? && v.value.JStr? then Some(v.value.s) else None
  }

  /** `Number(x) || d`: the number when it is finite and non-zero, else the default. */
  function NumberOr(x: Option<real>, d: real): real
  {
    if x.Some? && x.value != 0.0 then x.value else d
  }

  /**
   * An older record: an object with none of the keys `map`, `ts`, `v`. An
   * array is not one: it inherits `map` from `Array.prototype`, so the test
   * `!("map" in obj)` fails for it.
   */
  predicate IsLegacy(j: JVal)
  {
    j.JObj? && !HasKey(j.fields, "map") && !HasKey(j.fields, "ts") && !HasKey(j.fields, "v")
  }

  /** `_loadCalibMapFromStorage`. */
  function Load(store: Store, key: string): (r: Option<Record>)
    ensures r.Some? ==> key in store && store[key].Doc? && store[key].doc.JObj? && IsObject(r.value.positions)
  {
    if key !in store || !store[key].Doc? then None
    else
      var obj := store[key].doc;
      if IsLegacy(obj) then Some(Record(1.0, 0.0, obj, None, None, None))
      else if obj.JObj? && Get(obj.fields, "map").Some? && IsObject(Get(obj.fields, "map").value) then
        var fs := obj.fields;
        Some(Record(NumberOr(NumberAt(fs, "v"), 2.0), NumberOr(NumberAt(fs, "ts"), 0.0), Get(fs, "map").value,
                    ObjectOrNull(Get(fs, "uplink_box")), ObjectOrNull(Get(fs, "ports_box")),
                    TextOrNull(Get(fs, "ports_order"))))
      else None
  }

  /** A box as saved: the box when it is an object, else `null`. */
  function BoxOrNull(v: Option<JVal>): (j: JVal)
    ensures ObjectOrNull(Some(j)) == ObjectOrNull(v)
  {
    if ObjectOrNull(v).Some? then v.value else JNull
  }

  /** The order as saved: `numeric` stands in for an empty one. */
  function OrderOrNumeric(order: string): (r: string)
    ensures r != []
  {
    if order != [] then order else "numeric"
  }

  /** `_persistCalibMapToStorage`: the version-2 document written for the current layout. */
  function RecordDoc(ts: real, positions: Fields, uplinkBox: Option<JVal>, portsBox: Option<JVal>, portsOrder: string): JVal
  {
    JObj([("v", JNum(2.0)), ("ts", JNum(ts)), ("map", JObj(positions)),
          ("uplink_box", BoxOrNull(uplinkBox)), ("ports_box", BoxOrNull(portsBox)),
          ("ports_order", JStr(OrderOrNumeric(portsOrder)))])
  }

  /** The new storage area after saving. */
  function Persist(store: Store, key: string, ts: real, positions: Fields, uplinkBox: Option<JVal>, portsBox: Option<JVal>, portsOrder: string): (s: Store)
    ensures key in s && forall k :: k in store && k != key ==> k in s && s[k] == store[k]
  {
    store[key := Doc(RecordDoc(ts, positions, uplinkBox, portsBox, portsOrder))]
  }

  /**
   * Loading what was just saved gives back the position map, the boxes that
   * were objects, the order (`numeric` for an empty one), version 2 and the
   * time stamp.
   */
  lemma PersistThenLoad(store: Store, key: string, ts: real, positions: Fields, uplinkBox: Option<JVal>, portsBox: Option<JVal>, portsOrder: string)
    ensures Load(Persist(store, key, ts, positions, uplinkBox, portsBox, portsOrder), key)
         == Some(Record(2.0, ts, JObj(positions), ObjectOrNull(uplinkBox), ObjectOrNull(portsBox),
                        Some(OrderOrNumeric(portsOrder))))
  {
    var fs := RecordDoc(ts, positions, uplinkBox, portsBox, portsOrder).fields;
    var s2 := Persist(store, key, ts, positions, uplinkBox, portsBox, portsOrder);
    assert DocShape(fs);
    LoadShaped(s2, key, fs);
  }

  /** How a document laid out as `RecordDoc` writes it loads. */
  lemma LoadShaped(store: Store, key: string, fs: Fields)
    requires key in store && store[key] == Doc(JObj(fs)) && DocShape(fs) && IsObject(fs[2].1)
    ensures Load(store, key) == Some(Record(NumberOr(NumberOf(fs[0].1), 2.0), NumberOr(NumberOf(fs[1].1), 0.0), fs[2].1,
                                            ObjectOrNull(Some(fs[3].1)), ObjectOrNull(Some(fs[4].1)), TextOrNull(Some(fs[5].1))))
  {
    DocHead(fs);
    DocBoxes(fs);
    DocOrder(fs);
    LoadVersioned(store, key, fs);
  }

  /** How a versioned object loads. */
  lemma LoadVersioned(store: Store, key: string, fs: Fields)
    requires key in store && store[key] == Doc(JObj(fs))
    requires HasKey(fs, "v") && Get(fs, "map").Some? && IsObject(Get(fs, "map").value)
    ensures Load(store, key) == Some(Record(NumberOr(NumberAt(fs, "v"), 2.0), NumberOr(NumberAt(fs, "ts"), 0.0), Get(fs, "map").value,
                    ObjectOrNull(Get(fs, "uplink_box")), ObjectOrNull(Get(fs, "ports_box")),
                    TextOrNull(Get(fs, "ports_order"))))
  {
  }

  predicate DocShape(fs: Fields)
  {
    |fs| == 6 && fs[0].0 == "v" && fs[1].0 == "ts" && fs[2].0 == "map"
    && fs[3].0 == "uplink_box" && fs[4].0 == "ports_box" && fs[5].0 == "ports_order"
  }

  lemma DocHead(fs: Fields)
    requires DocShape(fs)
    ensures Get(fs, "v") == Some(fs[0].1) && Get(fs, "ts") == Some(fs[1].1) && Get(fs, "map") == Some(fs[2].1)
  {
    assert fs[1..][1..] == fs[2..];
    assert fs[1..][0].0 != "v";
    assert Get(fs, "ts") == Get(fs[1..], "ts");
    assert Get(fs, "map") == Get(fs[1..], "map") == Get(fs[2..], "map");
  }

  lemma DocBoxes(fs: Fields)
    requires DocShape(fs)
    ensures Get(fs, "uplink_box") == Some(fs[3].1) && Get(fs, "ports_box") == Some(fs[4].1)
  {
    assert fs[1..][1..] == fs[2..] && fs[2..][1..] == fs[3..] && fs[3..][1..] == fs[4..];
    var u := "uplink_box";
    assert fs[0].0 != u && fs[1..][0].0 != u && fs[2..][0].0 != u;
    assert Get(fs, u) == Get(fs[1..], u) == Get(fs[2..], u) == Get(fs[3..], u);
    var p := "ports_box";
    assert fs[0].0 != p && fs[1..][0].0 != p && fs[2..][0].0 != p && fs[3..][0].0 != p;
    assert Get(fs, p) == Get(fs[1..], p) == Get(fs[2..], p) == Get(fs[3..], p) == Get(fs[4..], p);
  }

  lemma DocOrder(fs: Fields)
    requires DocShape(fs)
    ensures Get(fs, "ports_order") == Some(fs[5].1)
  {
    assert fs[1..][1..] == fs[2..] && fs[2..][1..] == fs[3..] && fs[3..][1..] == fs[4..] && fs[4..][1..] == fs[5..];
    var o := "ports_order";
    assert fs[0].0 != o && fs[1..][0].0 != o && fs[2..][0].0 != o && fs[3..][0].0 != o;
    assert fs[4..][0].0 != o by {
      assert "ports_box"[6] == 'b' && o[6] == 'o';
    }
    assert Get(fs, o) == Get(fs[1..], o) == Get(fs[2..], o) == Get(fs[3..], o) == Get(fs[4..], o) == Get(fs[5..], o);
  }

  /** A bare position map (an object without `map`, `ts` or `v`) loads as a version-1 record. */
  lemma LegacyLoads(store: Store, key: string)
    requires key in store && store[key].Doc? && IsLegacy(store[key].doc)
    ensures Load(store, key) == Some(Record(1.0, 0.0, store[key].doc, None, None, None))
  {
  }

  /**
   * Nothing loads from a missing key, empty or malformed text, a document
   * that is not an object, an array (its inherited `map` is a function, not
   * an object), or a versioned object whose `map` is not an object.
   */
  lemma RejectedRecords(store: Store, key: string)
    ensures key !in store ==> Load(store, key).None?
    ensures key in store && (store[key] == Blank || store[key] == Malformed) ==> Load(store, key).None?
    ensures key in store && store[key].Doc? && !IsObject(store[key].doc) ==> Load(store, key).None?
    ensures key in store && store[key].Doc? && store[key].doc.JArr? ==> Load(store, key).None?
    ensures key in store && store[key].Doc? && store[key].doc.JObj? && !IsLegacy(store[key].doc)
            && (Get(store[key].doc.fields, "map").None? || !IsObject(Get(store[key].doc.fields, "map").value))
            ==> Load(store, key).None?
  {
  }

  /** Saving under one key leaves what loads from every other key unchanged. */
  lemma PersistIsolated(store: Store, key: string, other: string, ts: real, positions: Fields, uplinkBox: Option<JVal>, portsBox: Option<JVal>, portsOrder: string)
    requires other != key
    ensures Load(Persist(store, key, ts, positions, uplinkBox, portsBox, portsOrder), other) == Load(store, other)
  {
  }
}
