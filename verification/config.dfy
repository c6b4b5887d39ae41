/**
 * Card configuration clean-up (`_ssmNormalizeConfig`): the legacy gap keys
 * are migrated once to `horizontal_port_gap` / `vertical_port_gap` and the
 * deprecated keys are dropped; every other key is kept as it was.
 */
module Config {
  import opened Text
  import opened Json

  const HorizontalGap := "horizontal_port_gap"
  const VerticalGap := "vertical_port_gap"

  /** The legacy sources of each gap, in order of preference. */
  const LegacyHorizontal: seq<string> := ["port_gap_x", "gap_x", "gap"]
  const LegacyVertical: seq<string> := ["port_gap_y", "gap_y", "gap"]

  /** The keys that are always removed. */
  const Deprecated: seq<string> := ["port_gap_y", "port_gap_x", "gap_y", "gap_x", "gap", "show_uplinks_separately_in_layout"]

  /** `v != null && v !== ""`: a setting that is present, not `null` and not the empty text. */
  predicate Usable(v: Option<JVal>)
  {
    v.Some? && v.value != JNull && v.value != JStr("")
  }

  /** `a ?? b ?? c`: the first of the keys whose value is present and not `null`. */
  function Coalesce(fs: Fields, keys: seq<string>): (r: Option<JVal>)
    ensures r.Some? ==> r.value != JNull && exists i :: 0 <= i < |keys| && Get(fs, keys[i]) == r
    ensures r.None? ==> forall i :: 0 <= i < |keys| ==> Get(fs, keys[i]).None? || Get(fs, keys[i]) == Some(JNull)
    decreases |keys|
  {
    if keys == [] then None
    else match Get(fs, keys[0])
      case Some(v) =>
        if v != JNull then Some(v)
        else
          var r := Coalesce(fs, keys[1..]);
          assert forall i :: 0 <= i < |keys| - 1 ==> keys[1..][i] == keys[i + 1];
          r
      case None =>
        var r := Coalesce(fs, keys[1..]);
        assert forall i :: 0 <= i < |keys| - 1 ==> keys[1..][i] == keys[i + 1];
        r
  }

  /** The own keys of an array spread into an object: its indices, written in decimal. */
  function IndexFields(items: seq<JVal>, from: nat): (fs: Fields)
    ensures |fs| == |items|
    decreases |items|
  {
    if items == [] then [] else [(NatToString(from), items[0])] + IndexFields(items[1..], from + 1)
  }

  /** `{ ...config }` for a value that is an object; anything else normalises to `{}`. */
  function Spread(c: JVal): Fields
  {
    match c
    case JObj(fs) => fs
    case JArr(items) => IndexFields(items, 0)
    case _ => []
  }

  /** `delete out[k]` for each of `keys`, in order. */
  function RemoveAll(fs: Fields, keys: seq<string>): Fields
    decreases |keys|
  {
    if keys == [] then fs else RemoveAll(Remove(fs, keys[0]), keys[1..])
  }

  /** `_ssmNormalizeConfig`. */
  function NormalizeConfig(c: JVal): Fields
  {
    var out := Spread(c);
    var legacyH := Coalesce(out, LegacyHorizontal);
    var legacyV := Coalesce(out, LegacyVertical);
    var o1 := if !Usable(Get(out, HorizontalGap)) && Usable(legacyH) then Put(out, HorizontalGap, legacyH.value) else out;
    var o2 := if !Usable(Get(out, VerticalGap)) && Usable(legacyV) then Put(o1, VerticalGap, legacyV.value) else o1;
    RemoveAll(o2, Deprecated)
  }

  lemma {:induction false} RemoveAllGet(fs: Fields, keys: seq<string>, k: string)
    ensures Get(RemoveAll(fs, keys), k) == if k in keys then None else Get(fs, k)
    decreases |keys|
  {
    if keys != [] {
      RemoveAllGet(Remove(fs, keys[0]), keys[1..], k);
      RemoveGet(fs, keys[0], k);
      assert k in keys <==> k == keys[0] || k in keys[1..];
    }
  }

  lemma {:induction false} RemoveAbsent(fs: Fields, k: string)
    requires !HasKey(fs, k)
    ensures Remove(fs, k) == fs
    decreases |fs|
  {
    if fs != [] {
      assert Keys(fs) == [fs[0].0] + Keys(fs[1..]);
      RemoveAbsent(fs[1..], k);
    }
  }

  lemma {:induction false} RemoveAllAbsent(fs: Fields, keys: seq<string>)
    requires forall i :: 0 <= i < |keys| ==> !HasKey(fs, keys[i])
    ensures RemoveAll(fs, keys) == fs
    decreases |keys|
  {
    if keys != [] {
      RemoveAbsent(fs, keys[0]);
      RemoveAllAbsent(fs, keys[1..]);
    }
  }

  /** No deprecated key survives normalisation. */
  lemma DeprecatedKeysRemoved(c: JVal, k: string)
    requires k in Deprecated
    ensures Get(NormalizeConfig(c), k).None?
  {
    var out := Spread(c);
    var legacyH := Coalesce(out, LegacyHorizontal);
    var legacyV := Coalesce(out, LegacyVertical);
    var o1 := if !Usable(Get(out, HorizontalGap)) && Usable(legacyH) then Put(out, HorizontalGap, legacyH.value) else out;
    var o2 := if !Usable(Get(out, VerticalGap)) && Usable(legacyV) then Put(o1, VerticalGap, legacyV.value) else o1;
    RemoveAllGet(o2, Deprecated, k);
  }

  /**
   * Each gap: a usable canonical value is kept, otherwise the first legacy
   * alias that is usable is adopted, otherwise the canonical key reads as
   * before; and every key that is neither a gap nor deprecated is untouched.
   */
  lemma NormalizeGet(c: JVal, k: string)
    requires k !in Deprecated
    ensures var out := Spread(c);
      Get(NormalizeConfig(c), k) ==
        if k == HorizontalGap && !Usable(Get(out, k)) && Usable(Coalesce(out, LegacyHorizontal)) then Coalesce(out, LegacyHorizontal)
        else if k == VerticalGap && !Usable(Get(out, k)) && Usable(Coalesce(out, LegacyVertical)) then Coalesce(out, LegacyVertical)
        else Get(out, k)
  {
    var out := Spread(c);
    var legacyH := Coalesce(out, LegacyHorizontal);
    var legacyV := Coalesce(out, LegacyVertical);
    var o1 := if !Usable(Get(out, HorizontalGap)) && Usable(legacyH) then Put(out, HorizontalGap, legacyH.value) else out;
    var o2 := if !Usable(Get(out, VerticalGap)) && Usable(legacyV) then Put(o1, VerticalGap, legacyV.value) else o1;
    RemoveAllGet(o2, Deprecated, k);
    if !Usable(Get(out, HorizontalGap)) && Usable(legacyH) {
      PutGet(out, HorizontalGap, legacyH.value, k);
    }
    if !Usable(Get(out, VerticalGap)) && Usable(legacyV) {
      PutGet(o1, VerticalGap, legacyV.value, k);
      assert Get(o1, VerticalGap) == Get(out, VerticalGap) by {
        if !Usable(Get(out, HorizontalGap)) && Usable(legacyH) {
          PutGet(out, HorizontalGap, legacyH.value, VerticalGap);
        }
      }
    }
  }

  /** A normalised configuration is left alone by a second normalisation. */
  lemma NormalizeIdempotent(c: JVal)
    ensures NormalizeConfig(JObj(NormalizeConfig(c))) == NormalizeConfig(c)
  {
    var n := NormalizeConfig(c);
    forall i | 0 <= i < |Deprecated|
      ensures !HasKey(n, Deprecated[i])
    {
      DeprecatedKeysRemoved(c, Deprecated[i]);
    }
    NoLegacyLeft(n);
    RemoveAllAbsent(n, Deprecated);
  }

  lemma NoLegacyLeft(n: Fields)
    requires forall i :: 0 <= i < |Deprecated| ==> !HasKey(n, Deprecated[i])
    ensures Coalesce(n, LegacyHorizontal).None? && Coalesce(n, LegacyVertical).None?
  {
    assert forall i :: 0 <= i < |LegacyHorizontal| ==> LegacyHorizontal[i] in Deprecated;
    assert forall i :: 0 <= i < |LegacyVertical| ==> LegacyVertical[i] in Deprecated;
  }
}
