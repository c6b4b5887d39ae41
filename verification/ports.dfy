/**
 * Port naming and classification shared by both cards: the `XXu/s/p`
 * interface-name parser, the kind priority, the physical-port ordering, the
 * physical/virtual classification with hidden ports and virtual overrides,
 * and the link-speed buckets.
 */
module Ports {
  import opened Text
  import opened Json
  import opened Lists
  import NaturalOrder

  // ------------------------------------------------------------ entities

  /** A switch entity as the card sees it: its entity id and its attributes. */
  datatype Entry = Entry(id: string, attrs: Fields)

  /** A text attribute; a missing attribute or one that is not text reads as empty. */
  function AttrText(attrs: Fields, k: string): string
  {
    match Get(attrs, k)
    case Some(JStr(s)) => s
    case _ => ""
  }

  /** The port name shown for an entity: its `Name` attribute, else the object id of the entity id. */
  function DisplayName(e: Entry): string
  {
    var n := AttrText(e.attrs, "Name");
    if n != [] then n else IdSuffix(e.id)
  }

  /** The name the port lists are sorted by: its `Name` attribute, else the whole entity id. */
  function SortName(e: Entry): string
  {
    var n := AttrText(e.attrs, "Name");
    if n != [] then n else e.id
  }

  // ------------------------------------------------------ interface names

  /** A parsed interface name such as `GI1/0/24`: kind, unit, slot and port. */
  datatype Triple = Triple(kind: string, unit: nat, slot: nat, port: nat)

  predicate IsUpperLetter(c: char) { 'A' <= c <= 'Z' }

  /** Two upper-case ASCII letters. */
  predicate IsKind(k: string) { |k| == 2 && IsUpperLetter(k[0]) && IsUpperLetter(k[1]) }

  /**
   * `_parseTriple`: the upper-cased name must be two letters, a number, a
   * slash, a number, a slash and a number, with nothing else.
   */
  function ParseTriple(name: string): (t: Option<Triple>)
    ensures t.Some? ==> IsKind(t.value.kind)
  {
    var parts := Split(Upper(name), '/');
    if |parts| == 3 && |parts[0]| > 2 && IsKind(parts[0][..2])
       && IsNumeral(parts[0][2..]) && IsNumeral(parts[1]) && IsNumeral(parts[2])
    then Some(Triple(parts[0][..2], NumeralValue(parts[0][2..]), NumeralValue(parts[1]), NumeralValue(parts[2])))
    else None
  }

  /** The canonical spelling of a triple, `KKu/s/p`. */
  function FormatTriple(t: Triple): string
  {
    t.kind + NatToString(t.unit) + "/" + NatToString(t.slot) + "/" + NatToString(t.port)
  }

  lemma {:induction false} SplitWithout(a: string, sep: char)
    requires sep !in a
    ensures Split(a, sep) == [a]
    decreases |a|
  {
    if a != [] {
      SplitWithout(a[1..], sep);
      assert [a[0]] + a[1..] == a;
    }
  }

  lemma {:induction false} SplitAfter(a: string, sep: char, b: string)
    requires sep !in a
    ensures Split(a + [sep] + b, sep) == [a] + Split(b, sep)
    decreases |a|
  {
    if a == [] {
      assert a + [sep] + b == [sep] + b;
      assert ([sep] + b)[1..] == b;
    } else {
      SplitAfter(a[1..], sep, b);
      assert (a + [sep] + b)[1..] == a[1..] + [sep] + b;
      assert [a[0]] + a[1..] == a;
    }
  }

  lemma UpperKeepsNumeral(s: string)
    requires AllDigits(s)
    ensures Upper(s) == s
  {
  }

  lemma DigitsHaveNoSlash(s: string)
    requires AllDigits(s)
    ensures '/' !in s
  {
    assert forall i :: 0 <= i < |s| ==> IsDigit(s[i]);
  }

  /** The spelling of a triple is already upper case. */
  lemma FormatIsUpper(t: Triple)
    requires IsKind(t.kind)
    ensures Upper(FormatTriple(t)) == FormatTriple(t)
  {
  }

  /** The spelling of a triple splits at its slashes into `KKu`, `s` and `p`. */
  lemma FormatSplits(t: Triple)
    requires IsKind(t.kind)
    ensures Split(FormatTriple(t), '/') == [t.kind + NatToString(t.unit), NatToString(t.slot), NatToString(t.port)]
  {
    var u, sl, p := NatToString(t.unit), NatToString(t.slot), NatToString(t.port);
    assert FormatTriple(t) == (t.kind + u) + ['/'] + (sl + ['/'] + p);
    DigitsHaveNoSlash(u);
    DigitsHaveNoSlash(sl);
    DigitsHaveNoSlash(p);
    assert '/' !in t.kind + u;
    SplitAfter(t.kind + u, '/', sl + ['/'] + p);
    SplitAfter(sl, '/', p);
    SplitWithout(p, '/');
  }

  /** A name spelled from a triple parses back to that triple. */
  lemma ParseFormat(t: Triple)
    requires IsKind(t.kind)
    ensures ParseTriple(FormatTriple(t)) == Some(t)
  {
    var u := NatToString(t.unit);
    FormatIsUpper(t);
    FormatSplits(t);
    var parts := Split(Upper(FormatTriple(t)), '/');
    assert parts[0][..2] == t.kind && parts[0][2..] == u;
    NatToStringValue(t.unit);
    NatToStringValue(t.slot);
    NatToStringValue(t.port);
  }

  /** Parsing ignores letter case: `gi1/0/1` and `Gi1/0/1` parse alike. */
  lemma ParseIgnoresCase(name: string)
    ensures ParseTriple(Lower(name)) == ParseTriple(name)
  {
    UpperIgnoresCase(name);
  }

  /** `_kindPriority`: gigabit first, then ten-gigabit, then twenty-five-gigabit, then everything else. */
  function KindPriority(k: string): (p: nat)
    ensures p <= 3
    ensures p == 0 <==> Upper(k) == "GI"
    ensures p == 1 <==> Upper(k) == "TE"
    ensures p == 2 <==> Upper(k) == "TW"
  {
    var u := Upper(k);
    if u == "GI" then 0 else if u == "TE" then 1 else if u == "TW" then 2 else 3
  }

  /** The value that stands in for a missing unit, slot or port. */
  const Sentinel: nat := 1_000_000_000

  function KindOf(t: Option<Triple>): string { if t.Some? then t.value.kind else "" }
  function UnitOf(t: Option<Triple>): nat { if t.Some? then t.value.unit else Sentinel }
  function SlotOf(t: Option<Triple>): nat { if t.Some? then t.value.slot else Sentinel }
  function PortOf(t: Option<Triple>): nat { if t.Some? then t.value.port else Sentinel }

  /**
   * The physical-port comparator: kind priority, then unit, slot and port
   * (a name that does not parse counting as the sentinel), then the names
   * themselves in natural order (a numeric, case-insensitive `localeCompare`).
   */
  function PhysCompare(na: string, nb: string): int
  {
    var ta, tb := ParseTriple(na), ParseTriple(nb);
    var ka, kb := KindPriority(KindOf(ta)), KindPriority(KindOf(tb));
    if ka != kb then ka - kb
    else if UnitOf(ta) != UnitOf(tb) then UnitOf(ta) - UnitOf(tb)
    else if SlotOf(ta) != SlotOf(tb) then SlotOf(ta) - SlotOf(tb)
    else if PortOf(ta) != PortOf(tb) then PortOf(ta) - PortOf(tb)
    else NaturalOrder.Compare(na, nb)
  }

  lemma PhysCompareAntisymmetric(na: string, nb: string)
    ensures PhysCompare(na, nb) == -PhysCompare(nb, na)
  {
    NaturalOrder.CompareAntisymmetric(na, nb);
  }

  /**
   * Two parseable names of the same kind priority are ordered by unit, then
   * slot, then port; among equal triples, by the names in natural order.
   */
  lemma PhysCompareByTriple(na: string, nb: string)
    requires ParseTriple(na).Some? && ParseTriple(nb).Some?
    requires KindPriority(ParseTriple(na).value.kind) == KindPriority(ParseTriple(nb).value.kind)
    ensures var a, b := ParseTriple(na).value, ParseTriple(nb).value;
      PhysCompare(na, nb) < 0 <==>
        a.unit < b.unit || (a.unit == b.unit && (a.slot < b.slot || (a.slot == b.slot
          && (a.port < b.port || (a.port == b.port && NaturalOrder.Compare(na, nb) < 0)))))
  {
  }

  /** A name that does not parse sorts after a parseable one of the same priority (below the sentinel). */
  lemma UnparsedSortsLast(na: string, nb: string)
    requires ParseTriple(na).Some? && ParseTriple(nb).None?
    requires KindPriority(ParseTriple(na).value.kind) == 3
    requires ParseTriple(na).value.unit < Sentinel
    ensures PhysCompare(na, nb) < 0 && PhysCompare(nb, na) > 0
  {
    assert KindOf(ParseTriple(nb)) == "";
    assert Upper("") == "";
  }

  /** Sorting entries as physical ports, by their sort names. */
  function ByPhysical(a: Entry, b: Entry): int { PhysCompare(SortName(a), SortName(b)) }

  /** Sorting entries as virtual ports: by their sort names in natural order. */
  function ByVirtualName(a: Entry, b: Entry): int { NaturalOrder.Compare(SortName(a), SortName(b)) }

  lemma EntryComparatorsAntisymmetric()
    ensures Antisymmetric(ByPhysical) && Antisymmetric(ByVirtualName)
  {
    forall a: Entry, b: Entry ensures ByPhysical(a, b) == -ByPhysical(b, a) && ByVirtualName(a, b) == -ByVirtualName(b, a) {
      PhysCompareAntisymmetric(SortName(a), SortName(b));
      NaturalOrder.CompareAntisymmetric(SortName(a), SortName(b));
    }
  }

  // -------------------------------------------------------- list settings

  /**
   * `_ssmNormListToSet`: an array of texts or a comma-separated text, each
   * piece trimmed and lower-cased, blanks dropped; anything else is empty.
   */
  function NormListToSet(v: JVal): (r: set<string>)
    ensures [] !in r
    ensures !v.JArr? && !v.JStr? ==> r == {}
  {
    match v
    case JArr(items) => set i | i in items && i.JStr? && Norm(i.s) != [] :: Norm(i.s)
    case JStr(s) => set p | p in Split(s, ',') && Norm(p) != [] :: Norm(p)
    case _ => {}
  }

  /** The pieces of a comma-separated setting are exactly its non-blank normalised items. */
  lemma NormListOfText(s: string, k: string)
    ensures k in NormListToSet(JStr(s)) <==> k != [] && exists p :: p in Split(s, ',') && Norm(p) == k
  {
  }

  /** `_ssmIsHiddenPort`: the port name or the entity id, normalised, is listed in `hide_ports`. */
  predicate IsHiddenPort(hidePorts: JVal, portName: string, entityId: string)
  {
    var hiddenSet := NormListToSet(hidePorts);
    |hiddenSet| > 0 && ((Norm(portName) != [] && Norm(portName) in hiddenSet) || (Norm(entityId) != [] && Norm(entityId) in hiddenSet))
  }

  /** A port is hidden exactly when its normalised name or id is listed. */
  lemma HiddenIffListed(hidePorts: JVal, portName: string, entityId: string)
    ensures IsHiddenPort(hidePorts, portName, entityId) <==>
      Norm(portName) in NormListToSet(hidePorts) || Norm(entityId) in NormListToSet(hidePorts)
  {
  }

  // ---------------------------------------------------------- classification

  datatype Class = Hidden | Virtual | Physical

  /** The attribute keys, in order of preference, that may carry the port type. */
  const PortTypeKeys: seq<string> := ["Port Type", "PortType", "port_type", "portType", "port_type_label", "portTypeLabel", "Type", "type"]

  /** The first of `keys` whose value is neither missing nor `null`, as text. */
  function FirstPresent(attrs: Fields, keys: seq<string>): string
    decreases |keys|
  {
    if keys == [] then ""
    else match Get(attrs, keys[0])
      case Some(JStr(s)) => s
      case Some(JNull) => FirstPresent(attrs, keys[1..])
      case Some(_) => ""
      case None => FirstPresent(attrs, keys[1..])
  }

  /** The reported port type, trimmed and lower-cased. */
  function PortType(attrs: Fields): string
  {
    Norm(FirstPresent(attrs, PortTypeKeys))
  }

  /**
   * The classification of one entity in the discovery loop: hidden ports are
   * skipped, virtual overrides win, any other port is physical when overrides
   * are configured, and otherwise the port type decides.
   */
  function Classify(e: Entry, hiddenSet: set<string>, overrides: set<string>): Class
  {
    var nRaw := DisplayName(e);
    var idKey := Norm(e.id);
    if |hiddenSet| > 0 && (Norm(nRaw) in hiddenSet || idKey in hiddenSet) then Hidden
    else if |overrides| > 0 && (Norm(Upper(nRaw)) in overrides || idKey in overrides) then Virtual
    else if |overrides| > 0 then Physical
    else TypeClass(PortType(e.attrs))
  }

  /** The class a reported port type stands for: blank and unknown types are virtual. */
  function TypeClass(pt: string): Class
  {
    if pt == [] || pt == "unknown" || pt == "-" || pt == "unavailable" then Virtual
    else if pt == "physical" || pt == "phys" then Physical
    else if pt == "virtual" || pt == "virt" then Virtual
    else if Contains(pt, "phys") then Physical
    else Virtual
  }

  /** A text without the letter `p` does not contain "phys". */
  lemma NoPhysWithoutP(s: string)
    requires 'p' !in s
    ensures !Contains(s, "phys")
  {
    forall k | 0 <= k <= |s| - 4
      ensures !SliceAt(s, k, "phys")
    {
      assert s[k..k + 4][0] == s[k] != 'p';
    }
  }

  /** With no overrides, a visible port is physical exactly when its type mentions "phys". */
  lemma ClassifyByPortType(e: Entry, hiddenSet: set<string>)
    requires Classify(e, hiddenSet, {}) != Hidden
    ensures Classify(e, hiddenSet, {}) == Physical <==> Contains(PortType(e.attrs), "phys")
  {
    TypeClassIsPhysIff(PortType(e.attrs));
  }

  lemma TypeClassIsPhysIff(pt: string)
    ensures TypeClass(pt) == Physical <==> Contains(pt, "phys")
  {
    if pt == "physical" || pt == "phys" {
      assert SliceAt(pt, 0, "phys");
    } else if pt == "virtual" || pt == "virt" || pt == "unknown" || pt == "-" || pt == "unavailable" || pt == [] {
      NoPhysWithoutP(pt);
    }
  }

  /** With overrides configured, a visible port is virtual exactly when it is listed. */
  lemma ClassifyByOverrides(e: Entry, hiddenSet: set<string>, overrides: set<string>)
    requires |overrides| > 0 && Classify(e, hiddenSet, overrides) != Hidden
    ensures Classify(e, hiddenSet, overrides) == Virtual <==>
      Norm(Upper(DisplayName(e))) in overrides || Norm(e.id) in overrides
  {
  }

  /** Entities of the given class, in discovery order. */
  function OfClass(entries: seq<Entry>, hiddenSet: set<string>, overrides: set<string>, c: Class): seq<Entry>
  {
    Filter(entries, IsClass(hiddenSet, overrides, c))
  }

  /** The test that an entity falls in class `c`. */
  function IsClass(hiddenSet: set<string>, overrides: set<string>, c: Class): Entry -> bool
  {
    (e: Entry) => Classify(e, hiddenSet, overrides) == c
  }

  /**
   * The discovery loop: visible entities go to the physical or the virtual
   * list, then the physical list is sorted by interface name and the virtual
   * list by natural name order.
   */
  method Discover(entries: seq<Entry>, hidePorts: JVal, virtualOverrides: JVal) returns (phys: seq<Entry>, virt: seq<Entry>)
    ensures phys == Sort(OfClass(entries, NormListToSet(hidePorts), NormListToSet(virtualOverrides), Physical), ByPhysical)
    ensures virt == Sort(OfClass(entries, NormListToSet(hidePorts), NormListToSet(virtualOverrides), Virtual), ByVirtualName)
  {
    var hiddenSet, over := NormListToSet(hidePorts), NormListToSet(virtualOverrides);
    var isPhys := IsClass(hiddenSet, over, Physical);
    var isVirt := IsClass(hiddenSet, over, Virtual);
    phys, virt := [], [];
    var i := |entries|;
    while i > 0
      invariant 0 <= i <= |entries|
      invariant phys == Filter(entries[i..], isPhys)
      invariant virt == Filter(entries[i..], isVirt)
    {
      i := i - 1;
      assert entries[i..][1..] == entries[i + 1..];
      var c := Classify(entries[i], hiddenSet, over);
      if c == Physical {
        phys := [entries[i]] + phys;
      } else if c == Virtual {
        virt := [entries[i]] + virt;
      }
    }
    assert entries[0..] == entries;
    phys := Sort(phys, ByPhysical);
    virt := Sort(virt, ByVirtualName);
  }

  /** Both discovered lists come out in order, each a permutation of its class. */
  lemma DiscoveredListsOrdered(entries: seq<Entry>, hiddenSet: set<string>, overrides: set<string>)
    ensures SortedBy(Sort(OfClass(entries, hiddenSet, overrides, Physical), ByPhysical), ByPhysical)
    ensures SortedBy(Sort(OfClass(entries, hiddenSet, overrides, Virtual), ByVirtualName), ByVirtualName)
  {
    EntryComparatorsAntisymmetric();
    SortIsSorted(OfClass(entries, hiddenSet, overrides, Physical), ByPhysical);
    SortIsSorted(OfClass(entries, hiddenSet, overrides, Virtual), ByVirtualName);
  }

  /**
   * Discovery partitions the entities: each one is physical, virtual or
   * hidden, so the two lists and the hidden ports together are the input.
   */
  lemma DiscoverPartitions(entries: seq<Entry>, hiddenSet: set<string>, overrides: set<string>)
    ensures multiset(OfClass(entries, hiddenSet, overrides, Physical))
          + multiset(OfClass(entries, hiddenSet, overrides, Virtual))
          + multiset(OfClass(entries, hiddenSet, overrides, Hidden))
          == multiset(entries)
  {
    FilterThreeWays(entries, IsClass(hiddenSet, overrides, Physical), IsClass(hiddenSet, overrides, Virtual),
                    IsClass(hiddenSet, overrides, Hidden));
  }

  // ------------------------------------------------------------- link speed

  /** The link speeds, in Mbit/s, that have their own bucket and label. */
  const Speeds: seq<int> := [10, 100, 1000, 2500, 5000, 10000, 20000, 25000, 40000, 50000, 100000]

  /** `_speedBucket`: the chain of equality tests; a known speed is its own bucket, any other value has none. */
  function SpeedBucket(mbps: int): (r: Option<int>)
    ensures r.Some? <==> mbps in Speeds
    ensures r.Some? ==> r.value == mbps
  {
    if mbps == 10 then Some(10)
    else if mbps == 100 then Some(100)
    else if mbps == 1000 then Some(1000)
    else if mbps == 2500 then Some(2500)
    else if mbps == 5000 then Some(5000)
    else if mbps == 10000 then Some(10000)
    else if mbps == 20000 then Some(20000)
    else if mbps == 25000 then Some(25000)
    else if mbps == 40000 then Some(40000)
    else if mbps == 50000 then Some(50000)
    else if mbps == 100000 then Some(100000)
    else None
  }

  /** `_speedLabelFromMbps`. */
  function SpeedLabel(mbps: int): Option<string>
  {
    if mbps == 10 then Some("10 Mbps")
    else if mbps == 100 then Some("100 Mbps")
    else if mbps == 1000 then Some("1 Gbps")
    else if mbps == 2500 then Some("2.5 Gbps")
    else if mbps == 5000 then Some("5 Gbps")
    else if mbps == 10000 then Some("10 Gbps")
    else if mbps == 20000 then Some("20 Gbps")
    else if mbps == 25000 then Some("25 Gbps")
    else if mbps == 40000 then Some("40 Gbps")
    else if mbps == 50000 then Some("50 Gbps")
    else if mbps == 100000 then Some("100 Gbps")
    else None
  }

  /** A speed has a label exactly when it has a bucket, and different speeds get different labels. */
  lemma SpeedLabelsMatchBuckets(m: int, n: int)
    ensures SpeedLabel(m).Some? <==> SpeedBucket(m).Some?
    ensures SpeedLabel(m).Some? && SpeedLabel(m) == SpeedLabel(n) ==> m == n
  {
  }
}
