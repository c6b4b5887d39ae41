/**
 * The older, smaller switch card: entity scoping by device name, unit and
 * slot, the physical/virtual partition by interface-name prefix, the status
 * colour and toggle button of a port, and the evenly spaced panel grid.
 * Interface names are parsed and physical ports ordered exactly as in the
 * newer card (module Ports).
 */
module ClassicCard {
  import opened Text
  import opened Json
  import opened Lists
  import opened Geometry
  import opened Ports

  // ------------------------------------------------------------- scoping

  /**
   * The scoping part of the card's configuration: a device-name needle
   * (empty when unset) and the unit and slot filters, which `setConfig`
   * keeps only when they are finite numbers.
   */
  datatype Scope = Scope(deviceName: string, unit: Option<real>, slot: Option<real>)

  /** `_entityMatchesNameUnitSlot`. */
  predicate EntityMatchesNameUnitSlot(e: Entry, sc: Scope)
  {
    var name := DisplayName(e);
    var needle := Lower(sc.deviceName);
    (sc.deviceName == [] || Contains(Lower(AttrText(e.attrs, "friendly_name")), needle) || Contains(Lower(e.id), needle))
    && ((sc.unit.None? && sc.slot.None?) ||
        (ParseTriple(name).Some?
         && (sc.unit.None? || ParseTriple(name).value.unit as real == sc.unit.value)
         && (sc.slot.None? || ParseTriple(name).value.slot as real == sc.slot.value)))
  }

  /**
   * With a unit or slot filter set, a name that does not parse is rejected
   * and an accepted name matches every filter that is set; with no filter at
   * all, only the device name decides.
   */
  lemma UnitSlotFilter(e: Entry, sc: Scope)
    ensures (sc.unit.Some? || sc.slot.Some?) && ParseTriple(DisplayName(e)).None? ==> !EntityMatchesNameUnitSlot(e, sc)
    ensures EntityMatchesNameUnitSlot(e, sc) && sc.unit.Some? ==>
      ParseTriple(DisplayName(e)).Some? && ParseTriple(DisplayName(e)).value.unit as real == sc.unit.value
    ensures EntityMatchesNameUnitSlot(e, sc) && sc.slot.Some? ==>
      ParseTriple(DisplayName(e)).Some? && ParseTriple(DisplayName(e)).value.slot as real == sc.slot.value
    ensures sc.deviceName == [] && sc.unit.None? && sc.slot.None? ==> EntityMatchesNameUnitSlot(e, sc)
  {
  }

  /** A fractional unit filter matches no port at all. */
  lemma FractionalUnitMatchesNothing(e: Entry, sc: Scope)
    requires sc.unit.Some? && sc.unit.value != (sc.unit.value.Floor) as real
    ensures !EntityMatchesNameUnitSlot(e, sc)
  {
    if ParseTriple(DisplayName(e)).Some? {
      var u := ParseTriple(DisplayName(e)).value.unit;
      assert (u as real).Floor == u;
    }
  }

  // ------------------------------------------------------------ partition

  predicate IsGiTeTw(k: string) { k == "GI" || k == "TE" || k == "TW" }

  /** `^switch\.(gi|te|tw)N_N_N$`, case-insensitively. */
  predicate IdLooksPhysical(id: string)
  {
    var l := Lower(id);
    |l| > 9 && l[..7] == "switch." && IsGiTeTw(Upper(l[7..9]))
    && var parts := Split(l[9..], '_');
       |parts| == 3 && IsNumeral(parts[0]) && IsNumeral(parts[1]) && IsNumeral(parts[2])
  }

  /** The partition test: the upper-cased port name starts with GI, TE or TW, or the id looks like one. */
  predicate IsPhysical(e: Entry)
  {
    var n := Upper(DisplayName(e));
    (|n| >= 2 && IsGiTeTw(n[..2])) || IdLooksPhysical(e.id)
  }

  /** The first piece of a split is a prefix of the text. */
  lemma SplitFirstIsPrefix(s: string, sep: char)
    ensures |Split(s, sep)[0]| <= |s| && s[..|Split(s, sep)[0]|] == Split(s, sep)[0]
  {
    var parts := Split(s, sep);
    SplitJoin(s, sep);
    if |parts| > 1 {
      assert s == parts[0] + ([sep] + Join(parts[1..], sep));
    }
  }

  /** Every name that parses as a GI, TE or TW interface goes to the physical list. */
  lemma ParsedKindsArePhysical(e: Entry)
    requires ParseTriple(DisplayName(e)).Some?
    requires KindPriority(ParseTriple(DisplayName(e)).value.kind) < 3
    ensures IsPhysical(e)
  {
    var u := Upper(DisplayName(e));
    var parts := Split(u, '/');
    SplitFirstIsPrefix(u, '/');
    assert u[..2] == parts[0][..2];
    var k := ParseTriple(DisplayName(e)).value.kind;
    assert Upper(k) == k;
  }

  /**
   * `_discoverEntities` after scoping: the loop pushing each entity onto the
   * physical or the virtual list, then the two sorts.
   */
  method Discover(entries: seq<Entry>) returns (phys: seq<Entry>, virt: seq<Entry>)
    ensures phys == Sort(Filter(entries, IsPhysical), ByPhysical)
    ensures virt == Sort(Filter(entries, (e: Entry) => !IsPhysical(e)), ByVirtualName)
  {
    var isVirtual := (e: Entry) => !IsPhysical(e);
    phys, virt := [], [];
    var i := |entries|;
    while i > 0
      invariant 0 <= i <= |entries|
      invariant phys == Filter(entries[i..], IsPhysical)
      invariant virt == Filter(entries[i..], isVirtual)
    {
      i := i - 1;
      assert entries[i..][1..] == entries[i + 1..];
      if IsPhysical(entries[i]) {
        phys := [entries[i]] + phys;
      } else {
        virt := [entries[i]] + virt;
      }
    }
    assert entries[0..] == entries;
    phys := Sort(phys, ByPhysical);
    virt := Sort(virt, ByVirtualName);
  }

  /** Every entity lands in exactly one of the two lists, and both lists come out in order. */
  lemma DiscoverPartitions(entries: seq<Entry>)
    ensures multiset(Sort(Filter(entries, IsPhysical), ByPhysical))
          + multiset(Sort(Filter(entries, (e: Entry) => !IsPhysical(e)), ByVirtualName)) == multiset(entries)
    ensures SortedBy(Sort(Filter(entries, IsPhysical), ByPhysical), ByPhysical)
    ensures SortedBy(Sort(Filter(entries, (e: Entry) => !IsPhysical(e)), ByVirtualName), ByVirtualName)
  {
    FilterSplits(entries, IsPhysical, (e: Entry) => !IsPhysical(e));
    EntryComparatorsAntisymmetric();
    SortIsSorted(Filter(entries, IsPhysical), ByPhysical);
    SortIsSorted(Filter(entries, (e: Entry) => !IsPhysical(e)), ByVirtualName);
  }

  // --------------------------------------------------------- port status

  const Orange := "#f59e0b"
  const Green := "#22c55e"
  const Red := "#ef4444"
  const Gray := "#9ca3af"

  /** `_colorFor`: the dot colour of a port from its admin and operational status. */
  function ColorFor(attrs: Fields): (c: string)
    ensures c == Orange <==> Lower(AttrText(attrs, "Admin")) == "down"
    ensures c == Green <==> Lower(AttrText(attrs, "Admin")) == "up" && Lower(AttrText(attrs, "Oper")) == "up"
    ensures c == Red <==> Lower(AttrText(attrs, "Admin")) == "up" && Lower(AttrText(attrs, "Oper")) == "down"
    ensures c in {Orange, Green, Red, Gray}
  {
    var a := Lower(AttrText(attrs, "Admin"));
    var o := Lower(AttrText(attrs, "Oper"));
    if a == "down" then Orange
    else if a == "up" && o == "up" then Green
    else if a == "up" && o == "down" then Red
    else Gray
  }

  predicate IsOn(state: string) { Lower(state) == "on" }

  /** `_buttonLabel`. */
  function ButtonLabel(state: string): string
  {
    if IsOn(state) then "Turn off" else "Turn on"
  }

  /** The service `_toggle` calls for a switch in the given state. */
  function ToggleService(state: string): string
  {
    if IsOn(state) then "turn_off" else "turn_on"
  }

  /** The button always names the action that pressing it performs. */
  lemma LabelNamesTheAction(state: string)
    ensures ButtonLabel(state) == "Turn off" <==> ToggleService(state) == "turn_off"
    ensures ButtonLabel(state) == "Turn on" <==> ToggleService(state) == "turn_on"
    ensures ToggleService(state) == "turn_off" <==> Lower(state) == "on"
  {
  }

  // ------------------------------------------------------------ panel grid

  /** The panel settings `setConfig` keeps (finite numbers, else 24, 740, 18 and 10). */
  datatype Panel = Panel(portsPerRow: real, panelWidth: real, portSize: real, gap: real)

  const SidePad: real := 28.0
  const TopPad: real := 24.0

  /** A setting that is a number, else its default. */
  function NumberOr(cfg: Fields, k: string, d: real): real
  {
    match Get(cfg, k)
    case Some(JNum(r)) => r
    case _ => d
  }

  /** `v` is the number configured under `k`, or `d` when `k` holds no number. */
  predicate Kept(cfg: Fields, k: string, d: real, v: real)
  {
    match Get(cfg, k)
    case Some(JNum(n)) => v == n
    case _ => v == d
  }

  /** `setConfig` for the panel settings. */
  function PanelOf(cfg: Fields): (p: Panel)
    ensures Kept(cfg, "ports_per_row", 24.0, p.portsPerRow) && Kept(cfg, "panel_width", 740.0, p.panelWidth)
    ensures Kept(cfg, "port_size", 18.0, p.portSize) && Kept(cfg, "gap", 10.0, p.gap)
  {
    Panel(NumberOr(cfg, "ports_per_row", 24.0), NumberOr(cfg, "panel_width", 740.0),
          NumberOr(cfg, "port_size", 18.0), NumberOr(cfg, "gap", 10.0))
  }

  /** `k` holds no number, so `setConfig` falls back to the default for it. */
  predicate Unset(cfg: Fields, k: string)
  {
    !(Get(cfg, k).Some? && Get(cfg, k).value.JNum?)
  }

  /**
   * With none of the panel settings configured, the panel has 24 ports per
   * row in slots 28.5 wide, rows 28 apart, and every square lies between the
   * side paddings of the 740-wide panel.
   */
  lemma DefaultPanelLayout(cfg: Fields, i: nat)
    requires Unset(cfg, "ports_per_row") && Unset(cfg, "panel_width") && Unset(cfg, "port_size") && Unset(cfg, "gap")
    ensures PanelOf(cfg) == Panel(24.0, 740.0, 18.0, 10.0)
    ensures PanelPosition(PanelOf(cfg), i) == Point(33.25 + ((i % 24) as real) * 28.5, 42.0 + ((i / 24) as real) * 28.0)
    ensures SidePad <= PanelPosition(PanelOf(cfg), i).x && PanelPosition(PanelOf(cfg), i).x + 18.0 <= 740.0 - SidePad
  {
    var p := PanelOf(cfg);
    assert PerRow(p) == 24.0;
    assert SlotWidth(p) == 28.5;
    PanelGrid(p, i, 24);
    PanelPortsWithinWidth(p, i, 24);
  }

  function PerRow(p: Panel): (n: real)
    ensures n >= 1.0
  {
    Max(1.0, p.portsPerRow)
  }

  function SlotWidth(p: Panel): real { (p.panelWidth - 2.0 * SidePad) / PerRow(p) }

  /** The panel's row index and in-row index of port `i`: `Math.floor(i / perRow)` and `i % perRow`. */
  function RowOf(p: Panel, i: nat): int { ((i as real) / PerRow(p)).Floor }

  function ColumnOf(p: Panel, i: nat): real { i as real - PerRow(p) * (RowOf(p, i) as real) }

  /** The top-left corner of the square of port `i` (in sorted physical order). */
  function PanelPosition(p: Panel, i: nat): Point
  {
    var slotW := SlotWidth(p);
    Point(SidePad + ColumnOf(p, i) * slotW + (slotW - p.portSize) / 2.0,
          TopPad + (RowOf(p, i) as real) * (p.portSize + p.gap) + 18.0)
  }

  lemma FloorOfQuotient(i: nat, k: int)
    requires k >= 1
    ensures ((i as real) / (k as real)).Floor == i / k
  {
    var q, r := i / k, i % k;
    assert i == q * k + r;
    assert (i as real) / (k as real) == (q as real) + (r as real) / (k as real);
    assert 0.0 <= (r as real) / (k as real) < 1.0;
  }

  /**
   * With a whole number `k` of ports per row, port `i` sits in column
   * `i mod k` of row `i div k`, centred in its slot of width `slotW`.
   */
  lemma PanelGrid(p: Panel, i: nat, k: int)
    requires k >= 1 && PerRow(p) == k as real
    ensures RowOf(p, i) == i / k && ColumnOf(p, i) == (i % k) as real
    ensures PanelPosition(p, i).x + p.portSize / 2.0 == SidePad + ((i % k) as real + 0.5) * SlotWidth(p)
    ensures PanelPosition(p, i).y == TopPad + ((i / k) as real) * (p.portSize + p.gap) + 18.0
  {
    FloorOfQuotient(i, k);
    assert i == (i / k) * k + i % k;
  }

  /**
   * With a whole number of ports per row and squares no wider than their
   * slots, every square lies between the side paddings of the panel.
   */
  lemma PanelPortsWithinWidth(p: Panel, i: nat, k: int)
    requires k >= 1 && PerRow(p) == k as real
    requires 0.0 <= p.portSize <= SlotWidth(p)
    ensures SidePad <= PanelPosition(p, i).x
    ensures PanelPosition(p, i).x + p.portSize <= p.panelWidth - SidePad
  {
    PanelGrid(p, i, k);
    SlotsFillWidth(p, k);
    assert (i % k) + 1 <= k;
    SlotWithinRow((i % k) as real, k as real, SlotWidth(p), p.portSize, p.panelWidth);
  }

  /** A square centred in slot `c` of `k` slots of width `w` lies between the paddings. */
  lemma SlotWithinRow(c: real, k: real, w: real, size: real, width: real)
    requires 0.0 <= c && c + 1.0 <= k
    requires 0.0 <= size <= w
    requires k * w == width - 2.0 * SidePad
    ensures SidePad <= SidePad + c * w + (w - size) / 2.0
    ensures SidePad + c * w + (w - size) / 2.0 + size <= width - SidePad
  {
    ScaleMono(c + 1.0, k, w);
    ScaleMono(0.0, c, w);
    assert (c + 1.0) * w == c * w + w;
  }

  lemma ScaleMono(a: real, b: real, f: real)
    requires a <= b && f >= 0.0
    ensures a * f <= b * f
  {
    assert b * f - a * f == (b - a) * f;
  }

  lemma SlotsFillWidth(p: Panel, k: int)
    requires k >= 1 && PerRow(p) == k as real
    ensures (k as real) * SlotWidth(p) == p.panelWidth - 2.0 * SidePad
  {
  }
}
