# SNMP Switch Manager card: a Dafny model of its port layout logic

The SNMP Switch Manager card is a Home Assistant dashboard card. It draws the
ports of a network switch, either as a list or as a front-panel picture. Each
port is a Home Assistant `switch.*` entity. This project models the logic that
decides which ports the card shows, in what order, and where each one is drawn.
The model covers both the current card (`dist/snmp-switch-manager-card.js`) and
the older single-file card (`snmp-switch-manager-card.js`).

Most of the model is the card's **Layout Editor** (`_setupCalibrationUI`). The
editor lets a user position port glyphs over a background image:

- drag ports, singly or as a selection;
- draw, move and resize a *ports box* and an *uplinks box*, which pack the ports
  inside them in numeric or odd/even order;
- snap positions to a grid;
- align rows and columns and distribute ports evenly;
- paste or clear the JSON position map;
- undo and redo with a bounded history;
- save the layout to the browser's storage, keyed by device and background image.

Modules:

| module | file | what it holds |
|---|---|---|
| `Text` | text.dfy | trimming, ASCII case folding, splitting, digit runs, ordinal comparison |
| `Json` | json.dfy | JSON values; objects as ordered key lists with `obj[k]`, `obj[k] = v`, `delete`, `Number(...)` |
| `Lists` | lists.dfy | `filter` and a stable insertion sort by a comparator |
| `NaturalOrder` | natural_order.dfy | `_ssmNaturalPortCompare`, the token-by-token port name order |
| `Config` | config.dfy | `_ssmNormalizeConfig`, which migrates the legacy gap keys |
| `Ports` | ports.dfy | interface-name parsing, hidden ports, physical/virtual classification, the discovery sorts, speed labels |
| `ClassicCard` | classic_card.dfy | the older card: scoping filter, discovery, colours, toggle button, panel grid |
| `Geometry` | geometry.dfy | points, boxes, snapping, box normalisation, the draw/move/resize gestures, the marquee test |
| `Fit` | fit.dfy | the measuring pass that fits a box around ports |
| `Packing` | packing.dfy | the numeric, odd/even and uplink packings of a box |
| `UndoLog` | history.dfy | `beginUndo`/`commitUndo`/`doUndo`/`doRedo` as functions, plus the `History` class that keeps them |
| `Storage` | storage.dfy | storage key, saving and loading of the layout record |
| `Resolve` | resolve.dfy | where the panel view draws each port, from which position map |
| `EditorSpec` | editor_spec.dfy | the editor's operations as functions on values, with their lemmas |
| `LayoutEditor` | editor.dfy | the `Editor` class: the editor's state and its event handlers as methods |

The editor is imperative: its handlers update the live map, the rects, the
selection, the boxes, the tool modes and the undo log in place. It is modelled
as the class `LayoutEditor.Editor`. Each method's `ensures` ties the new state
to a function in `EditorSpec` or `UndoLog`, and the lemmas there prove what
those functions promise. Each rendered port rect is reduced to its box, keyed
by entity id. Pointer events become method calls that take the pointer id and
the point in SVG coordinates.

## Model

| member | source | states |
|---|---|---|
| NaturalOrder.RunsSpellName | dist/snmp-switch-manager-card.js:11-12 | the tokens of a name are maximal runs, alternating digit and non-digit, that spell the name out in order |
| NaturalOrder.CompareAntisymmetric | dist/snmp-switch-manager-card.js:6-40 | swapping two names negates the comparison |
| NaturalOrder.CompareTransitive | dist/snmp-switch-manager-card.js:6-40 | the order is transitive, and a tie between the first and last name is a tie at each step: a total preorder, so the sorts by it are well defined |
| NaturalOrder.CompareZeroOnlyForCaseVariants | dist/snmp-switch-manager-card.js:6-40 | two names tie only when they are equal up to letter case |
| NaturalOrder.DecidedAtNumeral | dist/snmp-switch-manager-card.js:15-29 | when two names first differ at a pair of digit runs, those runs decide the comparison |
| NaturalOrder.DecidedAtText | dist/snmp-switch-manager-card.js:30-32 | when two names first differ at a pair of text runs that are not equal up to letter case, that pair decides, compared case-insensitively |
| NaturalOrder.NumeralsByValueThenWidth | dist/snmp-switch-manager-card.js:24-29 | digit runs compare by numeric value, then a shorter spelling first (`1` before `01`) |
| NaturalOrder.GigabitTwoBeforeTen | dist/snmp-switch-manager-card.js:4-40 | `Gi1/0/2` sorts before `Gi1/0/10` |
| NaturalOrder.TextBeforeNumeral | dist/snmp-switch-manager-card.js:33-35 | where two names first differ in token kind, the text token sorts first |
| NaturalOrder.ExtensionSortsAfter | dist/snmp-switch-manager-card.js:18-19 | a name that another extends by whole tokens sorts first (`Gi1` before `Gi1/0`) |
| Config.Coalesce | dist/snmp-switch-manager-card.js:55-56 | `a ?? b ?? c`: the first listed key whose value is present and not null, or none when there is no such key |
| Config.DeprecatedKeysRemoved | dist/snmp-switch-manager-card.js:61-73 | no deprecated key survives normalisation |
| Config.NormalizeGet | dist/snmp-switch-manager-card.js:42-76 | each gap keeps a usable canonical value, else adopts the first usable legacy alias; every other key is untouched |
| Config.NormalizeIdempotent | dist/snmp-switch-manager-card.js:42-76 | normalising a normalised configuration changes nothing |
| Ports.ParseFormat | dist/snmp-switch-manager-card.js:409-413 | a name spelled from a kind/unit/slot/port triple parses back to that triple |
| Ports.ParseIgnoresCase | dist/snmp-switch-manager-card.js:409-413 | parsing ignores letter case |
| Ports.KindPriority | dist/snmp-switch-manager-card.js:415-418 | GI ranks 0, TE 1, TW 2 and every other kind 3 |
| Ports.PhysCompareAntisymmetric | dist/snmp-switch-manager-card.js:706-716 | the physical-port comparator is antisymmetric |
| Ports.PhysCompareByTriple | dist/snmp-switch-manager-card.js:709-715 | parseable names of equal kind priority order by unit, then slot, then port, then name |
| Ports.UnparsedSortsLast | dist/snmp-switch-manager-card.js:712-714 | a name that does not parse sorts after a parseable one of the same priority |
| Ports.EntryComparatorsAntisymmetric | dist/snmp-switch-manager-card.js:706-722 | both discovery comparators are antisymmetric |
| Ports.NormListToSet | dist/snmp-switch-manager-card.js:80-97 | the set never holds a blank item, and a value that is neither a list nor text gives the empty set |
| Ports.NormListOfText | dist/snmp-switch-manager-card.js:90-95 | the set from a comma-separated text holds exactly its non-blank normalised pieces |
| Ports.HiddenIffListed | dist/snmp-switch-manager-card.js:100-110 | a port is hidden exactly when its normalised name or entity id is listed in `hide_ports` |
| Ports.ClassifyByPortType | dist/snmp-switch-manager-card.js:683-701 | with no overrides, a visible port is physical exactly when its port type mentions "phys" |
| Ports.ClassifyByOverrides | dist/snmp-switch-manager-card.js:671-691 | with overrides set, a visible port is virtual exactly when it is listed, and physical otherwise |
| Ports.Discover | dist/snmp-switch-manager-card.js:658-722 | the discovery loop and sorts: the physical and virtual lists are the entities of each class, sorted by their comparators |
| Ports.DiscoveredListsOrdered | dist/snmp-switch-manager-card.js:706-722 | both discovered lists come out sorted by their comparators |
| Ports.DiscoverPartitions | dist/snmp-switch-manager-card.js:658-704 | every entity is exactly one of hidden, physical or virtual, and each is counted once |
| Ports.SpeedBucket | dist/snmp-switch-manager-card.js:910-923 | a speed has a bucket exactly when it is one of the eleven known speeds, and the bucket is the speed itself |
| Ports.SpeedLabelsMatchBuckets | dist/snmp-switch-manager-card.js:746-760 | a speed has a label exactly when it has a bucket, and different speeds get different labels |
| ClassicCard.UnitSlotFilter | snmp-switch-manager-card.js:81-95 | with a unit or slot filter, a name that does not parse is rejected and an accepted name matches every filter that is set; with no filter, only the device name decides |
| ClassicCard.FractionalUnitMatchesNothing | snmp-switch-manager-card.js:35-36 | a fractional unit filter matches no port |
| ClassicCard.ParsedKindsArePhysical | snmp-switch-manager-card.js:133-138 | every name that parses as a GI, TE or TW interface goes to the physical list |
| ClassicCard.Discover | snmp-switch-manager-card.js:133-156 | the loop partitions the entities by the physical test and sorts both lists |
| ClassicCard.DiscoverPartitions | snmp-switch-manager-card.js:133-156 | every entity lands in exactly one list, and both lists come out sorted |
| ClassicCard.ColorFor | snmp-switch-manager-card.js:160-167 | admin down is amber; admin and oper up is green; admin up and oper down is red; anything else is grey |
| ClassicCard.LabelNamesTheAction | snmp-switch-manager-card.js:168-173 | the button label always names the service that pressing the button calls |
| ClassicCard.DefaultPanelLayout | snmp-switch-manager-card.js:22-25 | with no panel setting configured (24 ports per row, width 740, port size 18, gap 10), port `i` sits at x = 33.25 + 28.5·(i mod 24), y = 42 + 28·(i div 24), inside the side paddings |
| ClassicCard.PanelGrid | snmp-switch-manager-card.js:355-368 | with a whole number of ports per row, port `i` sits in column `i mod k` of row `i div k`, centred in its slot |
| ClassicCard.PanelPortsWithinWidth | snmp-switch-manager-card.js:355-368 | squares no wider than their slots lie between the panel's side paddings |
| Geometry.Round | dist/snmp-switch-manager-card.js:1822 | `Math.round`: the integer within half of the value, a half rounding up |
| Geometry.SnapNearest | dist/snmp-switch-manager-card.js:1819-1823 | with a positive pitch, the snapped value is a multiple of the pitch, within half a pitch of the value |
| Json.NumberOfReadsDecimal | dist/snmp-switch-manager-card.js:2536-2538 | `Number()` reads a whole number's decimal spelling back as the number, also after a minus sign or as the only item of an array |
| Json.NumberTextTrims | dist/snmp-switch-manager-card.js:2536-2538 | `Number()` ignores white space around the text |
| Json.NumberTextOfFraction | dist/snmp-switch-manager-card.js:2536-2538 | digits, a point and digits read as all the digits scaled down by the length of the fraction (`"12.5"` is 125 / 10) |
| Json.NumberTextSigned | dist/snmp-switch-manager-card.js:2536-2538 | `Number("-4")` is -4 |
| Json.NumberTextOfExponent | dist/snmp-switch-manager-card.js:2536-2538 | digits, an `e` and digits read as the whole number scaled by that power of ten (`"1e3"` is 1000) |
| Json.NumberTextOfHex | dist/snmp-switch-manager-card.js:2536-2538 | `0x` followed by hexadecimal digits reads as their base-16 value |
| Json.NotANumber | dist/snmp-switch-manager-card.js:2536-2538 | text that starts with no digit, point, sign or exponent mark (`"abc"`, `"Infinity"`) is not a finite number |
| Json.ArrayNumber | dist/snmp-switch-manager-card.js:2536-2538 | an empty array reads as 0, a one-item array as its item (a boolean item gives no number), and two or more items never give a number |
| Geometry.SnapIdempotent | dist/snmp-switch-manager-card.js:1819-1823 | snapping twice is snapping once |
| Geometry.NormBox | dist/snmp-switch-manager-card.js:1873-1879 | the box keeps its corner, each dimension is at least 10, and a dimension of 10 or more is kept |
| Geometry.DrawBox | dist/snmp-switch-manager-card.js:2872-2878 | a drawn box spans the press point and the pointer in either direction, no smaller than the minimum |
| Geometry.MoveBox | dist/snmp-switch-manager-card.js:2879-2881 | a moved box keeps its size and shifts by the displacement |
| Geometry.MoveBoxBack | dist/snmp-switch-manager-card.js:2879-2881 | moving by a displacement and back restores the box |
| Geometry.ResizeBox | dist/snmp-switch-manager-card.js:2888-2901 | a resize moves only the edges the handle names and keeps the minimum size |
| Geometry.Reproject | dist/snmp-switch-manager-card.js:2906-2923 | a captured port keeps its relative position, clamped, in the resized box |
| Geometry.ReprojectRoundTrip | dist/snmp-switch-manager-card.js:2914-2923 | resizing a box and back restores every port that was inside it |
| Geometry.InMarqueeBetweenCorners | dist/snmp-switch-manager-card.js:3225-3241 | the marquee covers exactly the points between its two corners on both axes |
| Fit.MeasureExtent | dist/snmp-switch-manager-card.js:2288-2304 | the measuring loop computes the extent of the members' rects |
| Fit.ExtentCharacterised | dist/snmp-switch-manager-card.js:2242-2258 | the extent is absent exactly when no member has a rect; otherwise it encloses every rect, each extreme is some member's edge, and it records the first rect's size |
| Fit.FitBox | dist/snmp-switch-manager-card.js:2261-2266 | the fitted box is no smaller than the minimum size |
| Fit.FitEnclosesMembers | dist/snmp-switch-manager-card.js:2274-2315 | with members at non-negative coordinates, the fitted box encloses every member's rect |
| Packing.RoundSqrt | dist/snmp-switch-manager-card.js:2157 | `Math.round(Math.sqrt(x))`: the integer whose half-open interval around it holds the root |
| Packing.ColumnCap | dist/snmp-switch-manager-card.js:2119 | the column cap is never below 1: the configured ports per row when positive, 24 when it reads as 0 |
| Packing.CellInside | dist/snmp-switch-manager-card.js:2129-2133 | every cell keeps the whole glyph inside the box |
| Packing.NumericPackingPlacesEveryGlyph | dist/snmp-switch-manager-card.js:2148-2172 | numeric packing writes every main port exactly once, in natural name order, inside the box |
| Packing.RowMajorCellsDistinct | dist/snmp-switch-manager-card.js:2166-2168 | two ports of the list never share a cell |
| Packing.LastNumeral | dist/snmp-switch-manager-card.js:2093-2096 | the last digit run is all digits, and it is empty exactly when the name has no digit |
| Packing.ByNumberThenNameAntisymmetric | dist/snmp-switch-manager-card.js:2108-2112 | the number-then-name comparator is antisymmetric |
| Packing.OddEvenGroups | dist/snmp-switch-manager-card.js:2099-2115 | the two groups together are a permutation of the main ports; the even group holds only even-numbered ports and the other group none; both are sorted |
| Packing.OddEvenGridFits | dist/snmp-switch-manager-card.js:2117-2133 | each group's row pairs stay within the grid's rows and columns |
| Packing.OddEvenWritesInside | dist/snmp-switch-manager-card.js:2135-2144 | a group is placed in its own order, and with no snapping every glyph lies wholly inside the box |
| Packing.OddEvenLayoutPlaces | dist/snmp-switch-manager-card.js:2146-2147 | the layout writes the odd group on the first rows and then the even group on the second rows |
| Packing.UplinkPackingInside | dist/snmp-switch-manager-card.js:2340-2369 | uplink packing keeps page order and every uplink glyph inside the box |
| UndoLog.BeginKeepsPending | dist/snmp-switch-manager-card.js:1958-1961 | opening a gesture never replaces the snapshot of one already open |
| UndoLog.CommitRecordsChange | dist/snmp-switch-manager-card.js:1963-1973 | commit records the before-snapshot exactly when the layout changed, clears redo, and drops the oldest entry past 50 |
| UndoLog.EmptyStacksAreNoOps | dist/snmp-switch-manager-card.js:1975-1987 | undo or redo on an empty stack changes nothing and restores nothing |
| UndoLog.UndoThenRedo | dist/snmp-switch-manager-card.js:1975-1987 | undo then redo brings back the snapshot and the log as they were |
| UndoLog.RedoThenUndo | dist/snmp-switch-manager-card.js:1975-1987 | redo then undo likewise restores the snapshot and the log |
| UndoLog.StepsStayBounded | dist/snmp-switch-manager-card.js:1886-1987 | every step keeps the two stacks within 50 snapshots |
| UndoLog.History.BeginUndo | dist/snmp-switch-manager-card.js:1958-1961 | the stored log becomes `Begin` of the old log |
| UndoLog.History.CommitUndo | dist/snmp-switch-manager-card.js:1963-1973 | the stored log becomes `Commit` of the old log |
| UndoLog.History.DoUndo | dist/snmp-switch-manager-card.js:1975-1980 | returns the snapshot to restore and stores the log `Undo` gives |
| UndoLog.History.DoRedo | dist/snmp-switch-manager-card.js:1982-1987 | returns the snapshot to restore and stores the log `Redo` gives |
| Storage.StorageKeysDistinct | dist/snmp-switch-manager-card.js:1642-1649 | different devices or backgrounds get different keys (prefixes without a colon) |
| Storage.PersistThenLoad | dist/snmp-switch-manager-card.js:1651-1690 | loading what was just saved gives back the map, both boxes and the order, as version 2 |
| Storage.LegacyLoads | dist/snmp-switch-manager-card.js:1659-1662 | a bare position map (an object, never an array) loads as a version-1 record |
| Storage.RejectedRecords | dist/snmp-switch-manager-card.js:1651-1675 | nothing loads from a missing key, empty or malformed text, a non-object, a stored array, or a versioned record without an object map |
| Storage.PersistIsolated | dist/snmp-switch-manager-card.js:1676-1690 | saving under one key leaves what loads from every other key unchanged |
| Resolve.PositionSource | dist/snmp-switch-manager-card.js:3873-3886 | the live map while the editor is on, else the saved map, else the configured `port_positions`; always an object or none |
| Resolve.NormMapDomain | dist/snmp-switch-manager-card.js:3887-3889 | the lookup table has a key exactly when some entry's key normalises to it |
| Resolve.NormMapLast | dist/snmp-switch-manager-card.js:3887-3889 | a key of the table reads the value of the last entry that normalises to it |
| Resolve.GridSlot | dist/snmp-switch-manager-card.js:3938-3940 | port `i` goes to column `i mod perRow`, row `i div perRow`, one pitch apart |
| Resolve.NoEntryKeepsSlot | dist/snmp-switch-manager-card.js:3943-3956 | with no map, or no entry for the port, the port is drawn at its slot plus the offsets |
| Resolve.EntryOverridesFiniteCoordinates | dist/snmp-switch-manager-card.js:3943-3956 | each finite coordinate of the entry replaces the slot's; offsets are added last |
| Resolve.PlacedPortIsDrawnThere | dist/snmp-switch-manager-card.js:3880-3956 | a port the editor just placed is drawn there (plus offsets) while the editor is on |
| Resolve.TableReadsWrite | dist/snmp-switch-manager-card.js:3887-3889 | after writing a key, the table reads the written value under its normal form |
| EditorSpec.FirstWithIdFinds | dist/snmp-switch-manager-card.js:1829 | with distinct entity ids, the glyph looked up for an id is the one that carries it |
| EditorSpec.KeyForNamedPort | dist/snmp-switch-manager-card.js:1830-1831 | a port with a non-blank name is filed under a key that normalises to its name |
| EditorSpec.PositionsAfterKeys | dist/snmp-switch-manager-card.js:1825-1832 | after placements the keys stay unique, none is lost, and every written port has its key |
| EditorSpec.RectsAfterEffect | dist/snmp-switch-manager-card.js:1833-1838 | placements keep the set of rects, leave unwritten ports alone, and put each written port where it was placed |
| EditorSpec.BoxValueRoundTrip | dist/snmp-switch-manager-card.js:1873-1879 | a stored box normalises back to the box, at least 10 by 10 |
| EditorSpec.NumericPackingWritesEvery | dist/snmp-switch-manager-card.js:2148-2172 | numeric packing writes the id of every port it packs |
| EditorSpec.OddEvenPackingWritesEvery | dist/snmp-switch-manager-card.js:2098-2147 | odd/even packing writes the id of every port it packs |
| EditorSpec.PackingRunsOnce | dist/snmp-switch-manager-card.js:2080-2088 | once a packing has run, the ports it wrote count as explicitly placed, so packing again writes nothing |
| EditorSpec.FitOverEncloses | dist/snmp-switch-manager-card.js:2274-2315 | a fitted box is at least its minimum and encloses the members' rects |
| EditorSpec.MoveCarriesMembers | dist/snmp-switch-manager-card.js:2879-2887 | with no snapping, moving a box moves it and every member by the same displacement |
| EditorSpec.ResizeKeepsMembersInside | dist/snmp-switch-manager-card.js:2888-2923 | with no snapping, a resize keeps every member inside the new box, and a member inside the old box keeps its relative position |
| EditorSpec.MarqueeSelectsInside | dist/snmp-switch-manager-card.js:3224-3246 | the marquee selects exactly the ports with an entity and a rect whose corner lies between its corners, each once |
| EditorSpec.HitsSoFarAreMarqueeHits | dist/snmp-switch-manager-card.js:3233-3245 | collecting hits one port at a time gives the filtered ids |
| EditorSpec.PressSelectEffect | dist/snmp-switch-manager-card.js:3522-3533 | a press keeps the selection free of repeats; Ctrl/Meta flips only that port's membership; a plain press leaves it selected |
| EditorSpec.DragMembers | dist/snmp-switch-manager-card.js:3551-3555 | every carried port is selected, has a rect, and starts at its rect's corner |
| EditorSpec.JsonEntry | dist/snmp-switch-manager-card.js:2532-2549 | an accepted entry has a non-blank key and port, and its point is the finite `x` and `y` of the value |
| EditorSpec.LayoutOfReads | dist/snmp-switch-manager-card.js:2531-2558 | the new map holds exactly the accepted entries' keys, each with the last accepted point, none twice |
| EditorSpec.DefaultGridCells | dist/snmp-switch-manager-card.js:2584-2632 | write `i` of the default grid moves the `i`-th port with an entity to cell `i` |
| EditorSpec.DefaultGridSpacing | dist/snmp-switch-manager-card.js:2584-2632 | with no snapping the grid starts at the centred left edge, 42 down, one port plus a gap apart in rows and columns |
| EditorSpec.AlignLinesUp | dist/snmp-switch-manager-card.js:2719-2749 | after aligning, every selected port with a rect is on the first one's line with its other coordinate unchanged; others are untouched |
| EditorSpec.SpreadEvenlyEnds | dist/snmp-switch-manager-card.js:2781-2788 | spreading keeps the first and the last port and every port's other coordinate |
| EditorSpec.SpreadEvenlySteps | dist/snmp-switch-manager-card.js:2781-2788 | consecutive spread ports are one common step apart |
| EditorSpec.PairSpacing | dist/snmp-switch-manager-card.js:2763-2774 | with two ports, the as-written gap leaves them flush; the intended gap spaces them like the default grid |
| EditorSpec.PairSpacingExample | dist/snmp-switch-manager-card.js:2767 | two 18-wide ports at 0 and 100: as written the second lands at 18, intended is 28 |
| EditorSpec.RestoredRectsPlace | dist/snmp-switch-manager-card.js:1912-1941 | restoring a snapshot keeps the set of rects; a port with a rect and a usable entry gets its rect moved to the entry's point at the same size, any other port keeps its rect exactly |
| EditorSpec.WithDefaultUsable | dist/snmp-switch-manager-card.js:2393-2395 | turning a box tool on leaves a usable box: the kept record, else the default |
| EditorSpec.FittedBoxReads | dist/snmp-switch-manager-card.js:2311 | a fit reads back as the fitted box; without a fit the record is untouched |
| EditorSpec.OpenedBoxUsable | dist/snmp-switch-manager-card.js:2392-2398 | a box tool that comes on always ends with a usable box |
| EditorSpec.ParseInt | dist/snmp-switch-manager-card.js:2476 | a value is read only when the text has a digit |
| EditorSpec.SnapFieldRoundTrip | dist/snmp-switch-manager-card.js:2474-2476 | reading back the pitch the snap field shows gives the pitch |
| LayoutEditor.PastedObject | dist/snmp-switch-manager-card.js:2513-2517 | the JSON box is usable exactly when blank or a plain object |
| LayoutEditor.SelectIn | dist/snmp-switch-manager-card.js:3233-3245 | the marquee loop collects exactly the marquee hits |
| LayoutEditor.FileEntries | dist/snmp-switch-manager-card.js:2531-2558 | the JSON loop builds the map of accepted entries and moves their rects |
| LayoutEditor.Editor.constructor | dist/snmp-switch-manager-card.js:1716-1765 | the editor opens with the stored map, order and boxes (else the configured positions), nothing selected, no tool on |
| LayoutEditor.Editor.SetPortXY | dist/snmp-switch-manager-card.js:1825-1858 | files the point under the port's name (else its id) and moves its rect, keeping the size |
| LayoutEditor.Editor.ApplyWrites | dist/snmp-switch-manager-card.js:2166-2172 | a placement loop is `setPortXY` of each write in order |
| LayoutEditor.Editor.ApplyPortsBoxLayout | dist/snmp-switch-manager-card.js:2047-2174 | the layout after the ports-box packing's writes |
| LayoutEditor.Editor.ApplyUplinkBoxLayout | dist/snmp-switch-manager-card.js:2317-2371 | the layout after the uplink packing's writes |
| LayoutEditor.Editor.FitPortsBox | dist/snmp-switch-manager-card.js:2274-2315 | the ports box becomes the fitted box when there is one; dirty when it changed |
| LayoutEditor.Editor.FitUplinkBox | dist/snmp-switch-manager-card.js:2226-2272 | the uplinks box becomes the fitted box when there is one; dirty when it changed |
| LayoutEditor.Editor.TogglePortsBox | dist/snmp-switch-manager-card.js:2374-2405 | flips the ports tool, turns the uplinks tool off when it comes on, supplies and fits the box, packs, and marks dirty |
| LayoutEditor.Editor.ToggleUplinkBox | dist/snmp-switch-manager-card.js:2430-2459 | flips the uplinks tool, turns the ports tool off when it comes on, supplies and fits the box, packs, and marks dirty |
| LayoutEditor.Editor.ChangeOrder | dist/snmp-switch-manager-card.js:2417-2425 | a blank order means numeric; with the ports tool on the ports are packed again |
| LayoutEditor.Editor.ChangeSnap | dist/snmp-switch-manager-card.js:2475-2477 | the pitch is the field's integer value, or 0 |
| LayoutEditor.Editor.ApplyJson | dist/snmp-switch-manager-card.js:2510-2567 | anything but a plain object changes nothing and fails; otherwise the map becomes the accepted entries and their ports move |
| LayoutEditor.Editor.ClearJson | dist/snmp-switch-manager-card.js:2584-2632 | empties the map, lays every port with an entity on the default grid, and clears the selection |
| LayoutEditor.Editor.Save | dist/snmp-switch-manager-card.js:2636-2654 | the saved record loads back as the current map, boxes and order; nothing is left unsaved |
| LayoutEditor.Editor.Reset | dist/snmp-switch-manager-card.js:2660-2673 | one undoable step that empties the map and the selection |
| LayoutEditor.Editor.ApplySnapshot | dist/snmp-switch-manager-card.js:1900-1956 | the map, boxes, order and snap come back, ports move to their saved places, and the active box packs |
| LayoutEditor.Editor.PressUndo | dist/snmp-switch-manager-card.js:1975-1980 | the log steps back and the previous snapshot, if any, is applied |
| LayoutEditor.Editor.PressRedo | dist/snmp-switch-manager-card.js:1982-1987 | the log steps forward and the next snapshot, if any, is applied |
| LayoutEditor.Editor.Align | dist/snmp-switch-manager-card.js:2719-2749 | the layout after the align writes; dirty when align acts |
| LayoutEditor.Editor.DistributeAlong | dist/snmp-switch-manager-card.js:2751-2791 | the layout after distributing, dirty when it acts; two ports are spaced with the configured gap, the corrected spacing of the finding below, not the 0 the file uses |
| LayoutEditor.Editor.HitDown | dist/snmp-switch-manager-card.js:3377-3432 | a press on the panel starts drawing the active tool's box as an undoable step, else a marquee |
| LayoutEditor.Editor.StartPortsBoxDrag | dist/snmp-switch-manager-card.js:3264-3309 | with the tool on, starts an undoable move or resize that carries the non-uplink ports |
| LayoutEditor.Editor.StartUplinkBoxDrag | dist/snmp-switch-manager-card.js:3321-3361 | with the tool on, starts an undoable move or resize that carries the uplink ports |
| LayoutEditor.Editor.HitMove | dist/snmp-switch-manager-card.js:2831-3002 | the gesture of this pointer takes one step; any other pointer changes nothing |
| LayoutEditor.Editor.PortsBoxDragTo | dist/snmp-switch-manager-card.js:2853-2931 | the ports box follows the pointer, the members follow the box, and a draw packs again |
| LayoutEditor.Editor.UplinkBoxDragTo | dist/snmp-switch-manager-card.js:2933-3002 | the uplinks box and its members follow the pointer |
| LayoutEditor.Editor.HitUp | dist/snmp-switch-manager-card.js:3179-3256 | a release ends the pointer's box gesture and records it, or replaces the selection with the marquee's ports |
| LayoutEditor.Editor.EndPortsBoxDrag | dist/snmp-switch-manager-card.js:3179-3199 | the ports-box gesture ends and is committed to the log |
| LayoutEditor.Editor.EndUplinkBoxDrag | dist/snmp-switch-manager-card.js:3201-3222 | the uplinks-box gesture ends, the box is refitted, and the step is committed |
| LayoutEditor.Editor.EndMarquee | dist/snmp-switch-manager-card.js:3224-3254 | the selection becomes the ports the marquee covers, each once |
| LayoutEditor.Editor.PortDown | dist/snmp-switch-manager-card.js:3515-3565 | a press on a port updates the selection and starts an undoable drag of the selected ports |
| LayoutEditor.Editor.PortMove | dist/snmp-switch-manager-card.js:3446-3498 | the dragging pointer shifts every carried port by its displacement, snapped, and refits the uplinks box; other pointers change nothing |
| LayoutEditor.Editor.RefitUplinks | dist/snmp-switch-manager-card.js:3459-3495 | while ports move, the uplinks box hugs every port named as an uplink |
| LayoutEditor.Editor.PortUp | dist/snmp-switch-manager-card.js:3500-3512 | the drag of this pointer ends and is committed to the log |

## Left out

- Rendering is left out: DOM and SVG drawing, labels and their backgrounds, modals, the bandwidth graph and the Home Assistant service calls. A port is reduced to its rect's box; label moves that follow a port are not modelled.
- The re-render after Apply JSON and Reset is not modelled. `Reset` takes the freshly drawn rects as a parameter.
- Browser storage is a `map` parameter of the editor. Clocks are parameters: `Save` takes the time stamp. The save event dispatch and the debounced persist are left out.
- Only one port-glyph drag is modelled at a time. The source keeps one record per glyph, so two pointers dragging two glyphs at once are not covered.
- The assist gesture (`_calibAssist === "drag"`, 3379-3384, and `applyAutoLayout`, 3031-3178) is left out. Nothing in the file sets the assist mode to `"drag"`, so it cannot run.
- A `ports_order` given as a numeric string, and rect attributes that are not finite numbers, are not modelled: orders are texts and rects are real boxes.
- Pasted JSON objects are taken with their keys as given. Duplicate keys, which `JSON.parse` merges, are not represented.
- LayoutEditor.FileEntries: the source moves each rect inside the loop; the model files the entries and then moves the rects in one pass. Rects are keyed by entity id, so the result is the same.
- Json.UniqueKeys: unique keys are proved to be preserved by each placement (`PositionsAfterKeys`), but are not kept as a class invariant of `Editor`.
- Ports.NormListToSet: array items that are not text are skipped, rather than converted with `String()`.
- `localeCompare(..., { sensitivity: "base" })` is modelled as an ordinal comparison of the ASCII case-folded strings (`Text.FoldCompare`). Locale collation is not: it puts punctuation before digits, so `Port-channel1` sorts before `Port1`, while the ordinal comparison puts `Port1` first.
- `localeCompare(..., { numeric: true, sensitivity: "base" })` is modelled with the natural order of `NaturalOrder.Compare`. This covers the older card's sorts and the current card's discovery sorts (dist/snmp-switch-manager-card.js:715 and 721). Numeric collation ties `Po01` with `Po1`; the natural order puts `Po1` first, and it orders punctuation as above.
- Ports.PhysCompareByTriple: the last tie-break, between names with equal kind, unit, slot and port, is the natural order and not numeric locale collation (dist/snmp-switch-manager-card.js:715), as the line above says.
- Ports.Discover: both sorts use the natural order in place of numeric locale collation (dist/snmp-switch-manager-card.js:715 and 721).
- Json.NumberOf: `Number()` is modelled on exact reals. IEEE rounding and overflow are not: `1e400` is infinite in JavaScript but a finite real here. White space is limited to the characters `Text.IsSpace` lists. `EditorSpec.JsonEntry` and `Resolve.EntryOverridesFiniteCoordinates` read coordinates through it, so they share these limits.
- LayoutEditor.Editor.DistributeAlong: the editor class uses the corrected two-port spacing (`EditorSpec.Distribute`), which is the configured gap. The file as written spaces two ports with a gap of 0 (dist/snmp-switch-manager-card.js:2767). `EditorSpec.DistributeAsWritten` and `EditorSpec.PairSpacingExample` model that behaviour, as the Findings row says.
- Closing the editor (the disabled branch of `_setupCalibrationUI`, dist/snmp-switch-manager-card.js:1720-1734) is not modelled. The model's constructor always starts with an empty undo log. The file keeps `_calibHist` across a close and reopen (1885), so undo can reach steps made before the editor was closed, against the comment at 1884.
- Case mapping is ASCII only (`Text.Upper`, `Text.Lower`). JavaScript's `toUpperCase` and `toLowerCase` in interface parsing, hidden-port matching and uplink matching map all of Unicode (`ß` becomes `SS`).
- JavaScript objects list integer-like keys, such as a port named `1`, first and in numeric order. The model's key lists keep insertion order for every key.
- `Math.sqrt` followed by `Math.round` is defined exactly as the rounded root (`Packing.RoundSqrt`). Floating-point rounding is not modelled, and coordinates are reals.
- Every lemma about positions inside a box states the property with no snapping (pitch 0). Snapping may move a port up to half a pitch outside the box.
- Ports.Discover and ClassicCard.Discover: the entity selection before the loop is not modelled. That is the explicit `ports` list, the anchor device registry lookup, the `switch.*` filters and the diagnostics fallback. The loop receives the selected entries.

## Findings

| source | as written | input that shows it | evidently intended | confidence | as-written member | corrected member |
|---|---|---|---|---|---|---|
| dist/snmp-switch-manager-card.js:2767 | with two selected ports, `distribute` places the second at the first's width plus `port_gap`, a key the card's configuration never defines, so the gap is always 0 | two 18-wide ports at x = 0 and x = 100 with the default horizontal gap of 10: the second lands at 18, flush against the first | the configured `horizontal_port_gap` / `vertical_port_gap`, so the second lands at 28, one grid pitch | not executed | EditorSpec.PairSpacingExample | EditorSpec.PairSpacing |
