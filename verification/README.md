# faebryk netlist pipeline and wiring rules, modelled in Dafny

faebryk describes an electronic design as Python objects. Components such
as resistors, capacitors, switches, NAND gates or the CD4011 quad-NAND chip
own *interfaces* (`Electrical`, `Power`, `SPI`, `I2C`, ...). Interfaces are
connected to each other. Every object carries a *trait store*, which holds
at most one implementation per trait kind.

From a connected design, faebryk derives a netlist in two stages:

- The **net reducer** (`make_t2_netlist_from_t1`) takes per-component pin
  adjacency records ("t1"). It turns them into nets ("t2"): the connected
  components of the pin graph that hold more than one real vertex. Each net
  is named by a fixed priority rule.
- The **KiCad builder** (`from_faebryk_t2_netlist`):
  - rejects duplicate component names and vertices that reference unknown
    components;
  - sorts components and nets by name;
  - hands out time stamps and net codes 1, 2, 3, ... in that order;
  - takes the footprint out of the properties;
  - prunes `None` and empty containers from the resulting document tree.

The model has these modules:

| module | file | what it holds |
|---|---|---|
| `Wrappers` | wrappers.dfy | `Option`, `Result` and the `Error` values that stand for the source's exceptions and failed asserts |
| `Strings` | strings.dfy | `"-".join`, integer rendering, and Python's string order |
| `Sorting` | sorting.dfy | `sorted(key=...)` as a stable insertion sort |
| `Document` | document.dfy | the document tree and `_clean_none_and_empty`, both as a function and as the source's in-place loop |
| `Graphs` | graphs.dfy | reachability over an edge list; connected components by a worklist search |
| `Netlist` | netlist.dfy | the net reducer |
| `Kicad` | kicad.dfy | the KiCad builder, up to the document tree |
| `Traits` | traits.dfy | the trait store, a class whose map from kind to implementation is last-write-wins |
| `Interfaces` | interfaces.dfy | interfaces as values; the design's neighbour sets as a class; `connect`, `connect_all`, `from_interfaces`, `get_all_interfaces` and `get_components_of_interfaces` |
| `Parameters` | parameters.dfy | `Constant`, `Range` (with `pick`) and `TBD` |
| `Components` | components.dfy | `Resistor`, `Capacitor`, `Switch` and `Potentiometer` |
| `Cd4011` | cd4011.dfy | `NAND` and `CD4011`: NAND setup, the in_out walk filling `connection_map`, padding to four NANDs, and the `TI_CD4011BE` pin map |
| `Footprints` | footprints.dfy | `SMDTwoPin` and its KiCad footprint name, from the metric table as written and from the corrected table |

How interfaces are represented:

- An interface is a value: its kind, a unique identity handed out by the
  `Design` allocator, and its sub-interfaces in declaration order.
- Connecting records symmetric neighbour pairs in `Design.links`, a map
  from identity to neighbour identities.
- The core library `faebryk.library.core` is not part of this model. Its
  `connect` is modelled as this symmetric insertion, and its trait methods
  as the map operations of `Traits.TraitStore`.

## Model

| member | source | states |
|---|---|---|
| `Wrappers.DefaultWith` | faebryk/library/library.py:232-235 | the given value when present, the default when absent |
| `Strings.JoinEmpty` | faebryk/exporters/netlist/netlist.py:73-75 | a "-"-join is empty exactly when there are no parts or the only part is empty |
| `Strings.NatToString` | faebryk/exporters/netlist/netlist.py:66 | a pin number renders as the decimal digits whose value is that number, with no leading zero, as `str` does |
| `Strings.NatToStringInjective` | faebryk/exporters/netlist/netlist.py:66 | two different pin numbers never render alike |
| `Strings.IntToString` | faebryk/exporters/netlist/netlist.py:66 | an integer renders as a minus sign exactly when it is negative, then the digits of its magnitude with no leading zero |
| `Strings.StrLeTotal` | src/faebryk/exporters/netlist/kicad/netlist_kicad.py:308 | the name order `sorted` uses is total |
| `Strings.StrLeAntisymmetric` | src/faebryk/exporters/netlist/kicad/netlist_kicad.py:308 | two names ordered both ways are equal |
| `Strings.StrLeTransitive` | src/faebryk/exporters/netlist/kicad/netlist_kicad.py:308 | the name order is transitive |
| `Sorting.SortBy` | src/faebryk/exporters/netlist/kicad/netlist_kicad.py:308 | sorting keeps exactly the same elements (same multiset, same length) |
| `Sorting.SortBySorted` | src/faebryk/exporters/netlist/kicad/netlist_kicad.py:308 | the result of sorting is ordered by key |
| `Sorting.SortByStable` | src/faebryk/exporters/netlist/kicad/netlist_kicad.py:330-332 | elements with equal keys keep their input order (Python's sort is stable) |
| `Sorting.MapPermutation` | src/faebryk/exporters/netlist/kicad/netlist_kicad.py:299-310 | mapping a function over two permutations of each other gives permutations of each other |
| `Document.CleanIsPruned` | src/faebryk/exporters/netlist/kicad/netlist_kicad.py:189-221 | after cleaning, no `None`, no empty dict, list or multi-key dict and no tuple shorter than two remains at any depth |
| `Document.CleanKeepsPruned` | src/faebryk/exporters/netlist/kicad/netlist_kicad.py:189-221 | cleaning leaves an already pruned document unchanged |
| `Document.CleanIdempotent` | src/faebryk/exporters/netlist/kicad/netlist_kicad.py:189-221 | cleaning twice is cleaning once |
| `Document.CleanSingleton` | src/faebryk/exporters/netlist/kicad/netlist_kicad.py:194-201 | a one-entry dict survives with its cleaned value, or becomes `None` when that value cleans to `None` |
| `Document.CleanItemsAllNull` | src/faebryk/exporters/netlist/kicad/netlist_kicad.py:207-218 | a container whose items all clean to `None` becomes `None` |
| `Document.CleanEntriesAllNull` | src/faebryk/exporters/netlist/kicad/netlist_kicad.py:194-218 | a dict whose values all clean to `None` becomes `None` |
| `Document.DelKeyAfter` | src/faebryk/exporters/netlist/kicad/netlist_kicad.py:199 | `del new_obj[k]` removes exactly that key's entry and keeps the rest in order |
| `Document.SetKeyAfter` | src/faebryk/exporters/netlist/kicad/netlist_kicad.py:201 | `new_obj[k] = v_` replaces that key's value in place |
| `Document.CleanInPlace` | src/faebryk/exporters/netlist/kicad/netlist_kicad.py:189-221 | the in-place cleaning yields `Clean` of the input on every well-formed document |
| `Document.CleanDict` | src/faebryk/exporters/netlist/kicad/netlist_kicad.py:194-201 | the copy-then-delete-or-overwrite loop over a dict leaves exactly the cleaned entries, in order |
| `Document.CleanSeq` | src/faebryk/exporters/netlist/kicad/netlist_kicad.py:207-212 | the map-and-filter over a list or tuple keeps the cleaned non-`None` items, in order |
| `Graphs.Nodes` | faebryk/exporters/netlist/netlist.py:44 | the graph's vertices are exactly the edge endpoints, each listed once |
| `Graphs.ReachableSym` | faebryk/exporters/netlist/netlist.py:28 | the graph is undirected: reachability is symmetric |
| `Graphs.ReachableTrans` | faebryk/exporters/netlist/netlist.py:55 | reachability is transitive |
| `Graphs.ClassesDisjoint` | faebryk/exporters/netlist/netlist.py:55 | two reachability classes are equal or disjoint |
| `Graphs.ComponentOf` | faebryk/exporters/netlist/netlist.py:55 | the worklist search from a vertex returns exactly its reachability class |
| `Graphs.ComponentsPartition` | faebryk/exporters/netlist/netlist.py:55 | the connected components are non-empty, closed classes that are pairwise disjoint and cover every vertex |
| `Graphs.ConnectedComponents` | faebryk/exporters/netlist/netlist.py:55 | the loop returns the connected components |
| `Netlist.NeighborEdges` | faebryk/exporters/netlist/netlist.py:29-33 | one edge per neighbour entry, from the record's pin to the neighbour's pin |
| `Netlist.EdgesFromAdjacency` | faebryk/exporters/netlist/netlist.py:29-34 | an edge exists iff some record of that name lists the neighbour under that pin |
| `Netlist.NoNeighborsNoEdges` | faebryk/exporters/netlist/netlist.py:32 | a record without `neighbors` contributes no edges |
| `Netlist.FirstDangling` | faebryk/exporters/netlist/netlist.py:35-41 | absent iff every edge target names a known component; otherwise the first unknown target |
| `Netlist.MakeGraph` | faebryk/exporters/netlist/netlist.py:27-45 | the validating loop fails on the first edge whose target is unknown, and otherwise yields the edge list |
| `Netlist.Lookup` | faebryk/exporters/netlist/netlist.py:36-38 | a vertex's record is found iff a record has that name |
| `Netlist.Members` | faebryk/exporters/netlist/netlist.py:55 | a net's vertices are exactly its component's graph vertices, each once |
| `Netlist.RealVertices` | faebryk/exporters/netlist/netlist.py:85-92 | a net's t2 vertices are exactly its real vertices, as (component with `real` and `neighbors` removed, pin) |
| `Netlist.VirtualLabels` | faebryk/exporters/netlist/netlist.py:64-69 | a net with only real vertices has no virtual labels |
| `Netlist.NetNameRule` | faebryk/exporters/netlist/netlist.py:61-78 | a net of two or more vertices always gets a non-empty name: the join of its virtual labels if that is non-empty, else the join of all names |
| `Netlist.Keep` | faebryk/exporters/netlist/netlist.py:58-59 | a component is kept iff it has more than one real vertex |
| `Netlist.KeepDisjoint` | faebryk/exporters/netlist/netlist.py:58-59 | filtering keeps the components pairwise disjoint |
| `Netlist.NameAll` | faebryk/exporters/netlist/netlist.py:80-95 | naming succeeds iff every kept component can be named, with one net per component in order |
| `Netlist.MakeT2Netlist` | faebryk/exporters/netlist/netlist.py:48-97 | the reducer returns the t2 specification `T2` |
| `Netlist.KeptNamable` | faebryk/exporters/netlist/netlist.py:73-78 | a kept net can always be named, so the naming failure never fires on output nets |
| `Netlist.T2FailsOnDangling` | faebryk/exporters/netlist/netlist.py:35-41 | the reduction fails iff some adjacency target is unknown, with the first such name |
| `Netlist.T2NetsAreKeptComponents` | faebryk/exporters/netlist/netlist.py:54-95 | the nets are exactly the components with more than one real vertex, and each net lists that component's real vertices |
| `Netlist.T2VerticesReal` | faebryk/exporters/netlist/netlist.py:85-92 | every vertex listed in a net is real and carries its record's component |
| `Netlist.T2NetsDisjoint` | faebryk/exporters/netlist/netlist.py:55-95 | no (component, pin) appears in two nets |
| `Kicad.GenNodes` | src/faebryk/exporters/netlist/kicad/netlist_kicad.py:325-333 | one `_gen_node` per (ref, pin), in order |
| `Kicad.Items` | src/faebryk/exporters/netlist/kicad/netlist_kicad.py:184-186 | `_sublist` flattens to one (key, value) item per entry, in order |
| `Kicad.EmptyDesignClean` | src/faebryk/exporters/netlist/kicad/netlist_kicad.py:229-242 | the all-`None` design section of the defaulted netlist cleans away entirely |
| `Kicad.PairOfNull` | src/faebryk/exporters/netlist/kicad/netlist_kicad.py:209-214 | a (key, `None`) item cleans to `None` |
| `Kicad.ExportClean` | src/faebryk/exporters/netlist/kicad/netlist_kicad.py:142-176 | the cleaned export keeps the version and the non-empty components and nets, and drops `design`, `libparts` and `libraries` |
| `Kicad.DefaultedNetlistShape` | src/faebryk/exporters/netlist/kicad/netlist_kicad.py:225-247 | the defaulted netlist is exactly version, components and nets after cleaning, and is pruned |
| `Kicad.GetProp` | src/faebryk/exporters/netlist/kicad/netlist_kicad.py:303 | a property is found iff its key is present, and its entry is in the properties |
| `Kicad.WithoutKey` | src/faebryk/exporters/netlist/kicad/netlist_kicad.py:304 | the comprehension keeps exactly the entries whose key is not `footprint` |
| `Kicad.KCompOf` | src/faebryk/exporters/netlist/kicad/netlist_kicad.py:299-307 | a component without a footprint fails; otherwise it keeps ref, value and tstamp, its footprint is the `footprint` property, and no `footprint` key is left in its properties |
| `Kicad.NumberedSpec` | src/faebryk/exporters/netlist/kicad/netlist_kicad.py:269-310 | the counter gives element i the number first+i, and the whole succeeds iff each element does |
| `Kicad.NumberedFailure` | src/faebryk/exporters/netlist/kicad/netlist_kicad.py:299-310 | a failing build reports the failure of one of its elements |
| `Kicad.FirstMissing` | src/faebryk/exporters/netlist/kicad/netlist_kicad.py:314-319 | absent iff every net vertex names a known component; otherwise an unknown name |
| `Kicad.FromT2Outcome` | src/faebryk/exporters/netlist/kicad/netlist_kicad.py:296-319 | duplicate names fail before anything else; the build succeeds iff names are unique, every component is exportable and every net vertex names a component |
| `Kicad.ExportedCompsOk` | src/faebryk/exporters/netlist/kicad/netlist_kicad.py:299-310 | the component list builds iff every component has a footprint and well-formed fields |
| `Kicad.ExportedCompAt` | src/faebryk/exporters/netlist/kicad/netlist_kicad.py:299-310 | the i-th exported component is the i-th in name order and gets tstamp i+1 |
| `Kicad.ExportedCompsOrder` | src/faebryk/exporters/netlist/kicad/netlist_kicad.py:299-310 | components come out sorted by reference with tstamps 1..n in that order |
| `Kicad.ExportedCompsPermutation` | src/faebryk/exporters/netlist/kicad/netlist_kicad.py:299-310 | the exported references are the input names, with the same multiplicities |
| `Kicad.KNetOfSpec` | src/faebryk/exporters/netlist/kicad/netlist_kicad.py:321-334 | a net keeps its code and name and has one node per vertex, sorted by component reference |
| `Kicad.ExportedNetsSpec` | src/faebryk/exporters/netlist/kicad/netlist_kicad.py:321-339 | nets come out sorted by name with codes 1..m in that order, and their names are the input names with the same multiplicities |
| `Kicad.FromT2Netlist` | src/faebryk/exporters/netlist/kicad/netlist_kicad.py:268-345 | the builder with its two counters returns the specification `FromT2` |
| `Kicad.MakeComps` | src/faebryk/exporters/netlist/kicad/netlist_kicad.py:299-310 | the component loop numbers from 1 as `Numbered` does |
| `Kicad.CheckVertices` | src/faebryk/exporters/netlist/kicad/netlist_kicad.py:314-319 | the nested check loop finds exactly `FirstMissing` |
| `Kicad.MakeNets` | src/faebryk/exporters/netlist/kicad/netlist_kicad.py:321-339 | the net loop numbers from 1 as `BuildNets` does |
| `Traits.TraitStore.Add` | src/faebryk/library/library/components.py:98 | `add_trait` files the implementation under its kind, replacing any earlier one, and leaves other kinds alone |
| `Traits.TraitStore.Del` | src/faebryk/library/library/components.py:86 | `del_trait` removes that kind, if present, and leaves other kinds alone |
| `Traits.TraitStore.Get` | faebryk/library/library.py:263 | `get_trait` succeeds iff the kind is present, otherwise it fails with "trait not found", and what it finds is of that kind |
| `Parameters.Parameter.Constant` | faebryk/library/library.py:16-22 | a Constant carries a single-value trait holding its value |
| `Parameters.Parameter.Range` | faebryk/library/library.py:24-28 | a Range holds its bounds and no trait |
| `Parameters.Parameter.TBD` | faebryk/library/library.py:38-40 | a TBD holds no trait |
| `Parameters.Parameter.Pick` | faebryk/library/library.py:30-36 | `pick` fails outside the inclusive [min, max] without changing anything, and otherwise attaches the value as the single-value trait |
| `Interfaces.Link` | src/faebryk/library/library/interfaces.py:55 | connecting x and y adds y to x's neighbours and x to y's, and nothing else |
| `Interfaces.LinkAllExact` | src/faebryk/library/library/interfaces.py:54-55 | after a series of connections, a neighbour set is the old set plus exactly the partners in those pairs |
| `Interfaces.PartnersMeaning` | src/faebryk/library/library/interfaces.py:54-55 | y is a partner of k iff some pair joins k and y in either direction |
| `Interfaces.LinkAllConnects` | src/faebryk/library/library/interfaces.py:54-55 | each pair connected ends up in both neighbour sets |
| `Interfaces.LinkAllSymmetric` | src/faebryk/library/library/interfaces.py:54-55 | connections keep the neighbour relation symmetric |
| `Interfaces.LinkAllAppend` | src/faebryk/library/library/interfaces.py:54-55 | connecting two lists of pairs in turn is connecting their concatenation |
| `Interfaces.ElectricalPairs` | src/faebryk/library/library/interfaces.py:13-24 | an Electrical connects to anything and adds exactly one pair |
| `Interfaces.ShapedCompatible` | src/faebryk/library/library/interfaces.py:27-206 | two interfaces of the same declared type are always compatible |
| `Interfaces.PowerPairs` | src/faebryk/library/library/interfaces.py:50-57 | Power to Power connects hv to hv and lv to lv, and nothing else |
| `Interfaces.FlatAggregatePairs` | src/faebryk/library/library/interfaces.py:60-206 | DifferentialPair, SWD, SPI, QUAD_SPI, I2C and UART_SIMPLE connect their k-th sub-interfaces pairwise in declaration order |
| `Interfaces.USBPairs` | src/faebryk/library/library/interfaces.py:77-96 | USB2_0 connects its differential pair's p and n, then dp and dn (the same two lines again), then gnd |
| `Interfaces.Times` | faebryk/library/library.py:237-238 | `times(cnt, f)` has length cnt, and element k is the k-th made |
| `Interfaces.Design.NewElectricals` | faebryk/library/library.py:237-238 | `times(cnt, Electrical)` makes cnt fresh Electricals with consecutive identities and connects nothing |
| `Interfaces.Design.New` | src/faebryk/library/library/interfaces.py:27-206 | a fresh interface of the given type, shaped as that type declares, with the next identity; nothing is connected |
| `Interfaces.Design.Connect` | src/faebryk/library/library/interfaces.py:50-57 | a type mismatch fails without touching the neighbour sets; otherwise the sub-interfaces connect pairwise and `self` is returned |
| `Interfaces.Design.ConnectAll` | src/faebryk/library/library/components.py:257-262 | `connect_all` succeeds iff every target is compatible, and then connects the source to each target in order |
| `Interfaces.Cursor.Next` | src/faebryk/library/library/interfaces.py:22 | `next` returns the next item and advances by one, or fails with StopIteration at the end without moving |
| `Interfaces.ElectricalFromInterfaces` | src/faebryk/library/library/interfaces.py:21-22 | consumes exactly one item and returns it |
| `Interfaces.PowerFromInterfaces` | src/faebryk/library/library/interfaces.py:41-46 | consumes exactly two items, the first becoming hv and the second lv; fails when fewer remain |
| `Interfaces.ListInterfaces` | faebryk/library/library.py:102-131 | an Electrical lists only itself, a Power its hv and lv |
| `Interfaces.GetAllInterfaces` | faebryk/library/library.py:261-265 | succeeds iff every interface can list itself |
| `Interfaces.GetAllInterfacesAppend` | faebryk/library/library.py:261-265 | the listing of a concatenation is the concatenation of the listings |
| `Interfaces.GetAllElectricals` | faebryk/library/library.py:106-109 | a list of Electricals lists as itself |
| `Interfaces.GetComponentsOfInterfaces` | faebryk/library/library.py:267-272 | keeps in order the owner of each interface that has one: none owned gives nothing, all owned gives one owner per interface |
| `Interfaces.GetComponentsAppend` | faebryk/library/library.py:267-272 | the owners of a concatenation are the concatenated owners |
| `Components.Resistor.constructor` | src/faebryk/library/library/components.py:59-76 | two fresh Electricals, bridged, then `set_resistance` |
| `Components.Resistor.SetResistance` | src/faebryk/library/library/components.py:78-98 | a non-Constant deletes the type description; a Constant adds one for its value, replacing any earlier one; a description is present iff the resistance is a Constant |
| `Components.Capacitor.constructor` | src/faebryk/library/library/components.py:107-121 | two fresh bridged Electricals, then `set_capacitance` |
| `Components.Capacitor.SetCapacitance` | src/faebryk/library/library/components.py:123-138 | a non-Constant leaves the traits unchanged; a Constant adds a type description |
| `Components.Switch.constructor` | src/faebryk/library/library/components.py:273-291 | described as "SW", with two fresh bridged Electricals |
| `Components.WirePotentiometer` | src/faebryk/library/library/components.py:257-265 | the wiper joins both resistors' second terminals, and each outer terminal joins its resistor's first terminal |
| `Components.Potentiometer.constructor` | src/faebryk/library/library/components.py:239-265 | two outer terminals, a wiper and two resistors sharing one resistance, wired as above |
| `Components.Potentiometer.ConnectAsVoltageDivider` | src/faebryk/library/library/components.py:267-270 | connects exactly outer 0 to high, outer 1 to low and the wiper to out |
| `Cd4011.Nand.constructor` | src/faebryk/library/library/components.py:327-345 | a NAND with a fresh power, a fresh output and `input_cnt` fresh inputs after it |
| `Cd4011.Flatten` | src/faebryk/library/library/components.py:403-411 | the number of in_outs is the sum over the NANDs of one plus their inputs |
| `Cd4011.FlattenAppend` | src/faebryk/library/library/components.py:403-405 | each further NAND adds its output, then its inputs |
| `Cd4011.Flatten4` | src/faebryk/library/library/components.py:403-405 | for four 2-input NANDs, NAND k's output, input 0 and input 1 are in_outs 3k, 3k+1 and 3k+2 |
| `Cd4011.SetupNands` | src/faebryk/library/library/components.py:393-400 | four fresh 2-input NANDs, each marked with a symmetric footprint pin map, with pins in increasing identity order |
| `Cd4011.NewChipTraits` | src/faebryk/library/library/components.py:374-391 | the chip's trait store holds exactly the type description "cd4011" |
| `Cd4011.NewMarkedNand` | src/faebryk/library/library/components.py:393-400 | a fresh 2-input NAND marked with a symmetric footprint pin map, whose pins come after every pin made before it |
| `Cd4011.SetupInterfaces` | src/faebryk/library/library/components.py:402-411 | a fresh power, then exactly one fresh Electrical in_out per NAND output and input, with consecutive identities after the power |
| `Cd4011.NewCD4011` | src/faebryk/library/library/components.py:436-442 | `CD4011()`: four fresh marked 2-input NANDs with increasing pin identities, in_outs with increasing identities, described as "cd4011", and the internal connections of `Wiring` made |
| `Cd4011.CD4011.SetupInternalConnections` | src/faebryk/library/library/components.py:413-426 | the walk fills `connection_map` from NAND pins to in_outs in order, and makes exactly the power and in_out connections of `Wiring` |
| `Cd4011.Walk` | src/faebryk/library/library/components.py:415-426 | the walk leaves `connection_map` pairing the k-th NAND pin with the k-th in_out and makes exactly the connections of `Wiring`, creating nothing |
| `Cd4011.WalkStep` | src/faebryk/library/library/components.py:416-426 | one NAND of the walk followed by the walk over the rest is the walk over all of them, for the map and for the connections |
| `Cd4011.WireNand` | src/faebryk/library/library/components.py:417-426 | one NAND: its power to the chip's, then the next in_outs to its output and inputs, recorded in the map |
| `Cd4011.ServePins` | src/faebryk/library/library/components.py:419-426 | each target connects to its pin in order, and the map records target for pin |
| `Cd4011.ExtendAppend` | src/faebryk/library/library/components.py:422-426 | filling the map in two runs is filling it in one |
| `Cd4011.ExtendAt` | src/faebryk/library/library/components.py:422-426 | with distinct pins, the map holds for each pin the in_out written for it |
| `Cd4011.ConnectionMapCovers` | src/faebryk/library/library/components.py:413-426 | `connection_map` has an entry for exactly the NAND outputs and inputs |
| `Cd4011.ConnectionMapInjective` | src/faebryk/library/library/components.py:413-426 | with distinct in_outs, no in_out serves two NAND pins |
| `Cd4011.WiringServes` | src/faebryk/library/library/components.py:419-426 | the k-th in_out is connected to the k-th NAND pin of the walk |
| `Cd4011.WiringPowers` | src/faebryk/library/library/components.py:418 | every NAND's hv and lv are among the pairs connected to the chip's hv and lv |
| `Cd4011.NandPowerConnected` | src/faebryk/library/library/components.py:418 | after the walk, every NAND's hv and lv are neighbours of the chip's hv and lv, both ways |
| `Cd4011.CD4011.WithNands` | src/faebryk/library/library/components.py:481-484 | what `__init__` and `_init_from_nands` share once the NANDs are in place: the chip keeps those NANDs, gets the "cd4011" description, a fresh power and in_outs, a `connection_map` pairing NAND pins with in_outs, and exactly the connections of `Wiring` |
| `Cd4011.PadNands` | src/faebryk/library/library/components.py:475-477 | the given NANDs first, then fresh 2-input NANDs up to exactly four |
| `Cd4011.FromNands` | src/faebryk/library/library/components.py:470-484 | fails on more than four NANDs; pads with fresh 2-input NANDs to exactly four, the given ones first; fails on any NAND without exactly two inputs; otherwise builds the chip |
| `Cd4011.CD4011.PinMap` | src/faebryk/library/library/components.py:506-522 | pin 7 is the power's lv and pin 14 its hv |
| `Cd4011.CD4011.PinMapKeys` | src/faebryk/library/library/components.py:507-522 | the pin map has exactly the keys 1 to 14 |
| `Cd4011.CD4011.PinMapServed` | src/faebryk/library/library/components.py:510-521 | signal pin `SignalPins[j]` carries what `connection_map` holds for the j-th NAND pin of the walk |
| `Cd4011.CD4011.ServedByNand` | src/faebryk/library/library/components.py:413-426 | in_outs 3k, 3k+1 and 3k+2 are what `connection_map` holds for NAND k's output, input 0 and input 1 |
| `Cd4011.CD4011.PinMapByNand` | src/faebryk/library/library/components.py:510-521 | pins 3, 4, 11, 10 map through `connection_map` to NANDs 0 to 3's outputs, and pins 1/2, 5/6, 12/13, 9/8 to their inputs |
| `Cd4011.CD4011.PinMapSignals` | src/faebryk/library/library/components.py:510-521 | with distinct NAND pins, the twelve signal pins are in_outs 0 to 11 in `SignalPins` order |
| `Cd4011.CD4011.PinMapDistinct` | src/faebryk/library/library/components.py:510-521 | no two signal pins share an in_out, and none of them is 7 or 14 |
| `Footprints.Imperial` | faebryk/library/library.py:94 | the imperial code is the enum name without its leading underscore |
| `Footprints.FromImperial` | faebryk/library/library.py:61-71 | an imperial code read back names a package type with that code |
| `Footprints.MetricAsWritten` | faebryk/library/library.py:79-90 | the metric table as written, four digits per entry |
| `Footprints.Metric` | faebryk/library/library.py:79-90 | the corrected table: four digits, equal to the written one except for 0603 |
| `Footprints.ParseName` | faebryk/library/library.py:92-96 | a name `Resistor_SMD:R_<imperial>_<metric>Metric` with any 4-character metric code reads back to the package type of its imperial code |
| `Footprints.ParseKicadNameAsWritten` | faebryk/library/library.py:79-96 | every footprint name of the table as written reads back to its package type |
| `Footprints.KicadNameAsWrittenInjective` | faebryk/library/library.py:79-96 | even as written, no two package types share a footprint name: 0402 and 0603 differ in the imperial part |
| `Footprints.ParseKicadName` | faebryk/library/library.py:92-96 | every footprint name of the corrected table reads back to its package type |
| `Footprints.KicadNameInjective` | faebryk/library/library.py:92-96 | no two package types share a corrected footprint name |
| `Footprints.MetricInjective` | faebryk/library/library.py:79-90 | no two package types share a corrected metric code |
| `Footprints.MetricAsWrittenCollides` | faebryk/library/library.py:82-83 | as written, 0402 and 0603 share metric code 1005, so 0603 names `R_0603_1005Metric` rather than `R_0603_1608Metric` |
| `Footprints.SmdTwoPin.constructor` | faebryk/library/library.py:73-98 | an SMDTwoPin carries exactly a KiCad footprint trait naming its type's footprint from the table as written, so an 0603 package names `R_0603_1005Metric` |

## Left out

- `render_graph`: matplotlib drawing and file output.
- `sexp.gensexp` and `prettify_sexp_string`: the s-expression library is not part of this model. The KiCad builder stops at the document tree.
- `multi_key_dict` internals: a multi-key dict is modelled as its ordered list of items.
- `gen_net_name`: it draws a random hex name. Net names are taken as always present.
- Logging in `_clean_none_and_empty`: it has no effect on the result.
- Python set iteration order: `nx.connected_components` returns sets, and the source iterates them in an unspecified order.
  - The model fixes an order: components in order of their first vertex in the edge list, vertices in order of first appearance.
  - The naming rule and the "-"-joins therefore hold for that order.
- Vertex identity in `_make_graph`:
  - The source checks a neighbour by comparing whole record dicts (`d_vertex.node not in netlist`).
  - The model compares component names, and takes a vertex's record to be the first record with that name.
- Field values: the source forwards `properties["fields"]` and unpacks each element as a pair. Anything else is modelled as a `MalformedFields` failure.
- Floating point, as `unit_map`/`integer_base` and the LED series resistor compute it. The type description of a Constant records its value, unit list and start unit, not the rendered text.
- Parameter values are modelled as integers.
- The DIP footprint of `TI_CD4011BE` and its `{spacing:.2f}` formatting.
- The RP2040 and its pin map.
- The other side of the unresolved merge conflicts in faebryk/library/library.py: `SDIO` and `ESP32`.
- samples/vindriktning.py and test/libs/picker/test_jlcpcb.py. They are authoring and database scripts.
- `faebryk.library.core` is not part of this model.
  - Its `Interface.connect` is modelled as symmetric insertion into neighbour sets.
  - Its trait methods are modelled as map operations.
  - `get_trait` on an absent kind is a `TraitNotFound` failure.
  - `del_trait` on an absent kind does nothing.
  - `is_part_of_component` is modelled as an owner map passed to `GetComponentsOfInterfaces`.
- `from_comp` constructions: NAND's and CD4011's `_init_from_comp`, and `consume_iterator`.
- The component check in the older `Power.from_interfaces` of faebryk/library/library.py:134-145. Its assert at line 141 requires hv and lv to belong to the same component whenever both have one, and line 143 then sets that component on the Power. The model follows src/faebryk/library/library/interfaces.py:41-46, which has no such check.
- The constructable-from traits: the one `NAND._setup_traits` installs on every NAND (src/faebryk/library/library/components.py:317-325), and those `CD4011._setup_traits` installs. They only serve the `from_comp` and `from_nands` constructions, which the model expresses as methods.
- `Interfaces.Design.Connect`: when a nested aggregate mismatches partway through a connection, the neighbour sets may already hold the earlier pairs. The contract does not state them. It states the failure, and that a top-level kind mismatch changes nothing.
- `Cd4011.SetupNands`: the source creates all four NANDs and then marks them, while the model marks each NAND as it is created. The objects are fresh, so the order cannot be observed.
- The older copies in faebryk/library/library.py differ in these details, and the model follows src/faebryk/library/library/components.py and src/faebryk/library/library/interfaces.py:
  - the older `Capacitor` description starts at "µF" rather than "F";
  - the older `CD4011` does not mark its NANDs with a symmetric pin map;
  - the older `Power.connect` (faebryk/library/library.py:153-162) lists sub-interfaces through a trait;
  - the older `Power.connect` has no `return`, so it returns None rather than `self`; `Interfaces.Design.Connect` returns the interface, as src/faebryk/library/library/interfaces.py:57 does;
  - the older `CD4011._setup_traits` also installs a `_has_interfaces` trait listing the power and the in_outs (faebryk/library/library.py:591-594, 611);
  - the older `_setup_internal_connections` first makes the chip the owner of those interfaces (faebryk/library/library.py:628).

## Findings

| source | as written | input that shows it | evidently intended | confidence | as-written member | corrected member |
|---|---|---|---|---|---|---|
| faebryk/library/library.py:83 | the metric table maps `_0603` to "1005", the same code as `_0402` | `SMDTwoPin(Type._0603)` names `Resistor_SMD:R_0603_1005Metric` | an 0603 package is 1.6 mm by 0.8 mm, metric code 1608: `Resistor_SMD:R_0603_1608Metric`, with no two sizes sharing a metric code | not executed | `Footprints.MetricAsWrittenCollides` | `Footprints.MetricInjective` |
