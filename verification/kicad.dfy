/** The KiCad netlist builder: from a t2 netlist (nets and components) it
    builds the netlist document, sorted by name, with time stamps and net
    codes handed out in that order, and pruned of `None` and empty parts.
    Rendering the document as s-expression text is not part of this model. */
module Kicad {
  import opened Wrappers
  import opened Strings
  import opened Sorting
  import opened Document
  import opened Netlist

  /** The input of `from_faebryk_t2_netlist`. */
  datatype T2Netlist = T2Netlist(nets: seq<Net>, comps: seq<Comp>)

  /** The arguments `_defaulted_comp` receives for one component. */
  datatype KComp = KComp(ref: string, value: string, footprint: Doc, tstamp: int,
                         fields: seq<(Doc, Doc)>, properties: seq<Entry>)

  /** The arguments `_gen_net` receives for one net; `nodes` holds the
      (ref, pin) of each `_gen_node`. */
  datatype KNet = KNet(code: int, name: string, nodes: seq<(string, int)>)

  // ---------------------------------------------------------------- generators

  /** `_gen_node(ref, pin)` */
  function GenNode(ref: string, pin: int): Doc
  {
    Dict([Entry("node", Dict([Entry("ref", Str(ref)), Entry("pin", Int(pin))]))])
  }

  function Pair(key: string, value: Doc): Doc
  {
    Tuple([Str(key), value])
  }

  /** `_gen_net(code, name, nodes)` */
  function GenNet(n: KNet): seq<Entry>
  {
    [Entry("net", Multi([Pair("code", Int(n.code)), Pair("name", Str(n.name))] + GenNodes(n.nodes)))]
  }

  function GenNodes(nodes: seq<(string, int)>): (r: seq<Doc>)
    ensures |r| == |nodes|
    ensures forall i :: 0 <= i < |nodes| ==> r[i] == GenNode(nodes[i].0, nodes[i].1)
  {
    if nodes == [] then [] else [GenNode(nodes[0].0, nodes[0].1)] + GenNodes(nodes[1..])
  }

  /** `_gen_field(name, value)` */
  function GenField(name: Doc, value: Doc): Doc
  {
    Tuple([Str("field"), Dict([Entry("name", name)]), value])
  }

  function GenFields(fields: seq<(Doc, Doc)>): (r: seq<Doc>)
    ensures |r| == |fields|
  {
    if fields == [] then [] else [GenField(fields[0].0, fields[0].1)] + GenFields(fields[1..])
  }

  /** `_gen_property(name, value)` */
  function GenProperty(name: string, value: Doc): Doc
  {
    Dict([Entry("property", Dict([Entry("name", Str(name)), Entry("value", value)]))])
  }

  function GenProperties(ps: seq<Entry>): (r: seq<Doc>)
    ensures |r| == |ps|
  {
    if ps == [] then [] else [GenProperty(ps[0].key, ps[0].value)] + GenProperties(ps[1..])
  }

  /** `_defaulted_comp(...)`, that is `_gen_comp` with datasheet, libsource and
      sheetpath left `None`. */
  function GenComp(k: KComp): seq<Entry>
  {
    [Entry("comp", Multi(
      [ Pair("ref", Str(k.ref)),
        Pair("value", Str(k.value)),
        Pair("footprint", k.footprint),
        Pair("datasheet", Null),
        Pair("fields", List(GenFields(k.fields))),
        Pair("libsource", Dict([Entry("lib", Null), Entry("part", Null), Entry("description", Null)])),
        Pair("sheetpath", Dict([Entry("names", Null), Entry("tstamps", Null)])),
        Pair("tstamp", Int(k.tstamp)) ]
      + GenProperties(k.properties)))]
  }

  /** `_sublist`: the items of each dictionary, in order, as (key, value)
      tuples. The generator argument is not used. */
  function Sublist(dicts: seq<seq<Entry>>): seq<Doc>
  {
    if dicts == [] then [] else Items(dicts[0]) + Sublist(dicts[1..])
  }

  function Items(es: seq<Entry>): (r: seq<Doc>)
    ensures |r| == |es|
    ensures forall i :: 0 <= i < |es| ==> r[i] == Pair(es[i].key, es[i].value)
  {
    if es == [] then [] else [Pair(es[0].key, es[0].value)] + Items(es[1..])
  }

  /** `_list`: a `multi_key_dict` of the items of the dictionaries. */
  function ListOf(dicts: seq<seq<Entry>>): Doc
  {
    Multi(Sublist(dicts))
  }

  function CompDicts(ks: seq<KComp>): seq<seq<Entry>>
  {
    if ks == [] then [] else [GenComp(ks[0])] + CompDicts(ks[1..])
  }

  function NetDicts(ns: seq<KNet>): seq<seq<Entry>>
  {
    if ns == [] then [] else [GenNet(ns[0])] + NetDicts(ns[1..])
  }

  /** The `title_block` of the design block `_defaulted_netlist` passes: every
      field `None`, and the (empty) comment list. */
  function EmptyTitleBlock(): Doc
  {
    Multi([
      Pair("title", Null),
      Pair("company", Null),
      Pair("rev", Null),
      Pair("date", Null),
      Pair("source", Null),
      List(Sublist([]))])
  }

  /** The `sheet` of that design block. */
  function EmptySheet(): Doc
  {
    Dict([
      Entry("number", Null),
      Entry("name", Null),
      Entry("tstamps", Null),
      Entry("title_block", EmptyTitleBlock())])
  }

  /** The `design` block `_defaulted_netlist` passes: every field `None`. */
  function EmptyDesign(): Doc
  {
    Dict([
      Entry("source", Null),
      Entry("date", Null),
      Entry("tool", Null),
      Entry("sheet", EmptySheet())])
  }

  /** `_gen_netlist` with version "D", the empty design block, no libparts
      and no libraries, before cleaning. */
  function ExportDict(comps: Doc, nets: Doc): Doc
  {
    Dict([Entry("export", Dict(ExportEntries(EmptyDesign(), ListOf([]), comps, nets)))])
  }

  /** `_defaulted_netlist(components, nets)`, cleaned. */
  function DefaultedNetlist(ks: seq<KComp>, ns: seq<KNet>): Doc
  {
    Clean(ExportDict(ListOf(CompDicts(ks)), ListOf(NetDicts(ns))))
  }

  lemma EmptyTitleBlockClean()
    ensures Clean(EmptyTitleBlock()) == Null
  {
    var items := EmptyTitleBlock().items;
    forall i | 0 <= i < |items| ensures Clean(items[i]) == Null {
      if i < 5 {
        PairOfNull(items[i].items[0].s);
      } else {
        assert CleanItems([]) == [];
      }
    }
    CleanItemsAllNull(items);
  }

  lemma EmptySheetClean()
    ensures Clean(EmptySheet()) == Null
  {
    EmptyTitleBlockClean();
    CleanEntriesAllNull(EmptySheet().entries);
  }

  /** The design block cleans away entirely. */
  lemma EmptyDesignClean()
    ensures Clean(EmptyDesign()) == Null
  {
    EmptySheetClean();
    CleanEntriesAllNull(EmptyDesign().entries);
  }

  /** The top-level entries of the export, before cleaning; `_defaulted_netlist`
      passes `EmptyDesign()` and `ListOf([])` for libparts and libraries. */
  function ExportEntries(design: Doc, libs: Doc, comps: Doc, nets: Doc): seq<Entry>
  {
    [ Entry("version", Str("D")),
      Entry("design", design),
      Entry("components", comps),
      Entry("libparts", libs),
      Entry("libraries", libs),
      Entry("nets", nets) ]
  }

  /** Cleaning the export entries keeps the version and whatever survives of
      the components and the nets, in that order. */
  lemma ExportEntriesClean(design: Doc, libs: Doc, comps: Doc, nets: Doc)
    requires Clean(design) == Null && Clean(libs) == Null
    ensures CleanEntries(ExportEntries(design, libs, comps, nets))
         == [Entry("version", Str("D"))] + Present("components", Clean(comps)) + Present("nets", Clean(nets))
  {
    var e0 := Entry("version", Str("D"));
    var pc := Present("components", Clean(comps));
    var tail := [Entry("libparts", libs), Entry("libraries", libs), Entry("nets", nets)];
    var t1 := [Entry("design", design), Entry("components", comps)] + tail;
    assert ExportEntries(design, libs, comps, nets) == [e0] + t1;
    ExportTailClean(libs, nets);
    ExportMiddleClean(design, comps, tail);
    CleanEntriesCons(e0, t1);
    assert Present("version", Clean(Str("D"))) == [e0];
    AppendAssoc([e0], pc, CleanEntries(tail));
  }

  /** The last three export entries clean to the nets alone. */
  lemma ExportTailClean(libs: Doc, nets: Doc)
    requires Clean(libs) == Null
    ensures CleanEntries([Entry("libparts", libs), Entry("libraries", libs), Entry("nets", nets)])
         == Present("nets", Clean(nets))
  {
    var e3, e4, e5 := Entry("libparts", libs), Entry("libraries", libs), Entry("nets", nets);
    CleanEntriesCons(e5, []);
    assert [e5] == [e5] + [];
    CleanEntriesCons(e4, [e5]);
    assert [e3, e4, e5] == [e3] + [e4, e5] && [e4, e5] == [e4] + [e5];
    CleanEntriesCons(e3, [e4, e5]);
  }

  /** The design entry cleans away and the components entry stays in place. */
  lemma ExportMiddleClean(design: Doc, comps: Doc, tail: seq<Entry>)
    requires Clean(design) == Null
    ensures CleanEntries([Entry("design", design), Entry("components", comps)] + tail)
         == Present("components", Clean(comps)) + CleanEntries(tail)
  {
    var e1, e2 := Entry("design", design), Entry("components", comps);
    assert [e1, e2] + tail == [e1] + ([e2] + tail);
    CleanEntriesCons(e1, [e2] + tail);
    CleanEntriesCons(e2, tail);
  }

  lemma ExportClean(comps: Doc, nets: Doc)
    ensures Clean(ExportDict(comps, nets)) == Dict([Entry("export", Dict(
      [Entry("version", Str("D"))] + Present("components", Clean(comps)) + Present("nets", Clean(nets))))])
  {
    EmptyDesignClean();
    assert Clean(ListOf([])) == Null;
    ExportOfClean(EmptyDesign(), ListOf([]), comps, nets);
  }

  lemma ExportOfClean(design: Doc, libs: Doc, comps: Doc, nets: Doc)
    requires Clean(design) == Null && Clean(libs) == Null
    ensures Clean(Dict([Entry("export", Dict(ExportEntries(design, libs, comps, nets)))])) == Dict([Entry("export", Dict(
      [Entry("version", Str("D"))] + Present("components", Clean(comps)) + Present("nets", Clean(nets))))])
  {
    ExportEntriesClean(design, libs, comps, nets);
    CleanSingleton("export", Dict(ExportEntries(design, libs, comps, nets)));
  }

  /** The exported document holds its version and, when they are not empty,
      its components and nets; the design block, `libparts` and `libraries`
      are always pruned away, and nothing `None` or empty is left anywhere. */
  lemma DefaultedNetlistShape(ks: seq<KComp>, ns: seq<KNet>)
    ensures DefaultedNetlist(ks, ns) == Dict([Entry("export", Dict(
      [Entry("version", Str("D"))]
      + Present("components", Clean(ListOf(CompDicts(ks))))
      + Present("nets", Clean(ListOf(NetDicts(ns))))))])
    ensures Pruned(DefaultedNetlist(ks, ns))
  {
    ExportClean(ListOf(CompDicts(ks)), ListOf(NetDicts(ns)));
    CleanIsPruned(ListOf(CompDicts(ks)));
    CleanIsPruned(ListOf(NetDicts(ns)));
    ExportPruned(Clean(ListOf(CompDicts(ks))), Clean(ListOf(NetDicts(ns))));
  }

  lemma ExportPruned(comps: Doc, nets: Doc)
    requires comps == Null || Pruned(comps)
    requires nets == Null || Pruned(nets)
    ensures Pruned(Dict([Entry("export", Dict(
      [Entry("version", Str("D"))] + Present("components", comps) + Present("nets", nets)))]))
  {
    var ex := [Entry("version", Str("D"))] + Present("components", comps) + Present("nets", nets);
    forall i | 0 <= i < |ex| ensures Pruned(ex[i].value) {
      if i > 0 && ex[i].key == "components" {
        assert ex[i].value == comps;
      } else if i > 0 {
        assert ex[i].value == nets;
      }
    }
  }

  /** A (key, None) tuple cleans to `None`: only the key survives, and a
      one-element tuple is dropped. */
  lemma PairOfNull(key: string)
    ensures Clean(Pair(key, Null)) == Null
  {
    assert CleanItems([Null]) == [];
    assert CleanItems([Str(key), Null]) == [Str(key)] + CleanItems([Null]);
  }

  // ---------------------------------------------------------------- builder

  /** `properties.get(key)`: the first entry with that key. */
  function GetProp(ps: seq<Entry>, key: string): (r: Option<Doc>)
    ensures r.Some? <==> key in Keys(ps)
    ensures r.Some? ==> Entry(key, r.value) in ps
  {
    if ps == [] then None
    else if ps[0].key == key then Some(ps[0].value)
    else GetProp(ps[1..], key)
  }

  /** `{k: v for k, v in ps.items() if k != key}` */
  function WithoutKey(ps: seq<Entry>, key: string): (r: seq<Entry>)
    ensures key !in Keys(r)
    ensures forall e :: e in r <==> e in ps && e.key != key
  {
    if ps == [] then []
    else (if ps[0].key == key then [] else [ps[0]]) + WithoutKey(ps[1..], key)
  }

  /** A (name, value) pair as `for k, v in fields` unpacks it. */
  function AsPair(d: Doc): Option<(Doc, Doc)>
  {
    match d
    case List(xs) => if |xs| == 2 then Some((xs[0], xs[1])) else None
    case Tuple(xs) => if |xs| == 2 then Some((xs[0], xs[1])) else None
    case _ => None
  }

  function AsPairs(xs: seq<Doc>): (r: Option<seq<(Doc, Doc)>>)
    ensures r.Some? ==> |r.value| == |xs|
  {
    if xs == [] then Some([])
    else match AsPair(xs[0])
      case None => None
      case Some(p) =>
        match AsPairs(xs[1..])
        case None => None
        case Some(ps) => Some([p] + ps)
  }

  /** `list(comp.properties.get("fields", []))`, unpacked into pairs. */
  function FieldsOf(c: Comp): Result<seq<(Doc, Doc)>>
  {
    var items :- match GetProp(c.properties, "fields")
      case None => Ok([])
      case Some(List(xs)) => Ok(xs)
      case Some(Tuple(xs)) => Ok(xs)
      case Some(_) => Fail(MalformedFields(c.name));
    match AsPairs(items)
    case None => Fail(MalformedFields(c.name))
    case Some(ps) => Ok(ps)
  }

  /** A component `from_faebryk_t2_netlist` can export: it has a footprint
      property and its fields, if any, are (name, value) pairs. */
  predicate Exportable(c: Comp)
  {
    "footprint" in Keys(c.properties) && FieldsOf(c).Ok?
  }

  /** The arguments of `_defaulted_comp` for one component and its time stamp:
      the footprint is taken out of the properties, everything else is kept. */
  function KCompOf(c: Comp, tstamp: int): (r: Result<KComp>)
    ensures r.Ok? <==> Exportable(c)
    ensures "footprint" !in Keys(c.properties) ==> r == Fail(MissingFootprint(c.name))
    ensures r.Ok? ==> r.value.ref == c.name && r.value.value == c.value && r.value.tstamp == tstamp
    ensures r.Ok? ==> GetProp(c.properties, "footprint") == Some(r.value.footprint)
    ensures r.Ok? ==> "footprint" !in Keys(r.value.properties)
    ensures r.Ok? ==> forall e :: e in r.value.properties <==> e in c.properties && e.key != "footprint"
  {
    match GetProp(c.properties, "footprint")
    case None => Fail(MissingFootprint(c.name))
    case Some(fp) =>
      var fields :- FieldsOf(c);
      Ok(KComp(c.name, c.value, fp, tstamp, fields, WithoutKey(c.properties, "footprint")))
  }

  /** `[f(x, t) for x in xs]` where `t = next(counter)` for a counter started
      at `first`, stopping at the first failure. */
  function Numbered<A, B>(xs: seq<A>, first: int, f: (A, int) -> Result<B>): (r: Result<seq<B>>)
    ensures r.Ok? ==> |r.value| == |xs|
  {
    if xs == [] then Ok([])
    else
      var y :- f(xs[0], first);
      var rest :- Numbered(xs[1..], first + 1, f);
      Ok([y] + rest)
  }

  /** One step of `Numbered`: the first element, then the rest. */
  lemma NumberedStep<A, B>(xs: seq<A>, first: int, f: (A, int) -> Result<B>)
    requires xs != []
    ensures Numbered(xs, first, f) == match f(xs[0], first)
      case Fail(e) => Fail(e)
      case Ok(y) => Prefixed([y], Numbered(xs[1..], first + 1, f))
  {
  }

  /** Entry `i` of the result is `f` of element `i` and number `first + i`,
      and the result is a failure exactly when some element fails. */
  lemma NumberedSpec<A, B>(xs: seq<A>, first: int, f: (A, int) -> Result<B>)
    ensures Numbered(xs, first, f).Ok? <==> forall i :: 0 <= i < |xs| ==> f(xs[i], first + i).Ok?
    ensures Numbered(xs, first, f).Ok? ==>
      forall i :: 0 <= i < |xs| ==> f(xs[i], first + i) == Ok(Numbered(xs, first, f).value[i])
  {
    forall i | 0 <= i < |xs| && Numbered(xs, first, f).Ok?
      ensures f(xs[i], first + i) == Ok(Numbered(xs, first, f).value[i])
    {
      NumberedAt(xs, first, f, i);
    }
    if Numbered(xs, first, f).Fail? {
      var j := NumberedFailure(xs, first, f);
    }
  }

  lemma {:induction false} NumberedAt<A, B>(xs: seq<A>, first: int, f: (A, int) -> Result<B>, i: int)
    requires 0 <= i < |xs| && Numbered(xs, first, f).Ok?
    ensures f(xs[i], first + i) == Ok(Numbered(xs, first, f).value[i])
  {
    NumberedStep(xs, first, f);
    if i > 0 {
      NumberedAt(xs[1..], first + 1, f, i - 1);
      assert xs[1..][i - 1] == xs[i] && (first + 1) + (i - 1) == first + i;
    }
  }

  /** A failed result is the failure of some element. */
  lemma {:induction false} NumberedFailure<A, B>(xs: seq<A>, first: int, f: (A, int) -> Result<B>) returns (j: int)
    requires Numbered(xs, first, f).Fail?
    ensures 0 <= j < |xs| && f(xs[j], first + j) == Fail(Numbered(xs, first, f).error)
  {
    NumberedStep(xs, first, f);
    if f(xs[0], first).Fail? {
      j := 0;
    } else {
      var j' := NumberedFailure(xs[1..], first + 1, f);
      j := j' + 1;
      assert xs[1..][j'] == xs[j];
    }
  }

  /** `Ok(xs + ys)` for `Ok(ys)`, the failure otherwise. */
  function Prefixed<T>(xs: seq<T>, r: Result<seq<T>>): Result<seq<T>>
  {
    match r
    case Ok(ys) => Ok(xs + ys)
    case Fail(e) => Fail(e)
  }

  lemma PrefixedTwice<T>(xs: seq<T>, ys: seq<T>, r: Result<seq<T>>)
    ensures Prefixed(xs, Prefixed(ys, r)) == Prefixed(xs + ys, r)
  {
    if r.Ok? {
      assert xs + (ys + r.value) == (xs + ys) + r.value;
    }
  }

  lemma PrefixedNothing<T>(r: Result<seq<T>>)
    ensures Prefixed([], r) == r
  {
    if r.Ok? {
      assert [] + r.value == r.value;
    }
  }

  function CompKey(c: Comp): string { c.name }

  function NetKey(n: Net): string { n.name }

  function VertexKey(v: NetVertex): string { v.component.name }

  /** The (ref, pin) `_gen_node` receives for a vertex. */
  function NodeOf(v: NetVertex): (string, int)
  {
    (v.component.name, v.pin)
  }

  /** The arguments of `_gen_net` for one net and its code: its nodes are its
      vertices sorted by component name. */
  function KNetOf(n: Net, code: int): KNet
  {
    KNet(code, n.name, Map(SortBy(n.vertices, VertexKey), NodeOf))
  }

  /** The nets in the given order, codes counting up from `first`. */
  function BuildNets(ns: seq<Net>, first: int): (r: seq<KNet>)
    ensures |r| == |ns|
    ensures forall i :: 0 <= i < |ns| ==> r[i] == KNetOf(ns[i], first + i)
  {
    if ns == [] then [] else [KNetOf(ns[0], first)] + BuildNets(ns[1..], first + 1)
  }

  /** Two components share a name (`duplicates(pre_comps, name)` is not empty). */
  predicate HasDuplicateNames(cs: seq<Comp>)
  {
    exists i, j :: 0 <= i < j < |cs| && cs[i].name == cs[j].name
  }

  function CompNames(cs: seq<Comp>): set<string>
  {
    set c | c in cs :: c.name
  }

  /** The component name of the first net vertex, nets and vertices in input
      order, that is not a component of the netlist. */
  function FirstMissing(nets: seq<Net>, names: set<string>): (r: Option<string>)
    ensures r == None <==> forall n, v :: n in nets && v in n.vertices ==> v.component.name in names
    ensures r.Some? ==> r.value !in names
  {
    if nets == [] then None
    else match FirstMissingVertex(nets[0].vertices, names)
      case Some(x) => Some(x)
      case None => FirstMissing(nets[1..], names)
  }

  function FirstMissingVertex(vs: seq<NetVertex>, names: set<string>): (r: Option<string>)
    ensures r == None <==> forall v :: v in vs ==> v.component.name in names
    ensures r.Some? ==> r.value !in names
  {
    if vs == [] then None
    else if vs[0].component.name !in names then Some(vs[0].component.name)
    else FirstMissingVertex(vs[1..], names)
  }

  /** `from_faebryk_t2_netlist` up to, not including, s-expression rendering. */
  function FromT2(t2: T2Netlist): Result<Doc>
  {
    if HasDuplicateNames(t2.comps) then Fail(DuplicateComponent)
    else
      var ks :- ExportedComps(t2.comps);
      match FirstMissing(t2.nets, CompNames(t2.comps))
      case Some(name) => Fail(MissingComponent(name))
      case None => Ok(DefaultedNetlist(ks, ExportedNets(t2.nets)))
  }

  /** The outcome of the export: duplicate names are rejected before
      anything else is looked at; otherwise it succeeds exactly when every
      component can be exported and every net vertex names one of them, and a
      vertex naming no component fails with that name. */
  lemma FromT2Outcome(t2: T2Netlist)
    ensures HasDuplicateNames(t2.comps) ==> FromT2(t2) == Fail(DuplicateComponent)
    ensures FromT2(t2).Ok? <==>
      !HasDuplicateNames(t2.comps) &&
      (forall c :: c in t2.comps ==> Exportable(c)) &&
      (forall n, v :: n in t2.nets && v in n.vertices ==> v.component.name in CompNames(t2.comps))
    ensures (!HasDuplicateNames(t2.comps) && (forall c :: c in t2.comps ==> Exportable(c)) &&
             FirstMissing(t2.nets, CompNames(t2.comps)).Some?) ==>
      FromT2(t2).Fail? && FromT2(t2).error.MissingComponent? &&
      FromT2(t2).error.name !in CompNames(t2.comps)
  {
    if !HasDuplicateNames(t2.comps) {
      ExportedCompsOk(t2.comps);
      var ec, fm := ExportedComps(t2.comps), FirstMissing(t2.nets, CompNames(t2.comps));
      if ec.Fail? {
        assert FromT2(t2) == Fail(ec.error);
      } else if fm.Some? {
        assert FromT2(t2) == Fail(MissingComponent(fm.value));
      } else {
        assert FromT2(t2) == Ok(DefaultedNetlist(ec.value, ExportedNets(t2.nets)));
      }
    }
  }

  /** The component comprehension: sorted by name, time stamps from 1. */
  function ExportedComps(comps: seq<Comp>): Result<seq<KComp>>
  {
    Numbered(SortBy(comps, CompKey), 1, KCompOf)
  }

  /** The net comprehension: sorted by name, codes from 1. */
  function ExportedNets(nets: seq<Net>): seq<KNet>
  {
    BuildNets(SortBy(nets, NetKey), 1)
  }

  /** The export of the components fails exactly when some component has no
      footprint or malformed fields. */
  lemma ExportedCompsOk(comps: seq<Comp>)
    ensures ExportedComps(comps).Ok? <==> forall c :: c in comps ==> Exportable(c)
  {
    var sorted := SortBy(comps, CompKey);
    SameMembers(comps, sorted);
    if ExportedComps(comps).Ok? {
      forall c | c in comps ensures Exportable(c) {
        var i :| 0 <= i < |sorted| && sorted[i] == c;
        NumberedAt(sorted, 1, KCompOf, i);
      }
    } else {
      var i := NumberedFailure(sorted, 1, KCompOf);
      assert sorted[i] in comps;
    }
  }

  lemma SameMembers<T>(a: seq<T>, b: seq<T>)
    requires multiset(a) == multiset(b)
    ensures forall x :: x in a <==> x in b
  {
    forall x ensures x in a <==> x in b {
      assert x in a <==> x in multiset(a);
      assert x in b <==> x in multiset(b);
    }
  }

  /** Entry `i` of the exported components is sorted component `i`, stamped
      `i + 1`. */
  lemma ExportedCompAt(comps: seq<Comp>, i: int)
    requires ExportedComps(comps).Ok? && 0 <= i < |comps|
    ensures ExportedComps(comps).value[i].ref == SortBy(comps, CompKey)[i].name
    ensures ExportedComps(comps).value[i].tstamp == i + 1
  {
    NumberedAt(SortBy(comps, CompKey), 1, KCompOf, i);
  }

  /** The exported components are sorted by reference and stamped 1, 2, 3, ...
      in that order. */
  lemma ExportedCompsOrder(comps: seq<Comp>)
    requires ExportedComps(comps).Ok?
    ensures |ExportedComps(comps).value| == |comps|
    ensures forall i, j :: 0 <= i < j < |comps| ==>
      StrLe(ExportedComps(comps).value[i].ref, ExportedComps(comps).value[j].ref)
    ensures forall i :: 0 <= i < |comps| ==> ExportedComps(comps).value[i].tstamp == i + 1
  {
    SortBySorted(comps, CompKey);
    forall i, j | 0 <= i < j < |comps|
      ensures StrLe(ExportedComps(comps).value[i].ref, ExportedComps(comps).value[j].ref)
    {
      ExportedCompAt(comps, i);
      ExportedCompAt(comps, j);
    }
    forall i | 0 <= i < |comps| ensures ExportedComps(comps).value[i].tstamp == i + 1 {
      ExportedCompAt(comps, i);
    }
  }

  /** A net is emitted with its code and name, and one node per vertex,
      sorted by component reference. */
  lemma KNetOfSpec(n: Net, code: int)
    ensures KNetOf(n, code).code == code && KNetOf(n, code).name == n.name
    ensures multiset(KNetOf(n, code).nodes) == multiset(Map(n.vertices, NodeOf))
    ensures forall p, q :: 0 <= p < q < |KNetOf(n, code).nodes| ==>
      StrLe(KNetOf(n, code).nodes[p].0, KNetOf(n, code).nodes[q].0)
  {
    var sorted := SortBy(n.vertices, VertexKey);
    SortBySorted(n.vertices, VertexKey);
    MapPermutation(sorted, n.vertices, NodeOf);
    assert forall p :: 0 <= p < |sorted| ==> KNetOf(n, code).nodes[p].0 == VertexKey(sorted[p]);
  }

  /** The nets are emitted sorted by name, each input net exactly once, with
      codes 1, 2, 3, ... in that order. */
  lemma ExportedNetsSpec(nets: seq<Net>)
    ensures |ExportedNets(nets)| == |nets|
    ensures forall i, j :: 0 <= i < j < |nets| ==> StrLe(ExportedNets(nets)[i].name, ExportedNets(nets)[j].name)
    ensures forall i :: 0 <= i < |nets| ==> ExportedNets(nets)[i].code == i + 1
    ensures multiset(Map(ExportedNets(nets), KNetName)) == multiset(Map(nets, NetKey))
  {
    var sorted := SortBy(nets, NetKey);
    SortBySorted(nets, NetKey);
    assert Map(ExportedNets(nets), KNetName) == Map(sorted, NetKey);
    MapPermutation(sorted, nets, NetKey);
  }

  function KNetName(n: KNet): string { n.name }

  /** Every input component is exported exactly once: the references are a
      rearrangement of the component names. */
  lemma ExportedCompsPermutation(comps: seq<Comp>)
    requires ExportedComps(comps).Ok?
    ensures multiset(Map(ExportedComps(comps).value, RefOf)) == multiset(Map(comps, CompKey))
  {
    var sorted := SortBy(comps, CompKey);
    var ks := ExportedComps(comps).value;
    forall i | 0 <= i < |ks| ensures Map(ks, RefOf)[i] == Map(sorted, CompKey)[i] {
      ExportedCompAt(comps, i);
    }
    assert Map(ks, RefOf) == Map(sorted, CompKey);
    MapPermutation(sorted, comps, CompKey);
  }

  function RefOf(k: KComp): string { k.ref }


  /** `from_faebryk_t2_netlist`, with its two `itertools.count(1)` counters. */
  method FromT2Netlist(t2: T2Netlist) returns (r: Result<Doc>)
    ensures r == FromT2(t2)
  {
    var dupes := HasDuplicateNames(t2.comps);
    if dupes {
      return Fail(DuplicateComponent);
    }
    var comps :- MakeComps(SortBy(t2.comps, CompKey));
    var names := set c | c in t2.comps :: c.name;
    var missing := CheckVertices(t2.nets, names);
    if missing.Some? {
      return Fail(MissingComponent(missing.value));
    }
    var nets := MakeNets(SortBy(t2.nets, NetKey));
    return Ok(DefaultedNetlist(comps, nets));
  }

  /** The component comprehension: one `_defaulted_comp` per component, each
      taking `next(tstamp)`. */
  method MakeComps(sorted: seq<Comp>) returns (r: Result<seq<KComp>>)
    ensures r == Numbered(sorted, 1, KCompOf)
  {
    var tstamp := 1;
    var comps: seq<KComp> := [];
    var rest := sorted;
    PrefixedNothing(Numbered(sorted, 1, KCompOf));
    while rest != []
      invariant Numbered(sorted, 1, KCompOf) == Prefixed(comps, Numbered(rest, tstamp, KCompOf))
      decreases |rest|
    {
      NumberedStep(rest, tstamp, KCompOf);
      var k := KCompOf(rest[0], tstamp);
      if k.Fail? {
        return Fail(k.error);
      }
      PrefixedTwice(comps, [k.value], Numbered(rest[1..], tstamp + 1, KCompOf));
      comps := comps + [k.value];
      tstamp := tstamp + 1;
      rest := rest[1..];
    }
    assert comps + [] == comps;
    return Ok(comps);
  }

  /** The check that every net vertex names a known component. */
  method CheckVertices(nets: seq<Net>, names: set<string>) returns (missing: Option<string>)
    ensures missing == FirstMissing(nets, names)
  {
    var n := 0;
    while n < |nets|
      invariant 0 <= n <= |nets|
      invariant FirstMissing(nets, names) == FirstMissing(nets[n..], names)
    {
      assert nets[n..][1..] == nets[n + 1..];
      var vs := nets[n].vertices;
      var j := 0;
      while j < |vs|
        invariant 0 <= j <= |vs|
        invariant FirstMissingVertex(vs, names) == FirstMissingVertex(vs[j..], names)
      {
        assert vs[j..][1..] == vs[j + 1..];
        if vs[j].component.name !in names {
          return Some(vs[j].component.name);
        }
        j := j + 1;
      }
      n := n + 1;
    }
    return None;
  }

  /** The net comprehension: one `_gen_net` per net, each taking
      `next(net_code)`. */
  method MakeNets(sorted: seq<Net>) returns (nets: seq<KNet>)
    ensures nets == BuildNets(sorted, 1)
  {
    var netCode := 1;
    nets := [];
    var m := 0;
    while m < |sorted|
      invariant 0 <= m <= |sorted| && netCode == m + 1
      invariant BuildNets(sorted, 1) == nets + BuildNets(sorted[m..], netCode)
    {
      assert sorted[m..][1..] == sorted[m + 1..];
      nets := nets + [KNetOf(sorted[m], netCode)];
      netCode := netCode + 1;
      m := m + 1;
    }
  }
}
