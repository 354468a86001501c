/** The net reducer: it turns per-component pin adjacency records ("t1") into
    a list of nets ("t2"). Vertices are (component name, pin) pairs, edges
    come from the adjacency records, nets are the connected components that
    hold more than one real vertex, and each net is named by a fixed priority
    rule. */
module Netlist {
  import opened Wrappers
  import opened Strings
  import opened Document
  import opened Graphs

  /** A component as both netlist stages see it: a t1 record without its
      `real` and `neighbors` keys, and the `comp` of a t2 vertex. */
  datatype Comp = Comp(name: string, value: string, properties: seq<Entry>)

  /** One adjacency entry: pin `pin` of the component named `target`. */
  datatype Neighbor = Neighbor(target: string, pin: int)

  /** A t1 record: the component, whether it is real (has a footprint and a pin
      map), and its adjacency `{pin: [neighbor, ...]}`, which may be absent. */
  datatype Record = Record(comp: Comp, isReal: bool, neighbors: Option<seq<(int, seq<Neighbor>)>>)

  /** A graph vertex. Two vertices are the same vertex exactly when their
      component names and their pins agree, as for the source's `vertex`. */
  datatype Vertex = Vertex(name: string, pin: int)

  /** A t2 vertex: a component and one of its pins. */
  datatype NetVertex = NetVertex(component: Comp, pin: int)

  /** A t2 net: its name property and its (real) vertices. */
  datatype Net = Net(name: string, vertices: seq<NetVertex>)

  type Edge = (Vertex, Vertex)

  // ---------------------------------------------------------------- graph

  /** `node.get("neighbors", {1: []})` */
  function PinTable(r: Record): seq<(int, seq<Neighbor>)>
  {
    match r.neighbors
    case None => [(1, [])]
    case Some(t) => t
  }

  function NeighborEdges(name: string, spin: int, ns: seq<Neighbor>): (es: seq<Edge>)
    ensures |es| == |ns|
    ensures forall i :: 0 <= i < |ns| ==> es[i] == (Vertex(name, spin), Vertex(ns[i].target, ns[i].pin))
  {
    if ns == [] then []
    else [(Vertex(name, spin), Vertex(ns[0].target, ns[0].pin))] + NeighborEdges(name, spin, ns[1..])
  }

  function PinEdges(name: string, t: seq<(int, seq<Neighbor>)>): seq<Edge>
  {
    if t == [] then [] else NeighborEdges(name, t[0].0, t[0].1) + PinEdges(name, t[1..])
  }

  /** The edge list of `_make_graph`: one edge per adjacency entry, from the
      record's own pin to the neighbour, records and pins in order. */
  function Edges(records: seq<Record>): seq<Edge>
  {
    if records == [] then []
    else PinEdges(records[0].comp.name, PinTable(records[0])) + Edges(records[1..])
  }

  /** An edge (a, b) is in the graph exactly when some record named `a.name`
      lists neighbour `b` under pin `a.pin`. */
  lemma {:induction false} EdgesFromAdjacency(records: seq<Record>, a: Vertex, b: Vertex)
    ensures (a, b) in Edges(records) <==>
      exists r, k :: r in records && r.comp.name == a.name && 0 <= k < |PinTable(r)| &&
        PinTable(r)[k].0 == a.pin && Neighbor(b.name, b.pin) in PinTable(r)[k].1
  {
    if records != [] {
      EdgesFromAdjacency(records[1..], a, b);
      PinEdgesFromAdjacency(records[0].comp.name, PinTable(records[0]), a, b);
      assert forall r :: r in records <==> r == records[0] || r in records[1..];
    }
  }

  lemma {:induction false} PinEdgesFromAdjacency(name: string, t: seq<(int, seq<Neighbor>)>, a: Vertex, b: Vertex)
    ensures (a, b) in PinEdges(name, t) <==>
      name == a.name && exists k :: 0 <= k < |t| && t[k].0 == a.pin && Neighbor(b.name, b.pin) in t[k].1
  {
    if t != [] {
      PinEdgesFromAdjacency(name, t[1..], a, b);
      var es := NeighborEdges(name, t[0].0, t[0].1);
      if (a, b) in es {
        var i :| 0 <= i < |es| && es[i] == (a, b);
        assert t[0].1[i] == Neighbor(b.name, b.pin);
      }
      if name == a.name && t[0].0 == a.pin && Neighbor(b.name, b.pin) in t[0].1 {
        var i :| 0 <= i < |t[0].1| && t[0].1[i] == Neighbor(b.name, b.pin);
        assert es[i] == (a, b);
      }
      if exists k :: 1 <= k < |t| && t[k].0 == a.pin && Neighbor(b.name, b.pin) in t[k].1 {
        var k :| 1 <= k < |t| && t[k].0 == a.pin && Neighbor(b.name, b.pin) in t[k].1;
        assert t[1..][k - 1] == t[k];
      }
    }
  }

  /** A record without a `neighbors` entry contributes no edge: its default
      `{1: []}` lists no neighbour. */
  lemma NoNeighborsNoEdges(records: seq<Record>, a: Vertex, b: Vertex)
    requires forall r :: r in records && r.comp.name == a.name ==> r.neighbors == None
    ensures (a, b) !in Edges(records)
  {
    EdgesFromAdjacency(records, a, b);
  }

  /** The names of the records (`node in netlist`, compared by name). */
  function Names(records: seq<Record>): set<string>
  {
    set r | r in records :: r.comp.name
  }

  /** The target of the first edge that leaves the record list, if any. */
  function FirstDangling(E: seq<Edge>, names: set<string>): (r: Option<string>)
    ensures r == None <==> forall i :: 0 <= i < |E| ==> E[i].1.name in names
    ensures r.Some? ==> exists i :: (0 <= i < |E| && E[i].1.name == r.value && r.value !in names &&
                                     forall j :: 0 <= j < i ==> E[j].1.name in names)
  {
    if E == [] then None
    else if E[0].1.name !in names then Some(E[0].1.name)
    else
      var r := FirstDangling(E[1..], names);
      if r.Some? then
        var i :| 0 <= i < |E[1..]| && E[1..][i].1.name == r.value && r.value !in names &&
          forall j :: 0 <= j < i ==> E[1..][j].1.name in names;
        assert E[i + 1].1.name == r.value;
        r
      else r
  }

  /** `_make_graph`: builds the edge list, then checks each edge's target in
      turn and fails on the first one that names no record. */
  method MakeGraph(records: seq<Record>) returns (r: Result<seq<Edge>>)
    ensures r == match FirstDangling(Edges(records), Names(records))
                 case Some(n) => Fail(MissingComponent(n))
                 case None => Ok(Edges(records))
  {
    var edges := Edges(records);
    var names := Names(records);
    var i := 0;
    while i < |edges|
      invariant 0 <= i <= |edges|
      invariant forall j :: 0 <= j < i ==> edges[j].1.name in names
    {
      if edges[i].1.name !in names {
        assert FirstDangling(edges, names) == FirstDangling(edges[i..], names) by {
          FirstDanglingSkips(edges, names, i);
        }
        return Fail(MissingComponent(edges[i].1.name));
      }
      i := i + 1;
    }
    return Ok(edges);
  }

  lemma {:induction false} FirstDanglingSkips(E: seq<Edge>, names: set<string>, i: nat)
    requires i <= |E|
    requires forall j :: 0 <= j < i ==> E[j].1.name in names
    ensures FirstDangling(E, names) == FirstDangling(E[i..], names)
  {
    if i > 0 {
      FirstDanglingSkips(E[1..], names, i - 1);
      assert E[1..][i - 1..] == E[i..];
    }
  }

  // ---------------------------------------------------------------- nets

  /** The record a vertex stands for: the first record with that name. */
  function Lookup(records: seq<Record>, name: string): (r: Option<Record>)
    ensures r.Some? <==> name in Names(records)
    ensures r.Some? ==> r.value in records && r.value.comp.name == name
  {
    if records == [] then None
    else if records[0].comp.name == name then Some(records[0])
    else
      var r := Lookup(records[1..], name);
      assert Names(records) == {records[0].comp.name} + Names(records[1..]);
      r
  }

  /** `vertex.node["real"]` */
  function IsReal(records: seq<Record>, name: string): bool
  {
    match Lookup(records, name)
    case Some(r) => r.isReal
    case None => false
  }

  /** `{k: v for k, v in vertex.node.items() if k not in ["real", "neighbors"]}` */
  function CompOf(records: seq<Record>, name: string): (c: Comp)
    ensures c.name == name
  {
    match Lookup(records, name)
    case Some(r) => r.comp
    case None => Comp(name, "", [])
  }

  /** The vertices of a component, in the order the graph first saw them. */
  function Members(E: seq<Edge>, c: set<Vertex>): (vs: seq<Vertex>)
    ensures forall v :: v in vs <==> v in c && v in NodeSet(E)
    ensures forall i, j :: 0 <= i < j < |vs| ==> vs[i] != vs[j]
  {
    Only(Nodes(E), c)
  }

  function Only(s: seq<Vertex>, c: set<Vertex>): (r: seq<Vertex>)
    ensures forall v :: v in r <==> v in s && v in c
    ensures (forall i, j :: 0 <= i < j < |s| ==> s[i] != s[j]) ==>
            forall i, j :: 0 <= i < j < |r| ==> r[i] != r[j]
  {
    if s == [] then []
    else (if s[0] in c then [s[0]] else []) + Only(s[1..], c)
  }

  /** The t2 vertices of a net: its real vertices, each with its component
      record stripped of `real` and `neighbors`. */
  function RealVertices(records: seq<Record>, vs: seq<Vertex>): (r: seq<NetVertex>)
    ensures |r| <= |vs|
    ensures forall x :: x in r <==>
      exists v :: v in vs && IsReal(records, v.name) && x == NetVertex(CompOf(records, v.name), v.pin)
  {
    if vs == [] then []
    else
      var v := vs[0];
      (if IsReal(records, v.name) then [NetVertex(CompOf(records, v.name), v.pin)] else [])
      + RealVertices(records, vs[1..])
  }

  /** `vertex.node["name"] + ("" if vertex.pin == 1 else f":{vertex.pin}")` */
  function Label(v: Vertex): string
  {
    v.name + if v.pin == 1 then "" else ":" + IntToString(v.pin)
  }

  function VirtualLabels(records: seq<Record>, vs: seq<Vertex>): (r: seq<string>)
    ensures |r| <= |vs|
    ensures (forall v :: v in vs ==> IsReal(records, v.name)) ==> r == []
  {
    if vs == [] then []
    else (if IsReal(records, vs[0].name) then [] else [Label(vs[0])]) + VirtualLabels(records, vs[1..])
  }

  function AllNames(vs: seq<Vertex>): (r: seq<string>)
    ensures |r| == |vs|
  {
    if vs == [] then [] else [vs[0].name] + AllNames(vs[1..])
  }

  /** `determine_net_name`: the "-"-join of the virtual vertices' labels if
      that is not empty, otherwise the "-"-join of all vertex names if that is
      not empty, otherwise failure. */
  function NetName(records: seq<Record>, vs: seq<Vertex>): Result<string>
  {
    var virtualName := Join("-", VirtualLabels(records, vs));
    if virtualName != "" then Ok(virtualName)
    else
      var compName := Join("-", AllNames(vs));
      if compName != "" then Ok(compName) else Fail(UnnamableNet)
  }

  /** The naming rule: a net of two or more vertices always gets a non-empty
      name; it is the join of the virtual labels whenever that join is not
      empty, and the join of all names otherwise (in particular when the net
      has no virtual vertex). */
  lemma NetNameRule(records: seq<Record>, vs: seq<Vertex>)
    requires |vs| >= 2
    ensures NetName(records, vs).Ok? && NetName(records, vs).value != ""
    ensures Join("-", VirtualLabels(records, vs)) != "" ==>
      NetName(records, vs).value == Join("-", VirtualLabels(records, vs))
    ensures Join("-", VirtualLabels(records, vs)) == "" ==>
      NetName(records, vs).value == Join("-", AllNames(vs))
    ensures (forall v :: v in vs ==> IsReal(records, v.name)) ==>
      NetName(records, vs).value == Join("-", AllNames(vs))
  {
    JoinEmpty("-", AllNames(vs));
  }

  /** The t2 entry of one component of the graph. */
  function NetOf(records: seq<Record>, E: seq<Edge>, c: set<Vertex>): Result<Net>
  {
    var vs := Members(E, c);
    var name :- NetName(records, vs);
    Ok(Net(name, RealVertices(records, vs)))
  }

  /** The number of real vertices of a component. */
  function RealCount(records: seq<Record>, E: seq<Edge>, c: set<Vertex>): nat
  {
    |RealVertices(records, Members(E, c))|
  }

  /** The components with more than one real vertex, in order. */
  function Keep(records: seq<Record>, E: seq<Edge>, cs: seq<set<Vertex>>): (r: seq<set<Vertex>>)
    ensures forall c :: c in r <==> c in cs && RealCount(records, E, c) > 1
  {
    if cs == [] then []
    else (if RealCount(records, E, cs[0]) > 1 then [cs[0]] else []) + Keep(records, E, cs[1..])
  }

  /** Filtering keeps pairwise disjoint components pairwise disjoint. */
  lemma {:induction false} KeepDisjoint(records: seq<Record>, E: seq<Edge>, cs: seq<set<Vertex>>)
    requires PairwiseDisjoint(cs)
    ensures PairwiseDisjoint(Keep(records, E, cs))
  {
    if cs != [] {
      var rest := Keep(records, E, cs[1..]);
      DisjointTail(cs);
      KeepDisjoint(records, E, cs[1..]);
      if RealCount(records, E, cs[0]) > 1 {
        assert Keep(records, E, cs) == [cs[0]] + rest;
        HeadApart(cs, rest);
        ConsDisjoint(cs[0], rest);
      }
    }
  }

  /** The first of pairwise disjoint sets is disjoint from any later one. */
  lemma HeadApart<V>(cs: seq<set<V>>, rest: seq<set<V>>)
    requires cs != [] && PairwiseDisjoint(cs)
    requires forall c :: c in rest ==> c in cs[1..]
    ensures forall k :: 0 <= k < |rest| ==> cs[0] !! rest[k]
  {
    forall k | 0 <= k < |rest| ensures cs[0] !! rest[k] {
      assert rest[k] in rest;
      var m :| 0 <= m < |cs[1..]| && cs[1..][m] == rest[k];
      assert cs[0] !! cs[m + 1];
    }
  }

  /** The t2 list: each kept component in order, failing on the first one that
      cannot be named. */
  function NameAll(records: seq<Record>, E: seq<Edge>, kept: seq<set<Vertex>>): (r: Result<seq<Net>>)
    ensures r.Ok? <==> forall i :: 0 <= i < |kept| ==> NetOf(records, E, kept[i]).Ok?
    ensures r.Ok? ==> |r.value| == |kept|
    ensures r.Ok? ==> forall i :: 0 <= i < |kept| ==> NetOf(records, E, kept[i]) == Ok(r.value[i])
  {
    if kept == [] then Ok([])
    else
      var net :- NetOf(records, E, kept[0]);
      var rest :- NameAll(records, E, kept[1..]);
      Ok([net] + rest)
  }

  /** `make_t2_netlist_from_t1` as a specification. */
  ghost function T2(records: seq<Record>): Result<seq<Net>>
  {
    var E := Edges(records);
    match FirstDangling(E, Names(records))
    case Some(n) => Fail(MissingComponent(n))
    case None => NameAll(records, E, Keep(records, E, Components(E)))
  }

  /** `make_t2_netlist_from_t1`: build and validate the graph, take its
      connected components, keep those with more than one real vertex, and
      emit a named net of real vertices for each. */
  method MakeT2Netlist(records: seq<Record>) returns (r: Result<seq<Net>>)
    ensures r == T2(records)
  {
    var E :- MakeGraph(records);
    var cs := ConnectedComponents(E);
    var kept := Keep(records, E, cs);
    r := NameAll(records, E, kept);
  }

  // ---------------------------------------------------------------- properties

  /** A kept component has at least two vertices, so it can always be named. */
  lemma KeptNamable(records: seq<Record>, E: seq<Edge>, c: set<Vertex>)
    requires RealCount(records, E, c) > 1
    ensures NetOf(records, E, c).Ok?
  {
    NetNameRule(records, Members(E, c));
  }

  /** Reduction fails exactly when an adjacency entry names a component that is
      not in the record list, and then it reports the first such name. */
  lemma T2FailsOnDangling(records: seq<Record>)
    ensures T2(records).Fail? <==> exists i :: 0 <= i < |Edges(records)| && Edges(records)[i].1.name !in Names(records)
    ensures T2(records).Fail? ==> T2(records) == Fail(MissingComponent(FirstDangling(Edges(records), Names(records)).value))
  {
    var E := Edges(records);
    if FirstDangling(E, Names(records)) == None {
      var kept := Keep(records, E, Components(E));
      forall i | 0 <= i < |kept| ensures NetOf(records, E, kept[i]).Ok? {
        assert kept[i] in kept;
        KeptNamable(records, E, kept[i]);
      }
      assert NameAll(records, E, kept).Ok?;
      assert T2(records) == NameAll(records, E, kept);
    }
  }

  /** The output nets are exactly the components of the graph with more than
      one real vertex, in the order the components are found, each listing
      the real vertices of its component. */
  lemma T2NetsAreKeptComponents(records: seq<Record>)
    requires T2(records).Ok?
    ensures var E := Edges(records);
      var kept := Keep(records, E, Components(E));
      var nets := T2(records).value;
      |nets| == |kept| &&
      (forall c :: c in kept <==> c in Components(E) && RealCount(records, E, c) > 1) &&
      forall i :: 0 <= i < |nets| ==> nets[i].vertices == RealVertices(records, Members(E, kept[i]))
  {
    var E := Edges(records);
    var kept := Keep(records, E, Components(E));
    forall i | 0 <= i < |kept| ensures T2(records).value[i].vertices == RealVertices(records, Members(E, kept[i])) {
      assert NetOf(records, E, kept[i]) == Ok(T2(records).value[i]);
    }
  }

  /** Every vertex of an output net is real, and its component is the record
      of that name without `real` and `neighbors`. */
  lemma T2VerticesReal(records: seq<Record>)
    requires T2(records).Ok?
    ensures forall net, x :: net in T2(records).value && x in net.vertices ==>
      IsReal(records, x.component.name) &&
      exists r :: r in records && r.isReal && r.comp == x.component
  {
    var E := Edges(records);
    var kept := Keep(records, E, Components(E));
    var nets := T2(records).value;
    forall net, x | net in nets && x in net.vertices
      ensures IsReal(records, x.component.name) && exists r :: r in records && r.isReal && r.comp == x.component
    {
      var i :| 0 <= i < |nets| && nets[i] == net;
      assert NetOf(records, E, kept[i]) == Ok(nets[i]);
      var v :| v in Members(E, kept[i]) && IsReal(records, v.name) && x == NetVertex(CompOf(records, v.name), v.pin);
      var r := Lookup(records, v.name).value;
      assert r in records && r.isReal && r.comp == x.component;
    }
  }

  /** The nets of two disjoint components share no (component name, pin). */
  lemma NetsOfDisjoint(records: seq<Record>, E: seq<Edge>, c1: set<Vertex>, c2: set<Vertex>, n1: Net, n2: Net)
    requires c1 !! c2
    requires NetOf(records, E, c1) == Ok(n1) && NetOf(records, E, c2) == Ok(n2)
    ensures forall x, y :: x in n1.vertices && y in n2.vertices ==>
      (x.component.name, x.pin) != (y.component.name, y.pin)
  {
    forall x, y | x in n1.vertices && y in n2.vertices
      ensures (x.component.name, x.pin) != (y.component.name, y.pin)
    {
      var v :| v in Members(E, c1) && IsReal(records, v.name) && x == NetVertex(CompOf(records, v.name), v.pin);
      var w :| w in Members(E, c2) && IsReal(records, w.name) && y == NetVertex(CompOf(records, w.name), w.pin);
      assert v in c1 && w in c2;
    }
  }

  /** No vertex (component name, pin) appears in two of the nets. */
  predicate NetsDisjoint(nets: seq<Net>)
  {
    forall i, j, x, y :: 0 <= i < j < |nets| && x in nets[i].vertices && y in nets[j].vertices ==>
      (x.component.name, x.pin) != (y.component.name, y.pin)
  }

  lemma NameAllDisjoint(records: seq<Record>, E: seq<Edge>, kept: seq<set<Vertex>>)
    requires PairwiseDisjoint(kept)
    requires NameAll(records, E, kept).Ok?
    ensures NetsDisjoint(NameAll(records, E, kept).value)
  {
    var nets := NameAll(records, E, kept).value;
    forall i, j | 0 <= i < j < |nets|
      ensures forall x, y :: x in nets[i].vertices && y in nets[j].vertices ==>
        (x.component.name, x.pin) != (y.component.name, y.pin)
    {
      NetsOfDisjoint(records, E, kept[i], kept[j], nets[i], nets[j]);
    }
  }

  /** No vertex (component name, pin) appears in two output nets. */
  lemma T2NetsDisjoint(records: seq<Record>)
    requires T2(records).Ok?
    ensures NetsDisjoint(T2(records).value)
  {
    var E := Edges(records);
    var cs := Components(E);
    assert T2(records) == NameAll(records, E, Keep(records, E, cs));
    ComponentsDisjoint(E);
    KeepDisjoint(records, E, cs);
    NameAllDisjoint(records, E, Keep(records, E, cs));
  }
}
