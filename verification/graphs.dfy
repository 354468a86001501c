/** An undirected graph given by its edge list, as `nx.Graph.add_edges_from`
    builds it, and its connected components. The graph library itself is
    not part of this model: components are specified as reachability classes
    and computed by a breadth-first search over the edge list, visiting the
    vertices in the order the graph first saw them, as
    `nx.connected_components` does. */
module Graphs {

  predicate Adjacent<V(==,!new)>(E: seq<(V, V)>, a: V, b: V)
  {
    exists i :: 0 <= i < |E| && (E[i] == (a, b) || E[i] == (b, a))
  }

  /** The vertices of the graph: the endpoints of its edges. */
  function NodeSet<V(==,!new)>(E: seq<(V, V)>): set<V>
  {
    (set i | 0 <= i < |E| :: E[i].0) + (set i | 0 <= i < |E| :: E[i].1)
  }

  /** The endpoints of the edges in the order the graph receives them. */
  function Endpoints<V(==,!new)>(E: seq<(V, V)>): (r: seq<V>)
    ensures |r| == 2 * |E|
    ensures forall i :: 0 <= i < |E| ==> r[2 * i] == E[i].0 && r[2 * i + 1] == E[i].1
  {
    if E == [] then [] else [E[0].0, E[0].1] + Endpoints(E[1..])
  }

  /** The elements of `s` not in `seen`, each once, at its first occurrence. */
  function Dedup<V(==,!new)>(s: seq<V>, seen: set<V>): (r: seq<V>)
    ensures forall x :: x in r <==> x in s && x !in seen
    ensures forall i, j :: 0 <= i < j < |r| ==> r[i] != r[j]
  {
    if s == [] then []
    else if s[0] in seen then Dedup(s[1..], seen)
    else [s[0]] + Dedup(s[1..], seen + {s[0]})
  }

  /** The vertices of the graph in insertion order (`list(G)`). */
  function Nodes<V(==,!new)>(E: seq<(V, V)>): (r: seq<V>)
    ensures forall x :: x in r <==> x in NodeSet(E)
    ensures forall i, j :: 0 <= i < j < |r| ==> r[i] != r[j]
  {
    var ends := Endpoints(E);
    assert forall x :: x in NodeSet(E) ==> x in ends by {
      forall x | x in NodeSet(E) ensures x in ends {
        var i :| 0 <= i < |E| && (E[i].0 == x || E[i].1 == x);
        assert ends[2 * i] == E[i].0 && ends[2 * i + 1] == E[i].1;
      }
    }
    assert forall x :: x in ends ==> x in NodeSet(E) by {
      forall x | x in ends ensures x in NodeSet(E) {
        var k :| 0 <= k < |ends| && ends[k] == x;
        var i := k / 2;
        if k == 2 * i {
          assert x == E[i].0;
        } else {
          assert k == 2 * i + 1 && x == E[i].1;
        }
      }
    }
    Dedup(ends, {})
  }

  predicate IsPath<V(==,!new)>(E: seq<(V, V)>, p: seq<V>)
  {
    |p| >= 1 && forall i :: 0 <= i < |p| - 1 ==> Adjacent(E, p[i], p[i + 1])
  }

  /** `b` can be reached from `a` along edges of the graph. */
  ghost predicate Reachable<V(!new)>(E: seq<(V, V)>, a: V, b: V)
  {
    exists p :: IsPath(E, p) && p[0] == a && p[|p| - 1] == b
  }

  /** The connected component of `v`. */
  ghost function Class<V(!new)>(E: seq<(V, V)>, v: V): set<V>
  {
    set w | w in NodeSet(E) && Reachable(E, v, w)
  }

  lemma AdjacentInGraph<V(!new)>(E: seq<(V, V)>, a: V, b: V)
    requires Adjacent(E, a, b)
    ensures a in NodeSet(E) && b in NodeSet(E)
  {
    var i :| 0 <= i < |E| && (E[i] == (a, b) || E[i] == (b, a));
    assert E[i].0 in NodeSet(E) && E[i].1 in NodeSet(E);
  }

  lemma ReachableRefl<V(!new)>(E: seq<(V, V)>, a: V)
    ensures Reachable(E, a, a)
  {
    assert IsPath(E, [a]);
  }

  lemma ReachableStep<V(!new)>(E: seq<(V, V)>, a: V, b: V, c: V)
    requires Reachable(E, a, b) && Adjacent(E, b, c)
    ensures Reachable(E, a, c)
  {
    var p :| IsPath(E, p) && p[0] == a && p[|p| - 1] == b;
    var q := p + [c];
    assert forall i :: 0 <= i < |q| - 1 ==> q[i] == p[i];
    assert IsPath(E, q);
  }

  lemma ReachableSym<V(!new)>(E: seq<(V, V)>, a: V, b: V)
    requires Reachable(E, a, b)
    ensures Reachable(E, b, a)
  {
    var p :| IsPath(E, p) && p[0] == a && p[|p| - 1] == b;
    var n := |p|;
    var q := seq(n, i requires 0 <= i < n => p[n - 1 - i]);
    forall i | 0 <= i < n - 1 ensures Adjacent(E, q[i], q[i + 1]) {
      assert Adjacent(E, p[n - 2 - i], p[n - 1 - i]);
    }
    assert IsPath(E, q);
  }

  lemma ReachableTrans<V(!new)>(E: seq<(V, V)>, a: V, b: V, c: V)
    requires Reachable(E, a, b) && Reachable(E, b, c)
    ensures Reachable(E, a, c)
  {
    var p :| IsPath(E, p) && p[0] == a && p[|p| - 1] == b;
    var q :| IsPath(E, q) && q[0] == b && q[|q| - 1] == c;
    var r := p + q[1..];
    forall i | 0 <= i < |r| - 1 ensures Adjacent(E, r[i], r[i + 1]) {
      if i < |p| - 1 {
        assert r[i] == p[i] && r[i + 1] == p[i + 1];
      } else {
        var k := i - (|p| - 1);
        assert r[i] == q[k] && r[i + 1] == q[k + 1];
      }
    }
    assert IsPath(E, r);
  }

  /** A vertex reachable from a vertex of the graph is itself in the graph. */
  lemma ReachableInGraph<V(!new)>(E: seq<(V, V)>, a: V, b: V)
    requires a in NodeSet(E) && Reachable(E, a, b)
    ensures b in NodeSet(E)
  {
    var p :| IsPath(E, p) && p[0] == a && p[|p| - 1] == b;
    if |p| > 1 {
      AdjacentInGraph(E, p[|p| - 2], p[|p| - 1]);
    }
  }

  /** Components are equivalence classes: a vertex is in its own component,
      and every member of a component has that same component. */
  lemma ClassOfMember<V(!new)>(E: seq<(V, V)>, v: V, w: V)
    requires v in NodeSet(E) && w in Class(E, v)
    ensures v in Class(E, v)
    ensures Class(E, w) == Class(E, v)
  {
    ReachableRefl(E, v);
    forall x | x in Class(E, w) ensures x in Class(E, v) {
      ReachableTrans(E, v, w, x);
    }
    forall x | x in Class(E, v) ensures x in Class(E, w) {
      ReachableSym(E, v, w);
      ReachableTrans(E, w, v, x);
    }
  }

  /** Two components are equal or disjoint. */
  lemma ClassesDisjoint<V(!new)>(E: seq<(V, V)>, v: V, w: V)
    requires v in NodeSet(E) && w in NodeSet(E)
    ensures Class(E, v) == Class(E, w) || Class(E, v) !! Class(E, w)
  {
    if x :| x in Class(E, v) && x in Class(E, w) {
      ClassOfMember(E, v, x);
      ClassOfMember(E, w, x);
    }
  }

  /** A set of vertices closed under adjacency holds every vertex reachable
      from one of its members. */
  lemma {:induction false} ClosedHoldsPath<V(!new)>(E: seq<(V, V)>, c: set<V>, p: seq<V>)
    requires IsPath(E, p) && p[0] in c
    requires forall a, b :: a in c && Adjacent(E, a, b) ==> b in c
    ensures p[|p| - 1] in c
  {
    if |p| > 1 {
      var q := p[..|p| - 1];
      assert IsPath(E, q);
      ClosedHoldsPath(E, c, q);
      assert Adjacent(E, q[|q| - 1], p[|p| - 1]);
    }
  }

  lemma {:induction false} SubsetCard<T>(a: set<T>, b: set<T>)
    requires a <= b
    ensures |a| <= |b|
    decreases a
  {
    if a != {} {
      var y :| y in a;
      SubsetCard(a - {y}, b - {y});
    }
  }

  lemma ProperSubsetCard<T>(a: set<T>, b: set<T>)
    requires a < b
    ensures |a| < |b|
  {
    var x :| x in b && x !in a;
    SubsetCard(a, b - {x});
  }

  /** Breadth-first search from `s`: its result is exactly the component of `s`. */
  method ComponentOf<V(==,!new)>(E: seq<(V, V)>, s: V) returns (c: set<V>)
    requires s in NodeSet(E)
    ensures c == Class(E, s)
  {
    ReachableRefl(E, s);
    c := {s};
    var todo := {s};
    while todo != {}
      invariant todo <= c <= NodeSet(E)
      invariant s in c
      invariant forall w :: w in c ==> Reachable(E, s, w)
      invariant forall a, b :: a in c - todo && Adjacent(E, a, b) ==> b in c
      decreases |NodeSet(E) - c|, |todo|
    {
      var a :| a in todo;
      ghost var c0, todo0 := c, todo - {a};
      c, todo := VisitNeighbors(E, s, a, c, todo - {a});
      if c != c0 {
        ProperSubsetCard(NodeSet(E) - c, NodeSet(E) - c0);
      }
    }
    forall w | w in Class(E, s) ensures w in c {
      var p :| IsPath(E, p) && p[0] == s && p[|p| - 1] == w;
      ClosedHoldsPath(E, c, p);
    }
  }

  /** One step of the search: every neighbour of `a` not yet seen is marked
      seen and queued. */
  method VisitNeighbors<V(==,!new)>(E: seq<(V, V)>, ghost s: V, a: V, seen: set<V>, queue: set<V>)
    returns (c: set<V>, todo: set<V>)
    requires a in seen && queue <= seen <= NodeSet(E)
    requires forall w :: w in seen ==> Reachable(E, s, w)
    ensures seen <= c <= NodeSet(E)
    ensures todo == queue + (c - seen)
    ensures forall w :: w in c ==> Reachable(E, s, w)
    ensures forall b :: Adjacent(E, a, b) ==> b in c
  {
    c, todo := seen, queue;
    var j := 0;
    while j < |E|
      invariant 0 <= j <= |E|
      invariant seen <= c <= NodeSet(E)
      invariant todo == queue + (c - seen)
      invariant forall w :: w in c ==> Reachable(E, s, w)
      invariant forall k :: 0 <= k < j ==> E[k].0 == a ==> E[k].1 in c
      invariant forall k :: 0 <= k < j ==> E[k].1 == a ==> E[k].0 in c
    {
      var (x, y) := E[j];
      assert E[j] == (x, y);
      if x == a && y !in c {
        assert Adjacent(E, a, y);
        ReachableStep(E, s, a, y);
        assert y in NodeSet(E);
        c, todo := c + {y}, todo + {y};
      }
      if y == a && x !in c {
        assert Adjacent(E, a, x);
        ReachableStep(E, s, a, x);
        assert x in NodeSet(E);
        c, todo := c + {x}, todo + {x};
      }
      j := j + 1;
    }
    forall b | Adjacent(E, a, b) ensures b in c {
      var i :| 0 <= i < |E| && (E[i] == (a, b) || E[i] == (b, a));
    }
  }

  /** The components in the order `nx.connected_components` yields them: for
      each vertex in `ns`, in order, the component of the first vertex that no
      earlier component (nor `seen`) holds. */
  ghost function ComponentsFrom<V(!new)>(E: seq<(V, V)>, ns: seq<V>, seen: set<V>): seq<set<V>>
  {
    if ns == [] then []
    else if ns[0] in seen then ComponentsFrom(E, ns[1..], seen)
    else [Class(E, ns[0])] + ComponentsFrom(E, ns[1..], seen + Class(E, ns[0]))
  }

  ghost function Components<V(!new)>(E: seq<(V, V)>): seq<set<V>>
  {
    ComponentsFrom(E, Nodes(E), {})
  }

  /** `seen` is a union of components. */
  ghost predicate Closed<V(!new)>(E: seq<(V, V)>, seen: set<V>)
  {
    forall w :: w in seen ==> Class(E, w) <= seen
  }

  lemma SelfInClass<V(!new)>(E: seq<(V, V)>, v: V)
    requires v in NodeSet(E)
    ensures v in Class(E, v)
  {
    ReachableRefl(E, v);
  }

  /** Adding the component of a vertex outside a union of components gives a
      union of components disjoint from the first. */
  lemma AddClass<V(!new)>(E: seq<(V, V)>, seen: set<V>, v: V)
    requires v in NodeSet(E) && v !in seen && Closed(E, seen)
    ensures Class(E, v) != {} && Class(E, v) <= NodeSet(E) && Class(E, v) !! seen
    ensures forall w :: w in Class(E, v) ==> Class(E, w) == Class(E, v)
    ensures Closed(E, seen + Class(E, v))
  {
    var c := Class(E, v);
    SelfInClass(E, v);
    forall w | w in c ensures Class(E, w) == c && w !in seen {
      ClassOfMember(E, v, w);
    }
  }

  /** `c` is a component of the graph lying outside `seen`. */
  ghost predicate ClassOutside<V(!new)>(E: seq<(V, V)>, c: set<V>, seen: set<V>)
  {
    c != {} && c <= NodeSet(E) && c !! seen && forall w :: w in c ==> Class(E, w) == c
  }

  lemma {:induction false} ComponentsFromAreClasses<V(!new)>(E: seq<(V, V)>, ns: seq<V>, seen: set<V>)
    requires forall v :: v in ns ==> v in NodeSet(E)
    requires Closed(E, seen)
    ensures forall c :: c in ComponentsFrom(E, ns, seen) ==> ClassOutside(E, c, seen)
  {
    if ns != [] && ns[0] !in seen {
      var v := ns[0];
      var c := Class(E, v);
      AddClass(E, seen, v);
      ComponentsFromAreClasses(E, ns[1..], seen + c);
      assert ComponentsFrom(E, ns, seen) == [c] + ComponentsFrom(E, ns[1..], seen + c);
    } else if ns != [] {
      ComponentsFromAreClasses(E, ns[1..], seen);
    }
  }

  lemma {:induction false} ComponentsFromDisjoint<V(!new)>(E: seq<(V, V)>, ns: seq<V>, seen: set<V>)
    requires forall v :: v in ns ==> v in NodeSet(E)
    requires Closed(E, seen)
    ensures PairwiseDisjoint(ComponentsFrom(E, ns, seen))
  {
    if ns != [] && ns[0] !in seen {
      var v := ns[0];
      var c := Class(E, v);
      AddClass(E, seen, v);
      ComponentsFromDisjoint(E, ns[1..], seen + c);
      ComponentsFromAreClasses(E, ns[1..], seen + c);
      var rest := ComponentsFrom(E, ns[1..], seen + c);
      forall k | 0 <= k < |rest| ensures c !! rest[k] {
        assert rest[k] in rest;
        assert ClassOutside(E, rest[k], seen + c);
      }
      ConsDisjoint(c, rest);
      assert ComponentsFrom(E, ns, seen) == [c] + rest;
    } else if ns != [] {
      ComponentsFromDisjoint(E, ns[1..], seen);
    }
  }

  lemma {:induction false} ComponentsFromCover<V(!new)>(E: seq<(V, V)>, ns: seq<V>, seen: set<V>)
    requires forall v :: v in ns ==> v in NodeSet(E)
    ensures forall u :: u in ns && u !in seen ==> exists c :: c in ComponentsFrom(E, ns, seen) && u in c
  {
    if ns != [] {
      var v := ns[0];
      var cs := ComponentsFrom(E, ns, seen);
      if v in seen {
        ComponentsFromCover(E, ns[1..], seen);
        assert cs == ComponentsFrom(E, ns[1..], seen);
        forall u | u in ns && u !in seen ensures exists c :: c in cs && u in c {
          assert u in ns[1..];
        }
      } else {
        var c := Class(E, v);
        SelfInClass(E, v);
        ComponentsFromCover(E, ns[1..], seen + c);
        var rest := ComponentsFrom(E, ns[1..], seen + c);
        assert cs == [c] + rest;
        forall u | u in ns && u !in seen ensures exists c :: c in cs && u in c {
          if u !in c {
            assert u in ns[1..];
          }
        }
      }
    }
  }

  predicate PairwiseDisjoint<V>(cs: seq<set<V>>)
  {
    forall i, j :: 0 <= i < j < |cs| ==> cs[i] !! cs[j]
  }

  /** Dropping the first of pairwise disjoint sets keeps the rest pairwise disjoint. */
  lemma DisjointTail<V>(cs: seq<set<V>>)
    requires cs != [] && PairwiseDisjoint(cs)
    ensures PairwiseDisjoint(cs[1..])
  {
    forall i, j | 0 <= i < j < |cs[1..]| ensures cs[1..][i] !! cs[1..][j] {
      assert cs[1..][i] == cs[i + 1] && cs[1..][j] == cs[j + 1];
    }
  }

  /** A set disjoint from each of pairwise disjoint sets can be put in front. */
  lemma ConsDisjoint<V>(c: set<V>, rest: seq<set<V>>)
    requires PairwiseDisjoint(rest)
    requires forall k :: 0 <= k < |rest| ==> c !! rest[k]
    ensures PairwiseDisjoint([c] + rest)
  {
    var r := [c] + rest;
    forall i, j | 0 <= i < j < |r| ensures r[i] !! r[j] {
      assert r[j] == rest[j - 1];
      if i > 0 {
        assert r[i] == rest[i - 1];
      }
    }
  }

  lemma ComponentsDisjoint<V(!new)>(E: seq<(V, V)>)
    ensures PairwiseDisjoint(Components(E))
  {
    ComponentsFromDisjoint(E, Nodes(E), {});
  }

  /** The connected components partition the vertices of the graph: each is
      the component of each of its members, no two overlap, and every vertex
      lies in one. */
  lemma ComponentsPartition<V(!new)>(E: seq<(V, V)>)
    ensures forall c :: c in Components(E) ==>
      c != {} && c <= NodeSet(E) && forall w :: w in c ==> Class(E, w) == c
    ensures forall i, j :: 0 <= i < j < |Components(E)| ==> Components(E)[i] !! Components(E)[j]
    ensures forall v :: v in NodeSet(E) ==> exists c :: c in Components(E) && v in c
  {
    var ns := Nodes(E);
    ComponentsFromAreClasses(E, ns, {});
    ComponentsFromDisjoint(E, ns, {});
    ComponentsFromCover(E, ns, {});
  }

  /** `nx.connected_components(G)`: a search from each vertex, in insertion
      order, that no earlier component reached. */
  method ConnectedComponents<V(==,!new)>(E: seq<(V, V)>) returns (cs: seq<set<V>>)
    ensures cs == Components(E)
  {
    var ns := Nodes(E);
    var seen: set<V> := {};
    cs := [];
    var i := 0;
    while i < |ns|
      invariant 0 <= i <= |ns|
      invariant cs + ComponentsFrom(E, ns[i..], seen) == Components(E)
    {
      assert ns[i..] == [ns[i]] + ns[i + 1..];
      if ns[i] !in seen {
        assert ns[i] in NodeSet(E);
        var c := ComponentOf(E, ns[i]);
        assert ComponentsFrom(E, ns[i..], seen) == [c] + ComponentsFrom(E, ns[i + 1..], seen + c);
        cs := cs + [c];
        seen := seen + c;
      }
      i := i + 1;
    }
  }
}
