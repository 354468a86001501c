/** Interfaces and how they connect.

    An `Electrical` is a single connection point; every other interface
    class is an aggregate that declares a fixed list of sub-interfaces
    (`IFs.get_all()`, in declaration order). Connecting two Electricals
    records each in the other's neighbour set. Connecting two aggregates
    requires them to be of the same class and then connects their
    sub-interfaces pairwise, position by position, and returns the first.

    Interfaces are values carrying an identity `id`; the neighbour sets of
    all interfaces of a design live in one `Design` object, which also hands
    out fresh identities the way object creation does in the source. */
module Interfaces {
  import opened Wrappers

  datatype Kind =
    | Electrical
    | Power
    | DifferentialPair
    | USB2_0
    | SWD
    | SPI
    | QUAD_SPI
    | I2C
    | UART_SIMPLE

  /** An interface object: its class, its identity and its sub-interfaces. */
  datatype Iface = Iface(kind: Kind, id: nat, subs: seq<Iface>)

  /** The sub-interface classes each interface class declares, in order. */
  function Declared(k: Kind): seq<Kind>
  {
    match k
    case Electrical => []
    case Power => [Electrical, Electrical]                                   // hv, lv
    case DifferentialPair => [Electrical, Electrical]                        // p, n
    case USB2_0 => [DifferentialPair, Electrical, Electrical, Electrical]    // usb, dp, dn, gnd
    case SWD => [Electrical, Electrical, Electrical]                         // clk, dio, gnd
    case SPI => [Electrical, Electrical, Electrical, Electrical]             // sclk, miso, mosi, gnd
    case QUAD_SPI => [Electrical, Electrical, Electrical, Electrical,
                      Electrical, Electrical, Electrical]                    // sd0..sd3, sclk, ss_n, gnd
    case I2C => [Electrical, Electrical, Electrical]                         // scl, sda, gnd
    case UART_SIMPLE => [Electrical, Electrical, Electrical]                 // rx, tx, gnd
  }

  /** An interface as its class's constructor builds it: sub-interfaces of
      the declared classes, each built the same way; the `dp` and `dn` of a
      USB2_0 are the `p` and `n` of its own differential pair. */
  predicate Shaped(i: Iface)
  {
    && |i.subs| == |Declared(i.kind)|
    && (forall k :: 0 <= k < |i.subs| ==> i.subs[k].kind == Declared(i.kind)[k] && Shaped(i.subs[k]))
    && (i.kind == USB2_0 ==> i.subs[1] == i.subs[0].subs[0] && i.subs[2] == i.subs[0].subs[1])
  }

  // ---------------------------------------------------------------------------
  // Neighbour sets

  /** Neighbour sets by interface identity; an absent identity has none. */
  type Links = map<nat, set<nat>>

  function Nb(links: Links, x: nat): set<nat>
  {
    if x in links then links[x] else {}
  }

  /** The base `Interface.connect`: each side enters the other's neighbour set. */
  function Link(links: Links, x: nat, y: nat): (r: Links)
    ensures forall k :: Nb(r, k) == Nb(links, k) + (if k == x then {y} else {}) + (if k == y then {x} else {})
  {
    var l := links[x := Nb(links, x) + {y}];
    l[y := Nb(l, y) + {x}]
  }

  /** The base connect applied to each pair in turn. */
  function LinkAll(links: Links, ps: seq<(nat, nat)>): Links
    decreases ps
  {
    if ps == [] then links else LinkAll(Link(links, ps[0].0, ps[0].1), ps[1..])
  }

  /** The identities `ps` pairs with `k`, on either side. */
  function Partners(k: nat, ps: seq<(nat, nat)>): set<nat>
  {
    if ps == [] then {}
    else
      (if ps[0].0 == k then {ps[0].1} else {})
      + (if ps[0].1 == k then {ps[0].0} else {})
      + Partners(k, ps[1..])
  }

  ghost predicate Symmetric(links: Links)
  {
    forall x, y :: y in Nb(links, x) ==> x in Nb(links, y)
  }

  lemma {:induction false} LinkAllAppend(links: Links, p: seq<(nat, nat)>, q: seq<(nat, nat)>)
    ensures LinkAll(links, p + q) == LinkAll(LinkAll(links, p), q)
    decreases p
  {
    if p != [] {
      assert (p + q)[1..] == p[1..] + q;
      LinkAllAppend(Link(links, p[0].0, p[0].1), p[1..], q);
    } else {
      assert p + q == q;
    }
  }

  /** Connecting a sequence of pairs adds to each neighbour set exactly the
      partners the pairs give it, and changes nothing else. */
  lemma {:induction false} LinkAllExact(links: Links, ps: seq<(nat, nat)>, k: nat)
    ensures Nb(LinkAll(links, ps), k) == Nb(links, k) + Partners(k, ps)
    decreases ps
  {
    if ps != [] {
      LinkAllExact(Link(links, ps[0].0, ps[0].1), ps[1..], k);
    }
  }

  /** `y` is a partner of `k` exactly when some pair joins the two. */
  lemma {:induction false} PartnersMeaning(k: nat, ps: seq<(nat, nat)>, y: nat)
    ensures y in Partners(k, ps) <==> exists j :: 0 <= j < |ps| && (ps[j] == (k, y) || ps[j] == (y, k))
  {
    if ps != [] {
      PartnersMeaning(k, ps[1..], y);
      if exists j :: 0 <= j < |ps[1..]| && (ps[1..][j] == (k, y) || ps[1..][j] == (y, k)) {
        var j :| 0 <= j < |ps[1..]| && (ps[1..][j] == (k, y) || ps[1..][j] == (y, k));
        assert ps[j + 1] == ps[1..][j];
      }
      if exists j :: 0 <= j < |ps| && (ps[j] == (k, y) || ps[j] == (y, k)) {
        var j :| 0 <= j < |ps| && (ps[j] == (k, y) || ps[j] == (y, k));
        if j > 0 {
          assert ps[1..][j - 1] == ps[j];
        }
      }
    }
  }

  /** Every pair ends up connected both ways. */
  lemma LinkAllConnects(links: Links, ps: seq<(nat, nat)>, j: nat)
    requires j < |ps|
    ensures ps[j].1 in Nb(LinkAll(links, ps), ps[j].0)
    ensures ps[j].0 in Nb(LinkAll(links, ps), ps[j].1)
  {
    LinkAllExact(links, ps, ps[j].0);
    LinkAllExact(links, ps, ps[j].1);
    PartnersMeaning(ps[j].0, ps, ps[j].1);
    PartnersMeaning(ps[j].1, ps, ps[j].0);
  }

  /** Connecting keeps the neighbour relation symmetric. */
  lemma {:induction false} LinkAllSymmetric(links: Links, ps: seq<(nat, nat)>)
    requires Symmetric(links)
    ensures Symmetric(LinkAll(links, ps))
    decreases ps
  {
    if ps != [] {
      var l := Link(links, ps[0].0, ps[0].1);
      assert Symmetric(l) by {
        forall x, y | y in Nb(l, x) ensures x in Nb(l, y) {
        }
      }
      LinkAllSymmetric(l, ps[1..]);
    }
  }

  // ---------------------------------------------------------------------------
  // Aggregate connection

  /** Whether connecting `a` to `b` gets through every type check. */
  predicate Compatible(a: Iface, b: Iface)
  {
    a.kind == Electrical || (a.kind == b.kind && ZipCompatible(a.subs, b.subs))
  }

  predicate ZipCompatible(xs: seq<Iface>, ys: seq<Iface>)
  {
    xs == [] || ys == [] || (Compatible(xs[0], ys[0]) && ZipCompatible(xs[1..], ys[1..]))
  }

  /** The Electrical-level connections `a.connect(b)` makes, in order: an
      Electrical connects itself; an aggregate connects its sub-interfaces
      with the other's, position by position, as `zip` pairs them. */
  function Pairs(a: Iface, b: Iface): seq<(nat, nat)>
  {
    if a.kind == Electrical then [(a.id, b.id)]
    else if a.kind != b.kind then []
    else ZipPairs(a.subs, b.subs)
  }

  function ZipPairs(xs: seq<Iface>, ys: seq<Iface>): seq<(nat, nat)>
  {
    if xs == [] || ys == [] then [] else Pairs(xs[0], ys[0]) + ZipPairs(xs[1..], ys[1..])
  }

  /** The connections `a.connect_all(others)` makes: `a` to each in turn. */
  function StarPairs(a: Iface, others: seq<Iface>): seq<(nat, nat)>
  {
    if others == [] then [] else Pairs(a, others[0]) + StarPairs(a, others[1..])
  }

  /** From an Electrical, `connect_all` pairs it with each of the others. */
  lemma {:induction false} ElectricalStar(a: Iface, others: seq<Iface>)
    requires a.kind == Electrical
    ensures |StarPairs(a, others)| == |others|
    ensures forall k :: 0 <= k < |others| ==> StarPairs(a, others)[k] == (a.id, others[k].id)
  {
    if others != [] {
      ElectricalStar(a, others[1..]);
    }
  }

  /** An Electrical connects to anything, and only to it. */
  lemma ElectricalPairs(a: Iface, b: Iface)
    requires a.kind == Electrical
    ensures Compatible(a, b) && Pairs(a, b) == [(a.id, b.id)]
  {
  }

  /** Two interfaces built as their (common) class declares always connect. */
  lemma {:induction false} ShapedCompatible(a: Iface, b: Iface)
    requires Shaped(a) && Shaped(b) && a.kind == b.kind
    ensures Compatible(a, b)
  {
    if a.kind != Electrical {
      ShapedZipCompatible(a.subs, b.subs);
    }
  }

  lemma {:induction false} ShapedZipCompatible(xs: seq<Iface>, ys: seq<Iface>)
    requires |xs| == |ys|
    requires forall k :: 0 <= k < |xs| ==> Shaped(xs[k]) && Shaped(ys[k]) && xs[k].kind == ys[k].kind
    ensures ZipCompatible(xs, ys)
  {
    if xs != [] {
      ShapedCompatible(xs[0], ys[0]);
      ShapedZipCompatible(xs[1..], ys[1..]);
    }
  }

  /** Zipping Electricals pairs their identities position by position. */
  lemma {:induction false} ZipElectricals(xs: seq<Iface>, ys: seq<Iface>)
    requires |xs| == |ys|
    requires forall k :: 0 <= k < |xs| ==> xs[k].kind == Electrical
    ensures |ZipPairs(xs, ys)| == |xs|
    ensures forall k :: 0 <= k < |xs| ==> ZipPairs(xs, ys)[k] == (xs[k].id, ys[k].id)
  {
    if xs != [] {
      ZipElectricals(xs[1..], ys[1..]);
    }
  }

  /** For every aggregate but USB2_0, `a.connect(b)` connects the i-th
      declared sub-interface of `a` to the i-th of `b`, and nothing else. */
  lemma FlatAggregatePairs(a: Iface, b: Iface)
    requires Shaped(a) && Shaped(b) && a.kind == b.kind
    requires a.kind != Electrical && a.kind != USB2_0
    ensures Compatible(a, b)
    ensures |Pairs(a, b)| == |Declared(a.kind)|
    ensures forall k :: 0 <= k < |Declared(a.kind)| ==> Pairs(a, b)[k] == (a.subs[k].id, b.subs[k].id)
  {
    ShapedCompatible(a, b);
    FlatSubs(a);
    ZipElectricals(a.subs, b.subs);
  }

  /** `Power.connect`: hv to hv, then lv to lv. */
  lemma PowerPairs(a: Iface, b: Iface)
    requires Shaped(a) && Shaped(b) && a.kind == Power && b.kind == Power
    ensures Compatible(a, b)
    ensures Pairs(a, b) == [(a.subs[0].id, b.subs[0].id), (a.subs[1].id, b.subs[1].id)]
  {
    FlatAggregatePairs(a, b);
  }

  /** `USB2_0.connect` walks usb, dp, dn, gnd: the data lines are connected
      twice (once through the pair, once directly), then ground. */
  lemma USBPairs(a: Iface, b: Iface)
    requires Shaped(a) && Shaped(b) && a.kind == USB2_0 && b.kind == USB2_0
    ensures Compatible(a, b)
    ensures var p, n := (a.subs[1].id, b.subs[1].id), (a.subs[2].id, b.subs[2].id);
            Pairs(a, b) == [p, n, p, n, (a.subs[3].id, b.subs[3].id)]
  {
    ShapedCompatible(a, b);
    FlatAggregatePairs(a.subs[0], b.subs[0]);
    var xs, ys := a.subs, b.subs;
    assert ZipPairs(xs[3..], ys[3..]) == [(xs[3].id, ys[3].id)] + ZipPairs(xs[4..], ys[4..]);
    assert ZipPairs(xs[2..], ys[2..]) == [(xs[2].id, ys[2].id)] + ZipPairs(xs[3..], ys[3..]);
    assert ZipPairs(xs[1..], ys[1..]) == [(xs[1].id, ys[1].id)] + ZipPairs(xs[2..], ys[2..]);
  }

  // ---------------------------------------------------------------------------
  // The design: neighbour sets and object creation

  /** Every aggregate but USB2_0 declares only Electricals. */
  lemma FlatDeclared(k: Kind)
    requires k != Electrical && k != USB2_0
    ensures forall j :: 0 <= j < |Declared(k)| ==> Declared(k)[j] == Electrical
  {
  }

  /** The sub-interfaces of such an aggregate, built as declared, are
      Electricals. */
  lemma FlatSubs(a: Iface)
    requires Shaped(a) && a.kind != Electrical && a.kind != USB2_0
    ensures forall j :: 0 <= j < |a.subs| ==> a.subs[j].kind == Electrical
  {
    FlatDeclared(a.kind);
  }

  /** A USB2_0 built around a fresh differential pair and ground. */
  lemma UsbShaped(id: nat, usb: Iface, gnd: Iface)
    requires Shaped(usb) && usb.kind == DifferentialPair && gnd == Iface(Electrical, gnd.id, [])
    ensures Shaped(Iface(USB2_0, id, [usb, usb.subs[0], usb.subs[1], gnd]))
  {
    FlatSubs(usb);
    var subs := [usb, usb.subs[0], usb.subs[1], gnd];
    var decl := Declared(USB2_0);
    assert decl == [DifferentialPair, Electrical, Electrical, Electrical];
    assert Shaped(usb.subs[0]) && Shaped(usb.subs[1]);
    assert Shaped(gnd) by {
      assert Declared(Electrical) == [];
    }
    forall k | 0 <= k < 4 ensures subs[k].kind == decl[k] && Shaped(subs[k]) {
      if k == 0 {
      } else if k == 1 {
      } else if k == 2 {
      } else {
      }
    }
  }

  /** An aggregate other than USB2_0 whose sub-interfaces are fresh
      Electricals, as many as its class declares, is built as declared. */
  lemma FlatShaped(i: Iface)
    requires i.kind != Electrical && i.kind != USB2_0
    requires |i.subs| == |Declared(i.kind)|
    requires forall k :: 0 <= k < |i.subs| ==> i.subs[k].kind == Electrical && i.subs[k].subs == []
    ensures Shaped(i)
  {
    FlatDeclared(i.kind);
    forall k | 0 <= k < |i.subs| ensures Shaped(i.subs[k]) {
      assert Declared(i.subs[k].kind) == [];
    }
  }

  /** `[make(k) for k in range(cnt)]`, where `make(k)` stands for the k-th call
      of the factory that `times(cnt, factory)` receives. */
  function Times<T>(cnt: nat, make: nat -> T): (r: seq<T>)
    ensures |r| == cnt
    ensures forall k :: 0 <= k < cnt ==> r[k] == make(k)
  {
    if cnt == 0 then [] else Times(cnt - 1, make) + [make(cnt - 1)]
  }

  /** The Electrical the k-th `Electrical()` call creates when identities
      start at `base`. */
  function ElectricalAt(base: nat): nat -> Iface
  {
    (k: nat) => Iface(Electrical, base + k, [])
  }

  /** Connecting the first two sub-interfaces leaves the rest of the zip
      to connect. */
  lemma ZipStep(links: Links, links': Links, xs: seq<Iface>, ys: seq<Iface>)
    requires xs != [] && ys != []
    requires links' == LinkAll(links, Pairs(xs[0], ys[0]))
    ensures LinkAll(links', ZipPairs(xs[1..], ys[1..])) == LinkAll(links, ZipPairs(xs, ys))
  {
    LinkAllAppend(links, Pairs(xs[0], ys[0]), ZipPairs(xs[1..], ys[1..]));
  }

  class Design {
    var links: Links
    var nextId: nat

    constructor()
      ensures links == map[] && nextId == 0
    {
      links := map[];
      nextId := 0;
    }

    /** `Electrical()` */
    method NewElectrical() returns (e: Iface)
      modifies this
      ensures e == Iface(Electrical, old(nextId), [])
      ensures nextId == old(nextId) + 1 && links == old(links)
    {
      e := Iface(Electrical, nextId, []);
      nextId := nextId + 1;
    }

    /** `times(cnt, Electrical)`: `cnt` fresh Electricals with consecutive identities. */
    method NewElectricals(cnt: nat) returns (es: seq<Iface>)
      modifies this
      ensures es == Times(cnt, ElectricalAt(old(nextId)))
      ensures nextId == old(nextId) + cnt && links == old(links)
    {
      es := [];
      var k := 0;
      while k < cnt
        invariant 0 <= k <= cnt
        invariant nextId == old(nextId) + k && links == old(links)
        invariant es == Times(k, ElectricalAt(old(nextId)))
      {
        var e := NewElectrical();
        es := es + [e];
        k := k + 1;
      }
    }

    /** The constructor of interface class `k`: the object first, then the
        sub-interfaces its class body declares. */
    method New(k: Kind) returns (i: Iface)
      modifies this
      ensures Shaped(i) && i.kind == k && i.id == old(nextId)
      ensures nextId > old(nextId) && links == old(links)
      decreases if k == USB2_0 then 1 else 0
    {
      var id := nextId;
      nextId := nextId + 1;
      if k == Electrical {
        i := Iface(k, id, []);
      } else if k == USB2_0 {
        var usb := New(DifferentialPair);
        var gnd := NewElectrical();
        UsbShaped(id, usb, gnd);
        i := Iface(k, id, [usb, usb.subs[0], usb.subs[1], gnd]);
      } else {
        var subs := NewElectricals(|Declared(k)|);
        i := Iface(k, id, subs);
        FlatShaped(i);
      }
    }

    /** `a.connect(b)`. An Electrical connects to anything; an aggregate
        fails with a type mismatch unless `b` is of its own class, and
        otherwise connects the zipped sub-interfaces in order. On success
        the result is `a` itself. */
    method Connect(a: Iface, b: Iface) returns (r: Result<Iface>)
      modifies this
      ensures nextId == old(nextId)
      ensures Compatible(a, b) ==> r == Ok(a) && links == LinkAll(old(links), Pairs(a, b))
      ensures !Compatible(a, b) ==> r == Fail(TypeMismatch)
      ensures a.kind != Electrical && a.kind != b.kind ==> links == old(links)
      decreases a
    {
      if a.kind == Electrical {
        links := Link(links, a.id, b.id);
        assert LinkAll(old(links), Pairs(a, b)) == LinkAll(links, []);
        return Ok(a);
      }
      if a.kind != b.kind {
        return Fail(TypeMismatch);
      }
      var xs, ys := a.subs, b.subs;
      while xs != [] && ys != []
        invariant nextId == old(nextId)
        invariant forall k :: 0 <= k < |xs| ==> xs[k] in a.subs
        invariant Compatible(a, b) <==> ZipCompatible(xs, ys)
        invariant Compatible(a, b) ==> LinkAll(links, ZipPairs(xs, ys)) == LinkAll(old(links), Pairs(a, b))
        decreases |xs|
      {
        ghost var before := links;
        var s := Connect(xs[0], ys[0]);
        if s.Fail? {
          return s;
        }
        ZipStep(before, links, xs, ys);
        xs, ys := xs[1..], ys[1..];
      }
      return Ok(a);
    }

    /** `a.connect_all(others)`: `a.connect(o)` for each `o` in turn; the
        first failing connection aborts the rest. */
    method ConnectAll(a: Iface, others: seq<Iface>) returns (r: Result<Iface>)
      modifies this
      ensures nextId == old(nextId)
      ensures r.Ok? <==> forall k :: 0 <= k < |others| ==> Compatible(a, others[k])
      ensures r.Ok? ==> r.value == a && links == LinkAll(old(links), StarPairs(a, others))
    {
      var i := 0;
      while i < |others|
        invariant 0 <= i <= |others| && nextId == old(nextId)
        invariant forall k :: 0 <= k < i ==> Compatible(a, others[k])
        invariant LinkAll(links, StarPairs(a, others[i..])) == LinkAll(old(links), StarPairs(a, others))
      {
        assert others[i..][1..] == others[i + 1..];
        ghost var before := links;
        var s := Connect(a, others[i]);
        if s.Fail? {
          return s;
        }
        LinkAllAppend(before, Pairs(a, others[i]), StarPairs(a, others[i + 1..]));
        i := i + 1;
      }
      return Ok(a);
    }
  }

  // ---------------------------------------------------------------------------
  // Building an interface from an iterator of Electricals

  /** A Python iterator over a list of interfaces. */
  class Cursor {
    const items: seq<Iface>
    var pos: nat

    ghost predicate Valid()
      reads this
    {
      pos <= |items|
    }

    constructor(items: seq<Iface>)
      ensures this.items == items && pos == 0 && Valid()
    {
      this.items := items;
      pos := 0;
    }

    /** `next(it)`: the next item, or StopIteration once exhausted. */
    method Next() returns (r: Result<Iface>)
      requires Valid()
      modifies this
      ensures Valid()
      ensures old(pos) < |items| ==> r == Ok(items[old(pos)]) && pos == old(pos) + 1
      ensures old(pos) == |items| ==> r == Fail(StopIteration) && pos == old(pos)
    {
      if pos == |items| {
        return Fail(StopIteration);
      }
      r := Ok(items[pos]);
      pos := pos + 1;
    }
  }

  /** `Electrical.from_interfaces`: consumes exactly one item and returns it. */
  method ElectricalFromInterfaces(it: Cursor) returns (r: Result<Iface>)
    requires it.Valid()
    modifies it
    ensures it.Valid()
    ensures old(it.pos) < |it.items| ==> r == Ok(it.items[old(it.pos)]) && it.pos == old(it.pos) + 1
    ensures old(it.pos) == |it.items| ==> r == Fail(StopIteration) && it.pos == old(it.pos)
  {
    r := it.Next();
  }

  /** `Power.from_interfaces`: a fresh Power whose hv and lv are the next two
      items, in that order. */
  method PowerFromInterfaces(d: Design, it: Cursor) returns (r: Result<Iface>)
    requires it.Valid()
    modifies d, it
    ensures it.Valid() && d.links == old(d.links)
    ensures var p0 := old(it.pos);
            p0 + 2 <= |it.items| ==>
              r == Ok(Iface(Power, old(d.nextId), [it.items[p0], it.items[p0 + 1]])) && it.pos == p0 + 2
    ensures old(it.pos) + 1 == |it.items| ==> r == Fail(StopIteration) && it.pos == |it.items|
    ensures old(it.pos) == |it.items| ==> r == Fail(StopIteration) && it.pos == old(it.pos)
  {
    var p := d.New(Power);
    var hv :- it.Next();
    var lv :- it.Next();
    r := Ok(Iface(Power, p.id, [hv, lv]));
  }

  // ---------------------------------------------------------------------------
  // Listing interfaces and their owners

  /** `can_list_interfaces.get_interfaces()`: an Electrical lists itself, a
      Power its hv and lv; no other class carries the trait. */
  function ListInterfaces(i: Iface): (r: Result<seq<Iface>>)
    ensures i.kind == Electrical ==> r == Ok([i])
    ensures i.kind == Power ==> r == Ok(i.subs)
    ensures i.kind != Electrical && i.kind != Power ==> r == Fail(TraitNotFound)
  {
    match i.kind
    case Electrical => Ok([i])
    case Power => Ok(i.subs)
    case _ => Fail(TraitNotFound)
  }

  predicate Listable(i: Iface)
  {
    i.kind == Electrical || i.kind == Power
  }

  /** `get_all_interfaces`: the listed interfaces of each, concatenated in order. */
  function GetAllInterfaces(xs: seq<Iface>): (r: Result<seq<Iface>>)
    ensures r.Ok? <==> forall k :: 0 <= k < |xs| ==> Listable(xs[k])
    ensures r.Fail? ==> r.error == TraitNotFound
  {
    if xs == [] then Ok([])
    else
      var head :- ListInterfaces(xs[0]);
      var tail :- GetAllInterfaces(xs[1..]);
      Ok(head + tail)
  }

  /** Listing a concatenation lists each part in turn. */
  lemma {:induction false} GetAllInterfacesAppend(a: seq<Iface>, b: seq<Iface>)
    requires GetAllInterfaces(a).Ok? && GetAllInterfaces(b).Ok?
    ensures GetAllInterfaces(a + b) == Ok(GetAllInterfaces(a).value + GetAllInterfaces(b).value)
  {
    if a == [] {
      assert a + b == b;
      assert [] + GetAllInterfaces(b).value == GetAllInterfaces(b).value;
    } else {
      assert (a + b)[1..] == a[1..] + b;
      GetAllInterfacesAppend(a[1..], b);
      var h := ListInterfaces(a[0]).value;
      assert GetAllInterfaces(a) == Ok(h + GetAllInterfaces(a[1..]).value);
      assert GetAllInterfaces(a + b) == Ok(h + GetAllInterfaces(a[1..] + b).value);
      var ta, tb := GetAllInterfaces(a[1..]).value, GetAllInterfaces(b).value;
      assert h + (ta + tb) == (h + ta) + tb;
    }
  }

  /** A list of Electricals lists as itself. */
  lemma {:induction false} GetAllElectricals(xs: seq<Iface>)
    requires forall k :: 0 <= k < |xs| ==> xs[k].kind == Electrical
    ensures GetAllInterfaces(xs) == Ok(xs)
  {
    if xs != [] {
      GetAllElectricals(xs[1..]);
      assert ListInterfaces(xs[0]) == Ok([xs[0]]);
      assert xs == [xs[0]] + xs[1..];
    }
  }

  /** `get_components_of_interfaces`: in order, the owner of each interface
      that has one (`owner` maps an interface identity to its component). */
  function GetComponentsOfInterfaces<C(==)>(owner: map<nat, C>, xs: seq<Iface>): (r: seq<C>)
    ensures |r| <= |xs|
    ensures forall j :: 0 <= j < |r| ==> r[j] in owner.Values
    ensures (forall k :: 0 <= k < |xs| ==> xs[k].id !in owner) ==> r == []
    ensures (forall k :: 0 <= k < |xs| ==> xs[k].id in owner) ==>
              |r| == |xs| && forall k :: 0 <= k < |xs| ==> r[k] == owner[xs[k].id]
  {
    if xs == [] then []
    else
      var rest := GetComponentsOfInterfaces(owner, xs[1..]);
      if xs[0].id in owner then [owner[xs[0].id]] + rest else rest
  }

  /** Owners of a concatenation are the owners of each part in turn. */
  lemma {:induction false} GetComponentsAppend<C>(owner: map<nat, C>, a: seq<Iface>, b: seq<Iface>)
    ensures GetComponentsOfInterfaces(owner, a + b)
         == GetComponentsOfInterfaces(owner, a) + GetComponentsOfInterfaces(owner, b)
  {
    if a == [] {
      assert a + b == b;
    } else {
      assert (a + b)[1..] == a[1..] + b;
      GetComponentsAppend(owner, a[1..], b);
    }
  }
}
