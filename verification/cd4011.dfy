/** The CD4011 quad 2-input NAND chip.

    The chip owns four NAND gates, a power interface, and one Electrical
    (`in_outs`) per NAND output and input. Setting up its internal
    connections walks an iterator over `in_outs`: for each NAND in order it
    connects the NAND's power to the chip's, then the next in_out to the
    NAND's output, then one in_out to each input, recording in
    `connection_map` which in_out serves which NAND pin. The TI_CD4011BE
    variant maps the 14 pins of its DIP package onto power and in_outs. */
module Cd4011 {
  import opened Wrappers
  import opened Traits
  import opened Interfaces

  predicate IdsDistinct(xs: seq<Iface>)
  {
    forall i, j :: 0 <= i < j < |xs| ==> xs[i].id != xs[j].id
  }

  predicate IdsIncreasing(xs: seq<Iface>)
  {
    forall i, j :: 0 <= i < j < |xs| ==> xs[i].id < xs[j].id
  }

  lemma IncreasingAppend(a: seq<Iface>, b: seq<Iface>)
    requires IdsIncreasing(a) && IdsIncreasing(b)
    requires forall i, j :: 0 <= i < |a| && 0 <= j < |b| ==> a[i].id < b[j].id
    ensures IdsIncreasing(a + b)
  {
  }

  class Nand {
    const power: Iface
    const output: Iface
    const inputs: seq<Iface>
    const traits: TraitStore

    /** The interfaces a NAND is built with. */
    predicate Valid()
    {
      && Shaped(power) && power.kind == Power
      && output.kind == Electrical
      && forall k :: 0 <= k < |inputs| ==> inputs[k].kind == Electrical
    }

    /** `NAND(input_cnt)`: a fresh power, a fresh output, then `input_cnt`
        fresh inputs. */
    constructor(d: Design, inputCnt: nat)
      modifies d
      ensures Valid() && |inputs| == inputCnt
      ensures old(d.nextId) <= output.id
      ensures inputs == Times(inputCnt, ElectricalAt(output.id + 1))
      ensures d.nextId == output.id + 1 + inputCnt && d.links == old(d.links)
      ensures fresh(traits) && traits.Valid() && traits.traits == map[]
    {
      var p := d.New(Power);
      var o := d.NewElectrical();
      var ins := d.NewElectricals(inputCnt);
      power, output, inputs := p, o, ins;
      traits := new TraitStore();
    }
  }

  predicate AllValid(ns: seq<Nand>)
  {
    forall k :: 0 <= k < |ns| ==> ns[k].Valid()
  }

  /** A NAND's output followed by its inputs. */
  function IOs(n: Nand): seq<Iface>
  {
    [n.output] + n.inputs
  }

  /** Sum over the NANDs of one output plus their inputs. */
  function InOutCount(ns: seq<Nand>): nat
  {
    if ns == [] then 0 else 1 + |ns[0].inputs| + InOutCount(ns[1..])
  }

  /** `[i for n in nands for i in [n.output, *n.inputs]]`: the NAND pins the
      chip's in_outs serve, in the order they are served. */
  function Flatten(ns: seq<Nand>): (r: seq<Iface>)
    ensures |r| == InOutCount(ns)
  {
    if ns == [] then [] else IOs(ns[0]) + Flatten(ns[1..])
  }

  lemma {:induction false} FlattenAppend(ns: seq<Nand>, n: Nand)
    ensures Flatten(ns + [n]) == Flatten(ns) + IOs(n)
  {
    if ns == [] {
      assert Flatten([n]) == IOs(n) + Flatten([]);
    } else {
      assert (ns + [n])[1..] == ns[1..] + [n];
      FlattenAppend(ns[1..], n);
    }
  }

  lemma Count4(ns: seq<Nand>)
    requires |ns| == 4 && forall k :: 0 <= k < 4 ==> |ns[k].inputs| == 2
    ensures InOutCount(ns) == 12
  {
    assert ns[1..][1..] == ns[2..] && ns[2..][1..] == ns[3..] && ns[3..][1..] == [];
    assert InOutCount(ns[3..]) == 3;
    assert InOutCount(ns[2..]) == 6;
    assert InOutCount(ns[1..]) == 9;
  }

  /** For four 2-input NANDs the served pins are, per NAND, output, input 0
      and input 1. */
  lemma Flatten4(ns: seq<Nand>)
    requires |ns| == 4 && forall k :: 0 <= k < 4 ==> |ns[k].inputs| == 2
    ensures |Flatten(ns)| == 12
    ensures forall k :: 0 <= k < 4 ==>
              Flatten(ns)[3 * k] == ns[k].output
              && Flatten(ns)[3 * k + 1] == ns[k].inputs[0]
              && Flatten(ns)[3 * k + 2] == ns[k].inputs[1]
  {
    assert ns[1..][1..] == ns[2..] && ns[2..][1..] == ns[3..] && ns[3..][1..] == [];
    assert Flatten(ns[3..]) == IOs(ns[3]);
    assert Flatten(ns[2..]) == IOs(ns[2]) + IOs(ns[3]);
    assert Flatten(ns[1..]) == IOs(ns[1]) + (IOs(ns[2]) + IOs(ns[3]));
  }

  // ---------------------------------------------------------------------------
  // Internal connections

  /** What `_setup_internal_connections` connects for one NAND: its power to
      the chip's, then each of `targets` to the NAND's output and inputs. */
  function NandWiring(n: Nand, power: Iface, targets: seq<Iface>): seq<(nat, nat)>
  {
    Pairs(n.power, power) + ZipPairs(targets, IOs(n))
  }

  /** What `_setup_internal_connections` connects, NAND by NAND, with the
      in_outs consumed in order. */
  function Wiring(ns: seq<Nand>, power: Iface, targets: seq<Iface>): seq<(nat, nat)>
    requires |targets| == |Flatten(ns)|
  {
    if ns == [] then []
    else
      var m := |IOs(ns[0])|;
      NandWiring(ns[0], power, targets[..m]) + Wiring(ns[1..], power, targets[m..])
  }

  /** `connection_map` filled in order from `keys[k]` to `vals[k]`; a
      repeated key keeps its last entry. */
  function Extend(m: map<nat, Iface>, keys: seq<Iface>, vals: seq<Iface>): map<nat, Iface>
    requires |keys| == |vals|
    decreases keys
  {
    if keys == [] then m else Extend(m[keys[0].id := vals[0]], keys[1..], vals[1..])
  }

  function MapOf(keys: seq<Iface>, vals: seq<Iface>): map<nat, Iface>
    requires |keys| == |vals|
  {
    Extend(map[], keys, vals)
  }

  lemma {:induction false} ExtendAppend(m: map<nat, Iface>, k1: seq<Iface>, k2: seq<Iface>, v1: seq<Iface>, v2: seq<Iface>)
    requires |k1| == |v1| && |k2| == |v2|
    ensures Extend(m, k1 + k2, v1 + v2) == Extend(Extend(m, k1, v1), k2, v2)
    decreases k1
  {
    if k1 == [] {
      assert k1 + k2 == k2 && v1 + v2 == v2;
    } else {
      assert (k1 + k2)[1..] == k1[1..] + k2 && (v1 + v2)[1..] == v1[1..] + v2;
      ExtendAppend(m[k1[0].id := v1[0]], k1[1..], k2, v1[1..], v2);
    }
  }

  /** The filled map has an entry exactly for the keys it started with and
      the keys it was given; each entry is a given value or an old one. */
  lemma {:induction false} ExtendMeaning(m: map<nat, Iface>, keys: seq<Iface>, vals: seq<Iface>, x: nat)
    requires |keys| == |vals|
    ensures x in Extend(m, keys, vals) <==> x in m || exists j :: 0 <= j < |keys| && keys[j].id == x
    ensures x in Extend(m, keys, vals) ==>
              (exists j :: 0 <= j < |keys| && keys[j].id == x && Extend(m, keys, vals)[x] == vals[j])
              || (x in m && Extend(m, keys, vals)[x] == m[x])
    decreases keys
  {
    if keys != [] {
      var m' := m[keys[0].id := vals[0]];
      ExtendMeaning(m', keys[1..], vals[1..], x);
      var r := Extend(m, keys, vals);
      if exists j :: 0 <= j < |keys[1..]| && keys[1..][j].id == x {
        var j :| 0 <= j < |keys[1..]| && keys[1..][j].id == x;
        assert keys[j + 1].id == x;
      }
      if x in r {
        if exists j :: 0 <= j < |keys[1..]| && keys[1..][j].id == x && r[x] == vals[1..][j] {
          var j :| 0 <= j < |keys[1..]| && keys[1..][j].id == x && r[x] == vals[1..][j];
          assert keys[j + 1].id == x && r[x] == vals[j + 1];
        } else if x == keys[0].id {
          assert r[x] == vals[0];
        }
      }
      if exists j :: 0 <= j < |keys| && keys[j].id == x {
        var j :| 0 <= j < |keys| && keys[j].id == x;
        if j > 0 {
          assert keys[1..][j - 1].id == x;
        }
      }
    }
  }

  /** With distinct keys, key `keys[j]` maps to `vals[j]`. */
  lemma {:induction false} ExtendAt(m: map<nat, Iface>, keys: seq<Iface>, vals: seq<Iface>, j: nat)
    requires |keys| == |vals| && j < |keys| && IdsDistinct(keys)
    ensures keys[j].id in Extend(m, keys, vals) && Extend(m, keys, vals)[keys[j].id] == vals[j]
    decreases keys
  {
    var m' := m[keys[0].id := vals[0]];
    if j == 0 {
      ExtendUntouched(m', keys[1..], vals[1..], keys[0].id);
    } else {
      ExtendAt(m', keys[1..], vals[1..], j - 1);
    }
  }

  lemma {:induction false} ExtendUntouched(m: map<nat, Iface>, keys: seq<Iface>, vals: seq<Iface>, x: nat)
    requires |keys| == |vals| && x in m
    requires forall j :: 0 <= j < |keys| ==> keys[j].id != x
    ensures x in Extend(m, keys, vals) && Extend(m, keys, vals)[x] == m[x]
    decreases keys
  {
    if keys != [] {
      ExtendUntouched(m[keys[0].id := vals[0]], keys[1..], vals[1..], x);
    }
  }

  /** `connection_map` has an entry for every NAND output and input and for
      nothing else. */
  lemma ConnectionMapCovers(keys: seq<Iface>, vals: seq<Iface>, x: nat)
    requires |keys| == |vals|
    ensures x in MapOf(keys, vals) <==> exists j :: 0 <= j < |keys| && keys[j].id == x
  {
    ExtendMeaning(map[], keys, vals, x);
  }

  /** Distinct in_outs make `connection_map` injective: no in_out serves two
      NAND pins. */
  lemma ConnectionMapInjective(keys: seq<Iface>, vals: seq<Iface>, x: nat, y: nat)
    requires |keys| == |vals| && IdsDistinct(vals)
    requires x in MapOf(keys, vals) && y in MapOf(keys, vals) && x != y
    ensures MapOf(keys, vals)[x] != MapOf(keys, vals)[y]
  {
    ExtendMeaning(map[], keys, vals, x);
    ExtendMeaning(map[], keys, vals, y);
    var i :| 0 <= i < |keys| && keys[i].id == x && MapOf(keys, vals)[x] == vals[i];
    var j :| 0 <= j < |keys| && keys[j].id == y && MapOf(keys, vals)[y] == vals[j];
    assert i != j;
    if i < j {
      assert vals[i].id != vals[j].id;
    } else {
      assert vals[j].id != vals[i].id;
    }
  }

  /** The k-th in_out is connected to the k-th served NAND pin. */
  lemma {:induction false} WiringServes(ns: seq<Nand>, power: Iface, targets: seq<Iface>, k: nat)
    requires |targets| == |Flatten(ns)| && k < |targets|
    requires forall i :: 0 <= i < |targets| ==> targets[i].kind == Electrical
    ensures (targets[k].id, Flatten(ns)[k].id) in Wiring(ns, power, targets)
    decreases ns
  {
    var m := |IOs(ns[0])|;
    if k < m {
      ZipElectricals(targets[..m], IOs(ns[0]));
      assert ZipPairs(targets[..m], IOs(ns[0]))[k] == (targets[k].id, IOs(ns[0])[k].id);
    } else {
      WiringServes(ns[1..], power, targets[m..], k - m);
      assert targets[m..][k - m] == targets[k];
    }
  }

  /** Every NAND's hv and lv are connected to the chip's hv and lv. */
  lemma {:induction false} WiringPowers(ns: seq<Nand>, power: Iface, targets: seq<Iface>, j: nat)
    requires |targets| == |Flatten(ns)| && j < |ns| && AllValid(ns)
    requires Shaped(power) && power.kind == Power
    ensures (ns[j].power.subs[0].id, power.subs[0].id) in Wiring(ns, power, targets)
    ensures (ns[j].power.subs[1].id, power.subs[1].id) in Wiring(ns, power, targets)
    decreases ns
  {
    var m := |IOs(ns[0])|;
    if j == 0 {
      PowerPairs(ns[0].power, power);
    } else {
      WiringPowers(ns[1..], power, targets[m..], j - 1);
    }
  }

  /** The NAND powers and the chip power are joined in the resulting
      neighbour sets, in both directions. */
  lemma NandPowerConnected(links: Links, ns: seq<Nand>, power: Iface, targets: seq<Iface>, j: nat)
    requires |targets| == |Flatten(ns)| && j < |ns| && AllValid(ns)
    requires Shaped(power) && power.kind == Power
    ensures var l := LinkAll(links, Wiring(ns, power, targets));
            && power.subs[0].id in Nb(l, ns[j].power.subs[0].id)
            && ns[j].power.subs[0].id in Nb(l, power.subs[0].id)
            && power.subs[1].id in Nb(l, ns[j].power.subs[1].id)
            && ns[j].power.subs[1].id in Nb(l, power.subs[1].id)
  {
    var ps := Wiring(ns, power, targets);
    WiringPowers(ns, power, targets, j);
    var a :| 0 <= a < |ps| && ps[a] == (ns[j].power.subs[0].id, power.subs[0].id);
    var b :| 0 <= b < |ps| && ps[b] == (ns[j].power.subs[1].id, power.subs[1].id);
    LinkAllConnects(links, ps, a);
    LinkAllConnects(links, ps, b);
  }

  // ---------------------------------------------------------------------------
  // The chip

  /** The pin of the DIP package that the k-th in_out is wired to: per NAND
      the output, then input 0 and input 1. */
  const SignalPins: seq<int> := [3, 1, 2, 4, 5, 6, 11, 12, 13, 10, 9, 8]

  class CD4011 {
    const power: Iface
    const nands: seq<Nand>
    const inOuts: seq<Iface>
    var connectionMap: map<nat, Iface>
    const traits: TraitStore

    /** What setting the chip up establishes. */
    ghost predicate Valid()
      reads this
    {
      && AllValid(nands)
      && Shaped(power) && power.kind == Power
      && |inOuts| == |Flatten(nands)|
      && (forall k :: 0 <= k < |inOuts| ==> inOuts[k].kind == Electrical)
      && connectionMap == MapOf(Flatten(nands), inOuts)
    }

    /** What `__init__` and `_init_from_nands` share once the NANDs are in
        place: `_setup_interfaces`, then `_setup_internal_connections`. The
        traits come first, as `__new__` installs them. */
    constructor WithNands(d: Design, ns: seq<Nand>)
      requires AllValid(ns)
      modifies d
      ensures Valid() && nands == ns && IdsIncreasing(inOuts)
      ensures fresh(traits) && traits.traits == map[HasTypeDescription := TypeDescription("cd4011")]
      ensures d.links == LinkAll(old(d.links), Wiring(nands, power, inOuts))
    {
      var t := NewChipTraits();
      var p, ios := SetupInterfaces(d, ns);
      traits, nands, power, inOuts := t, ns, p, ios;
      connectionMap := map[];
      new;
      SetupInternalConnections(d);
    }

    /** `_setup_internal_connections`: walks the in_outs in order, NAND by
        NAND, starting from an empty `connection_map`. */
    method SetupInternalConnections(d: Design)
      requires AllValid(nands) && Shaped(power) && power.kind == Power
      requires |inOuts| == |Flatten(nands)|
      requires forall k :: 0 <= k < |inOuts| ==> inOuts[k].kind == Electrical
      modifies this`connectionMap, d
      ensures connectionMap == MapOf(Flatten(nands), inOuts)
      ensures d.links == LinkAll(old(d.links), Wiring(nands, power, inOuts))
      ensures d.nextId == old(d.nextId)
    {
      connectionMap := map[];
      var cm := Walk(d, nands, power, inOuts);
      connectionMap := cm;
    }

    /** `TI_CD4011BE`'s pin map for its 14-pin DIP: pin 7 is the power's
        lv, pin 14 its hv, and the other twelve are the in_outs that
        `connection_map` records for the NAND outputs and inputs: pins 3, 4,
        11 and 10 for the outputs of NANDs 0 to 3, pins 1 and 2, 5 and 6, 12
        and 13, 9 and 8 for their inputs (`Flatten4` places those pins at
        positions 3k, 3k+1 and 3k+2 of `Flatten(nands)`). */
    function PinMap(): (m: map<int, Iface>)
      reads this
      requires Valid() && |nands| == 4 && forall k :: 0 <= k < 4 ==> |nands[k].inputs| == 2
      ensures 7 in m && m[7] == power.subs[1] && 14 in m && m[14] == power.subs[0]
    {
      Count4(nands);
      map[
        7 := power.subs[1],
        14 := power.subs[0],
        3 := Served(0),
        1 := Served(1),
        2 := Served(2),
        4 := Served(3),
        5 := Served(4),
        6 := Served(5),
        11 := Served(6),
        12 := Served(7),
        13 := Served(8),
        10 := Served(9),
        9 := Served(10),
        8 := Served(11)
      ]
    }

    /** The in_out `connection_map` records for the k-th served NAND pin. */
    function Served(k: nat): Iface
      reads this
      requires Valid() && k < |inOuts|
    {
      MapOfCoversAll(Flatten(nands), inOuts);
      connectionMap[Flatten(nands)[k].id]
    }

    /** The map covers exactly the package's pins 1 to 14. */
    lemma PinMapKeys()
      requires Valid() && |nands| == 4 && forall k :: 0 <= k < 4 ==> |nands[k].inputs| == 2
      ensures forall p :: p in PinMap() <==> 1 <= p <= 14
    {
    }

    /** Signal pin `SignalPins[j]` carries the in_out recorded for the j-th
        served NAND pin. */
    lemma PinMapServed()
      requires Valid() && |nands| == 4 && forall k :: 0 <= k < 4 ==> |nands[k].inputs| == 2
      ensures |inOuts| == 12
      ensures forall j :: 0 <= j < 12 ==> PinMap()[SignalPins[j]] == Served(j)
    {
      Count4(nands);
      var m := PinMap();
      assert m[3] == Served(0) && m[1] == Served(1) && m[2] == Served(2);
      assert m[4] == Served(3) && m[5] == Served(4) && m[6] == Served(5);
      assert m[11] == Served(6) && m[12] == Served(7) && m[13] == Served(8);
      assert m[10] == Served(9) && m[9] == Served(10) && m[8] == Served(11);
    }

    /** Pin `SignalPins[3k]` is what `connection_map` holds for NAND k's
        output, pins `SignalPins[3k+1]` and `SignalPins[3k+2]` what it holds
        for the NAND's two inputs. */
    lemma PinMapByNand()
      requires Valid() && |nands| == 4 && forall k :: 0 <= k < 4 ==> |nands[k].inputs| == 2
      ensures forall k :: 0 <= k < 4 ==>
                && nands[k].output.id in connectionMap
                && PinMap()[SignalPins[3 * k]] == connectionMap[nands[k].output.id]
                && nands[k].inputs[0].id in connectionMap
                && PinMap()[SignalPins[3 * k + 1]] == connectionMap[nands[k].inputs[0].id]
                && nands[k].inputs[1].id in connectionMap
                && PinMap()[SignalPins[3 * k + 2]] == connectionMap[nands[k].inputs[1].id]
    {
      PinMapServed();
      forall k | 0 <= k < 4
        ensures && nands[k].output.id in connectionMap
                && PinMap()[SignalPins[3 * k]] == connectionMap[nands[k].output.id]
                && nands[k].inputs[0].id in connectionMap
                && PinMap()[SignalPins[3 * k + 1]] == connectionMap[nands[k].inputs[0].id]
                && nands[k].inputs[1].id in connectionMap
                && PinMap()[SignalPins[3 * k + 2]] == connectionMap[nands[k].inputs[1].id]
      {
        ServedByNand(k);
      }
    }

    /** The in_outs recorded for NAND k's output and inputs are the served
        pins 3k, 3k+1 and 3k+2. */
    lemma ServedByNand(k: nat)
      requires Valid() && |nands| == 4 && forall k :: 0 <= k < 4 ==> |nands[k].inputs| == 2
      requires k < 4
      ensures |inOuts| == 12
      ensures nands[k].output.id in connectionMap && Served(3 * k) == connectionMap[nands[k].output.id]
      ensures nands[k].inputs[0].id in connectionMap && Served(3 * k + 1) == connectionMap[nands[k].inputs[0].id]
      ensures nands[k].inputs[1].id in connectionMap && Served(3 * k + 2) == connectionMap[nands[k].inputs[1].id]
    {
      Flatten4(nands);
      MapOfCoversAll(Flatten(nands), inOuts);
    }

    /** With distinct NAND pins, signal pin `SignalPins[k]` is the k-th
        in_out. */
    lemma PinMapSignals()
      requires Valid() && |nands| == 4 && forall k :: 0 <= k < 4 ==> |nands[k].inputs| == 2
      requires IdsDistinct(Flatten(nands))
      ensures |inOuts| == 12
      ensures forall k :: 0 <= k < 12 ==> PinMap()[SignalPins[k]] == inOuts[k]
    {
      PinMapServed();
      forall k | 0 <= k < 12 ensures Served(k) == inOuts[k] {
        ExtendAt(map[], Flatten(nands), inOuts, k);
      }
    }

    /** With distinct NAND pins and distinct in_outs, no two signal pins
        share an in_out, and none is a power pin. */
    lemma PinMapDistinct()
      requires Valid() && |nands| == 4 && forall k :: 0 <= k < 4 ==> |nands[k].inputs| == 2
      requires IdsDistinct(Flatten(nands)) && IdsDistinct(inOuts)
      ensures forall k, k' :: 0 <= k < k' < 12 ==> PinMap()[SignalPins[k]] != PinMap()[SignalPins[k']]
      ensures forall k :: 0 <= k < 12 ==> SignalPins[k] != 7 && SignalPins[k] != 14
    {
      PinMapSignals();
      forall k, k' | 0 <= k < k' < 12 ensures PinMap()[SignalPins[k]] != PinMap()[SignalPins[k']] {
        assert inOuts[k].id != inOuts[k'].id;
      }
    }
  }

  lemma MapOfCoversAll(keys: seq<Iface>, vals: seq<Iface>)
    requires |keys| == |vals|
    ensures forall k :: 0 <= k < |keys| ==> keys[k].id in MapOf(keys, vals)
  {
    forall k | 0 <= k < |keys| ensures keys[k].id in MapOf(keys, vals) {
      ExtendMeaning(map[], keys, vals, keys[k].id);
    }
  }

  /** One round of the walk takes the first remaining NAND and as many of
      the remaining in_outs as it has pins; the rest of the walk then has
      the same outcome as the whole. */
  lemma WalkStep(rest: seq<Nand>, power: Iface, it: seq<Iface>, m: nat,
                 cm: map<nat, Iface>, cm': map<nat, Iface>, links: Links, links': Links)
    requires rest != [] && |it| == |Flatten(rest)| && m == |IOs(rest[0])|
    requires m <= |it|
    requires cm' == Extend(cm, IOs(rest[0]), it[..m])
    requires links' == LinkAll(links, NandWiring(rest[0], power, it[..m]))
    ensures |it[m..]| == |Flatten(rest[1..])|
    ensures Extend(cm', Flatten(rest[1..]), it[m..]) == Extend(cm, Flatten(rest), it)
    ensures LinkAll(links', Wiring(rest[1..], power, it[m..])) == LinkAll(links, Wiring(rest, power, it))
  {
    var a, b := it[..m], it[m..];
    assert it == a + b;
    assert Flatten(rest) == IOs(rest[0]) + Flatten(rest[1..]);
    ExtendAppend(cm, IOs(rest[0]), Flatten(rest[1..]), a, b);
    WalkLinkStep(rest, power, it, m, links);
  }

  lemma WalkLinkStep(rest: seq<Nand>, power: Iface, it: seq<Iface>, m: nat, links: Links)
    requires rest != [] && |it| == |Flatten(rest)| && m == |IOs(rest[0])| && m <= |it|
    ensures |it[m..]| == |Flatten(rest[1..])|
    ensures LinkAll(LinkAll(links, NandWiring(rest[0], power, it[..m])), Wiring(rest[1..], power, it[m..]))
            == LinkAll(links, Wiring(rest, power, it))
  {
    var w, tail := NandWiring(rest[0], power, it[..m]), Wiring(rest[1..], power, it[m..]);
    assert Wiring(rest, power, it) == w + tail;
    LinkAllAppend(links, w, tail);
  }

  /** The first remaining NAND is well formed and its in_outs are
      Electricals, and so are the ones left for the rest of the walk. */
  lemma WalkFront(rest: seq<Nand>, it: seq<Iface>)
    requires rest != [] && AllValid(rest) && |it| == |Flatten(rest)|
    requires forall k :: 0 <= k < |it| ==> it[k].kind == Electrical
    ensures rest[0].Valid() && |IOs(rest[0])| <= |it| && AllValid(rest[1..])
    ensures forall k :: 0 <= k < |IOs(rest[0])| ==> it[..|IOs(rest[0])|][k].kind == Electrical
    ensures forall k :: 0 <= k < |it| - |IOs(rest[0])| ==> it[|IOs(rest[0])|..][k].kind == Electrical
  {
  }

  /** The walk of `_setup_internal_connections` over the chip's parts: for
      each NAND, its power to the chip's, then the next in_outs from the
      iterator to its output and inputs, recorded in a map that starts
      empty. */
  method Walk(d: Design, ns: seq<Nand>, power: Iface, inOuts: seq<Iface>) returns (cm: map<nat, Iface>)
    requires AllValid(ns) && Shaped(power) && power.kind == Power
    requires |inOuts| == |Flatten(ns)|
    requires forall k :: 0 <= k < |inOuts| ==> inOuts[k].kind == Electrical
    modifies d
    ensures cm == MapOf(Flatten(ns), inOuts)
    ensures d.links == LinkAll(old(d.links), Wiring(ns, power, inOuts))
    ensures d.nextId == old(d.nextId)
  {
    cm := map[];
    var rest, it := ns, inOuts;
    while rest != []
      invariant AllValid(rest) && |it| == |Flatten(rest)| && d.nextId == old(d.nextId)
      invariant forall k :: 0 <= k < |it| ==> it[k].kind == Electrical
      invariant Extend(cm, Flatten(rest), it) == MapOf(Flatten(ns), inOuts)
      invariant LinkAll(d.links, Wiring(rest, power, it)) == LinkAll(old(d.links), Wiring(ns, power, inOuts))
      decreases |rest|
    {
      var n := rest[0];
      var m := |IOs(n)|;
      WalkFront(rest, it);
      ghost var links0 := d.links;
      var cm' := WireNand(d, cm, n, power, it[..m]);
      WalkStep(rest, power, it, m, cm, cm', links0, d.links);
      cm, rest, it := cm', rest[1..], it[m..];
    }
  }

  /** One round of `_setup_internal_connections`: the NAND's power to the
      chip's, then each next in_out to the NAND's output and inputs in
      turn, recording it in the connection map. */
  method WireNand(d: Design, cm: map<nat, Iface>, n: Nand, power: Iface, targets: seq<Iface>)
    returns (cm': map<nat, Iface>)
    requires n.Valid() && Shaped(power) && power.kind == Power
    requires |targets| == |IOs(n)| && forall k :: 0 <= k < |targets| ==> targets[k].kind == Electrical
    modifies d
    ensures cm' == Extend(cm, IOs(n), targets)
    ensures d.links == LinkAll(old(d.links), NandWiring(n, power, targets))
    ensures d.nextId == old(d.nextId)
  {
    ghost var l0 := d.links;
    ShapedCompatible(n.power, power);
    var _ := d.Connect(n.power, power);
    cm' := ServePins(d, cm, targets, IOs(n));
    LinkAllAppend(l0, Pairs(n.power, power), ZipPairs(targets, IOs(n)));
  }

  /** Connects each target to its pin, in order, recording in the map
      which target serves which pin. */
  method ServePins(d: Design, cm: map<nat, Iface>, targets: seq<Iface>, pins: seq<Iface>)
    returns (cm': map<nat, Iface>)
    requires |targets| == |pins| && forall k :: 0 <= k < |targets| ==> targets[k].kind == Electrical
    modifies d
    ensures cm' == Extend(cm, pins, targets)
    ensures d.links == LinkAll(old(d.links), ZipPairs(targets, pins))
    ensures d.nextId == old(d.nextId)
  {
    cm' := cm;
    var k := 0;
    assert pins[0..] == pins && targets[0..] == targets;
    while k < |pins|
      invariant 0 <= k <= |pins| && d.nextId == old(d.nextId)
      invariant Extend(cm', pins[k..], targets[k..]) == Extend(cm, pins, targets)
      invariant LinkAll(d.links, ZipPairs(targets[k..], pins[k..])) == LinkAll(old(d.links), ZipPairs(targets, pins))
    {
      assert pins[k..][1..] == pins[k + 1..] && targets[k..][1..] == targets[k + 1..];
      ghost var before := d.links;
      ElectricalPairs(targets[k], pins[k]);
      var _ := d.Connect(targets[k], pins[k]);
      LinkAllAppend(before, Pairs(targets[k], pins[k]), ZipPairs(targets[k + 1..], pins[k + 1..]));
      cm' := cm'[pins[k].id := targets[k]];
      k := k + 1;
    }
  }

  /** `CD4011._setup_traits`, run from `__new__`: the chip describes itself
      as "cd4011". */
  method NewChipTraits() returns (t: TraitStore)
    ensures fresh(t) && t.Valid()
    ensures t.traits == map[HasTypeDescription := TypeDescription("cd4011")]
  {
    t := new TraitStore();
    t.Add(TypeDescription("cd4011"));
  }

  /** `_setup_interfaces`: a fresh power, then one fresh in_out for each
      output and input of the NANDs, with consecutive identities. */
  method SetupInterfaces(d: Design, ns: seq<Nand>) returns (power: Iface, inOuts: seq<Iface>)
    modifies d
    ensures Shaped(power) && power.kind == Power && power.id == old(d.nextId)
    ensures |inOuts| == |Flatten(ns)| && power.id < d.nextId - |inOuts|
    ensures inOuts == Times(|inOuts|, ElectricalAt(d.nextId - |inOuts|))
    ensures forall k :: 0 <= k < |inOuts| ==> inOuts[k].kind == Electrical
    ensures IdsIncreasing(inOuts)
    ensures d.links == old(d.links)
  {
    power := d.New(Power);
    inOuts := d.NewElectricals(|Flatten(ns)|);
  }

  /** A fresh 2-input NAND marked with a symmetric footprint pin map; made
      after the NANDs `before`, it serves its pins after theirs. */
  method NewMarkedNand(d: Design, ghost before: seq<Nand>) returns (n: Nand)
    requires IdsIncreasing(Flatten(before))
    requires forall i :: 0 <= i < |Flatten(before)| ==> Flatten(before)[i].id < d.nextId
    modifies d
    ensures fresh(n) && n.Valid() && |n.inputs| == 2 && d.links == old(d.links)
    ensures n.traits.traits == map[HasSymmetricFootprintPinmap := SymmetricPinmap]
    ensures IdsIncreasing(Flatten(before + [n]))
    ensures forall i :: 0 <= i < |Flatten(before + [n])| ==> Flatten(before + [n])[i].id < d.nextId
  {
    n := new Nand(d, 2);
    n.traits.Add(SymmetricPinmap);
    FlattenStep(before, n);
  }

  /** Appending a NAND allocated after the others keeps the served pins in
      increasing identity order. */
  lemma FlattenStep(ns: seq<Nand>, n: Nand)
    requires IdsIncreasing(Flatten(ns))
    requires forall i :: 0 <= i < |Flatten(ns)| ==> Flatten(ns)[i].id < n.output.id
    requires n.inputs == Times(|n.inputs|, ElectricalAt(n.output.id + 1))
    ensures IdsIncreasing(Flatten(ns + [n]))
    ensures forall i :: 0 <= i < |Flatten(ns + [n])| ==> Flatten(ns + [n])[i].id < n.output.id + 1 + |n.inputs|
  {
    FlattenAppend(ns, n);
    assert forall i :: 0 <= i < |IOs(n)| ==> IOs(n)[i].id == n.output.id + i;
    IncreasingAppend(Flatten(ns), IOs(n));
  }

  /** `_setup_nands`: four fresh 2-input NANDs, each marked with a symmetric
      footprint pin map (the source creates all four before marking them;
      the objects are fresh, so the order is not observable). */
  method SetupNands(d: Design) returns (ns: seq<Nand>)
    modifies d
    ensures |ns| == 4 && AllValid(ns)
    ensures forall k :: 0 <= k < 4 ==>
              fresh(ns[k]) && |ns[k].inputs| == 2
              && ns[k].traits.traits == map[HasSymmetricFootprintPinmap := SymmetricPinmap]
    ensures IdsIncreasing(Flatten(ns))
    ensures d.links == old(d.links)
  {
    ns := [];
    while |ns| < 4
      invariant |ns| <= 4 && AllValid(ns) && d.links == old(d.links)
      invariant forall k :: 0 <= k < |ns| ==>
                  fresh(ns[k]) && |ns[k].inputs| == 2
                  && ns[k].traits.traits == map[HasSymmetricFootprintPinmap := SymmetricPinmap]
      invariant IdsIncreasing(Flatten(ns))
      invariant forall i :: 0 <= i < |Flatten(ns)| ==> Flatten(ns)[i].id < d.nextId
    {
      var n := NewMarkedNand(d, ns);
      ns := ns + [n];
    }
  }

  /** `CD4011()`: `__new__` installs the traits, then `__init__` sets up
      four fresh 2-input NANDs marked with a symmetric footprint pin map, a
      fresh power, one fresh in_out per NAND output and input, and the
      internal connections. */
  method NewCD4011(d: Design) returns (c: CD4011)
    modifies d
    ensures fresh(c) && c.Valid() && |c.nands| == 4
    ensures forall k :: 0 <= k < 4 ==>
              fresh(c.nands[k]) && |c.nands[k].inputs| == 2
              && c.nands[k].traits.traits == map[HasSymmetricFootprintPinmap := SymmetricPinmap]
    ensures IdsIncreasing(Flatten(c.nands)) && IdsIncreasing(c.inOuts)
    ensures fresh(c.traits) && c.traits.traits == map[HasTypeDescription := TypeDescription("cd4011")]
    ensures d.links == LinkAll(old(d.links), Wiring(c.nands, c.power, c.inOuts))
  {
    var ns := SetupNands(d);
    c := new CD4011.WithNands(d, ns);
  }

  /** Pads `given` with fresh 2-input NANDs until there are four. */
  method PadNands(d: Design, given: seq<Nand>) returns (cd: seq<Nand>)
    requires AllValid(given) && |given| <= 4
    modifies d
    ensures |cd| == 4 && cd[..|given|] == given && AllValid(cd)
    ensures forall k :: |given| <= k < 4 ==> fresh(cd[k]) && |cd[k].inputs| == 2
    ensures d.links == old(d.links)
  {
    cd := given;
    while |cd| < 4
      invariant |given| <= |cd| <= 4 && cd[..|given|] == given && AllValid(cd)
      invariant forall k :: |given| <= k < |cd| ==> fresh(cd[k]) && |cd[k].inputs| == 2
      invariant d.links == old(d.links)
      decreases 4 - |cd|
    {
      var n := new Nand(d, 2);
      cd := cd + [n];
    }
  }

  /** `CD4011.from_nands`: more than four NANDs fail before anything is
      built; otherwise the list is padded with fresh 2-input NANDs to four,
      the given ones first, and any NAND without exactly two inputs fails;
      otherwise the chip is built around the four. */
  method FromNands(d: Design, given: seq<Nand>) returns (r: Result<CD4011>)
    requires AllValid(given)
    modifies d
    ensures |given| > 4 ==> r == Fail(TooManyNands) && d.nextId == old(d.nextId)
    ensures r.Ok? <==> |given| <= 4 && forall k :: 0 <= k < |given| ==> |given[k].inputs| == 2
    ensures r.Fail? ==> d.links == old(d.links)
    ensures r.Fail? && |given| <= 4 ==> r.error == WrongInputCount
    ensures r.Ok? ==>
              && fresh(r.value) && r.value.Valid()
              && |r.value.nands| == 4 && r.value.nands[..|given|] == given
              && (forall k :: 0 <= k < 4 ==> |r.value.nands[k].inputs| == 2)
              && (forall k :: |given| <= k < 4 ==> fresh(r.value.nands[k]))
              && d.links == LinkAll(old(d.links), Wiring(r.value.nands, r.value.power, r.value.inOuts))
  {
    if |given| > 4 {
      return Fail(TooManyNands);
    }
    var cd := PadNands(d, given);
    var k := 0;
    while k < 4
      invariant 0 <= k <= 4
      invariant forall j :: 0 <= j < k ==> |cd[j].inputs| == 2
    {
      if |cd[k].inputs| != 2 {
        return Fail(WrongInputCount);
      }
      k := k + 1;
    }
    var c := new CD4011.WithNands(d, cd);
    return Ok(c);
  }
}
