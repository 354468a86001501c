/** Two-terminal components and the potentiometer built from them.

    Each component owns its interfaces and a trait store. A resistor or
    capacitor describes itself by its value only while that value is a
    `Constant`; the text the description renders (through `unit_map`) is not
    part of the model, only which value and unit list it renders. */
module Components {
  import opened Wrappers
  import opened Traits
  import opened Parameters
  import opened Interfaces

  const Ohm: string := "\U{03A9}"
  const ResistanceUnits: seq<string> :=
    ["\U{00B5}" + Ohm, "m" + Ohm, Ohm, "K" + Ohm, "M" + Ohm, "G" + Ohm]
  const CapacitanceUnits: seq<string> := ["\U{00B5}F", "mF", "F", "KF", "MF", "GF"]

  class Resistor {
    const unnamed: seq<Iface>
    var resistance: Parameter
    const traits: TraitStore

    /** `Resistor(resistance)`: two fresh Electricals bridged by the
        resistor, then `set_resistance`. */
    constructor(d: Design, resistance: Parameter)
      modifies d
      ensures unnamed == Times(2, ElectricalAt(old(d.nextId)))
      ensures d.nextId == old(d.nextId) + 2 && d.links == old(d.links)
      ensures this.resistance == resistance && fresh(traits) && traits.Valid()
      ensures var bridged := map[CanBridge := Bridge(unnamed[0].id, unnamed[1].id)];
              traits.traits == if resistance.kind.Fixed?
                then bridged[HasTypeDescription := UnitDescription(resistance.kind.value, ResistanceUnits, Ohm)]
                else bridged
    {
      var ends := d.NewElectricals(2);
      unnamed := ends;
      this.resistance := resistance;
      traits := new TraitStore();
      new;
      traits.Add(Bridge(unnamed[0].id, unnamed[1].id));
      SetResistance(resistance);
    }

    /** `set_resistance`: a non-Constant withdraws the type description; a
        Constant installs one describing its value, replacing any other. */
    method SetResistance(resistance: Parameter)
      requires traits.Valid()
      modifies this`resistance, traits
      ensures this.resistance == resistance && traits.Valid()
      ensures !resistance.kind.Fixed? ==> traits.traits == old(traits.traits) - {HasTypeDescription}
      ensures resistance.kind.Fixed? ==>
                traits.traits == old(traits.traits)[HasTypeDescription :=
                                   UnitDescription(resistance.kind.value, ResistanceUnits, Ohm)]
      ensures traits.Has(HasTypeDescription) <==> resistance.kind.Fixed?
    {
      this.resistance := resistance;
      if !resistance.kind.Fixed? {
        traits.Del(HasTypeDescription);
        return;
      }
      traits.Add(UnitDescription(resistance.kind.value, ResistanceUnits, Ohm));
    }
  }

  class Capacitor {
    const unnamed: seq<Iface>
    var capacitance: Parameter
    const traits: TraitStore

    /** `Capacitor(capacitance)`: two fresh bridged Electricals, then
        `set_capacitance`. */
    constructor(d: Design, capacitance: Parameter)
      modifies d
      ensures unnamed == Times(2, ElectricalAt(old(d.nextId)))
      ensures d.nextId == old(d.nextId) + 2 && d.links == old(d.links)
      ensures this.capacitance == capacitance && fresh(traits) && traits.Valid()
      ensures var bridged := map[CanBridge := Bridge(unnamed[0].id, unnamed[1].id)];
              traits.traits == if capacitance.kind.Fixed?
                then bridged[HasTypeDescription := UnitDescription(capacitance.kind.value, CapacitanceUnits, "F")]
                else bridged
    {
      var ends := d.NewElectricals(2);
      unnamed := ends;
      this.capacitance := capacitance;
      traits := new TraitStore();
      new;
      traits.Add(Bridge(unnamed[0].id, unnamed[1].id));
      SetCapacitance(capacitance);
    }

    /** `set_capacitance`: a non-Constant leaves the traits alone (an earlier
        description stays); a Constant installs a description of its value. */
    method SetCapacitance(capacitance: Parameter)
      requires traits.Valid()
      modifies this`capacitance, traits
      ensures this.capacitance == capacitance && traits.Valid()
      ensures !capacitance.kind.Fixed? ==> traits.traits == old(traits.traits)
      ensures capacitance.kind.Fixed? ==>
                traits.traits == old(traits.traits)[HasTypeDescription :=
                                   UnitDescription(capacitance.kind.value, CapacitanceUnits, "F")]
    {
      this.capacitance := capacitance;
      if !capacitance.kind.Fixed? {
        return;
      }
      traits.Add(UnitDescription(capacitance.kind.value, CapacitanceUnits, "F"));
    }
  }

  class Switch {
    const unnamed: seq<Iface>
    const traits: TraitStore

    /** `Switch()`: described as "SW", two fresh bridged Electricals. */
    constructor(d: Design)
      modifies d
      ensures unnamed == Times(2, ElectricalAt(old(d.nextId)))
      ensures d.nextId == old(d.nextId) + 2 && d.links == old(d.links)
      ensures fresh(traits) && traits.Valid()
      ensures traits.traits == map[HasTypeDescription := TypeDescription("SW"),
                                   CanBridge := Bridge(unnamed[0].id, unnamed[1].id)]
    {
      traits := new TraitStore();
      var ends := d.NewElectricals(2);
      unnamed := ends;
      new;
      traits.Add(TypeDescription("SW"));
      traits.Add(Bridge(unnamed[0].id, unnamed[1].id));
    }
  }

  /** The connections a potentiometer makes inside itself: the wiper to the
      second terminal of both resistors (`connect_all`), then each outer
      terminal to the first terminal of its resistor. */
  function PotentiometerWiring(outer: seq<Iface>, wiper: Iface, ends0: seq<Iface>, ends1: seq<Iface>): seq<(nat, nat)>
    requires |outer| == 2 && |ends0| == 2 && |ends1| == 2
  {
    [(wiper.id, ends0[1].id), (wiper.id, ends1[1].id), (outer[0].id, ends0[0].id), (outer[1].id, ends1[0].id)]
  }

  /** The connections of `Potentiometer.__init__`, made in source order. */
  method WirePotentiometer(d: Design, outer: seq<Iface>, wiper: Iface, ends0: seq<Iface>, ends1: seq<Iface>)
    requires |outer| == 2 && |ends0| == 2 && |ends1| == 2
    requires wiper.kind == Electrical && outer[0].kind == Electrical && outer[1].kind == Electrical
    modifies d
    ensures d.nextId == old(d.nextId)
    ensures d.links == LinkAll(old(d.links), PotentiometerWiring(outer, wiper, ends0, ends1))
  {
    var seconds, firsts := [ends0[1], ends1[1]], [ends0[0], ends1[0]];
    ghost var star, zipped := StarPairs(wiper, seconds), ZipPairs(outer, firsts);
    ElectricalStar(wiper, seconds);
    ZipElectricals(outer, firsts);
    assert star + zipped == PotentiometerWiring(outer, wiper, ends0, ends1);
    ghost var l0 := d.links;
    var _ := d.ConnectAll(wiper, seconds);
    ghost var l1 := d.links;
    var i := 0;
    while i < 2
      invariant 0 <= i <= 2 && d.nextId == old(d.nextId)
      invariant LinkAll(d.links, ZipPairs(outer[i..], firsts[i..])) == LinkAll(l1, zipped)
    {
      assert outer[i..][1..] == outer[i + 1..] && firsts[i..][1..] == firsts[i + 1..];
      ghost var before := d.links;
      ElectricalPairs(outer[i], firsts[i]);
      var _ := d.Connect(outer[i], firsts[i]);
      LinkAllAppend(before, Pairs(outer[i], firsts[i]), ZipPairs(outer[i + 1..], firsts[i + 1..]));
      i := i + 1;
    }
    LinkAllAppend(l0, star, zipped);
  }

  class Potentiometer {
    const resistors: seq<Iface>
    const wiper: Iface
    const parts: seq<Resistor>

    /** The connections a potentiometer makes inside itself. */
    function Wiring(): seq<(nat, nat)>
      reads this
      requires |resistors| == 2 && |parts| == 2
      requires |parts[0].unnamed| == 2 && |parts[1].unnamed| == 2
    {
      PotentiometerWiring(resistors, wiper, parts[0].unnamed, parts[1].unnamed)
    }

    /** `Potentiometer(resistance)`: two outer terminals, a wiper, and two
        resistors sharing the one resistance parameter, wired as `Wiring`. */
    constructor(d: Design, resistance: Parameter)
      modifies d
      ensures |resistors| == 2 && |parts| == 2 && fresh(parts[0]) && fresh(parts[1])
      ensures |parts[0].unnamed| == 2 && |parts[1].unnamed| == 2
      ensures forall k :: 0 <= k < 2 ==> resistors[k].kind == Electrical && parts[k].resistance == resistance
      ensures wiper.kind == Electrical
      ensures d.links == LinkAll(old(d.links), Wiring())
    {
      var outer := d.NewElectricals(2);
      var w := d.NewElectrical();
      var r0 := new Resistor(d, resistance);
      var r1 := new Resistor(d, resistance);
      resistors, wiper, parts := outer, w, [r0, r1];
      new;
      WirePotentiometer(d, outer, w, r0.unnamed, r1.unnamed);
    }

    /** `connect_as_voltage_divider(high, low, out)` */
    method ConnectAsVoltageDivider(d: Design, high: Iface, low: Iface, out: Iface)
      requires |resistors| == 2 && resistors[0].kind == Electrical && resistors[1].kind == Electrical
      requires wiper.kind == Electrical
      modifies d
      ensures d.nextId == old(d.nextId)
      ensures d.links == LinkAll(old(d.links),
                                 [(resistors[0].id, high.id), (resistors[1].id, low.id), (wiper.id, out.id)])
    {
      ghost var l0 := d.links;
      ElectricalPairs(resistors[0], high);
      var _ := d.Connect(resistors[0], high);
      ElectricalPairs(resistors[1], low);
      var _ := d.Connect(resistors[1], low);
      LinkAllAppend(l0, [(resistors[0].id, high.id)], [(resistors[1].id, low.id)]);
      ElectricalPairs(wiper, out);
      var _ := d.Connect(wiper, out);
      LinkAllAppend(l0, [(resistors[0].id, high.id), (resistors[1].id, low.id)], [(wiper.id, out.id)]);
    }
  }
}
