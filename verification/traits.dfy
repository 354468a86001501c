/** The trait store every faebryk object (component, interface, parameter)
    carries: at most one implementation per trait kind, looked up by kind.
    Adding an implementation replaces any earlier one of the same kind. */
module Traits {
  import opened Wrappers

  /** The abstract trait classes an implementation is filed under. */
  datatype TraitKind =
    | HasTypeDescription
    | IsRepresentableBySingleValue
    | CanBridge
    | HasSymmetricFootprintPinmap
    | HasKicadFootprint

  /** Trait implementations, with the data their methods close over. */
  datatype Trait =
    | TypeDescription(text: string)                          // has_defined_type_description
    | UnitDescription(value: int, units: seq<string>, start: string)
                                                             // renders a Constant with unit_map
    | SingleValue(value: int)                                // is_representable_by_single_value
    | Bridge(input: nat, output: nat)                        // can_bridge_defined, by interface identity
    | SymmetricPinmap                                        // has_symmetric_footprint_pinmap
    | KicadFootprint(name: string)                           // has_kicad_footprint

  function KindOf(t: Trait): TraitKind
  {
    match t
    case TypeDescription(_) => HasTypeDescription
    case UnitDescription(_, _, _) => HasTypeDescription
    case SingleValue(_) => IsRepresentableBySingleValue
    case Bridge(_, _) => CanBridge
    case SymmetricPinmap => HasSymmetricFootprintPinmap
    case KicadFootprint(_) => HasKicadFootprint
  }

  class TraitStore {
    var traits: map<TraitKind, Trait>

    /** Every implementation is filed under its own kind. */
    ghost predicate Valid()
      reads this
    {
      forall k :: k in traits ==> KindOf(traits[k]) == k
    }

    constructor()
      ensures traits == map[] && Valid()
    {
      traits := map[];
    }

    /** `add_trait`: last write wins. */
    method Add(t: Trait)
      requires Valid()
      modifies this
      ensures traits == old(traits)[KindOf(t) := t]
      ensures Valid()
      ensures Get(KindOf(t)) == Ok(t)
      ensures forall k :: k != KindOf(t) ==> Get(k) == old(Get(k))
    {
      traits := traits[KindOf(t) := t];
    }

    /** `del_trait`: removes the implementation of kind `k`, if any. */
    method Del(k: TraitKind)
      requires Valid()
      modifies this
      ensures traits == old(traits) - {k}
      ensures Valid()
      ensures !Has(k)
      ensures forall k' :: k' != k ==> Get(k') == old(Get(k'))
    {
      traits := traits - {k};
    }

    /** `has_trait` */
    predicate Has(k: TraitKind)
      reads this
    {
      k in traits
    }

    /** `get_trait`: the implementation filed under `k`; an absent kind fails. */
    function Get(k: TraitKind): (r: Result<Trait>)
      reads this
      ensures r.Ok? <==> Has(k)
      ensures r.Fail? ==> r.error == TraitNotFound
      ensures Valid() && r.Ok? ==> KindOf(r.value) == k
    {
      if k in traits then Ok(traits[k]) else Fail(TraitNotFound)
    }
  }
}
