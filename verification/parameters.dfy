/** Parameters: a fixed value (`Constant`), an inclusive range to be narrowed
    down later (`Range`), or not yet determined (`TBD`). A parameter is an
    object with its own trait store; a value it can be represented by is
    attached as an `is_representable_by_single_value` trait. */
module Parameters {
  import opened Wrappers
  import opened Traits

  datatype ParamKind =
    | Fixed(value: int)                // Constant
    | Bounded(min: int, max: int)      // Range
    | Undetermined                     // TBD

  class Parameter {
    const kind: ParamKind
    const traits: TraitStore

    /** `Constant(value)`: carries a single-value trait holding its value. */
    constructor Constant(value: int)
      ensures kind == Fixed(value) && fresh(traits) && traits.Valid()
      ensures traits.traits == map[IsRepresentableBySingleValue := SingleValue(value)]
      ensures traits.Get(IsRepresentableBySingleValue) == Ok(SingleValue(value))
    {
      kind := Fixed(value);
      var store := new TraitStore();
      traits := store;
      new;
      traits.Add(SingleValue(value));
    }

    /** `Range(value_min, value_max)`: no trait yet. */
    constructor Range(min: int, max: int)
      ensures kind == Bounded(min, max) && fresh(traits) && traits.Valid()
      ensures traits.traits == map[]
    {
      kind := Bounded(min, max);
      traits := new TraitStore();
    }

    /** `TBD()` */
    constructor TBD()
      ensures kind == Undetermined && fresh(traits) && traits.Valid()
      ensures traits.traits == map[]
    {
      kind := Undetermined;
      traits := new TraitStore();
    }

    /** `Range.pick(value)`: a value outside [min, max] fails and changes
        nothing; one inside is attached as the single value, replacing any
        earlier pick. */
    method Pick(value: int) returns (r: Result<()>)
      requires kind.Bounded? && traits.Valid()
      modifies traits
      ensures traits.Valid()
      ensures !(kind.min <= value <= kind.max) ==>
                r == Fail(ValueNotInRange) && traits.traits == old(traits.traits)
      ensures kind.min <= value <= kind.max ==>
                r == Ok(()) && traits.traits == old(traits.traits)[IsRepresentableBySingleValue := SingleValue(value)]
      ensures r.Ok? <==> kind.min <= value <= kind.max
      ensures r.Ok? ==> traits.Get(IsRepresentableBySingleValue) == Ok(SingleValue(value))
    {
      if !(kind.min <= value <= kind.max) {
        return Fail(ValueNotInRange);
      }
      traits.Add(SingleValue(value));
      r := Ok(());
    }
  }
}
