/** Failure-carrying results shared by every module of the model.
    The source signals failure with exceptions and failed asserts; here each
    failure is a value of `Error`, and a computation that may fail returns a
    `Result`. */
module Wrappers {

  datatype Option<T> = None | Some(value: T)

  /** `default_with(given, default)`: the given value unless it is absent. */
  function DefaultWith<T>(given: Option<T>, fallback: T): (r: T)
    ensures given.Some? ==> r == given.value
    ensures given.None? ==> r == fallback
  {
    if given.Some? then given.value else fallback
  }

  /** One constructor per way the modelled code can abort. */
  datatype Error =
    | MissingComponent(name: string)   // an adjacency or net vertex names an unknown component
    | UnnamableNet                     // a net has neither a virtual nor a component name
    | DuplicateComponent               // two components share a name
    | MissingFootprint(ref: string)    // properties["footprint"] raises KeyError
    | MalformedFields(ref: string)     // properties["fields"] is not a list of pairs
    | TypeMismatch                     // an aggregate interface connected to another type
    | StopIteration                    // next() on an exhausted iterator
    | ValueNotInRange                  // Range.pick outside [min, max]
    | TooManyNands                     // CD4011 built from more than 4 NANDs
    | WrongInputCount                  // CD4011 NAND without exactly 2 inputs
    | TraitNotFound                    // get_trait on an absent capability

  datatype Result<T> = Ok(value: T) | Fail(error: Error) {
    predicate IsFailure() { Fail? }
    function PropagateFailure<U>(): Result<U>
      requires Fail?
    {
      Fail(error)
    }
    function Extract(): T
      requires Ok?
    {
      value
    }
  }
}
