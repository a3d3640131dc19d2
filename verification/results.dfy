/** Failure-carrying datatypes shared by every module of the model.
    Python raises exceptions and returns None/False; the model returns one of these instead. */
module Results {

  datatype Option<+T> = None | Some(value: T)

  /** The error channel. Each constructor names the exception (or HTTP error) the source raises. */
  datatype Error =
    | TagMissing            // a tag id that get_tag_by_id does not find; the code then reads `.parents` of None
    | NoAncestorResult      // get_tag_ancestors falls out of its loop and returns None
    | RecursionLimit        // the ancestor walk recursed past Python's recursion limit
    | AncestorOfItself      // HTTP 400 "Adding a tag that is an ancestor of himself"
    | TagToUpdateMissing    // HTTP 400 "Trying to modify non existent tag"
    | PropertyMissing       // HTTP 400 "Trying to modify non existent property"
    | UnsupportedBinding    // sqlite cannot bind a Python object as a query parameter
    | ValueNotInList        // list.remove on a property value that does not hold the tag id
    | EmptyInput            // zip(*[]) has nothing to unpack
    | TreeNotBuilt          // "Cannot compute image similarity since KDTree was not computed yet"

  datatype Result<+T> = Ok(value: T) | Err(error: Error) {
    predicate IsFailure() { Err? }

    function PropagateFailure<U>(): Result<U>
      requires Err?
    {
      Err(error)
    }

    function Extract(): T
      requires Ok?
    {
      value
    }
  }
}
