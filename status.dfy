/** Outcomes shared by the parsers and decoders: the error kinds a parse or a
    decode can end with, and the failure-compatible wrappers that carry them. */
module Status {

  /** Why a parse, a decode or a registration did not succeed. */
  datatype Error =
    | ShortBuffer      // a read would run past the bytes available
    | UnknownProperty  // property id outside the table or never registered
    | UnsupportedType  // registration with a type name the table does not know
    | ValueTooLarge    // an EADD data value of 128 bytes or more
    | DecodeMismatch   // a tag byte outside the family of the declared type

  datatype Option<+T> = None | Some(value: T)

  datatype Result<+T> = Success(value: T) | Failure(error: Error) {
    predicate IsFailure() {
      Failure?
    }

    function PropagateFailure<U>(): Result<U>
      requires Failure?
    {
      Failure(error)
    }

    function Extract(): T
      requires Success?
    {
      value
    }
  }
}
