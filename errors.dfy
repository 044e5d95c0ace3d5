/** The crate's error type (`src/error.rs`), restricted to the variants the serializer raises. */
module Errors {
  import Units

  datatype Error =
    | TimeDesignationError(time: Units.TimeDesignationError)
    | DecibelsError(decibels: Units.DecibelsError)
      /** "invalid ordering: attempted to write attributes after writing children" */
    | AttributesInChildContext
    | Generic(message: string)
}
