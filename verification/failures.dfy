/**
 * Failure-compatible wrappers for the decoder.
 *
 * Every exception the C# decoder can raise while decoding a stream is a
 * named `Error` here; an operation that may throw returns a `Result`.
 */
module Failures {

  /** A possibly absent value (the C# `null`). */
  datatype Option<+T> = None | Some(value: T)

  /** The conditions that abort a decode. */
  datatype Error =
    | OutOfData                       // slice or index past the end of the byte buffer
    | DuplicateField(field: string)   // JavaClass.AddField on a repeated field name
    | DuplicateKey(key: string)       // Dictionary.Add on a repeated object/array key
    | DuplicateHandle(handle: nat)    // a Create* on a handle already in its table
    | UnknownClassHandle(handle: nat) // GetClassByHandle on an absent handle
    | UnknownObjectHandle(handle: nat)// GetVariableByHandle on an absent handle
    | UnknownTag(tag: int)            // a content tag the current decoder does not accept
    | UnknownPrimitiveType(code: char)// a field type code outside B C D F I J S Z [ L
    | NullReference                   // a member access through a null class or type
    | SubstringOutOfRange             // String.Substring(1) on an empty class name
    | IndexOutOfRange                 // indexing the first character of an empty type

  datatype Result<+T> = Ok(value: T) | Err(error: Error) {

    predicate IsFailure() {
      Err?
    }

    function PropagateFailure<U>(): Result<U>
      requires Err?
    {
      Err(error)
    }

    function Extract(): T
      requires Ok?
    {
      value
    }
  }
}
