/** The exceptions the Caffeinator front end throws, and the result types that carry them. */
module Failures {

  /** One constructor per exception the core raises, named by its cause. */
  datatype Error =
    | BadMagic(magic: nat)                        // "Bad magic in class"
    | UnsupportedVersion(major: nat, minor: nat)  // "Unsupported class version"
    | WrongConstantType(tag: int)                  // unknown constant-pool tag
    | WrongClassFormat                            // constant-pool entry of the wrong kind
    | DuplicateBaseType
    | DuplicateField
    | DuplicateMethod
    | NullDescriptor                              // Method.Signature set to null
    | WrongDescriptor                             // Method.Signature not starting with '('
    | NullReference                               // a .NET NullReferenceException
    | IndexOutOfRange                             // a .NET IndexOutOfRangeException
    | ArgumentOutOfRange                          // String.Substring with a bad range
    | UnreachableReached                          // JMethod's "Unreachable reached"

  /** A value, or the exception that replaced it. */
  datatype Result<T> = Ok(value: T) | Err(error: Error)

  /** A value that may be absent: the C# null is None. */
  datatype Option<T> = None | Some(value: T)

  /** The completion of an operation that returns nothing. */
  datatype Outcome = Pass | Fail(error: Error)
}
