/** Results and the error values shared by the codec modules. */
module Common {

  datatype Option<+T> = None | Some(value: T)

  /** The errors the generated decoders can return. */
  datatype Error =
    | IntOverflow            // a varint of more than ten bytes
    | UnexpectedEOF          // the input ends inside a field
    | InvalidLength          // a negative length, or an index that wrapped below zero
    | EndGroupForNonGroup    // wire type 4 at the top level of a message
    | IllegalTag             // a field number that is zero or negative
    | WrongWireType          // a known field with another wire type
    | UnexpectedEndOfGroup   // an end-group tag without its start
    | IllegalWireType        // wire types 6 and 7
    | Foreign                // a nested message of another package was refused

  datatype Result<+T> = Ok(value: T) | Err(error: Error) {
    predicate IsFailure() { Err? }

    function PropagateFailure<U>(): Result<U>
      requires Err?
    {
      Err(error)
    }

    function Extract(): T
      requires Ok?
    {
      value
    }
  }

  /** The specification does not see absolute positions. Where it says that the
      input is too short, the program says InvalidLength if its 64-bit index
      wrapped below zero and UnexpectedEOF otherwise. */
  predicate SameError(spec: Error, actual: Error) {
    actual == spec || (spec == UnexpectedEOF && actual == InvalidLength)
  }
}
