/** Error values shared by every tool of the model: a raised Python exception, or a C++ early return. */
module Results {

  datatype Option<+T> = None | Some(value: T)

  datatype Error =
    | KeyMissing         // a dictionary lookup without the key (KeyError)
    | ValueOutOfRange    // struct.pack or to_bytes on a value that does not fit the field
    | InvalidChannelIds  // channel_ids() exits with "Invalid static channel IDs"
    | UnboundVariable    // a local variable is read before its first assignment
    | MalformedText      // int(text, 16) on text that is not a hexadecimal number

  datatype Result<+T> = Ok(value: T) | Err(error: Error) {
    predicate IsFailure() {
      Err?
    }

    function PropagateFailure<U>(): Result<U>
      requires Err?
    {
      Err(error)
    }

    function Extract(): T
      requires Ok?
    {
      value
    }
  }
}
