// A value that may be missing: a null pointer, a failed call.
module Options {
  datatype Option<T> = None | Some(value: T) {
    function GetOr(default: T): T { if Some? then value else default }
  }

  // What a call that returns a new buffer or a null pointer gives: nothing, or the bytes and a 0
  // after them.
  ghost predicate Returned(output: array?<bv8>, length: nat, result: Option<seq<bv8>>)
    reads output
  {
    match result
    case None => output == null
    case Some(bytes) =>
      output != null && length < output.Length && length == |bytes| && output[..length] == bytes && output[length] == 0
  }
}
