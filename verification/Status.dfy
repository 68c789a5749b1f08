/** Options and status codes used by the C API models. */
module Status {
  datatype Option<+T> = None | Some(value: T)
  datatype Status = Ok | InvalidArgument | BatchSizeError | OnnxRuntimeError
}
