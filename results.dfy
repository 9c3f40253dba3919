/** Outcome of an operation that, in the original program, either returns a
    value or raises an exception. */
module Results {

  datatype Result<+T, +E> = Ok(value: T) | Err(error: E)

  /** The exceptions and exits the modelled code can end in. */
  datatype ScanError =
    | KeyError(key: string)                       // lookup in the probe registry failed
    | InvalidArgs(param: string, arg: string)     // invalid_args_exit(param, arg)
    | AssertionError(message: string)             // a failed `assert`
    | ValueError(message: string)                 // a worker pool asked for no workers
}
