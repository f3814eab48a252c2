/** Failure-carrying results: the model's replacement for raised exceptions
    and for `sys.stderr.write(...); exit(-1)`. */
module Results {

  datatype Option<+T> = None | Some(value: T)

  datatype Result<+T, +E> = Ok(value: T) | Err(error: E)
}
