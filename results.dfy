/** Failure-carrying values: the optional JSON payload of a result and the
    library's `Result` alias, whose error side is the run's I/O failure. */
module Results {

  datatype Option<+T> = None | Some(value: T)

  datatype Result<+T, +E> = Ok(value: T) | Err(error: E)
}
