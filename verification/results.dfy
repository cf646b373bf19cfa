/** Optional values and results that carry an error. */
module Results {

  datatype Option<T> = None | Some(value: T)

  /** The failure of a helper: an address its range check rejects, or a
      list index past the end of the backing array. */
  datatype Error = AddressOutOfRange(addr: int) | IndexOutOfRange(index: int)

  datatype Result<T> = Ok(value: T) | Failure(error: Error)
}
