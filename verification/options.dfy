/** Optional values, used for the nullable results the backend hands back. */
module Options {

  /** A value that may be absent: JavaScript's `null`/`undefined` versus a present value. */
  datatype Option<+T> = None | Some(value: T)
}
