/** A value that may be missing: a null pointer, a failed parse, an empty queue. */
module Options {

  datatype Option<T> = None | Some(value: T)
}
