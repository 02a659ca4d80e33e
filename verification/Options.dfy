/** Values that may be missing: null pointers, unset fields, failures. */
module Options {
  datatype Option<+T> = None | Some(value: T)
}
