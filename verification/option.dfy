/** An optional value, for absent results and unset fields. */
module Options {
  datatype Option<T> = None | Some(value: T)
}
