/** An optional value: a node that a lookup may not find, an index a
    search may not find. */
module Options {
  datatype Option<T> = None | Some(value: T)
}
