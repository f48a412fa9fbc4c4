/** The option type shared by the models: a Go pointer, map lookup or search that may be absent. */
module Options {
  datatype Option<+T> = None | Some(value: T)
}
