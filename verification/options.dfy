/** The `None`-or-value results that the helpers return. */
module Options {

  datatype Option<+T> = None | Some(value: T)
}
