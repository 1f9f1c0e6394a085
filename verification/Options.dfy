/** The optional values that nullable columns and absent lookups become. */
module Options {
  datatype Option<+T> = None | Some(value: T)
}
