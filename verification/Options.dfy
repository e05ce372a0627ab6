/** A value that may be missing: NULL in a table, `undefined` or a failed parse in a script. */
module Options {

  datatype Option<+T> = None | Some(value: T)
}
