/** The Some/None datatype: PHP's `null` or `false` for "nothing there". */
module Optional {
  datatype Option<+T> = None | Some(value: T)
}
