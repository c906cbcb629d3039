/** The absent-or-present value that JavaScript spells `undefined`. */
module Optional {

  datatype Option<+T> = None | Some(value: T)
}
