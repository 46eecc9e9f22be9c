/** An argument that may be absent: `None` stands for `undefined` or `null`. */
module Optional {
  datatype Option<+T> = None | Some(value: T)
}
