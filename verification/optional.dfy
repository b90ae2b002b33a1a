/** The optional values of the source (`CGPoint?`). */
module Optional {

  datatype Option<+T> = None | Some(value: T)
}
