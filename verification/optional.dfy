/** A value that may be absent, such as a JSON field the backend left out. */
module Optional {

  datatype Option<+T> = None | Some(value: T)
}
