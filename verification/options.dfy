/** The optional value used wherever the daemon's Python code returns `None`
    or may not have a value (a missing PDF, a missing process handle). */
module Options {

  datatype Option<+T> = None | Some(value: T)

}
