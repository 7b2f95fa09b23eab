/** The optional value the other modules share. `None` stands for Python's `None`, and in
    encoders for an input the source refuses with an exception. */
module Options {
  datatype Option<+T> = None | Some(value: T)
}
