/** The optional value used for neighbour slots: Rust's `Option<T>`. */
module Options {

  datatype Option<+T> = None | Some(value: T)
}
