// Rust's Option, used for "the ray may miss" results.
module Optional {

  datatype Option<+T> = None | Some(value: T)
}
