/** The value of a PHP lookup that may be unset. */
module Optional {

  datatype Option<T> = None | Some(value: T)
}
