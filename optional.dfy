/** A value that may be absent: PHP's null for a missing array entry or an undefined table key. */
module Optional {
  datatype Option<+T> = None | Some(value: T)
}
