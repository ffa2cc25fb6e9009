/** A value that may be absent: a dictionary lookup that misses, a field the input does not have. */
module Optional {
  datatype Option<+T> = None | Some(value: T)
}
