/** A value that may be absent: an XML attribute that is missing, a frame that emits nothing. */
module Optional {
  datatype Option<+T> = None | Some(value: T)
}
