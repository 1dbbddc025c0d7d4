/** The optional value used wherever the handlers may find nothing (a lookup that
    returns null, a request field that was not sent). */
module Optional {
  datatype Option<+T> = None | Some(value: T)
}
