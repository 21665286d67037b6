/** An optional value: a form field that may be absent, a lookup that may find nothing. */
module Options {

  datatype Option<T> = None | Some(value: T)
}
