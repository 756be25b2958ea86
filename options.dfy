/** An optional value, used for nullable columns, missing form fields and queries
    that may find nothing. */
module Options {
  datatype Option<+T> = None | Some(value: T)
}
