module Options {

  /** An absent value where the source has None, null or an omitted entry. */
  datatype Option<+T> = None | Some(value: T)
}
