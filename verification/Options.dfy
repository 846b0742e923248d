/** A value or nothing, for the sources' null, None and undefined. */
module Options {

  datatype Option<+T> = None | Some(value: T)
}
