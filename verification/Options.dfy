/** A value that may be missing: the source's null pointers, empty optionals and failed receives. */
module Options {

  datatype Option<T> = Some(value: T) | None
}
