/** A value that may be missing: a null pointer, or a lookup that found nothing. */
module Optional {
  datatype Maybe<T> = Nothing | Just(value: T)
}
