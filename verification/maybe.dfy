/** An optional value, shared by the other modules. */
module Optional {

  /** A value that may be absent: a missing user, a path no pattern
      matches, a call that was not made. */
  datatype Maybe<+T> = Nothing | Just(value: T)
}
