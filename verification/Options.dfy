/** A value that may be absent: a NULL column, a missing row, a failed lookup. */
module Options {
  datatype Option<+T> = None | Some(value: T)

  /** The answer of a reader that may have nothing to say, and on some inputs panics. */
  datatype Reading<+T> = Nothing | Found(value: T) | Panicked

  /** An element of a set, the same one for the same set. */
  ghost function Pick<T>(s: set<T>): (x: T)
    requires s != {}
    ensures x in s
  {
    var x :| x in s;
    x
  }
}
