/** The optional values of the source: a TypeScript `T | undefined` (or `T | null`)
    becomes an Option<T>. */
module Optional {

  datatype Option<+T> = None | Some(value: T) {

    /** The `??` operator: the value, or `default` when absent. */
    function GetOr(default: T): (r: T)
      ensures Some? ==> r == value
      ensures None? ==> r == default
    {
      match this
      case Some(v) => v
      case None => default
    }
  }
}
