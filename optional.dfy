/** Python's `None` as an explicit optional value. */
module Optional {

  datatype Option<T> = None | Some(value: T) {

    /** `x or default` for a value that is either `None` or present. */
    function GetOr(default: T): (r: T)
      ensures Some? ==> r == value
      ensures None? ==> r == default
    {
      match this
      case Some(v) => v
      case None => default
    }
  }
}
