/** Values shared by the front-end and back-end models. */
module Common {

  /** A value that may be absent: JavaScript's `null`/`NaN`, Python's `None` or a missing key. */
  datatype Option<+T> = None | Some(value: T) {
    function GetOr(default: T): T {
      match this
      case Some(v) => v
      case None => default
    }
  }

  function Min(a: int, b: int): int { if a <= b then a else b }
}
