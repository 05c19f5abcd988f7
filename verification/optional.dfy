/** A value that may be absent: the model's stand-in for C# `null` and for
    nullable value types such as `bool?` and `DateTimeOffset?`. */
module Optional {

  datatype Option<+T> = None | Some(value: T) {

    /** `x ?? fallback` */
    function GetOr(fallback: T): T {
      match this
      case Some(v) => v
      case None => fallback
    }

    /** `x?.F` for a total `F`: absent stays absent. */
    function Map<U>(f: T -> U): Option<U> {
      match this
      case Some(v) => Some(f(v))
      case None => None
    }
  }

  /** `b == true` on a `bool?`: holds only for a present `true`, never for null. */
  predicate IsTrue(b: Option<bool>) {
    b == Some(true)
  }
}
