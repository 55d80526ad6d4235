/** A value that may be missing: JavaScript's `undefined` where the program
    reads a record, an array slot or a palette entry that does not exist. */
module Optional {

  datatype Option<+T> = None | Some(value: T) {

    /** The `??` operator: the value if present, otherwise the fallback. */
    function GetOr(fallback: T): (r: T)
      ensures Some? ==> r == value
      ensures None? ==> r == fallback
    {
      match this
      case Some(v) => v
      case None => fallback
    }
  }

  /** Reading `s[i]` from a JavaScript array: `undefined` past the end. */
  function At<T>(s: seq<T>, i: int): (r: Option<T>)
    ensures r.Some? <==> 0 <= i < |s|
    ensures r.Some? ==> r.value == s[i]
  {
    if 0 <= i < |s| then Some(s[i]) else None
  }
}
