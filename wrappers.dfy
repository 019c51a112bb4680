/** The optional value used for cells that pandas reports as null or NaN,
    and for a provider lookup that returned nothing. */
module Wrappers {

  datatype Option<+T> = None | Some(value: T)

  /** The empty or one-element sequence holding the value, as appended to a list. */
  function ToSeq<T>(o: Option<T>): (s: seq<T>)
    ensures |s| <= 1
    ensures o.Some? <==> |s| == 1
    ensures o.Some? ==> s[0] == o.value
  {
    match o
    case None => []
    case Some(v) => [v]
  }
}
