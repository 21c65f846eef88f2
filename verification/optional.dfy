/** Kotlin's nullable values: `T?` becomes `Option<T>`, and the elvis
    operator `a ?: b` and its chains `a ?: b ?: c ?: d` become `GetOr` and
    `Coalesce`. */
module Optional {

  datatype Option<+T> = None | Some(value: T) {

    /** `this ?: default` */
    function GetOr(default: T): (r: T)
      ensures Some? ==> r == value
      ensures None? ==> r == default
    {
      match this
      case Some(v) => v
      case None => default
    }
  }

  /** The elvis chain `xs[0] ?: xs[1] ?: ... ?: fallback`: the first present
      value, or `fallback` when every candidate is null. A present empty
      string is a value like any other: the chain only skips nulls. */
  function Coalesce<T>(xs: seq<Option<T>>, fallback: T): (r: T)
    ensures (forall i :: 0 <= i < |xs| ==> xs[i].None?) ==> r == fallback
    ensures forall i :: (0 <= i < |xs| && xs[i].Some? &&
                         (forall j :: 0 <= j < i ==> xs[j].None?)) ==> r == xs[i].value
    ensures r == fallback || exists i :: 0 <= i < |xs| && xs[i] == Some(r)
  {
    if |xs| == 0 then fallback
    else if xs[0].Some? then xs[0].value
    else Coalesce(xs[1..], fallback)
  }
}
