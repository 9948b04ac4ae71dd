/**
 * How the HTTP handlers read fields of a JSON request body. A text field
 * is either absent (JavaScript `undefined` or `null`, which `??` treats
 * alike) or a string; a numeric field keeps `undefined` and `null` apart
 * because `x !== undefined ? Number(x) : old` does, and `Number(null)` is 0.
 */
module Body {
  import opened Wrappers

  datatype NumInput = Undefined | Null | Num(value: real)

  /** The errors the record handlers report, with their HTTP statuses. */
  datatype RecordError = MissingFields | NotFound {
    function Status(): (code: int)
      ensures code == 400 <==> this == MissingFields
      ensures code == 404 <==> this == NotFound
    {
      if MissingFields? then 400 else 404
    }
  }

  /** JavaScript truthiness of a text field: present and not the empty string. */
  predicate Truthy(s: Option<string>): (b: bool)
    ensures s.None? ==> !b
    ensures s.Some? ==> (b <==> s.value != "")
  {
    s.Some? && s.value != ""
  }

  /** `value ?? existing` for a text field. */
  function Coalesce(s: Option<string>, existing: string): (r: string)
    ensures s.Some? ==> r == s.value
    ensures s.None? ==> r == existing
  {
    match s
    case Some(v) => v
    case None => existing
  }

  /** `Number(value ?? 0)`: a missing number is 0. */
  function NumberOrZero(n: NumInput): (r: real)
    ensures n.Num? ==> r == n.value
    ensures !n.Num? ==> r == 0.0
  {
    match n
    case Num(v) => v
    case _ => 0.0
  }

  /** `value !== undefined ? Number(value) : existing`: only `undefined` keeps the old number. */
  function NumberUnlessUndefined(n: NumInput, existing: real): (r: real)
    ensures n.Undefined? ==> r == existing
    ensures n.Null? ==> r == 0.0
    ensures n.Num? ==> r == n.value
  {
    match n
    case Undefined => existing
    case Null => 0.0
    case Num(v) => v
  }
}
