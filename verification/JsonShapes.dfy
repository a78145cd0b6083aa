/**
 * JSON values as Python code sees them through `dict.get`: a scalar, something that
 * may or may not be a list, something that may or may not be a dictionary. A missing
 * member reads as null. Lists and dictionaries in a scalar position are containers:
 * they equal no scalar and cannot be looked up in a set.
 */
module JsonShapes {

  datatype Scalar = Null | Bool(b: bool) | Int(n: int) | Str(s: string) | Container

  datatype Listed<+T> = NotList | List(items: seq<T>)

  datatype Dict<+T> = NotDict | Dict(value: T)

  /** Python equality of a JSON scalar with an integer, where booleans are integers. */
  predicate EqualsInt(v: Scalar, n: int) {
    v == Int(n) || (v.Bool? && n == if v.b then 1 else 0)
  }

  function Strs(names: seq<string>): (r: seq<Scalar>)
    ensures |r| == |names|
    ensures forall i | 0 <= i < |names| :: r[i] == Str(names[i])
  {
    seq(|names|, i requires 0 <= i < |names| => Str(names[i]))
  }
}
