/** JSON values with the equality rules of the source's language. */
module JsonValues {
  import opened Text
  import opened Hashing

  datatype Json =
    | Null
    | Bool(b: bool)
    | Num(r: real)
    | Str(s: string)
    | Arr(items: seq<Json>)
    | Obj(fields: map<string, Json>)

  /** Booleans count as 0 and 1 in comparisons with numbers. */
  predicate IsNumeric(j: Json) {
    j.Num? || j.Bool?
  }

  function NumericValue(j: Json): (r: real)
    requires IsNumeric(j)
  {
    match j
    case Num(r) => r
    case Bool(b) => if b then 1.0 else 0.0
  }

  /** `a == b`. */
  predicate PyEq(a: Json, b: Json) {
    if IsNumeric(a) && IsNumeric(b) then NumericValue(a) == NumericValue(b)
    else
      match (a, b)
      case (Null, Null) => true
      case (Str(s), Str(t)) => s == t
      case (Arr(xs), Arr(ys)) => |xs| == |ys| && forall i :: 0 <= i < |xs| ==> PyEq(xs[i], ys[i])
      case (Obj(f), Obj(g)) => f.Keys == g.Keys && forall k :: k in f ==> PyEq(f[k], g[k])
      case _ => false
  }

  lemma {:induction false} PyEqReflexive(a: Json)
    ensures PyEq(a, a)
  {
    match a
    case Arr(xs) =>
      forall i | 0 <= i < |xs| ensures PyEq(xs[i], xs[i]) { PyEqReflexive(xs[i]); }
    case Obj(f) =>
      forall k | k in f ensures PyEq(f[k], f[k]) { PyEqReflexive(f[k]); }
    case _ =>
  }

  /** `a < b` or, when not strict, `a <= b`; None stands for the type error. */
  function Ordered(strict: bool, a: Json, b: Json): (r: Option<bool>) {
    if IsNumeric(a) && IsNumeric(b) then
      Some(if strict then NumericValue(a) < NumericValue(b) else NumericValue(a) <= NumericValue(b))
    else if a.Str? && b.Str? then Some(Less(a.s, b.s) || (!strict && a.s == b.s))
    else if a.Arr? && b.Arr? then OrderedItems(strict, a.items, b.items)
    else None
  }

  function OrderedItems(strict: bool, a: seq<Json>, b: seq<Json>): (r: Option<bool>) {
    if a == [] || b == [] then Some(if strict then |a| < |b| else |a| <= |b|)
    else if PyEq(a[0], b[0]) then OrderedItems(strict, a[1..], b[1..])
    else Ordered(strict, a[0], b[0])
  }

  /** `bool(j)`. */
  predicate Truthy(j: Json) {
    match j
    case Null => false
    case Bool(b) => b
    case Num(r) => r != 0.0
    case Str(s) => s != ""
    case Arr(xs) => xs != []
    case Obj(f) => f != map[]
  }

  /** `j.get(key)` on an object: a missing key reads as null. */
  function Get(j: Json, key: string): (v: Json) {
    if j.Obj? && key in j.fields then j.fields[key] else Null
  }
}
