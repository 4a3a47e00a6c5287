/** JavaScript values as they appear in the site's content: JSON plus
    `undefined`, with the truthiness, `??`, property access and object spread
    that the merge code relies on. Numbers are integers. */
module Json {
  import opened Text

  datatype Json =
    | Undefined
    | Null
    | Bool(b: bool)
    | Num(n: int)
    | Str(s: string)
    | Arr(items: seq<Json>)
    | Obj(fields: map<string, Json>)

  /** JavaScript truthiness: `undefined`, `null`, `false`, `0` and `''` are falsy. */
  predicate Truthy(v: Json) {
    match v
    case Undefined => false
    case Null => false
    case Bool(b) => b
    case Num(n) => n != 0
    case Str(s) => s != ""
    case Arr(_) => true
    case Obj(_) => true
  }

  predicate Nullish(v: Json) {
    v.Undefined? || v.Null?
  }

  /** `v?.k`; also `v.k` on any value that is not nullish. Only own fields of
      objects are looked at: none of the keys read by the site is an inherited
      property. */
  function Get(v: Json, k: string): (r: Json)
    ensures !v.Obj? ==> r == Undefined
    ensures v.Obj? && k !in v.fields ==> r == Undefined
    ensures v.Obj? && k in v.fields ==> r == v.fields[k]
  {
    if v.Obj? && k in v.fields then v.fields[k] else Undefined
  }

  /** `a ?? b` */
  function Coalesce(a: Json, b: Json): (r: Json)
    ensures Nullish(a) ==> r == b
    ensures !Nullish(a) ==> r == a
  {
    if Nullish(a) then b else a
  }

  /** `a || b` */
  function Or(a: Json, b: Json): (r: Json)
    ensures Truthy(a) ==> r == a
    ensures !Truthy(a) ==> r == b
  {
    if Truthy(a) then a else b
  }

  /** The index-keyed entries of the first `n` elements of a list. */
  function IndexEntries<T>(a: seq<T>, n: nat, f: T -> Json): (m: map<string, Json>)
    requires n <= |a|
    ensures |m.Keys| <= n
  {
    if n == 0 then map[] else IndexEntries(a, n - 1, f)[Decimal(n - 1) := f(a[n - 1])]
  }

  /** The own enumerable entries that `{...v}` copies: an object's fields, an
      array's or a string's indexed elements, nothing for other values. */
  function OwnEntries(v: Json): (m: map<string, Json>)
    ensures v.Obj? ==> m == v.fields
    ensures !(v.Obj? || v.Arr? || v.Str?) ==> m == map[]
  {
    match v
    case Obj(fs) => fs
    case Arr(a) => IndexEntries(a, |a|, (x: Json) => x)
    case Str(s) => IndexEntries(s, |s|, (c: char) => Str([c]))
    case _ => map[]
  }

  /** `{...fallback, ...section}` */
  function Spread(fallback: Json, section: Json): (r: map<string, Json>)
    ensures r.Keys == OwnEntries(fallback).Keys + OwnEntries(section).Keys
    ensures forall k :: k in OwnEntries(section) ==> r[k] == OwnEntries(section)[k]
    ensures forall k :: k in OwnEntries(fallback) && k !in OwnEntries(section) ==> r[k] == OwnEntries(fallback)[k]
  {
    OwnEntries(fallback) + OwnEntries(section)
  }
}
