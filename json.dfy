/** The schemaless payloads the application passes around (request bodies,
    stored progress data, browser-side logs), as an abstract JSON value,
    with the handful of JavaScript value rules the code depends on:
    truthiness, property access, `a || b`, `Array.isArray` and object
    spread. Numbers are integers here. */
module Json {
  import opened Common
  import opened Text

  datatype Json =
    | Null
    | Bool(b: bool)
    | Num(n: int)
    | Str(s: string)
    | Arr(items: seq<Json>)
    | Obj(fields: map<string, Json>)

  /** JavaScript truthiness of a present value. */
  predicate Truthy(j: Json) {
    match j
    case Null => false
    case Bool(b) => b
    case Num(n) => n != 0
    case Str(s) => s != ""
    case Arr(_) => true
    case Obj(_) => true
  }

  /** Truthiness of a property read, where `None` is `undefined`. */
  predicate Present(v: Option<Json>) {
    v.Some? && Truthy(v.value)
  }

  /** `j.key`: the property of an object, `undefined` (None) otherwise.
      Reading a property of `null` throws; callers that can meet `null`
      test `Null?` first. */
  function Get(j: Json, key: string): (v: Option<Json>)
    ensures v.Some? <==> j.Obj? && key in j.fields
    ensures v.Some? ==> v.value == j.fields[key]
  {
    if j.Obj? && key in j.fields then Some(j.fields[key]) else None
  }

  /** `v || fallback`. */
  function Or(v: Option<Json>, fallback: Json): (r: Json)
    ensures Present(v) ==> r == v.value
    ensures !Present(v) ==> r == fallback
  {
    if Present(v) then v.value else fallback
  }

  /** The elements of `v` when `Array.isArray(v)`. */
  predicate IsArray(v: Option<Json>) {
    v.Some? && v.value.Arr?
  }

  /** A string's characters as the one-character strings that iteration
      and index properties give. */
  function Characters(s: string): (r: seq<Json>)
    ensures |r| == |s|
    ensures forall i :: 0 <= i < |s| ==> r[i] == Str([s[i]])
  {
    seq(|s|, (i: int) requires 0 <= i < |s| => Str([s[i]]))
  }

  /** The index properties of an array or a string: position `i` under the
      name `String(i)`, and no other name. */
  function IndexProperties(values: seq<Json>): (m: map<string, Json>)
    ensures forall i :: 0 <= i < |values| ==> NatToString(i) in m && m[NatToString(i)] == values[i]
    ensures forall k :: k in m ==> exists i :: 0 <= i < |values| && k == NatToString(i)
    decreases |values|
  {
    if values == [] then map[]
    else
      var n := |values| - 1;
      NatToStringInjectiveAll();
      IndexProperties(values[..n])[NatToString(n) := values[n]]
  }

  /** Index property names start with a digit. */
  lemma IndexNamesAreDigits(values: seq<Json>)
    ensures forall k :: k in IndexProperties(values) ==> k != "" && IsDigit(k[0])
  {
  }

  /** `{...j}`: an object's own properties, the index properties of an
      array or a string, and nothing for `null`, a boolean or a number. */
  function Spread(j: Json): (m: map<string, Json>)
    ensures j.Obj? ==> m == j.fields
    ensures j.Arr? ==> m == IndexProperties(j.items)
    ensures j.Str? ==> m == IndexProperties(Characters(j.s))
    ensures !j.Obj? && !j.Arr? && !j.Str? ==> m == map[]
    ensures !j.Obj? ==> forall k :: k in m ==> k != "" && IsDigit(k[0])
  {
    match j
    case Obj(fields) => fields
    case Arr(items) => IndexNamesAreDigits(items); IndexProperties(items)
    case Str(s) => IndexNamesAreDigits(Characters(s)); IndexProperties(Characters(s))
    case _ => map[]
  }
}
