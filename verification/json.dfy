/** JavaScript values as they appear in the parsed `meta.json` and in the
    objects the programs build: the JSON kinds plus `undefined`.
    Numbers are integers (the stored fields that are numbers are counts). */
module Json {
  import Text

  datatype Value =
    | Undefined
    | Null
    | Bool(b: bool)
    | Num(n: int)
    | Str(s: string)
    | Arr(items: seq<Value>)
    | Obj(fields: map<string, Value>)

  /** JavaScript truthiness: `undefined`, `null`, `false`, `0` and `""`
      are falsy; every other value, including `[]` and `{}`, is truthy. */
  predicate Truthy(v: Value) {
    match v
    case Undefined => false
    case Null => false
    case Bool(b) => b
    case Num(n) => n != 0
    case Str(s) => s != ""
    case Arr(_) => true
    case Obj(_) => true
  }

  /** Logical or on values: `v` itself when it is truthy, else `fallback`. */
  function Or(v: Value, fallback: Value): (r: Value)
    ensures Truthy(v) ==> r == v
    ensures !Truthy(v) ==> r == fallback
  {
    if Truthy(v) then v else fallback
  }

  /** Values on which reading a property throws a TypeError. */
  predicate Nullish(v: Value) {
    v.Undefined? || v.Null?
  }

  /** Reading property `key` of a non-nullish value: an object's own field,
      and `undefined` for anything else (the keys read by these programs are
      not built-in properties of strings, arrays or objects). */
  function Get(v: Value, key: string): (r: Value)
    requires !Nullish(v)
    ensures v.Obj? && key in v.fields ==> r == v.fields[key]
    ensures !(v.Obj? && key in v.fields) ==> r == Undefined
  {
    if v.Obj? && key in v.fields then v.fields[key] else Undefined
  }

  /** The text `${v}` inserts into a template literal (JavaScript `String(v)`).
      Arrays join their elements with ",", rendering `null` and `undefined`
      elements as empty text. */
  function Interpolate(v: Value): string
  {
    match v
    case Undefined => "undefined"
    case Null => "null"
    case Bool(b) => if b then "true" else "false"
    case Num(n) => Text.IntToString(n)
    case Str(s) => s
    case Arr(items) => JoinElements(items)
    case Obj(_) => "[object Object]"
  }

  function JoinElements(items: seq<Value>): string
    decreases items
  {
    if items == [] then ""
    else
      var head := if Nullish(items[0]) then "" else Interpolate(items[0]);
      if |items| == 1 then head else head + "," + JoinElements(items[1..])
  }

  /** Strict equality `a === b`. Objects and arrays compare by reference;
      every object in these programs comes from its own `JSON.parse` call
      or literal, so two of them are never the same reference. */
  predicate StrictEquals(a: Value, b: Value) {
    match a
    case Arr(_) => false
    case Obj(_) => false
    case _ => a == b
  }

  predicate Primitive(v: Value) {
    !v.Arr? && !v.Obj?
  }

  /** `===` agrees with value equality exactly on primitives. */
  lemma StrictEqualsPrimitive(a: Value, b: Value)
    ensures StrictEquals(a, b) <==> Primitive(a) && a == b
  {
  }

  /** Outcome of searching a list for the first element whose `key` property
      passes a test: the index of the first hit,
      no hit, or a TypeError from reading `key` of a null element reached
      before any hit. */
  datatype Search = Hit(index: nat) | Miss | Throw

  /** Array search that reads property `key` of each element and applies
      `accept` to it, scanning from index `from`. */
  function Find(xs: seq<Value>, key: string, accept: Value -> bool, from: nat): (r: Search)
    requires from <= |xs|
    ensures r.Hit? ==>
      && from <= r.index < |xs|
      && !Nullish(xs[r.index]) && accept(Get(xs[r.index], key))
      && forall j :: from <= j < r.index ==> !Nullish(xs[j]) && !accept(Get(xs[j], key))
    ensures r.Miss? ==>
      forall j :: from <= j < |xs| ==> !Nullish(xs[j]) && !accept(Get(xs[j], key))
    ensures r.Throw? ==>
      exists t :: from <= t < |xs| && Nullish(xs[t]) &&
        forall j :: from <= j < t ==> !Nullish(xs[j]) && !accept(Get(xs[j], key))
    decreases |xs| - from
  {
    if from == |xs| then Miss
    else if Nullish(xs[from]) then Throw
    else if accept(Get(xs[from], key)) then Hit(from)
    else Find(xs, key, accept, from + 1)
  }

  /** A list without null elements never makes `find` throw. */
  lemma FindNoNulls(xs: seq<Value>, key: string, accept: Value -> bool)
    requires forall i :: 0 <= i < |xs| ==> !Nullish(xs[i])
    ensures !Find(xs, key, accept, 0).Throw?
  {
  }
}
