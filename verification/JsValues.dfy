/** JavaScript values as a signal can hold them, and the property access that the runtime uses. */
module JsValues {

  /** An object lists its own properties in iteration order; `proto` tells whether it inherits from
      `Object.prototype`.  `Native` stands for an inherited member, such as a built-in function. */
  datatype Value =
    | Undef
    | Null
    | Bool(b: bool)
    | Num(n: real)
    | NaN
    | Str(s: string)
    | Arr(items: seq<Value>)
    | Obj(fields: seq<Field>, proto: bool)
    | Native(name: string)

  datatype Field = Field(key: string, val: Value)

  const INHERITED: set<string> :=
    {"constructor", "hasOwnProperty", "isPrototypeOf", "propertyIsEnumerable", "toLocaleString",
     "toString", "valueOf", "__defineGetter__", "__defineSetter__",
     "__lookupGetter__", "__lookupSetter__"}

  predicate IsNil(v: Value) {
    v.Undef? || v.Null?
  }

  /** A truthy value of type `object`. */
  predicate IsObject(v: Value) {
    v.Arr? || v.Obj?
  }

  /** Index of the field called `k`, or -1. */
  function FindKey(fields: seq<Field>, k: string): (r: int)
    ensures -1 <= r < |fields|
    ensures r >= 0 ==> fields[r].key == k
    ensures r < 0 ==> forall i :: 0 <= i < |fields| ==> fields[i].key != k
  {
    if fields == [] then -1
    else if fields[|fields| - 1].key == k then |fields| - 1
    else FindKey(fields[..|fields| - 1], k)
  }

  ghost predicate UniqueKeys(fields: seq<Field>) {
    forall i, j :: 0 <= i < j < |fields| ==> fields[i].key != fields[j].key
  }

  lemma FindUnique(fields: seq<Field>, i: nat)
    requires UniqueKeys(fields) && i < |fields|
    ensures FindKey(fields, fields[i].key) == i
  {
    var k := FindKey(fields, fields[i].key);
    assert fields[k].key == fields[i].key;
  }

  // ---------- Array indices ----------

  predicate IsDigit(c: char) {
    '0' <= c <= '9'
  }

  function DigitChar(d: nat): char
    requires d < 10
  {
    '0' + d as char
  }

  function IndexKey(n: nat): string {
    if n < 10 then [DigitChar(n)] else IndexKey(n / 10) + [DigitChar(n % 10)]
  }

  /** The array index that the property name `k` denotes: canonical decimal, nothing else. */
  function ArrayIndex(k: string): (r: int)
    ensures r >= -1
  {
    if k == "" || !IsDigit(k[|k| - 1]) then -1
    else
      var d := (k[|k| - 1] - '0') as int;
      if |k| == 1 then d
      else
        var high := ArrayIndex(k[..|k| - 1]);
        if high <= 0 then -1 else 10 * high + d
  }

  lemma {:induction false} IndexKeyRoundTrip(n: nat)
    ensures |IndexKey(n)| > 0 && ArrayIndex(IndexKey(n)) == n
  {
    if n >= 10 {
      IndexKeyRoundTrip(n / 10);
      var k := IndexKey(n);
      assert k[..|k| - 1] == IndexKey(n / 10);
    }
  }

  lemma {:induction false} ArrayIndexRoundTrip(k: string)
    requires ArrayIndex(k) >= 0
    ensures IndexKey(ArrayIndex(k)) == k
  {
    if |k| > 1 {
      ArrayIndexRoundTrip(k[..|k| - 1]);
      assert k == k[..|k| - 1] + [k[|k| - 1]];
    }
  }

  lemma ArrayIndexInjective(k: string, o: string)
    requires ArrayIndex(k) == ArrayIndex(o) >= 0
    ensures k == o
  {
    ArrayIndexRoundTrip(k);
    ArrayIndexRoundTrip(o);
  }

  // ---------- Properties ----------

  /** `v[k]`, for a value that is not nil. */
  function Prop(v: Value, k: string): Value {
    match v
    case Arr(items) =>
      var i := ArrayIndex(k);
      if 0 <= i < |items| then items[i]
      else if k == "length" then Num(|items| as real)
      else if k in INHERITED then Native(k) else Undef
    case Obj(fields, proto) =>
      var i := FindKey(fields, k);
      if i >= 0 then fields[i].val
      else if proto && k in INHERITED then Native(k) else Undef
    case Str(s) =>
      var i := ArrayIndex(k);
      if 0 <= i < |s| then Str([s[i]])
      else if k == "length" then Num(|s| as real) else Undef
    case _ => Undef
  }

  /** `k in v`, for an object. */
  predicate Has(v: Value, k: string) {
    match v
    case Arr(items) => 0 <= ArrayIndex(k) < |items| || k == "length" || k in INHERITED
    case Obj(fields, proto) => FindKey(fields, k) >= 0 || (proto && k in INHERITED)
    case _ => false
  }

  /** The own property names of an object, in the order of `for (k in v)`. */
  function Keys(v: Value): (ks: seq<string>)
    ensures v.Arr? ==> |ks| == |v.items| && forall i :: 0 <= i < |ks| ==> ks[i] == IndexKey(i)
    ensures v.Obj? ==> |ks| == |v.fields| && forall i :: 0 <= i < |ks| ==> ks[i] == v.fields[i].key
  {
    match v
    case Arr(items) => seq(|items|, i requires 0 <= i < |items| => IndexKey(i))
    case Obj(fields, _) => seq(|fields|, i requires 0 <= i < |fields| => fields[i].key)
    case _ => []
  }

  /** `a === b`, where neither is an array or object. */
  predicate StrictEqual(a: Value, b: Value) {
    !a.NaN? && !IsObject(a) && a == b
  }

  /** The value at the end of a path; a nil met on the way ends the walk. */
  function Get(v: Value, path: seq<string>): Value
    decreases |path|
  {
    if IsNil(v) || path == [] then v else Get(Prop(v, path[0]), path[1..])
  }

  method GetLoop(obj: Value, path: seq<string>) returns (v: Value)
    ensures v == Get(obj, path)
  {
    v := obj;
    if IsNil(v) {
      return;
    }
    var i := 0;
    while i < |path|
      invariant 0 <= i <= |path| && !IsNil(v)
      invariant Get(obj, path) == Get(v, path[i..])
    {
      v := Prop(v, path[i]);
      assert path[i..][1..] == path[i + 1..];
      if IsNil(v) {
        return;
      }
      i := i + 1;
    }
  }
}
