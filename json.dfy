/**
  The values `JSON.parse` hands to the server functions, and the JavaScript
  conversions they apply: property reads, truthiness and `String(v)`.
 */
module Json {

  import opened Options
  import opened JsStrings

  /** A parsed JSON value. Numbers are integral (see README). */
  datatype Json =
    | JStr(s: JsString)
    | JNum(n: int)
    | JBool(b: bool)
    | JNull
    | JArray(items: seq<Json>)
    | JObject(fields: seq<Field>)

  /** One own property of an object, in `Object.keys` order. */
  datatype Field = Field(key: JsString, value: Json)

  /** An object as `JSON.parse` builds it never repeats a key. */
  predicate DistinctKeys(fields: seq<Field>) {
    forall i, j :: 0 <= i < j < |fields| ==> fields[i].key != fields[j].key
  }

  /** `obj[key]` on an object's fields; None is `undefined`. When a key is
      repeated, the last occurrence wins, as it does in `JSON.parse`. */
  function Lookup(fields: seq<Field>, key: JsString): (r: Option<Json>)
    ensures r.Some? <==> exists i :: 0 <= i < |fields| && fields[i].key == key
    ensures r.Some? ==> Field(key, r.value) in fields
    decreases |fields|
  {
    if fields == [] then None
    else
      var n := |fields| - 1;
      if fields[n].key == key then Some(fields[n].value)
      else
        var r := Lookup(fields[..n], key);
        assert forall i :: 0 <= i < n ==> fields[..n][i] == fields[i];
        r
  }

  /** In an object without repeated keys, a field is found exactly when it is present. */
  lemma LookupDistinct(fields: seq<Field>, key: JsString, v: Json)
    requires DistinctKeys(fields)
    ensures Lookup(fields, key) == Some(v) <==> Field(key, v) in fields
  {
    if Field(key, v) in fields {
      var i :| 0 <= i < |fields| && fields[i] == Field(key, v);
      var r := Lookup(fields, key);
      var k :| 0 <= k < |fields| && fields[k] == Field(key, r.value);
      assert k == i;
    }
  }

  /** Looking a key up in two lists of fields in a row: the second list's
      value wins when there is one. */
  lemma {:induction false} LookupAppend(a: seq<Field>, b: seq<Field>, key: JsString)
    ensures Lookup(a + b, key) == if Lookup(b, key).Some? then Lookup(b, key) else Lookup(a, key)
    decreases |b|
  {
    if b == [] {
      assert a + b == a;
    } else {
      var n := |b| - 1;
      LookupAppend(a, b[..n], key);
      assert (a + b)[..|a + b| - 1] == a + b[..n];
    }
  }

  /** Of several fields with one key, `obj[key]` sees the last. */
  lemma LookupLastWins(a: seq<Field>, b: seq<Field>, key: JsString, v: Json)
    requires forall i :: 0 <= i < |b| ==> b[i].key != key
    ensures Lookup(a + [Field(key, v)] + b, key) == Some(v)
  {
    LookupAppend(a + [Field(key, v)], b, key);
    LookupAppend(a, [Field(key, v)], key);
    assert [Field(key, v)][..0] == [];
  }

  /** `value.key` on any parsed value: only objects have the properties read
      here. Reading a property of `null` throws, which `Readable` rules out. */
  function Property(v: Json, key: JsString): Option<Json> {
    if v.JObject? then Lookup(v.fields, key) else None
  }

  /** Destructuring `const { ... } = value` does not throw. */
  predicate Readable(v: Json) {
    !v.JNull?
  }

  /** JavaScript falsiness of a possibly missing value. */
  predicate Falsy(v: Option<Json>): (r: bool)
    ensures v.Some? && (v.value.JArray? || v.value.JObject?) ==> !r
    ensures v.Some? && v.value.JNum? ==> (r <==> v.value.n == 0)
    ensures v.Some? && v.value.JStr? ==> (r <==> v.value.s == [])
    ensures v.Some? && v.value.JBool? ==> (r <==> !v.value.b)
  {
    v.None? || v == Some(JNull) || v == Some(JBool(false)) || v == Some(JNum(0)) || v == Some(JStr([]))
  }

  /** `String(v)`, which is also what a template literal `${v}` gives. An
      array gives its elements joined with commas, null elements as empty. */
  function Stringify(v: Json): (r: JsString)
    ensures v.JStr? ==> r == v.s
    ensures v.JArray? && v.items == [] ==> r == []
    ensures v.JArray? && |v.items| == 1 ==> r == if v.items[0].JNull? then [] else Stringify(v.items[0])
    decreases v
  {
    match v
    case JStr(s) => s
    case JNum(n) => DecimalString(n)
    case JBool(b) => if b then Lit("true") else Lit("false")
    case JNull => Lit("null")
    case JArray(items) =>
      Join(seq(|items|, i requires 0 <= i < |items| =>
        if items[i].JNull? then [] else Stringify(items[i])), [Comma])
    case JObject(_) => Lit("[object Object]")
  }

  /** `String(x)` for a property read that may be `undefined`. */
  function StringOf(v: Option<Json>): JsString {
    match v
    case Some(x) => Stringify(x)
    case None => Lit("undefined")
  }
}
