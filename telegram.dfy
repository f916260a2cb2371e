/**
  `verifyTelegramHash` (api.js and auth-telegram.js): the Telegram login
  widget signs every field of its payload but `hash`; the server rebuilds the
  data-check string and compares the widget's `hash` with its own HMAC-SHA256
  of it, keyed by the SHA-256 of the bot token.
 */
module Telegram {

  import opened Options
  import opened JsStrings
  import opened Json
  import opened Sorting
  import opened Http

  const HashKey: JsString := Lit("hash")

  /** The line `${key}=${data[key]}` of one field. */
  function Line(f: Field): JsString {
    f.key + [Equals] + Stringify(f.value)
  }

  /** The lines of every field except `hash`, in field order. */
  function UnsignedLines(fields: seq<Field>): (r: seq<JsString>)
    ensures |r| <= |fields|
    ensures forall l :: l in r <==> exists f :: f in fields && f.key != HashKey && l == Line(f)
    decreases |fields|
  {
    if fields == [] then []
    else
      var rest := UnsignedLines(fields[1..]);
      assert forall f :: f in fields <==> f == fields[0] || f in fields[1..] by {
        assert fields == [fields[0]] + fields[1..];
      }
      if fields[0].key == HashKey then rest else [Line(fields[0])] + rest
  }

  /** The data-check string: the lines sorted as whole strings in the default
      order, then joined with newlines. */
  function CheckString(fields: seq<Field>): (r: JsString)
    ensures UnsignedLines(fields) != [] && (forall l :: l in UnsignedLines(fields) ==> Newline !in l) ==>
      Split(r, Newline) == Sort(UnsignedLines(fields))
  {
    var lines := UnsignedLines(fields);
    var sorted := Sort(lines);
    if lines != [] && (forall l :: l in lines ==> Newline !in l) then
      assert |sorted| >= 1 by {
        assert |sorted| == |multiset(sorted)| == |multiset(lines)| == |lines|;
      }
      assert forall k :: 0 <= k < |sorted| ==> Newline !in sorted[k] by {
        forall k | 0 <= k < |sorted| ensures Newline !in sorted[k] {
          assert sorted[k] in multiset(lines);
        }
      }
      SplitJoin(sorted, Newline);
      Join(sorted, [Newline])
    else Join(sorted, [Newline])
  }

  /** The HMAC the server computes for a payload's fields. */
  function Signature(cfg: Config, fields: seq<Field>): JsString {
    cfg.hmacHex(cfg.sha256(cfg.botToken), CheckString(fields))
  }

  /** `verifyTelegramHash(data)` for a payload other than `null` (on `null`
      `Object.keys` throws). Only an object can carry a `hash`; any other
      value fails the comparison. */
  function VerifyTelegramHash(cfg: Config, data: Json): (r: bool)
    requires Readable(data)
    ensures r ==> data.JObject? && Lookup(data.fields, HashKey).Some?
  {
    match data
    case JObject(fields) => Lookup(fields, HashKey) == Some(JStr(Signature(cfg, fields)))
    case _ => false
  }

  lemma {:induction false} UnsignedLinesAppend(a: seq<Field>, b: seq<Field>)
    ensures UnsignedLines(a + b) == UnsignedLines(a) + UnsignedLines(b)
    decreases |a|
  {
    if a == [] {
      assert a + b == b;
    } else {
      UnsignedLinesAppend(a[1..], b);
      assert (a + b)[1..] == a[1..] + b;
    }
  }

  /** Taking out the field at `k` takes out its line and keeps the rest. */
  lemma UnsignedLinesRemove(b: seq<Field>, k: nat)
    requires k < |b|
    ensures multiset(UnsignedLines(b)) == multiset(UnsignedLines([b[k]])) + multiset(UnsignedLines(b[..k] + b[k + 1..]))
  {
    assert b == b[..k] + [b[k]] + b[k + 1..];
    UnsignedLinesAppend(b[..k] + [b[k]], b[k + 1..]);
    UnsignedLinesAppend(b[..k], [b[k]]);
    UnsignedLinesAppend(b[..k], b[k + 1..]);
  }

  /** Two sequences with the same elements still have the same elements once
      the head of one and a copy of it in the other are taken out. */
  lemma MultisetRemoveMatching(a: seq<Field>, b: seq<Field>, k: nat)
    requires multiset(a) == multiset(b)
    requires a != [] && k < |b| && b[k] == a[0]
    ensures multiset(a[1..]) == multiset(b[..k] + b[k + 1..])
  {
    var b' := b[..k] + b[k + 1..];
    assert a == [a[0]] + a[1..];
    assert b == b[..k] + [b[k]] + b[k + 1..];
    assert multiset(b) == multiset(b') + multiset{b[k]};
    assert multiset(a) == multiset(a[1..]) + multiset{a[0]};
    forall y ensures multiset(a[1..])[y] == multiset(b')[y] {
      assert multiset(a)[y] == multiset(b)[y];
    }
  }

  /** Reordering the fields reorders the lines and nothing more. */
  lemma {:induction false} UnsignedLinesPermutation(a: seq<Field>, b: seq<Field>)
    requires multiset(a) == multiset(b)
    ensures multiset(UnsignedLines(a)) == multiset(UnsignedLines(b))
    decreases |a|
  {
    if a == [] {
      assert |b| == |multiset(b)| == 0;
    } else {
      var x := a[0];
      assert x in multiset(b);
      var k :| 0 <= k < |b| && b[k] == x;
      var b' := b[..k] + b[k + 1..];
      MultisetRemoveMatching(a, b, k);
      UnsignedLinesPermutation(a[1..], b');
      UnsignedLinesRemove(b, k);
      UnsignedLinesRemove(a, 0);
    }
  }

  /** The check string does not depend on the order of the payload's keys. */
  lemma CheckStringOrderIndependent(a: seq<Field>, b: seq<Field>)
    requires multiset(a) == multiset(b)
    ensures CheckString(a) == CheckString(b)
  {
    UnsignedLinesPermutation(a, b);
    SortPermutationInvariant(UnsignedLines(a), UnsignedLines(b));
  }

  /** The signature depends on the payload only through the multiset of its
      `key=value` lines other than `hash`: their order, and the `hash`
      field itself, do not change it. */
  lemma SignatureDependsOnLines(cfg: Config, a: seq<Field>, b: seq<Field>)
    requires multiset(UnsignedLines(a)) == multiset(UnsignedLines(b))
    ensures Signature(cfg, a) == Signature(cfg, b)
  {
    SortPermutationInvariant(UnsignedLines(a), UnsignedLines(b));
  }

  /** The `hash` field is left out of the check string, wherever it stands. */
  lemma CheckStringIgnoresHash(a: seq<Field>, b: seq<Field>, v: Json)
    ensures CheckString(a + [Field(HashKey, v)] + b) == CheckString(a + b)
  {
    UnsignedLinesAppend(a, [Field(HashKey, v)]);
    UnsignedLinesAppend(a + [Field(HashKey, v)], b);
    UnsignedLinesAppend(a, b);
    assert [Field(HashKey, v)][1..] == [];
    assert UnsignedLines([Field(HashKey, v)]) == [];
    assert UnsignedLines(a + [Field(HashKey, v)] + b) == UnsignedLines(a + b);
  }

  /** A payload whose only `hash` field sits between `a` and `b` verifies
      exactly when that field is the signature of the other fields. */
  lemma VerifyIffSignedRest(cfg: Config, a: seq<Field>, b: seq<Field>, v: Json)
    requires forall f :: f in a + b ==> f.key != HashKey
    ensures VerifyTelegramHash(cfg, JObject(a + [Field(HashKey, v)] + b)) <==> v == JStr(Signature(cfg, a + b))
  {
    forall i | 0 <= i < |b| ensures b[i].key != HashKey {
      assert b[i] in a + b;
    }
    LookupLastWins(a, b, HashKey, v);
    CheckStringIgnoresHash(a, b, v);
  }

  /** An object without repeated keys verifies or not whatever the order of
      its keys. */
  lemma VerifyOrderIndependent(cfg: Config, a: seq<Field>, b: seq<Field>)
    requires DistinctKeys(a) && DistinctKeys(b)
    requires multiset(a) == multiset(b)
    ensures VerifyTelegramHash(cfg, JObject(a)) == VerifyTelegramHash(cfg, JObject(b))
  {
    CheckStringOrderIndependent(a, b);
    forall v: Json ensures Lookup(a, HashKey) == Some(v) <==> Lookup(b, HashKey) == Some(v) {
      LookupDistinct(a, HashKey, v);
      LookupDistinct(b, HashKey, v);
      assert Field(HashKey, v) in a <==> Field(HashKey, v) in multiset(a);
      assert Field(HashKey, v) in b <==> Field(HashKey, v) in multiset(b);
    }
    var la, lb := Lookup(a, HashKey), Lookup(b, HashKey);
    assert la.Some? ==> lb == la;
    assert lb.Some? ==> la == lb;
  }
}
