/**
  JavaScript strings: sequences of UTF-16 code units, with the few string
  operations the server functions use (default sort order, `join`, `split`
  on a one-character separator, `trim`, and `String(n)` for integers).
 */
module JsStrings {

  import opened Options

  /** One UTF-16 code unit. */
  newtype CodeUnit = x: int | 0 <= x < 0x1_0000

  /** A JavaScript string value. */
  type JsString = seq<CodeUnit>

  const Comma: CodeUnit := 0x2C
  const Equals: CodeUnit := 0x3D
  const Newline: CodeUnit := 0x0A
  const Minus: CodeUnit := 0x2D
  const Plus: CodeUnit := 0x2B

  /** The code units of a string literal whose characters all lie below
      U+10000 (each literal in this model is ASCII, one unit per character). */
  function Lit(s: string): (r: JsString)
    ensures |r| == |s|
  {
    seq(|s|, i requires 0 <= i < |s| => ((s[i] as int) % 0x1_0000) as CodeUnit)
  }

  // ---------------------------------------------------------------------
  // The order of Array.prototype.sort without a comparator
  // ---------------------------------------------------------------------

  /** `a` sorts no later than `b`: code units are compared one by one, and a
      proper prefix comes first. */
  predicate UnitsLe(a: JsString, b: JsString)
    decreases |a|
  {
    a == [] || (b != [] && (a[0] < b[0] || (a[0] == b[0] && UnitsLe(a[1..], b[1..]))))
  }

  lemma {:induction false} UnitsLeReflexive(a: JsString)
    ensures UnitsLe(a, a)
    decreases |a|
  {
    if a != [] {
      UnitsLeReflexive(a[1..]);
    }
  }

  lemma {:induction false} UnitsLeTotal(a: JsString, b: JsString)
    ensures UnitsLe(a, b) || UnitsLe(b, a)
    decreases |a|
  {
    if a != [] && b != [] && a[0] == b[0] {
      UnitsLeTotal(a[1..], b[1..]);
    }
  }

  lemma {:induction false} UnitsLeAntisymmetric(a: JsString, b: JsString)
    requires UnitsLe(a, b) && UnitsLe(b, a)
    ensures a == b
    decreases |a|
  {
    if a != [] {
      UnitsLeAntisymmetric(a[1..], b[1..]);
      assert a == [a[0]] + a[1..] && b == [b[0]] + b[1..];
    }
  }

  lemma {:induction false} UnitsLeTransitive(a: JsString, b: JsString, c: JsString)
    requires UnitsLe(a, b) && UnitsLe(b, c)
    ensures UnitsLe(a, c)
    decreases |a|
  {
    if a != [] && a[0] == b[0] && b[0] == c[0] {
      UnitsLeTransitive(a[1..], b[1..], c[1..]);
    }
  }

  // ---------------------------------------------------------------------
  // Array.prototype.join and String.prototype.split
  // ---------------------------------------------------------------------

  /** `parts.join(sep)`: the empty array gives the empty string. */
  function Join(parts: seq<JsString>, sep: JsString): JsString
    decreases |parts|
  {
    if |parts| == 0 then []
    else if |parts| == 1 then parts[0]
    else parts[0] + sep + Join(parts[1..], sep)
  }

  /** `s.split(c)` for a one-unit separator: always at least one piece (the
      empty string gives `[""]`), and no piece contains the separator. */
  function Split(s: JsString, c: CodeUnit): (r: seq<JsString>)
    ensures |r| >= 1
    ensures forall k :: 0 <= k < |r| ==> c !in r[k]
    decreases |s|
  {
    if s == [] then [[]]
    else if s[0] == c then [[]] + Split(s[1..], c)
    else
      var rest := Split(s[1..], c);
      [[s[0]] + rest[0]] + rest[1..]
  }

  /** Joining the pieces of a split with the separator gives back the string. */
  lemma {:induction false} JoinSplit(s: JsString, c: CodeUnit)
    ensures Join(Split(s, c), [c]) == s
    decreases |s|
  {
    if s != [] {
      var rest := Split(s[1..], c);
      JoinSplit(s[1..], c);
      if s[0] == c {
        assert Split(s, c) == [[]] + rest;
        if |rest| == 1 {
          assert Join(Split(s, c), [c]) == [] + [c] + rest[0];
        } else {
          assert Join(Split(s, c), [c]) == [] + [c] + Join(rest, [c]);
        }
        assert s == [s[0]] + s[1..];
      } else {
        var r := Split(s, c);
        assert r == [[s[0]] + rest[0]] + rest[1..];
        if |rest| == 1 {
          assert Join(r, [c]) == [s[0]] + rest[0];
        } else {
          assert r[1..] == rest[1..];
          assert Join(rest, [c]) == rest[0] + [c] + Join(rest[1..], [c]);
          assert Join(r, [c]) == ([s[0]] + rest[0]) + [c] + Join(rest[1..], [c]);
        }
        assert s == [s[0]] + s[1..];
      }
    }
  }

  /** Splitting a piece that holds no separator, followed by more text, gives
      that piece first. */
  lemma {:induction false} SplitPiece(p: JsString, c: CodeUnit, tail: Option<JsString>)
    requires c !in p
    ensures tail.None? ==> Split(p, c) == [p]
    ensures tail.Some? ==> Split(p + [c] + tail.value, c) == [p] + Split(tail.value, c)
    decreases |p|
  {
    if p == [] {
      if tail.Some? {
        assert [] + [c] + tail.value == [c] + tail.value;
        assert ([c] + tail.value)[1..] == tail.value;
      }
    } else {
      SplitPiece(p[1..], c, tail);
      if tail.Some? {
        var s := p + [c] + tail.value;
        assert s[0] == p[0] && s[1..] == p[1..] + [c] + tail.value;
      }
      assert p == [p[0]] + p[1..];
    }
  }

  /** Splitting a join gives back the parts, when no part holds the separator. */
  lemma {:induction false} SplitJoin(parts: seq<JsString>, c: CodeUnit)
    requires |parts| >= 1
    requires forall k :: 0 <= k < |parts| ==> c !in parts[k]
    ensures Split(Join(parts, [c]), c) == parts
    decreases |parts|
  {
    if |parts| == 1 {
      SplitPiece(parts[0], c, None);
    } else {
      SplitJoin(parts[1..], c);
      SplitPiece(parts[0], c, Some(Join(parts[1..], [c])));
      assert parts == [parts[0]] + parts[1..];
    }
  }

  // ---------------------------------------------------------------------
  // String.prototype.trim
  // ---------------------------------------------------------------------

  /** The code units `trim` removes: ECMAScript WhiteSpace (tab, vertical
      tab, form feed, space, no-break space, the byte order mark and every
      space separator) and LineTerminator (LF, CR, U+2028, U+2029). */
  predicate IsJsWhitespace(u: CodeUnit) {
    u == 0x09 || u == 0x0A || u == 0x0B || u == 0x0C || u == 0x0D ||
    u == 0x20 || u == 0xA0 || u == 0x1680 || (0x2000 <= u <= 0x200A) ||
    u == 0x2028 || u == 0x2029 || u == 0x202F || u == 0x205F ||
    u == 0x3000 || u == 0xFEFF
  }

  /** Drops the leading whitespace: the result is a suffix of `s`, everything
      dropped is whitespace, and what is left does not start with any. */
  function TrimStart(s: JsString): (r: JsString)
    ensures |r| <= |s| && r == s[|s| - |r|..]
    ensures forall k :: 0 <= k < |s| - |r| ==> IsJsWhitespace(s[k])
    ensures r != [] ==> !IsJsWhitespace(r[0])
    decreases |s|
  {
    if s != [] && IsJsWhitespace(s[0]) then TrimStart(s[1..]) else s
  }

  /** Drops the trailing whitespace: the result is a prefix of `s`, everything
      dropped is whitespace, and what is left does not end with any. */
  function TrimEnd(s: JsString): (r: JsString)
    ensures |r| <= |s| && r == s[..|r|]
    ensures forall k :: |r| <= k < |s| ==> IsJsWhitespace(s[k])
    ensures r != [] ==> !IsJsWhitespace(r[|r| - 1])
    decreases |s|
  {
    if s != [] && IsJsWhitespace(s[|s| - 1]) then TrimEnd(s[..|s| - 1]) else s
  }

  /** `r` is the slice of `s` at offset `i`, and all of `s` outside it is
      whitespace. */
  predicate TrimmedAt(s: JsString, r: JsString, i: int) {
    0 <= i <= |s| - |r| && r == s[i..i + |r|] &&
    (forall k :: 0 <= k < i ==> IsJsWhitespace(s[k])) &&
    (forall k :: i + |r| <= k < |s| ==> IsJsWhitespace(s[k]))
  }

  /** `s.trim()`: neither starts nor ends with whitespace (`TrimIsSlice`
      says what is left of `s`). */
  function Trim(s: JsString): (r: JsString)
    ensures |r| <= |s|
    ensures r != [] ==> !IsJsWhitespace(r[0]) && !IsJsWhitespace(r[|r| - 1])
  {
    var t := TrimStart(s);
    var r := TrimEnd(t);
    assert r != [] ==> r[0] == t[0];
    r
  }

  /** `s.trim()` is a slice of `s` with only whitespace around it. */
  lemma TrimIsSlice(s: JsString)
    ensures exists i :: TrimmedAt(s, Trim(s), i)
  {
    TrimmedSlice(s, TrimStart(s), TrimEnd(TrimStart(s)));
    assert Trim(s) == TrimEnd(TrimStart(s));
    assert TrimmedAt(s, Trim(s), |s| - |TrimStart(s)|);
  }

  /** A suffix `t` of `s` that only drops whitespace, cut down to a prefix `r`
      that only drops whitespace, is `s` trimmed at offset `|s| - |t|`. */
  lemma TrimmedSlice(s: JsString, t: JsString, r: JsString)
    requires |t| <= |s| && t == s[|s| - |t|..]
    requires forall k :: 0 <= k < |s| - |t| ==> IsJsWhitespace(s[k])
    requires |r| <= |t| && r == t[..|r|]
    requires forall k :: |r| <= k < |t| ==> IsJsWhitespace(t[k])
    ensures TrimmedAt(s, r, |s| - |t|)
  {
    var i := |s| - |t|;
    assert r == s[i..i + |r|];
    forall k | i + |r| <= k < |s| ensures IsJsWhitespace(s[k]) {
      assert s[k] == t[k - i];
    }
  }

  /** Trimming twice is trimming once. */
  lemma TrimIdempotent(s: JsString)
    ensures Trim(Trim(s)) == Trim(s)
  {
    var t := Trim(s);
    if t != [] {
      assert TrimStart(s) != [];
      assert t[0] == TrimStart(s)[0];
    }
  }

  // ---------------------------------------------------------------------
  // Decimal numerals
  // ---------------------------------------------------------------------

  predicate IsDigit(u: CodeUnit) {
    0x30 <= u <= 0x39
  }

  predicate AllDigits(s: JsString) {
    forall k :: 0 <= k < |s| ==> IsDigit(s[k])
  }

  /** The decimal digits of `n`, most significant first, without leading zeros. */
  function Digits(n: nat): (r: JsString)
    ensures |r| >= 1 && AllDigits(r)
    ensures |r| > 1 ==> r[0] != 0x30
    decreases n
  {
    if n < 10 then [(0x30 + n) as CodeUnit]
    else Digits(n / 10) + [(0x30 + n % 10) as CodeUnit]
  }

  /** `String(n)` for an integral JavaScript number. */
  function DecimalString(n: int): JsString {
    if n < 0 then [Minus] + Digits(-n) else Digits(n)
  }

  /** The number a run of decimal digits denotes. */
  function DigitsValue(s: JsString): nat
    requires AllDigits(s)
    decreases |s|
  {
    if s == [] then 0
    else DigitsValue(s[..|s| - 1]) * 10 + (s[|s| - 1] - 0x30) as int
  }

  /** Reading back the digits of `n` gives `n`. */
  lemma {:induction false} DigitsValueOfDigits(n: nat)
    ensures DigitsValue(Digits(n)) == n
    decreases n
  {
    if n >= 10 {
      DigitsValueOfDigits(n / 10);
      var s := Digits(n);
      assert s[..|s| - 1] == Digits(n / 10);
    }
  }

  /** Leading zeros do not change the value of a run of digits. */
  lemma {:induction false} DigitsValueLeadingZero(s: JsString)
    requires AllDigits(s)
    ensures AllDigits([0x30 as CodeUnit] + s) && DigitsValue([0x30 as CodeUnit] + s) == DigitsValue(s)
    decreases |s|
  {
    var t := [0x30 as CodeUnit] + s;
    if s != [] {
      DigitsValueLeadingZero(s[..|s| - 1]);
      assert t[..|t| - 1] == [0x30 as CodeUnit] + s[..|s| - 1];
    }
  }
}
