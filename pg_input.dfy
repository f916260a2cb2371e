/**
  Calendar dates, and how Postgres reads the parameters node-postgres sends
  it: node-postgres sends `String(v)` of a number or string and NULL for
  `null`/`undefined`; Postgres then reads that text as the column's type and
  raises an error when it cannot (None below).
 */
module PgInput {

  import opened Options
  import opened JsStrings
  import opened Json

  /** A value of a Postgres DATE column. */
  datatype Date = Date(year: int, month: int, day: int)

  predicate IsLeapYear(y: int) {
    y % 4 == 0 && (y % 100 != 0 || y % 400 == 0)
  }

  function DaysInMonth(y: int, m: int): int
    requires 1 <= m <= 12
  {
    if m == 2 then (if IsLeapYear(y) then 29 else 28)
    else if m == 4 || m == 6 || m == 9 || m == 11 then 30
    else 31
  }

  /** A proleptic Gregorian date with a four-digit positive year. */
  predicate ValidDate(d: Date) {
    1 <= d.year <= 9999 && 1 <= d.month <= 12 && 1 <= d.day <= DaysInMonth(d.year, d.month)
  }

  // ---------------------------------------------------------------------
  // BIGINT parameters
  // ---------------------------------------------------------------------

  const BigintMin: int := -0x8000_0000_0000_0000
  const BigintMax: int := 0x7FFF_FFFF_FFFF_FFFF

  /** Postgres' integer input for a text: an optional sign and at least one digit. */
  function ParseInteger(s: JsString): (r: Option<int>)
    ensures r.Some? <==>
      (|s| >= 1 && AllDigits(s)) || (|s| >= 2 && (s[0] == Minus || s[0] == Plus) && AllDigits(s[1..]))
    ensures r.Some? && AllDigits(s) ==> r.value == DigitsValue(s)
    ensures r.Some? && s[0] == Plus ==> r.value == DigitsValue(s[1..])
    ensures r.Some? && s[0] == Minus ==> r.value == -(DigitsValue(s[1..]) as int)
  {
    if |s| >= 2 && (s[0] == Minus || s[0] == Plus) && AllDigits(s[1..]) then
      var magnitude: int := DigitsValue(s[1..]);
      Some(if s[0] == Minus then -magnitude else magnitude)
    else if |s| >= 1 && AllDigits(s) then Some(DigitsValue(s))
    else None
  }

  /** Reading back `String(n)` gives `n`. */
  lemma ParseIntegerOfDecimal(n: int)
    ensures ParseInteger(DecimalString(n)) == Some(n)
  {
    if n < 0 {
      var s := DecimalString(n);
      assert s[1..] == Digits(-n);
      DigitsValueOfDigits(-n);
    } else {
      DigitsValueOfDigits(n);
      assert !IsDigit(Minus) && !IsDigit(Plus);
    }
  }

  /** The BIGINT a (non-NULL) parameter denotes, or None when Postgres
      rejects it (not an integer, or out of range). */
  function BigintParam(v: Json): (r: Option<int>)
    ensures r.Some? ==> BigintMin <= r.value <= BigintMax
    ensures v.JNum? && BigintMin <= v.n <= BigintMax ==> r == Some(v.n)
  {
    var text := match v
      case JNum(n) => Some(n)
      case JStr(s) => ParseInteger(s)
      case _ => None;
    if text.Some? && BigintMin <= text.value <= BigintMax then text else None
  }

  /** The TEXT a parameter is stored as; None is NULL (`null` or `undefined`).
      An array or object is stored as its `String` form here (see README). */
  function TextParam(v: Option<Json>): (r: Option<JsString>)
    ensures r.None? <==> v.None? || v == Some(JNull)
  {
    match v
    case None => None
    case Some(JNull) => None
    case Some(x) => Some(Stringify(x))
  }

  // ---------------------------------------------------------------------
  // DATE parameters
  // ---------------------------------------------------------------------

  /** Postgres' reading of a 'YYYY-MM-DD' text (month and day may have one
      digit); None when the text is not of that form or names no real day. */
  function ParseIsoDate(s: JsString): (r: Option<Date>)
    ensures r.Some? ==> ValidDate(r.value)
  {
    var parts := Split(s, Minus);
    if |parts| == 3 && |parts[0]| == 4 && 1 <= |parts[1]| <= 2 && 1 <= |parts[2]| <= 2
       && AllDigits(parts[0]) && AllDigits(parts[1]) && AllDigits(parts[2]) then
      var d := Date(DigitsValue(parts[0]), DigitsValue(parts[1]), DigitsValue(parts[2]));
      if ValidDate(d) then Some(d) else None
    else None
  }

  /** The date a `dates` array element denotes when bound to a DATE
      parameter; None when Postgres raises an error for it, or when it is
      `null` (the insert then breaks the NOT NULL constraint). */
  function DateParam(v: Json): (r: Option<Date>)
    ensures r.Some? ==> ValidDate(r.value)
  {
    match v
    case JStr(s) => ParseIsoDate(s)
    case _ => None
  }

  /** `s` left-padded with zeros to `width` units. */
  function PadZeros(s: JsString, width: nat): (r: JsString)
    ensures |r| == if |s| >= width then |s| else width
    decreases width - |s|
  {
    if |s| >= width then s else PadZeros([0x30 as CodeUnit] + s, width)
  }

  lemma {:induction false} PadZerosValue(s: JsString, width: nat)
    requires AllDigits(s)
    ensures AllDigits(PadZeros(s, width)) && DigitsValue(PadZeros(s, width)) == DigitsValue(s)
    decreases width - |s|
  {
    if |s| < width {
      DigitsValueLeadingZero(s);
      PadZerosValue([0x30 as CodeUnit] + s, width);
    }
  }

  lemma {:induction false} DigitsShort(n: nat)
    ensures n < 10 ==> |Digits(n)| == 1
    ensures n < 100 ==> |Digits(n)| <= 2
    ensures n < 10000 ==> |Digits(n)| <= 4
  {
    if n >= 10 {
      DigitsShort(n / 10);
    }
  }

  /** `TO_CHAR(date, 'YYYY-MM-DD')`. */
  function FormatIsoDate(d: Date): JsString
    requires ValidDate(d)
  {
    Join([PadZeros(Digits(d.year), 4), PadZeros(Digits(d.month), 2), PadZeros(Digits(d.day), 2)], [Minus])
  }

  /** `TO_CHAR(date, 'YYYY-MM-DD')` is ten units: four digits spelling the
      year, a dash, two spelling the month, a dash, two spelling the day. */
  lemma FormatIsoDateLayout(d: Date)
    requires ValidDate(d)
    ensures var r := FormatIsoDate(d);
      |r| == 10 && r[4] == Minus && r[7] == Minus &&
      AllDigits(r[..4]) && DigitsValue(r[..4]) == d.year &&
      AllDigits(r[5..7]) && DigitsValue(r[5..7]) == d.month &&
      AllDigits(r[8..]) && DigitsValue(r[8..]) == d.day
  {
    PaddedField(d.year, 4);
    PaddedField(d.month, 2);
    PaddedField(d.day, 2);
    DashedFields(PadZeros(Digits(d.year), 4), PadZeros(Digits(d.month), 2), PadZeros(Digits(d.day), 2));
  }

  /** A field of a formatted date: `n` in exactly `width` digits. */
  lemma PaddedField(n: nat, width: nat)
    requires (width == 4 && n < 10000) || (width == 2 && n < 100)
    ensures var p := PadZeros(Digits(n), width);
      |p| == width && AllDigits(p) && DigitsValue(p) == n && Minus !in p
  {
    DigitsShort(n);
    PadZerosValue(Digits(n), width);
    DigitsValueOfDigits(n);
    var p := PadZeros(Digits(n), width);
    assert forall k :: 0 <= k < |p| ==> p[k] != Minus;
  }

  /** Three fields of four, two and two units joined by dashes. */
  lemma DashedFields(a: JsString, b: JsString, c: JsString)
    requires |a| == 4 && |b| == 2 && |c| == 2
    ensures var r := Join([a, b, c], [Minus]);
      |r| == 10 && r[4] == Minus && r[7] == Minus && r[..4] == a && r[5..7] == b && r[8..] == c
  {
    var parts := [a, b, c];
    assert parts[1..] == [b, c] && parts[1..][1..] == [c];
    assert Join([b, c], [Minus]) == b + [Minus] + c;
    var r := Join(parts, [Minus]);
    assert r == a + [Minus] + (b + [Minus] + c);
  }

  /** Postgres reads back the text TO_CHAR produces. */
  lemma IsoDateRoundTrip(d: Date)
    requires ValidDate(d)
    ensures ParseIsoDate(FormatIsoDate(d)) == Some(d)
  {
    var y, m, dd := PadZeros(Digits(d.year), 4), PadZeros(Digits(d.month), 2), PadZeros(Digits(d.day), 2);
    PaddedField(d.year, 4);
    PaddedField(d.month, 2);
    PaddedField(d.day, 2);
    var parts := [y, m, dd];
    SplitJoin(parts, Minus);
  }
}
