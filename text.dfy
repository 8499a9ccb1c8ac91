/** The parts of .NET's string library the core relies on, with the
    simplifications stated in README.md: ordinal comparison in place of the
    culture-sensitive one, ASCII lower-casing, and `long.TryParse` /
    `long.ToString` over ASCII digits with the invariant culture's signs. */
module Text {
  import opened Base

  // ---------------------------------------------------------------------
  // Comparison (String.CompareTo, modelled as an ordinal order)
  // ---------------------------------------------------------------------

  /** Lexicographic comparison of two strings, character by character;
      the result is negative, zero or positive as `a` sorts before, equal
      to or after `b`. */
  function CompareOrdinal(a: string, b: string): (r: int)
    ensures -1 <= r <= 1
    ensures r == 0 <==> a == b
  {
    if a == [] then (if b == [] then 0 else -1)
    else if b == [] then 1
    else if a[0] < b[0] then -1
    else if a[0] > b[0] then 1
    else CompareOrdinal(a[1..], b[1..])
  }

  /** `a` sorts no later than `b`. */
  predicate TextLe(a: string, b: string) {
    CompareOrdinal(a, b) <= 0
  }

  lemma {:induction false} CompareOrdinalAntisymmetric(a: string, b: string)
    ensures CompareOrdinal(a, b) == -CompareOrdinal(b, a)
  {
    if a != [] && b != [] && a[0] == b[0] {
      CompareOrdinalAntisymmetric(a[1..], b[1..]);
    }
  }

  lemma TextLeTotal(a: string, b: string)
    ensures TextLe(a, b) || TextLe(b, a)
  {
    CompareOrdinalAntisymmetric(a, b);
  }

  lemma {:induction false} TextLeTransitive(a: string, b: string, c: string)
    requires TextLe(a, b) && TextLe(b, c)
    ensures TextLe(a, c)
  {
    if a != [] && b != [] && c != [] && a[0] == b[0] == c[0] {
      TextLeTransitive(a[1..], b[1..], c[1..]);
    }
  }

  // ---------------------------------------------------------------------
  // Character classes and case
  // ---------------------------------------------------------------------

  /** `char.IsWhiteSpace`: the Unicode space, line and paragraph separators,
      the control characters U+0009..U+000D, and U+0085. */
  predicate IsWhiteSpace(c: char) {
    || '\U{9}' <= c <= '\U{D}'
    || c == ' ' || c == '\U{85}' || c == '\U{A0}' || c == '\U{1680}'
    || '\U{2000}' <= c <= '\U{200A}'
    || c == '\U{2028}' || c == '\U{2029}' || c == '\U{202F}' || c == '\U{205F}'
    || c == '\U{3000}'
  }

  /** `string.IsNullOrWhiteSpace`: null, empty, or only white space. */
  predicate IsNullOrWhiteSpace(s: Option<string>) {
    s.None? || forall i :: 0 <= i < |s.value| ==> IsWhiteSpace(s.value[i])
  }

  function ToLowerChar(c: char): (r: char)
    ensures 'A' <= c <= 'Z' ==> r as int == c as int + 32
    ensures !('A' <= c <= 'Z') ==> r == c
  {
    if 'A' <= c <= 'Z' then (c as int + 32) as char else c
  }

  /** `string.ToLower`, restricted to the ASCII letters. */
  function ToLower(s: string): (r: string)
    ensures |r| == |s|
    ensures forall i :: 0 <= i < |s| ==> r[i] == ToLowerChar(s[i])
  {
    seq(|s|, i requires 0 <= i < |s| => ToLowerChar(s[i]))
  }

  // ---------------------------------------------------------------------
  // Searching and trimming
  // ---------------------------------------------------------------------

  /** `string.LastIndexOf(char)`: the last position holding `c`, or -1. */
  function LastIndexOf(s: string, c: char): (r: int)
    ensures -1 <= r < |s|
    ensures r >= 0 ==> s[r] == c
    ensures forall j :: r < j < |s| ==> s[j] != c
  {
    if s == [] then -1
    else if s[|s| - 1] == c then |s| - 1
    else LastIndexOf(s[..|s| - 1], c)
  }

  /** `string.TrimEnd(char)`: drops every trailing `c`. */
  function TrimEnd(s: string, c: char): (r: string)
    ensures |r| <= |s|
    ensures r == [] || r[|r| - 1] != c
  {
    if s != [] && s[|s| - 1] == c then TrimEnd(s[..|s| - 1], c) else s
  }

  /** What `TrimEnd` drops is a run of `c`, and what it keeps a prefix. */
  lemma {:induction false} TrimEndShape(s: string, c: char)
    ensures TrimEnd(s, c) == s[..|TrimEnd(s, c)|]
    ensures forall j :: |TrimEnd(s, c)| <= j < |s| ==> s[j] == c
  {
    if s != [] && s[|s| - 1] == c {
      TrimEndShape(s[..|s| - 1], c);
    }
  }

  /** `string.TrimStart(char)`: drops every leading `c`. */
  function TrimStart(s: string, c: char): (r: string)
    ensures |r| <= |s|
    ensures r == [] || r[0] != c
  {
    if s != [] && s[0] == c then TrimStart(s[1..], c) else s
  }

  /** What `TrimStart` drops is a run of `c`, and what it keeps a suffix. */
  lemma {:induction false} TrimStartShape(s: string, c: char)
    ensures TrimStart(s, c) == s[|s| - |TrimStart(s, c)|..]
    ensures forall j :: 0 <= j < |s| - |TrimStart(s, c)| ==> s[j] == c
  {
    if s != [] && s[0] == c {
      TrimStartShape(s[1..], c);
    }
  }

  // ---------------------------------------------------------------------
  // Decimal text of a long (long.ToString) and its parser (long.TryParse)
  // ---------------------------------------------------------------------

  predicate IsDigit(c: char) {
    '0' <= c <= '9'
  }

  predicate AllDigits(s: string) {
    forall i :: 0 <= i < |s| ==> IsDigit(s[i])
  }

  function DigitChar(d: nat): (c: char)
    requires d < 10
    ensures IsDigit(c)
  {
    (d + '0' as int) as char
  }

  /** The value of a run of ASCII digits, most significant first. */
  function DigitsValue(ds: string): nat
    requires AllDigits(ds)
  {
    if ds == [] then 0
    else DigitsValue(ds[..|ds| - 1]) * 10 + (ds[|ds| - 1] as int - '0' as int)
  }

  /** The shortest decimal text of a natural number. */
  function NaturalText(n: nat): (r: string)
    ensures |r| > 0 && AllDigits(r)
  {
    if n < 10 then [DigitChar(n)] else NaturalText(n / 10) + [DigitChar(n % 10)]
  }

  /** `long.ToString()`: an optional '-' followed by the shortest digits. */
  function DecimalText(n: int): (r: string)
    ensures |r| > 0
  {
    if n < 0 then "-" + NaturalText(-n) else NaturalText(n)
  }

  lemma {:induction false} NaturalTextValue(n: nat)
    ensures DigitsValue(NaturalText(n)) == n
  {
    if n >= 10 {
      var r := NaturalText(n);
      NaturalTextValue(n / 10);
      assert r[..|r| - 1] == NaturalText(n / 10);
    }
  }

  /** The white space `NumberStyles.Integer` admits around a number. */
  predicate IsNumberWhite(c: char) {
    c == ' ' || '\U{9}' <= c <= '\U{D}'
  }

  function TrimNumberWhite(s: string): string {
    if s != [] && IsNumberWhite(s[0]) then TrimNumberWhite(s[1..])
    else if s != [] && IsNumberWhite(s[|s| - 1]) then TrimNumberWhite(s[..|s| - 1])
    else s
  }

  /** `long.TryParse(s, out v)` with the default number style: optional white
      space around an optional sign and one or more ASCII digits whose value
      fits in a long. */
  function ParseInt64(s: string): Option<int64> {
    var t := TrimNumberWhite(s);
    var signed := |t| > 0 && (t[0] == '-' || t[0] == '+');
    var digits := if signed then t[1..] else t;
    if digits == [] || !AllDigits(digits) then None
    else
      var magnitude: int := DigitsValue(digits);
      var v := if signed && t[0] == '-' then -magnitude else magnitude;
      if InInt64Range(v) then Some(v) else None
  }

  /** Parsing the text `long.ToString` produces gives the number back. */
  lemma DecimalTextRoundTrip(n: int64)
    ensures ParseInt64(DecimalText(n)) == Some(n)
  {
    var r := DecimalText(n);
    var m: int := n;
    assert TrimNumberWhite(r) == r;
    if m < 0 {
      NaturalTextValue(-m);
      assert r[1..] == NaturalText(-m);
    } else {
      NaturalTextValue(n);
    }
  }

  /** Distinct numbers have distinct decimal texts. */
  lemma DecimalTextInjective(m: int, n: int)
    requires DecimalText(m) == DecimalText(n)
    ensures m == n
  {
    var t := DecimalText(m);
    if m < 0 {
      assert t[0] == '-';
      assert n < 0 by { assert !IsDigit(t[0]); }
      assert t[1..] == NaturalText(-m) == NaturalText(-n);
      NaturalTextValue(-m);
      NaturalTextValue(-n);
    } else {
      assert IsDigit(t[0]);
      assert n >= 0;
      NaturalTextValue(m);
      NaturalTextValue(n);
    }
  }
}
