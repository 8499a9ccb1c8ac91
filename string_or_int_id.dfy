/** `StringOrIntId` (Scorebini/Data/StringOrIntId.cs): an id that holds
    either text or a `long`, compared across the two variants through the
    decimal text of the number, and the JSON converter that promotes
    numeric text to the number variant. */
module StringOrIntIds {
  import opened Base
  import opened Text

  datatype IdType = String | Int

  /** The struct's three constructors leave exactly one of the two payloads
      meaningful, so the id is a two-variant value. `StringId(None)` is the
      null id the parameterless constructor produces. */
  datatype StringOrIntId = StringId(stringVal: Option<string>) | IntId(intVal: int64)

  const NullId: StringOrIntId := StringId(None)

  function Type(id: StringOrIntId): (t: IdType)
    ensures t == String <==> id.StringId?
  {
    if id.StringId? then String else Int
  }

  /** The `StringVal` property: null for a number id. */
  function StringVal(id: StringOrIntId): (r: Option<string>)
    ensures id.StringId? ==> r == id.stringVal
    ensures id.IntId? ==> r == None
  {
    if id.StringId? then id.stringVal else None
  }

  /** The `IntVal` property: 0 for a text id. */
  function IntVal(id: StringOrIntId): (r: int64)
    ensures id.IntId? ==> r == id.intVal
    ensures id.StringId? ==> r == 0
  {
    if id.IntId? then id.intVal else 0
  }

  /** `ToString()`: the text, or the decimal text of the number. */
  function ToString(id: StringOrIntId): (r: Option<string>)
    ensures id.IntId? ==> r == Some(DecimalText(id.intVal))
    ensures id.StringId? ==> r == id.stringVal
  {
    match id
    case StringId(s) => s
    case IntId(n) => Some(DecimalText(n))
  }

  /** `HasValue`: every id except the null id has a value; the empty text
      has one too. */
  function HasValue(id: StringOrIntId): (r: bool)
    ensures r <==> ToString(id).Some?
    ensures !r <==> id == NullId
  {
    id.IntId? || id.stringVal.Some?
  }

  /** `long.CompareTo`. */
  function CompareLong(m: int64, n: int64): (r: int)
    ensures r < 0 <==> m < n
    ensures r == 0 <==> m == n
    ensures r > 0 <==> m > n
  {
    if m < n then -1 else if m == n then 0 else 1
  }

  /** `s.CompareTo(t)` for a non-null `s`: every text sorts after null. */
  function CompareText(s: string, t: Option<string>): (r: int)
    ensures t.None? ==> r == 1
    ensures t.Some? ==> (r == 0 <==> s == t.value)
  {
    if t.None? then 1 else CompareOrdinal(s, t.value)
  }

  /** `s?.CompareTo(t) ?? 1`: a null receiver gives 1. */
  function CompareNullableText(s: Option<string>, t: Option<string>): (r: int)
    ensures s.None? ==> r == 1
  {
    if s.None? then 1 else CompareText(s.value, t)
  }

  /** `CompareTo`. A text id compares its text with the other's text or
      with the number's decimal text; two number ids compare numerically;
      a number id against a text id compares its decimal text. The first
      check asks only whether both `StringVal`s are null, which also holds
      for the null id against any number id. */
  function CompareTo(a: StringOrIntId, b: StringOrIntId): (r: int)
    ensures -1 <= r <= 1
    ensures a.IntId? && b.IntId? ==> (r < 0 <==> a.intVal < b.intVal) && (r == 0 <==> a.intVal == b.intVal)
    ensures a.StringId? && a.stringVal.Some? && b.StringId? && b.stringVal.Some? ==>
              r == CompareOrdinal(a.stringVal.value, b.stringVal.value)
    ensures a.StringId? && a.stringVal.Some? && b.IntId? ==>
              r == CompareOrdinal(a.stringVal.value, DecimalText(b.intVal))
    ensures a.IntId? && b.StringId? && b.stringVal.Some? ==>
              r == CompareOrdinal(DecimalText(a.intVal), b.stringVal.value)
    ensures a == NullId ==> r == (if b == NullId || b.IntId? then 0 else 1)
    ensures a.IntId? && b == NullId ==> r == 1
    ensures a.StringId? && a.stringVal.Some? && b == NullId ==> r == 1
  {
    if Type(a) == String then
      if StringVal(a).None? && StringVal(b).None? then 0
      else if Type(b) == String then CompareNullableText(StringVal(a), StringVal(b))
      else CompareNullableText(StringVal(a), Some(DecimalText(IntVal(b))))
    else if Type(b) == Int then CompareLong(IntVal(a), IntVal(b))
    else CompareText(DecimalText(IntVal(a)), StringVal(b))
  }

  /** `Equals(StringOrIntId)` and `operator ==`: `CompareTo` gives 0. Two ids
      are equal exactly when their texts are equal, and the null id also
      equals every number id. */
  predicate Equals(a: StringOrIntId, b: StringOrIntId)
    ensures Equals(a, b) <==> ToString(a) == ToString(b) || (a == NullId && b.IntId?)
  {
    EqualsCharacterization(a, b);
    CompareTo(a, b) == 0
  }

  lemma EqualsCharacterization(a: StringOrIntId, b: StringOrIntId)
    ensures CompareTo(a, b) == 0 <==> ToString(a) == ToString(b) || (a == NullId && b.IntId?)
  {
    if a.IntId? && b.IntId? && DecimalText(a.intVal) == DecimalText(b.intVal) {
      DecimalTextInjective(a.intVal, b.intVal);
    }
  }

  /** `operator !=`. */
  predicate NotEquals(a: StringOrIntId, b: StringOrIntId)
    ensures NotEquals(a, b) <==> !Equals(a, b)
    ensures NotEquals(a, b) ==> a != b
  {
    !Equals(a, b)
  }

  /** The argument of `Equals(object)`: a boxed id or any other object. */
  datatype Object = BoxedId(id: StringOrIntId) | OtherObject

  /** `Equals(object)`: false for anything that is not an id. */
  predicate EqualsObject(a: StringOrIntId, obj: Object)
    ensures EqualsObject(a, obj) <==> obj.BoxedId? && Equals(a, obj.id)
  {
    match obj
    case BoxedId(id) => Equals(a, id)
    case OtherObject => false
  }

  /** `operator <`. */
  predicate Less(a: StringOrIntId, b: StringOrIntId)
    ensures Less(a, b) ==> !Equals(a, b)
    ensures a.IntId? && b.IntId? ==> (Less(a, b) <==> a.intVal < b.intVal)
  {
    CompareTo(a, b) < 0
  }

  /** `operator <=`. */
  predicate LessOrEqual(a: StringOrIntId, b: StringOrIntId)
    ensures LessOrEqual(a, b) <==> Less(a, b) || Equals(a, b)
    ensures a.IntId? && b.IntId? ==> (LessOrEqual(a, b) <==> a.intVal <= b.intVal)
  {
    CompareTo(a, b) <= 0
  }

  /** `operator >`. */
  predicate Greater(a: StringOrIntId, b: StringOrIntId)
    ensures Greater(a, b) <==> !LessOrEqual(a, b)
    ensures a.IntId? && b.IntId? ==> (Greater(a, b) <==> a.intVal > b.intVal)
  {
    CompareTo(a, b) > 0
  }

  /** `operator >=`. */
  predicate GreaterOrEqual(a: StringOrIntId, b: StringOrIntId)
    ensures GreaterOrEqual(a, b) <==> !Less(a, b)
    ensures a.IntId? && b.IntId? ==> (GreaterOrEqual(a, b) <==> a.intVal >= b.intVal)
  {
    CompareTo(a, b) >= 0
  }

  /** Text "0" and the number 0 are the same id. */
  lemma ZeroTextEqualsZero()
    ensures Equals(StringId(Some("0")), IntId(0))
    ensures Equals(IntId(0), StringId(Some("0")))
  {
    assert DecimalText(0) == "0";
  }

  /** Equality is not symmetric around the null id: it equals the number 5,
      but the number 5 does not equal it. */
  lemma NullIdEqualityAsymmetric()
    ensures CompareTo(NullId, IntId(5)) == 0 && Equals(NullId, IntId(5))
    ensures CompareTo(IntId(5), NullId) == 1 && !Equals(IntId(5), NullId)
  {
  }

  /** With null text against non-null text both directions give 1, so
      `CompareTo` is not antisymmetric either. */
  lemma NullTextCompareNotAntisymmetric()
    ensures CompareTo(NullId, StringId(Some("a"))) == 1
    ensures CompareTo(StringId(Some("a")), NullId) == 1
  {
  }

  /** Mixing numeric and textual order breaks transitivity: 9 < 10 as
      numbers, 10 < "9" as text, and "9" equals 9. */
  lemma CompareToNotTransitive()
    ensures Less(IntId(9), IntId(10))
    ensures Less(IntId(10), StringId(Some("9")))
    ensures Equals(StringId(Some("9")), IntId(9))
  {
    assert DecimalText(10) == "10";
    assert DecimalText(9) == "9";
  }

  // ---------------------------------------------------------------------
  // Hashing
  // ---------------------------------------------------------------------

  /** A value handed to `System.HashCode.Add`. */
  datatype HashField = TagField(tag: IdType) | TextField(text: Option<string>) | LongField(n: int64)

  /** `GetHashCode()`, as the sequence of values it mixes: the variant tag,
      then the text or the number. The seeded mixer itself is left out, so
      equal sequences give equal hash codes. */
  function HashFields(id: StringOrIntId): (r: seq<HashField>)
    ensures |r| == 2 && r[0] == TagField(Type(id))
  {
    match id
    case StringId(s) => [TagField(String), TextField(s)]
    case IntId(n) => [TagField(Int), LongField(n)]
  }

  /** The fields determine the id: two ids feed the same values exactly
      when they are the same variant with the same payload. */
  lemma HashFieldsInjective(a: StringOrIntId, b: StringOrIntId)
    ensures HashFields(a) == HashFields(b) <==> a == b
  {
    if HashFields(a) == HashFields(b) {
      assert HashFields(a)[1] == HashFields(b)[1];
    }
  }

  /** Equal ids of different variants feed different values to the hash,
      so `Equals` does not imply equal hash codes. */
  lemma EqualIdsHashDifferently()
    ensures Equals(StringId(Some("0")), IntId(0))
    ensures HashFields(StringId(Some("0"))) != HashFields(IntId(0))
  {
    assert DecimalText(0) == "0";
  }

  // ---------------------------------------------------------------------
  // Corrected comparison and hash
  // ---------------------------------------------------------------------

  /** Text comparison in which null sorts before every text, as `string`'s
      own comparison treats null. */
  function CompareNullableFixed(s: Option<string>, t: Option<string>): (r: int)
    ensures -1 <= r <= 1
    ensures r == 0 <==> s == t
  {
    match (s, t)
    case (None, None) => 0
    case (None, Some(_)) => -1
    case (Some(_), None) => 1
    case (Some(x), Some(y)) => CompareOrdinal(x, y)
  }

  /** `CompareTo` with the null checks repaired: null text sorts first and
      equals only null text; number ids still compare numerically and
      everything else compares texts. */
  function FixedCompareTo(a: StringOrIntId, b: StringOrIntId): (r: int)
    ensures -1 <= r <= 1
    ensures r == 0 <==> ToString(a) == ToString(b)
    ensures a.IntId? && b.IntId? ==> (r < 0 <==> a.intVal < b.intVal)
  {
    if a.IntId? && b.IntId? then
      if a.intVal == b.intVal then 0
      else
        assert DecimalText(a.intVal) != DecimalText(b.intVal) by {
          if DecimalText(a.intVal) == DecimalText(b.intVal) {
            DecimalTextInjective(a.intVal, b.intVal);
          }
        }
        CompareLong(a.intVal, b.intVal)
    else CompareNullableFixed(ToString(a), ToString(b))
  }

  predicate FixedEquals(a: StringOrIntId, b: StringOrIntId) {
    FixedCompareTo(a, b) == 0
  }

  /** The repaired comparison is antisymmetric for all ids. */
  lemma FixedCompareToAntisymmetric(a: StringOrIntId, b: StringOrIntId)
    ensures FixedCompareTo(a, b) == -FixedCompareTo(b, a)
  {
    if !(a.IntId? && b.IntId?) && ToString(a).Some? && ToString(b).Some? {
      CompareOrdinalAntisymmetric(ToString(a).value, ToString(b).value);
    }
  }

  /** The repaired equality is symmetric, and it agrees with the original
      everywhere except the null id against a number id. */
  lemma FixedEqualsAgrees(a: StringOrIntId, b: StringOrIntId)
    ensures FixedEquals(a, b) <==> FixedEquals(b, a)
    ensures !(a == NullId && b.IntId?) ==> (FixedEquals(a, b) <==> Equals(a, b))
  {
  }

  /** A hash that feeds only the id's text. */
  function FixedHashFields(id: StringOrIntId): (r: seq<HashField>)
    ensures |r| == 1 && r[0].TextField?
  {
    [TextField(ToString(id))]
  }

  /** Ids equal under the repaired comparison get equal hash codes. */
  lemma FixedEqualsHashesEqual(a: StringOrIntId, b: StringOrIntId)
    requires FixedEquals(a, b)
    ensures FixedHashFields(a) == FixedHashFields(b)
  {
  }

  // ---------------------------------------------------------------------
  // The JSON converter
  // ---------------------------------------------------------------------

  /** The reader's current token, as far as the converter inspects it. An
      integer token carries any integer: Newtonsoft reads one outside the
      `long` range as a `BigInteger`. */
  datatype Token = StringToken(text: string) | IntegerToken(value: int) | NullToken | OtherToken

  /** `StringOrIntIdConverter.ReadJson`: numeric text becomes a number id,
      other text a text id, an integer within `long` a number id, and any
      other token the null id. */
  function ReadJson(token: Token): (r: StringOrIntId)
    ensures HasValue(r) <==> token.StringToken? || (token.IntegerToken? && InInt64Range(token.value))
    ensures token.StringToken? ==>
              (r.IntId? <==> ParseInt64(token.text).Some?)
              && (r.StringId? ==> r.stringVal == Some(token.text))
    ensures token.IntegerToken? && InInt64Range(token.value) ==> r == IntId(token.value)
  {
    match token
    case StringToken(s) =>
      var parsed := ParseInt64(s);
      if parsed.Some? then IntId(parsed.value) else StringId(Some(s))
    case IntegerToken(v) =>
      if InInt64Range(v) then IntId(v) else NullId
    case _ => NullId
  }

  /** `StringOrIntIdConverter.WriteJson`: text as a string (null text as
      null), a number as an integer. */
  function WriteJson(id: StringOrIntId): (token: Token)
    ensures id.IntId? ==> token == IntegerToken(id.intVal)
    ensures id.StringId? && id.stringVal.Some? ==> token == StringToken(id.stringVal.value)
    ensures id == NullId ==> token == NullToken
    ensures token.StringToken? ==> Some(token.text) == ToString(id)
  {
    match id
    case StringId(None) => NullToken
    case StringId(Some(s)) => StringToken(s)
    case IntId(n) => IntegerToken(n)
  }

  /** Number ids survive a write and a read with variant and value intact. */
  lemma IntIdRoundTrip(n: int64)
    ensures ReadJson(WriteJson(IntId(n))) == IntId(n)
    ensures Equals(IntId(n), ReadJson(IntegerToken(n)))
  {
  }

  /** Every id survives a write and a read, except text that `long.TryParse`
      accepts, which comes back as a number id. */
  lemma RoundTrip(id: StringOrIntId)
    ensures id.StringId? && id.stringVal.Some? && ParseInt64(id.stringVal.value).Some? ==>
              ReadJson(WriteJson(id)) == IntId(ParseInt64(id.stringVal.value).value)
    ensures !(id.StringId? && id.stringVal.Some? && ParseInt64(id.stringVal.value).Some?) ==>
              ReadJson(WriteJson(id)) == id
  {
  }

  /** The decimal text of every `long` is read back as that number. */
  lemma DecimalTextPromoted(n: int64)
    ensures ReadJson(StringToken(DecimalText(n))) == IntId(n)
    ensures Equals(StringId(Some(DecimalText(n))), ReadJson(StringToken(DecimalText(n))))
  {
    DecimalTextRoundTrip(n);
  }

  /** Reading text gives an id equal to the text id exactly when the text
      does not parse, or is the shortest decimal text of its value. */
  lemma StringReadEqualsText(s: string)
    ensures Equals(StringId(Some(s)), ReadJson(StringToken(s)))
        <==> ParseInt64(s).None? || s == DecimalText(ParseInt64(s).value)
  {
  }

  /** A null string is written as a JSON null and read back as the null id,
      which equals the id built from a null string. */
  lemma NullRoundTrip()
    ensures WriteJson(StringId(None)) == NullToken
    ensures Equals(StringId(None), ReadJson(NullToken))
  {
  }

  /** Text with leading zeros parses but is not its value's decimal text, so
      the id read from it is not equal to the text id. */
  lemma LeadingZerosNotEqual()
    ensures ReadJson(StringToken("007")) == IntId(7)
    ensures !Equals(StringId(Some("007")), ReadJson(StringToken("007")))
  {
    var t := "007";
    assert TrimNumberWhite(t) == t;
    assert t[..2] == "00" && t[..2][..1] == "0" && t[..1] == "0";
    assert DigitsValue(t[..1]) == 0;
    assert DigitsValue(t[..2]) == 0;
    assert DigitsValue(t) == 7;
    assert DecimalText(7) == "7";
  }
}
