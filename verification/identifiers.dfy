/**
 * SemVer identifiers (SemVer.kt, `Id`, `AlphanumericId`, `NumericId`):
 * their construction-time validation, the `Id.parse` classifier, and their
 * three-way comparison and equality.
 */
module Identifiers {
  import opened Wrappers

  /** The largest value of Kotlin's `ULong`, 2^64 - 1. */
  const ULONG_MAX: nat := 0xFFFF_FFFF_FFFF_FFFF

  predicate IsDigit(c: char) { '0' <= c <= '9' }

  predicate IsDigits(s: string) { forall i :: 0 <= i < |s| ==> IsDigit(s[i]) }

  /** The regular-expression class `[0-9A-Za-z-]`. */
  predicate IsIdentifierChar(c: char) { IsDigit(c) || 'A' <= c <= 'Z' || 'a' <= c <= 'z' || c == '-' }

  predicate IsIdentifierText(s: string) { forall i :: 0 <= i < |s| ==> IsIdentifierChar(s[i]) }

  /** More than one character and a `0` in front. */
  predicate HasLeadingZero(s: string) { |s| > 1 && s[0] == '0' }

  /** What a constructed `NumericId` holds: matches `\d+`. */
  type NumericText = s: string | |s| > 0 && IsDigits(s) witness "0"

  /** What a constructed `AlphanumericId` holds: matches `[0-9A-Za-z-]+`. */
  type AlphanumericText = s: string | |s| > 0 && IsIdentifierText(s) witness "a"

  /** An identifier keeps the text it was built from; rendering emits exactly that text. */
  datatype Id = NumericId(digits: NumericText) | AlphanumericId(text: AlphanumericText)
  {
    /** `toString`: the stored text, never reformatted. */
    function ToString(): string
    {
      match this
      case NumericId(d) => d
      case AlphanumericId(t) => t
    }
  }

  /** The `require` failures of the identifier constructors. */
  datatype IdError =
    | EmptyIdentifier        // "Identifier MUST NOT be empty"
    | NotAlphanumeric        // "Identifier MUST comprise only ASCII alphanumerics and hyphens"
    | NotNonNegativeInteger  // "Numeric identifier MUST be a non-negative integer"
    | LeadingZeroes          // "Numeric identifier MUST NOT include leading zeroes"

  /** The decimal value of a digit string. */
  function DigitsValue(s: string): nat
    requires IsDigits(s)
  {
    if |s| == 0 then 0 else DigitsValue(s[..|s| - 1]) * 10 + (s[|s| - 1] as int - '0' as int)
  }

  /** A leading `0` does not change the value, so `"001"` and `"1"` denote the same number. */
  lemma {:induction false} DigitsValueLeadingZero(s: string)
    requires IsDigits(s)
    ensures IsDigits("0" + s) && DigitsValue("0" + s) == DigitsValue(s)
  {
    var t := "0" + s;
    if |s| > 0 {
      assert t[..|t| - 1] == "0" + s[..|s| - 1];
      DigitsValueLeadingZero(s[..|s| - 1]);
    }
  }

  /**
   * Kotlin's `String.toULong()`, with `None` for the NumberFormatException:
   * an optional `+` sign, then at least one decimal digit, and a value that fits in 64 bits.
   */
  function ToULong(s: string): (r: Option<nat>)
    ensures r.Some? ==> r.value <= ULONG_MAX
    ensures r.Some? ==> |s| > 0 && (IsDigits(s) || s[0] == '+')
    ensures |s| > 0 && IsDigits(s) ==> (r.Some? <==> DigitsValue(s) <= ULONG_MAX)
    ensures |s| > 0 && IsDigits(s) && r.Some? ==> r.value == DigitsValue(s)
    ensures |s| > 1 && s[0] == '+' && IsDigits(s[1..]) ==> (r.Some? <==> DigitsValue(s[1..]) <= ULONG_MAX)
    ensures |s| > 1 && s[0] == '+' && IsDigits(s[1..]) && r.Some? ==> r.value == DigitsValue(s[1..])
  {
    var digits := if |s| > 1 && s[0] == '+' then s[1..] else s;
    if |digits| > 0 && IsDigits(digits) && DigitsValue(digits) <= ULONG_MAX
    then Some(DigitsValue(digits))
    else None
  }

  /** The `NumericId(value, allowLeadingZeroes)` constructor with its validation. */
  function NewNumericId(value: string, allowLeadingZeroes: bool): (r: Result<Id, IdError>)
    ensures r.Ok? <==> |value| > 0 && IsDigits(value) && (allowLeadingZeroes || !HasLeadingZero(value))
    ensures r.Ok? ==> r.value.NumericId? && r.value.ToString() == value
    ensures r.Err? && value == "" ==> r.error == EmptyIdentifier
    ensures r.Err? && value != "" && IsDigits(value) ==> r.error == LeadingZeroes
    ensures value != "" && !IsDigits(value) ==> r == Err(NotNonNegativeInteger)
  {
    if |value| == 0 then Err(EmptyIdentifier)
    else if !IsDigits(value) then Err(NotNonNegativeInteger)
    else if !allowLeadingZeroes && |value| > 1 && value[0] == '0' then Err(LeadingZeroes)
    else Ok(NumericId(value))
  }

  /** The `AlphanumericId(value)` constructor with its validation. */
  function NewAlphanumericId(value: string): (r: Result<Id, IdError>)
    ensures r.Ok? <==> |value| > 0 && IsIdentifierText(value)
    ensures r.Ok? ==> r.value.AlphanumericId? && r.value.ToString() == value
    ensures r.Err? && value == "" ==> r.error == EmptyIdentifier
    ensures value != "" && !IsIdentifierText(value) ==> r == Err(NotAlphanumeric)
  {
    if |value| == 0 then Err(EmptyIdentifier)
    else if !IsIdentifierText(value) then Err(NotAlphanumeric)
    else Ok(AlphanumericId(value))
  }

  /** A digit string within the 64-bit range: what `Id.parse` turns into a numeric identifier. */
  predicate IsULongDigits(s: string) { |s| > 0 && IsDigits(s) && DigitsValue(s) <= ULONG_MAX }

  /** A `+` sign followed by such digits: `toULong` accepts it, but it is no numeric identifier. */
  predicate IsSignedULongDigits(s: string) { |s| > 1 && s[0] == '+' && IsULongDigits(s[1..]) }

  /**
   * `Id.parse(str, allowLeadingZeroes)`: a string that `toULong` accepts becomes a
   * NumericId (with its validation), anything else an AlphanumericId (with its validation).
   */
  function ParseId(s: string, allowLeadingZeroes: bool): (r: Result<Id, IdError>)
    ensures r.Ok? ==> r.value.ToString() == s
    ensures r.Ok? ==> (r.value.NumericId? <==> IsULongDigits(s))
    ensures r.Ok? <==> |s| > 0 && IsIdentifierText(s) && !(IsULongDigits(s) && HasLeadingZero(s) && !allowLeadingZeroes)
    ensures s == "" ==> r == Err(EmptyIdentifier)
    ensures IsULongDigits(s) && HasLeadingZero(s) && !allowLeadingZeroes ==> r == Err(LeadingZeroes)
    ensures IsSignedULongDigits(s) ==> r == Err(NotNonNegativeInteger)
    ensures r.Err? && s != "" && !IsULongDigits(s) && !IsSignedULongDigits(s) ==> r.error == NotAlphanumeric
  {
    if ToULong(s).Some? then NewNumericId(s, allowLeadingZeroes) else NewAlphanumericId(s)
  }

  /**
   * A digit string beyond the 64-bit range is not rejected: `toULong` fails, and the
   * text is accepted as an alphanumeric identifier, whatever the leading-zero policy.
   */
  lemma OverRangeDigitsAreAlphanumeric(s: string, allowLeadingZeroes: bool)
    requires |s| > 0 && IsDigits(s) && DigitsValue(s) > ULONG_MAX
    ensures ParseId(s, allowLeadingZeroes) == Ok(AlphanumericId(s))
  {
    assert IsIdentifierText(s) by {
      forall i | 0 <= i < |s| ensures IsIdentifierChar(s[i]) { assert IsDigit(s[i]); }
    }
  }

  /**
   * Classifies each text in order with `Id.parse`;
   * the first failure is the result.
   */
  function ParseIdList(texts: seq<string>, allowLeadingZeroes: bool): (r: Result<seq<Id>, IdError>)
    ensures r.Ok? <==> forall i :: 0 <= i < |texts| ==> ParseId(texts[i], allowLeadingZeroes).Ok?
    ensures r.Ok? ==> |r.value| == |texts|
    ensures r.Ok? ==> forall i :: 0 <= i < |texts| ==> ParseId(texts[i], allowLeadingZeroes) == Ok(r.value[i])
    ensures r.Err? ==> exists i :: 0 <= i < |texts| && ParseId(texts[i], allowLeadingZeroes) == Err(r.error) &&
                         forall j :: 0 <= j < i ==> ParseId(texts[j], allowLeadingZeroes).Ok?
  {
    if |texts| == 0 then Ok([])
    else
      var n := |texts| - 1;
      assert forall i :: 0 <= i < n ==> texts[..n][i] == texts[i];
      match ParseIdList(texts[..n], allowLeadingZeroes)
      case Err(e) => Err(e)
      case Ok(ids) =>
        match ParseId(texts[n], allowLeadingZeroes)
        case Err(e) => Err(e)
        case Ok(id) => Ok(ids + [id])
  }

  /** Classifying one more text extends the list, or stops at that text's error. */
  lemma ParseIdListSnoc(texts: seq<string>, i: nat, allowLeadingZeroes: bool)
    requires i < |texts|
    ensures ParseIdList(texts[..i + 1], allowLeadingZeroes) ==
      match ParseIdList(texts[..i], allowLeadingZeroes)
      case Err(e) => Err(e)
      case Ok(ids) =>
        match ParseId(texts[i], allowLeadingZeroes)
        case Err(e) => Err(e)
        case Ok(id) => Ok(ids + [id])
  {
    assert texts[..i + 1][..i] == texts[..i];
  }

  /** The first text that fails decides the error of the whole list. */
  lemma FirstFailureDecides(texts: seq<string>, i: nat, allowLeadingZeroes: bool)
    requires i < |texts|
    requires ParseIdList(texts[..i], allowLeadingZeroes).Ok?
    requires ParseId(texts[i], allowLeadingZeroes).Err?
    ensures ParseIdList(texts, allowLeadingZeroes) == Err(ParseId(texts[i], allowLeadingZeroes).error)
  {
    assert forall j :: 0 <= j < i ==> texts[..i][j] == texts[j];
    var r := ParseIdList(texts, allowLeadingZeroes);
    assert r.Err?;
    var k :| 0 <= k < |texts| && ParseId(texts[k], allowLeadingZeroes) == Err(r.error) &&
             forall j :: 0 <= j < k ==> ParseId(texts[j], allowLeadingZeroes).Ok?;
    assert k == i;
  }

  /** The texts of a list of identifiers, as `toString` gives them. */
  function Texts(ids: seq<Id>): (r: seq<string>)
    ensures |r| == |ids| && forall i :: 0 <= i < |ids| ==> r[i] == ids[i].ToString()
  {
    if |ids| == 0 then [] else [ids[0].ToString()] + Texts(ids[1..])
  }

  /** Three-way comparison of two numbers, as ULong.compareTo and Int.compareTo give it. */
  function CompareNat(x: int, y: int): int
  {
    if x < y then -1 else if x > y then 1 else 0
  }

  /**
   * `String.compareTo`: ASCII (code-unit) lexical order; at the first differing
   * position the smaller character decides, otherwise the shorter string is lower.
   * Only the sign is modelled.
   */
  function CompareStrings(a: string, b: string): (r: int)
    ensures -1 <= r <= 1
  {
    if |a| == 0 || |b| == 0 then CompareNat(|a|, |b|)
    else if a[0] < b[0] then -1
    else if a[0] > b[0] then 1
    else CompareStrings(a[1..], b[1..])
  }

  /** Textbook lexicographic order: a proper prefix, or a smaller character at the first difference. */
  ghost predicate LexicallyBefore(a: string, b: string)
  {
    (|a| < |b| && a == b[..|a|]) ||
    exists k :: 0 <= k < |a| && k < |b| && a[..k] == b[..k] && a[k] < b[k]
  }

  /** Past a common first character, lexicographic order is decided by the rests. */
  lemma LexicallyBeforeTail(a: string, b: string)
    requires |a| > 0 && |b| > 0 && a[0] == b[0]
    ensures LexicallyBefore(a, b) <==> LexicallyBefore(a[1..], b[1..])
  {
    if LexicallyBefore(a, b) {
      LexicallyBeforeDropsHead(a, b);
    }
    if LexicallyBefore(a[1..], b[1..]) {
      LexicallyBeforeAddsHead(a, b);
    }
  }

  lemma LexicallyBeforeDropsHead(a: string, b: string)
    requires |a| > 0 && |b| > 0 && a[0] == b[0] && LexicallyBefore(a, b)
    ensures LexicallyBefore(a[1..], b[1..])
  {
    if |a| < |b| && a == b[..|a|] {
      assert a[1..] == b[1..][..|a| - 1];
    } else {
      var k :| 0 <= k < |a| && k < |b| && a[..k] == b[..k] && a[k] < b[k];
      assert k > 0;
      assert a[1..][..k - 1] == a[..k][1..] == b[..k][1..] == b[1..][..k - 1];
      assert a[1..][k - 1] < b[1..][k - 1];
    }
  }

  lemma LexicallyBeforeAddsHead(a: string, b: string)
    requires |a| > 0 && |b| > 0 && a[0] == b[0] && LexicallyBefore(a[1..], b[1..])
    ensures LexicallyBefore(a, b)
  {
    if |a| - 1 < |b| - 1 && a[1..] == b[1..][..|a| - 1] {
      assert a == [a[0]] + a[1..] && b[..|a|] == [b[0]] + b[1..][..|a| - 1];
    } else {
      var k :| 0 <= k < |a| - 1 && k < |b| - 1 && a[1..][..k] == b[1..][..k] && a[1..][k] < b[1..][k];
      assert a[..k + 1] == [a[0]] + a[1..][..k] && b[..k + 1] == [b[0]] + b[1..][..k];
      assert a[k + 1] < b[k + 1];
    }
  }

  /** String comparison is the textbook lexicographic order. */
  lemma {:induction false} CompareStringsIsLexicographic(a: string, b: string)
    ensures CompareStrings(a, b) < 0 <==> LexicallyBefore(a, b)
  {
    if |a| == 0 || |b| == 0 {
    } else if a[0] < b[0] {
      assert a[..0] == b[..0];
    } else if a[0] > b[0] {
      forall k | 0 < k <= |a| && k <= |b| ensures a[..k] != b[..k] {
        assert a[..k][0] != b[..k][0];
      }
      assert a[..|a|] == a;
    } else {
      CompareStringsIsLexicographic(a[1..], b[1..]);
      LexicallyBeforeTail(a, b);
    }
  }

  lemma {:induction false} CompareStringsAntisymmetric(a: string, b: string)
    ensures CompareStrings(a, b) == -CompareStrings(b, a)
  {
    if |a| > 0 && |b| > 0 && a[0] == b[0] {
      CompareStringsAntisymmetric(a[1..], b[1..]);
    }
  }

  lemma {:induction false} CompareStringsZero(a: string, b: string)
    ensures CompareStrings(a, b) == 0 <==> a == b
  {
    if |a| > 0 && |b| > 0 && a[0] == b[0] {
      CompareStringsZero(a[1..], b[1..]);
      assert a == [a[0]] + a[1..] && b == [b[0]] + b[1..];
    }
  }

  /** Transitivity of "at most", strict as soon as one step is strict. */
  lemma {:induction false} CompareStringsTransitive(a: string, b: string, c: string)
    requires CompareStrings(a, b) <= 0 && CompareStrings(b, c) <= 0
    ensures CompareStrings(a, c) <= 0
    ensures CompareStrings(a, c) == 0 ==> CompareStrings(a, b) == 0 && CompareStrings(b, c) == 0
  {
    if |a| > 0 && |b| > 0 && |c| > 0 && a[0] == b[0] == c[0] {
      CompareStringsTransitive(a[1..], b[1..], c[1..]);
    }
  }

  /**
   * `Id.compareTo`: every numeric identifier is below every alphanumeric one;
   * numerics compare by value, alphanumerics in ASCII lexical order.
   */
  function CompareIds(a: Id, b: Id): int
  {
    match (a, b)
    case (NumericId(x), NumericId(y)) => CompareNat(DigitsValue(x), DigitsValue(y))
    case (NumericId(_), AlphanumericId(_)) => -1
    case (AlphanumericId(_), NumericId(_)) => 1
    case (AlphanumericId(x), AlphanumericId(y)) => CompareStrings(x, y)
  }

  /** `Id.equals`, written separately in the source: same variant and same value. */
  predicate IdEquals(a: Id, b: Id)
  {
    match (a, b)
    case (NumericId(x), NumericId(y)) => DigitsValue(x) == DigitsValue(y)
    case (AlphanumericId(x), AlphanumericId(y)) => x == y
    case _ => false
  }

  /** `equals` and `compareTo` agree: two identifiers are equal exactly when they compare as 0. */
  lemma CompareIdsAgreesWithEquals(a: Id, b: Id)
    ensures CompareIds(a, b) == 0 <==> IdEquals(a, b)
  {
    if a.AlphanumericId? && b.AlphanumericId? {
      CompareStringsZero(a.text, b.text);
    }
  }

  lemma CompareIdsAntisymmetric(a: Id, b: Id)
    ensures CompareIds(a, b) == -CompareIds(b, a)
    ensures -1 <= CompareIds(a, b) <= 1
  {
    if a.AlphanumericId? && b.AlphanumericId? {
      CompareStringsAntisymmetric(a.text, b.text);
    }
  }

  lemma CompareIdsReflexive(a: Id)
    ensures CompareIds(a, a) == 0
  {
    CompareIdsAgreesWithEquals(a, a);
  }

  lemma CompareIdsTransitive(a: Id, b: Id, c: Id)
    requires CompareIds(a, b) <= 0 && CompareIds(b, c) <= 0
    ensures CompareIds(a, c) <= 0
    ensures CompareIds(a, c) == 0 ==> CompareIds(a, b) == 0 && CompareIds(b, c) == 0
  {
    if a.AlphanumericId? && b.AlphanumericId? && c.AlphanumericId? {
      CompareStringsTransitive(a.text, b.text, c.text);
    }
  }

  /** Identifiers that compare as 0 are interchangeable on either side of a comparison. */
  lemma CompareIdsZeroCongruent(a: Id, b: Id, c: Id)
    requires CompareIds(a, b) == 0
    ensures CompareIds(a, c) == CompareIds(b, c)
    ensures CompareIds(c, a) == CompareIds(c, b)
  {
    CompareIdsAgreesWithEquals(a, b);
    if a.AlphanumericId? {
      CompareStringsZero(a.text, b.text);
    }
  }

  /** The cross-variant rule: numeric identifiers have lower precedence. */
  lemma NumericBelowAlphanumeric(a: Id, b: Id)
    requires a.NumericId? && b.AlphanumericId?
    ensures CompareIds(a, b) < 0 && CompareIds(b, a) > 0
    ensures !IdEquals(a, b)
  {
  }

  /** The comparisons the source's documentation and tests spell out. */
  lemma IdentifierExamples()
    ensures ParseId("001", true) == Ok(NumericId("001"))
    ensures ParseId("001", false) == Err(LeadingZeroes)
    ensures ParseId("01", false) == Err(LeadingZeroes)
    ensures ParseId("0", false) == Ok(NumericId("0"))
    ensures ParseId("b10", false) == Ok(AlphanumericId("b10"))
  {
    DigitsValueLeadingZero("01");
    DigitsValueLeadingZero("1");
    assert "0" + "01" == "001" && "0" + "1" == "01";
  }

  /** Precedence of single identifiers: numeric by value, alphanumeric by characters. */
  lemma IdComparisonExamples()
    ensures CompareIds(NumericId("001"), NumericId("1")) == 0 && IdEquals(NumericId("001"), NumericId("1"))
    ensures CompareIds(AlphanumericId("b10"), AlphanumericId("b9")) < 0
    ensures CompareIds(NumericId("2"), NumericId("11")) < 0
  {
    DigitsValueLeadingZero("01");
    DigitsValueLeadingZero("1");
    assert "0" + "01" == "001" && "0" + "1" == "01";
    assert DigitsValue("11") == 11;
  }

  /** Texts the constructors reject, with the reason each gives. */
  lemma RejectedIdentifierExamples()
    ensures ParseId("a&^", false) == Err(NotAlphanumeric) && ParseId("a&^", true) == Err(NotAlphanumeric)
    ensures ParseId("", false) == Err(EmptyIdentifier) && ParseId("", true) == Err(EmptyIdentifier)
    ensures NewNumericId("&", false) == Err(NotNonNegativeInteger)
  {
    assert !IsDigit("a&^"[0]) && !IsIdentifierChar("a&^"[1]);
    assert !IsDigit("&"[0]);
  }
}
