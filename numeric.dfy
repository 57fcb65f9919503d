/** Table cells and pandas' `pd.to_numeric(..., errors='coerce')`. */
module Numeric {
  import opened Wrappers
  import opened Strings

  /** A cell as read from SQLite or a CSV file: NULL/NaN, a number, or text. */
  datatype Cell = Missing | Number(x: real) | Text(s: string)

  /** The blanks the numeric parser skips around a number. */
  const AsciiBlanks: set<char> := {' ', '\t', '\n', '\r', '\U{000B}', '\U{000C}'}

  const Signs: set<char> := {'+', '-'}

  const ExponentMarks: set<char> := {'e', 'E'}

  function Pow10(n: nat): (p: real)
    ensures p >= 1.0
  {
    if n == 0 then 1.0 else 10.0 * Pow10(n - 1)
  }

  /** Digits with at most one decimal point and at least one digit: `12`, `12.5`, `.5`, `12.`. */
  function ParseUnsigned(s: string): (r: Option<real>)
    ensures r.Some? ==> r.value >= 0.0
  {
    match IndexOfAny(s, {'.'})
    case None =>
      if s != [] && AllDigits(s) then Some(DecimalValue(s) as real) else None
    case Some(dot) =>
      var whole, frac := s[..dot], s[dot + 1..];
      if AllDigits(whole) && AllDigits(frac) && |whole| + |frac| > 0
      then Some(DecimalFraction(whole, frac))
      else None
  }

  /** The value of `whole.frac`. */
  function DecimalFraction(whole: string, frac: string): (v: real)
    requires AllDigits(whole) && AllDigits(frac)
    ensures v >= 0.0
  {
    DecimalValue(whole) as real + DecimalValue(frac) as real / Pow10(|frac|)
  }

  /** An optional `+` or `-` followed by an unsigned decimal. */
  function ParseSigned(s: string): Option<real> {
    if s != [] && s[0] in Signs then
      match ParseUnsigned(s[1..])
      case Some(v) => Some(if s[0] == '-' then -v else v)
      case None => None
    else ParseUnsigned(s)
  }

  /** A mantissa needs a digit. */
  lemma SignedNeedsDigit(s: string)
    requires forall k :: 0 <= k < |s| ==> !IsDigit(s[k])
    ensures ParseSigned(s) == None
  {
    if s != [] && s[0] in Signs {
      UnsignedNeedsDigit(s[1..]);
    } else {
      UnsignedNeedsDigit(s);
    }
  }

  lemma UnsignedNeedsDigit(s: string)
    requires forall k :: 0 <= k < |s| ==> !IsDigit(s[k])
    ensures ParseUnsigned(s) == None
  {
    match IndexOfAny(s, {'.'})
    case None =>
      if s != [] { assert !IsDigit(s[0]); }
    case Some(dot) =>
      if dot > 0 { assert !IsDigit(s[..dot][0]); }
      if dot + 1 < |s| { assert !IsDigit(s[dot + 1..][0]); }
  }

  /** An optionally signed whole exponent. */
  function ParseExponent(s: string): Option<int> {
    var magnitude := if s != [] && s[0] in Signs then s[1..] else s;
    if magnitude != [] && AllDigits(magnitude) then
      var k: int := DecimalValue(magnitude);
      Some(if s[0] == '-' then -k else k)
    else None
  }

  function Scale(m: real, e: int): real {
    if e >= 0 then m * Pow10(e) else m / Pow10(-e)
  }

  /** The finite decimal numerals pandas accepts: blanks, an optional sign, a decimal
      mantissa and an optional exponent `e`/`E`. pandas also reads spellings of infinity
      and NaN (`inf`, `-inf`, `Infinity`, `nan`) as floats; cells here hold reals, so
      this model treats those texts as not numeric. */
  function ParseNumber(text: string): Option<real> {
    ParseTrimmed(Strip(text, AsciiBlanks))
  }

  /** A mantissa with an optional exponent, without surrounding blanks. */
  function ParseTrimmed(t: string): Option<real> {
    match IndexOfAny(t, ExponentMarks)
    case None => ParseSigned(t)
    case Some(i) =>
      match ParseSigned(t[..i])
      case None => None
      case Some(m) =>
        match ParseExponent(t[i + 1..])
        case None => None
        case Some(k) => Some(Scale(m, k))
  }

  lemma TrimmedNeedsDigit(t: string)
    requires forall k :: 0 <= k < |t| ==> !IsDigit(t[k])
    ensures ParseTrimmed(t) == None
  {
    match IndexOfAny(t, ExponentMarks)
    case None =>
      SignedNeedsDigit(t);
    case Some(i) =>
      assert forall k :: 0 <= k < i ==> t[..i][k] == t[k];
      SignedNeedsDigit(t[..i]);
  }

  /** Text without a single digit never converts to a finite number (pandas turns the
      digit-free spellings of infinity into floats; those are outside this model). */
  lemma NumberNeedsDigit(text: string)
    requires forall k :: 0 <= k < |text| ==> !IsDigit(text[k])
    ensures ParseNumber(text) == None
  {
    var t := Strip(text, AsciiBlanks);
    StripKeepsCharacters(text, AsciiBlanks);
    TrimmedNeedsDigit(t);
  }

  /** `pd.to_numeric(cell, errors='coerce')`: NULL stays NULL, numbers pass through,
      and text becomes a number only when it spells one; any other text becomes NULL,
      never zero and never an error. */
  function ToNumeric(c: Cell): (r: Option<real>)
    ensures c.Missing? ==> r == None
    ensures c.Number? ==> r == Some(c.x)
    ensures c.Text? && r.Some? ==> exists k :: 0 <= k < |c.s| && IsDigit(c.s[k])
  {
    match c
    case Missing => None
    case Number(x) => Some(x)
    case Text(s) =>
      if forall k :: 0 <= k < |s| ==> !IsDigit(s[k]) then NumberNeedsDigit(s); None
      else ParseNumber(s)
  }

  /** A digit string holds no decimal point, blank or exponent mark. */
  lemma DigitsHaveNoPoint(s: string)
    requires AllDigits(s)
    ensures IndexOfAny(s, {'.'}) == None
  {
    NothingToStrip(s, {'.'});
  }

  lemma DigitsHaveNoBlanks(s: string)
    requires AllDigits(s)
    ensures Strip(s, AsciiBlanks) == s
  {
    NothingToStrip(s, AsciiBlanks);
  }

  lemma DigitsHaveNoExponent(s: string)
    requires AllDigits(s)
    ensures IndexOfAny(s, ExponentMarks) == None
  {
    NothingToStrip(s, ExponentMarks);
  }

  /** Digit strings are unsigned decimals with their own value. */
  lemma UnsignedDigits(s: string)
    requires s != [] && AllDigits(s)
    ensures ParseUnsigned(s) == Some(DecimalValue(s) as real)
  {
    DigitsHaveNoPoint(s);
  }

  lemma SignedDigits(s: string)
    requires s != [] && AllDigits(s)
    ensures ParseSigned(s) == Some(DecimalValue(s) as real)
  {
    UnsignedDigits(s);
    assert IsDigit(s[0]);
  }

  /** The text `str(n)` of a whole number converts back to that number. */
  lemma ParseWholeNumber(n: nat)
    ensures ToNumeric(Text(DecimalString(n))) == Some(n as real)
  {
    var s := DecimalString(n);
    DigitsHaveNoBlanks(s);
    DigitsHaveNoExponent(s);
    SignedDigits(s);
    assert IsDigit(s[0]);
    assert ParseNumber(s) == Some(n as real);
  }

  /** A minus sign followed by digits converts to the negated value of the digits. */
  lemma NegativeText(s: string)
    requires s != [] && AllDigits(s)
    ensures ToNumeric(Text("-" + s)) == Some(-(DecimalValue(s) as real))
  {
    NegativeNumber(s);
    var m := "-" + s;
    assert m[1] == s[0];
    TextWithDigit(m, 1);
  }

  lemma NegativeNumber(s: string)
    requires s != [] && AllDigits(s)
    ensures ParseNumber("-" + s) == Some(-(DecimalValue(s) as real))
  {
    NegativeHasNoBlanks(s);
    NegativeTrimmed(s);
  }

  lemma NegativeTrimmed(s: string)
    requires s != [] && AllDigits(s)
    ensures ParseTrimmed("-" + s) == Some(-(DecimalValue(s) as real))
  {
    NegativeHasNoExponent(s);
    NegativeDigits(s);
  }

  lemma TextWithDigit(s: string, k: nat)
    requires k < |s| && IsDigit(s[k])
    ensures ToNumeric(Text(s)) == ParseNumber(s)
  {
  }

  lemma NegativeDigits(s: string)
    requires s != [] && AllDigits(s)
    ensures ParseSigned("-" + s) == Some(-(DecimalValue(s) as real))
  {
    var m := "-" + s;
    assert m[1..] == s;
    UnsignedDigits(s);
  }

  lemma NegativeHasNoBlanks(s: string)
    requires AllDigits(s)
    ensures Strip("-" + s, AsciiBlanks) == "-" + s
  {
    var m := "-" + s;
    forall k | 0 <= k < |m| ensures m[k] !in AsciiBlanks {
      if k > 0 { assert m[k] == s[k - 1]; }
    }
    NothingToStrip(m, AsciiBlanks);
  }

  lemma NegativeHasNoExponent(s: string)
    requires AllDigits(s)
    ensures IndexOfAny("-" + s, ExponentMarks) == None
  {
    var m := "-" + s;
    forall k | 0 <= k < |m| ensures m[k] !in ExponentMarks {
      if k > 0 { assert m[k] == s[k - 1]; }
    }
    NothingToStrip(m, ExponentMarks);
  }
}
