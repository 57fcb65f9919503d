/** `DataValidator._extract_fund_info`: the fund name and the month-end date encoded in
    a fund report's file name, and its inner `normalize_date`. */
module FundInfo {
  import opened Wrappers
  import opened Strings

  // ---------------------------------------------------------------------------
  // normalize_date

  /** The exceptions `normalize_date` raises. */
  datatype DateError =
    | ValueError   // a component out of range, or too few values to unpack
    | IndexError   // `others[0]` of an empty list

  /** The month and day after the swap rule: a month above 12 must be the day. */
  function SwapIfMonthTooLarge(month: nat, day: nat): (nat, nat) {
    if month > 12 then (day, month) else (month, day)
  }

  predicate InYearRange(year: int) {
    1900 <= year <= 2100
  }

  predicate ValidMonthDay(month: int, day: int) {
    1 <= month <= 12 && 1 <= day <= 31
  }

  /** The components after the swap rules, before validation. For a year outside
      1900-2100 the largest component, when above 31, is taken as the year and the month
      is the first remaining value that is at most 12. */
  function Arrange(year: nat, month: nat, day: nat): Result<(nat, nat, nat), DateError> {
    if InYearRange(year) then
      var (m, d) := SwapIfMonthTooLarge(month, day);
      Ok((year, m, d))
    else
      var top := Max3(year, month, day);
      if top > 31 then
        var others := Others([year, month, day], top);
        if others == [] then Err(IndexError)
        else if |others| != 2 then Err(ValueError)
        else if others[0] <= 12 then Ok((top, others[0], others[1]))
        else Ok((top, others[1], others[0]))
      else Ok((year, month, day))
  }

  function Max3(a: nat, b: nat, c: nat): (m: nat)
    ensures m == a || m == b || m == c
    ensures a <= m && b <= m && c <= m
  {
    if a >= b && a >= c then a else if b >= c then b else c
  }

  /** `[x for x in candidates if x != year]`. */
  function Others(candidates: seq<nat>, year: nat): (r: seq<nat>)
    ensures |r| <= |candidates|
    ensures forall x :: x in r <==> x in candidates && x != year
  {
    if candidates == [] then []
    else
      var n := |candidates| - 1;
      assert candidates == candidates[..n] + [candidates[n]];
      Others(candidates[..n], year) + (if candidates[n] != year then [candidates[n]] else [])
  }

  /** `f"{year}-{str(month).zfill(2)}-{str(day).zfill(2)}"`. */
  function IsoText(year: nat, month: nat, day: nat): string {
    DecimalString(year) + "-" + ZFill(DecimalString(month), 2) + "-" + ZFill(DecimalString(day), 2)
  }

  /** `normalize_date(parts)` on the integer values of the three captured groups: its
      text, when it returns one, is an ISO date with its year in 1900-2100, a month from
      1 to 12 and a day from 1 to 31. */
  function NormalizeDate(year: nat, month: nat, day: nat): (r: Result<string, DateError>)
    ensures r.Ok? ==> ParseIso(r.value).Some?
    ensures r.Ok? ==> var (y, m, d) := ParseIso(r.value).value; InYearRange(y) && ValidMonthDay(m, d)
  {
    match Arrange(year, month, day)
    case Err(e) => Err(e)
    case Ok((y, m, d)) =>
      if !InYearRange(y) then Err(ValueError)
      else if !(1 <= m <= 12) then Err(ValueError)
      else if !(1 <= d <= 31) then Err(ValueError)
      else
        IsoTextRoundTrip(y, m, d);
        Ok(IsoText(y, m, d))
  }

  /** On groups of at most two digits for the month and the day, `normalize_date`
      succeeds exactly for a year in 1900-2100 and a month and day in range once a month
      above 12 is swapped with the day; there is no days-in-month check. */
  lemma NormalizeDateOutcome(year: nat, month: nat, day: nat)
    requires month < 100 && day < 100
    ensures var (m, d) := SwapIfMonthTooLarge(month, day);
      NormalizeDate(year, month, day).Ok? <==> InYearRange(year) && ValidMonthDay(m, d)
    ensures var (m, d) := SwapIfMonthTooLarge(month, day);
      NormalizeDate(year, month, day).Ok? ==> NormalizeDate(year, month, day).value == IsoText(year, m, d)
  {
    if !InYearRange(year) {
      OutOfRangeYearFails(year, month, day);
    }
  }

  /** The two-digit-year rule never produces a date: the year it picks is a month or day
      group of at most two digits, or the original out-of-range year. */
  lemma OutOfRangeYearFails(year: nat, month: nat, day: nat)
    requires month < 100 && day < 100 && !InYearRange(year)
    ensures NormalizeDate(year, month, day).Err?
  {
  }

  /** When the month exceeds 12, the month and the day can be given either way round. */
  lemma SwapRule(year: nat, month: nat, day: nat)
    requires InYearRange(year) && month > 12
    ensures NormalizeDate(year, month, day) == NormalizeDate(year, day, month)
  {
  }

  /** February 31st is accepted. */
  lemma NoDaysInMonthCheck()
    ensures NormalizeDate(2023, 2, 31) == Ok("2023-02-31")
  {
    NormalizeDateOutcome(2023, 2, 31);
    IsoTextExample();
  }

  lemma IsoTextExample()
    ensures IsoText(2023, 2, 31) == "2023-02-31"
  {
    DecimalText2023();
    PaddedTwo();
    DecimalText31();
  }

  lemma PaddedTwo()
    ensures ZFill(DecimalString(2), 2) == "02"
  {
    assert DecimalString(2) == "2";
    assert seq(1, _ => '0') == "0";
  }

  lemma DecimalText31()
    ensures ZFill(DecimalString(31), 2) == "31"
  {
    assert DecimalString(3) == "3";
    assert DecimalString(31) == "31";
    assert ZFill("31", 2) == "31";
  }

  lemma DecimalText2023()
    ensures DecimalString(2023) == "2023"
  {
    assert DecimalString(2) == "2";
    assert DecimalString(20) == "20";
    assert DecimalString(202) == "202";
  }

  /** The text of an ISO date `YYYY-MM-DD`, read back into its three numbers. */
  function ParseIso(s: string): (r: Option<(nat, nat, nat)>)
    ensures r.Some? ==> |s| == 10 && s[4] == '-' && s[7] == '-'
  {
    if |s| == 10 && AllDigits(s[..4]) && s[4] == '-' && AllDigits(s[5..7]) && s[7] == '-' && AllDigits(s[8..])
    then Some((DecimalValue(s[..4]), DecimalValue(s[5..7]), DecimalValue(s[8..])))
    else None
  }

  /** The output of `normalize_date` is `YYYY-MM-DD` with zero-padded month and day, and
      reads back as the date it was built from. */
  lemma IsoTextRoundTrip(year: nat, month: nat, day: nat)
    requires 1000 <= year < 10000 && month < 100 && day < 100
    ensures |IsoText(year, month, day)| == 10
    ensures ParseIso(IsoText(year, month, day)) == Some((year, month, day))
  {
    DecimalStringOfFourDigits(year);
    TwoDigitPadding(month);
    TwoDigitPadding(day);
    IsoLayout(DecimalString(year), ZFill(DecimalString(month), 2), ZFill(DecimalString(day), 2));
  }

  lemma IsoLayout(y: string, m: string, d: string)
    requires |y| == 4 && |m| == 2 && |d| == 2
    requires AllDigits(y) && AllDigits(m) && AllDigits(d)
    ensures ParseIso(y + "-" + m + "-" + d) == Some((DecimalValue(y), DecimalValue(m), DecimalValue(d)))
  {
    var s := y + "-" + m + "-" + d;
    assert |s| == 10;
    assert s[..4] == y by {
      assert forall k :: 0 <= k < 4 ==> s[k] == y[k];
    }
    assert s[5..7] == m by {
      assert s[5] == m[0] && s[6] == m[1];
    }
    assert s[8..] == d by {
      assert s[8] == d[0] && s[9] == d[1];
    }
    assert s[4] == '-' && s[7] == '-';
  }

  // ---------------------------------------------------------------------------
  // the date patterns, as backtracking digit scanners

  /** One element of a date pattern: `\d{min,max}` (a captured group) or a one-character
      class such as `[-.]`. */
  datatype Token = Digits(min: nat, max: nat) | OneOf(chars: set<char>)

  predicate WellFormed(ts: seq<Token>) {
    forall k :: 0 <= k < |ts| ==> ts[k].Digits? ==> 1 <= ts[k].min <= ts[k].max
  }

  /** Token `t` matches `n` characters of `s` at position `i`. */
  predicate TokenAt(s: string, i: nat, t: Token, n: nat) {
    i + n <= |s| &&
    match t
    case Digits(lo, hi) => lo <= n <= hi && AllDigits(s[i..i + n])
    case OneOf(cs) => n == 1 && s[i] in cs
  }

  /** The tokens `ts` match `s` from position `i` with `lens[k]` characters for token `k`. */
  predicate Conforms(s: string, i: nat, ts: seq<Token>, lens: seq<nat>)
    decreases |ts|
  {
    i <= |s| && |lens| == |ts| &&
    (ts == [] || (TokenAt(s, i, ts[0], lens[0]) && Conforms(s, i + lens[0], ts[1..], lens[1..])))
  }

  function Sum(lens: seq<nat>): nat {
    if lens == [] then 0 else lens[0] + Sum(lens[1..])
  }

  /** The regular expression engine at position `i`: a group takes as many digits as it
      can and gives them back one at a time when the rest of the pattern fails. */
  function MatchFrom(s: string, i: nat, ts: seq<Token>): (r: Option<seq<nat>>)
    requires i <= |s|
    ensures r.Some? ==> Conforms(s, i, ts, r.value)
    decreases |ts|, if ts != [] && ts[0].Digits? then ts[0].max + 1 else 0
  {
    if ts == [] then Some([])
    else
      match ts[0]
      case OneOf(cs) =>
        if i < |s| && s[i] in cs then
          match MatchFrom(s, i + 1, ts[1..])
          case Some(lens) => Some([1] + lens)
          case None => None
        else None
      case Digits(_, hi) => TryDigits(s, i, ts, hi)
  }

  /** Tries the group `ts[0]` with `n`, then `n - 1`, ... digits. */
  function TryDigits(s: string, i: nat, ts: seq<Token>, n: nat): (r: Option<seq<nat>>)
    requires i <= |s| && ts != [] && ts[0].Digits? && n <= ts[0].max
    ensures r.Some? ==> Conforms(s, i, ts, r.value) && r.value[0] <= n
    decreases |ts|, n
  {
    if n == 0 || n < ts[0].min then None
    else if i + n <= |s| && AllDigits(s[i..i + n]) then
      match MatchFrom(s, i + n, ts[1..])
      case Some(lens) => Some([n] + lens)
      case None => TryDigits(s, i, ts, n - 1)
    else TryDigits(s, i, ts, n - 1)
  }

  /** The scanner misses no match: whenever the tokens can match at `i`, it finds one. */
  lemma {:induction false} MatchFromComplete(s: string, i: nat, ts: seq<Token>, lens: seq<nat>)
    requires i <= |s| && WellFormed(ts) && Conforms(s, i, ts, lens)
    ensures MatchFrom(s, i, ts).Some?
    decreases |ts|, if ts != [] && ts[0].Digits? then ts[0].max + 1 else 0
  {
    if ts != [] {
      assert WellFormed(ts[1..]) by {
        forall k | 0 <= k < |ts[1..]| ensures ts[1..][k].Digits? ==> 1 <= ts[1..][k].min <= ts[1..][k].max {
          assert ts[1..][k] == ts[k + 1];
        }
      }
      match ts[0]
      case OneOf(_) =>
        MatchFromComplete(s, i + 1, ts[1..], lens[1..]);
      case Digits(_, hi) =>
        TryDigitsComplete(s, i, ts, hi, lens);
    }
  }

  lemma {:induction false} TryDigitsComplete(s: string, i: nat, ts: seq<Token>, n: nat, lens: seq<nat>)
    requires i <= |s| && ts != [] && ts[0].Digits? && n <= ts[0].max
    requires WellFormed(ts) && WellFormed(ts[1..]) && Conforms(s, i, ts, lens) && lens[0] <= n
    ensures TryDigits(s, i, ts, n).Some?
    decreases |ts|, n
  {
    assert 1 <= ts[0].min <= lens[0];
    if !(i + n <= |s| && AllDigits(s[i..i + n]) && MatchFrom(s, i + n, ts[1..]).Some?) {
      if n == lens[0] {
        MatchFromComplete(s, i + n, ts[1..], lens[1..]);
      } else {
        TryDigitsComplete(s, i, ts, n - 1, lens);
      }
    }
  }

  /** A match: where it starts and how many characters each token took. */
  datatype Found = Found(start: nat, lens: seq<nat>)

  /** `re.search`: the match at the leftmost position where the tokens match. */
  function SearchFrom(s: string, ts: seq<Token>, from: nat): (r: Option<Found>)
    requires from <= |s|
    ensures r.Some? ==> from <= r.value.start <= |s| && MatchFrom(s, r.value.start, ts) == Some(r.value.lens)
    ensures forall j :: from <= j <= |s| && (r.None? || j < r.value.start) ==> MatchFrom(s, j, ts).None?
    decreases |s| - from
  {
    match MatchFrom(s, from, ts)
    case Some(lens) => Some(Found(from, lens))
    case None => if from == |s| then None else SearchFrom(s, ts, from + 1)
  }

  function Search(s: string, ts: seq<Token>): (r: Option<Found>)
    ensures r.Some? ==> r.value.start <= |s| && Conforms(s, r.value.start, ts, r.value.lens)
  {
    SearchFrom(s, ts, 0)
  }

  lemma {:induction false} ConformsWithin(s: string, i: nat, ts: seq<Token>, lens: seq<nat>)
    requires Conforms(s, i, ts, lens)
    ensures i + Sum(lens) <= |s|
    decreases |ts|
  {
    if ts != [] {
      ConformsWithin(s, i + lens[0], ts[1..], lens[1..]);
    }
  }

  /** Whether tokens match depends only on the characters they cover. */
  lemma {:induction false} ConformsShift(s: string, i: nat, j: nat, ts: seq<Token>, lens: seq<nat>)
    requires Conforms(s, i, ts, lens)
    requires j + Sum(lens) <= |s| && i + Sum(lens) <= |s|
    requires s[i..i + Sum(lens)] == s[j..j + Sum(lens)]
    ensures Conforms(s, j, ts, lens)
    decreases |ts|
  {
    if ts != [] {
      var n := lens[0];
      SameTextSplit(s, i, j, n, Sum(lens));
      TokenShift(s, i, j, ts[0], n);
      ConformsShift(s, i + n, j + n, ts[1..], lens[1..]);
    }
  }

  lemma TokenShift(s: string, i: nat, j: nat, t: Token, n: nat)
    requires TokenAt(s, i, t, n) && j + n <= |s| && s[i..i + n] == s[j..j + n]
    ensures TokenAt(s, j, t, n)
  {
    if t.OneOf? {
      assert s[i] == s[i..i + n][0] && s[j] == s[j..j + n][0];
    }
  }

  lemma SameTextSplit(s: string, i: nat, j: nat, n: nat, w: nat)
    requires n <= w && i + w <= |s| && j + w <= |s| && s[i..i + w] == s[j..j + w]
    ensures s[i..i + n] == s[j..j + n] && s[i + n..i + w] == s[j + n..j + w]
  {
    assert s[i..i + n] == s[i..i + w][..n] && s[j..j + n] == s[j..j + w][..n];
    assert s[i + n..i + w] == s[i..i + w][n..] && s[j + n..j + w] == s[j..j + w][n..];
  }

  /** The text a match covers: `match.group()`. */
  function MatchedText(s: string, ts: seq<Token>, f: Found): (t: string)
    requires Conforms(s, f.start, ts, f.lens)
    ensures |t| == Sum(f.lens) && OccursAt(s, t, f.start)
  {
    ConformsWithin(s, f.start, ts, f.lens);
    s[f.start..f.start + Sum(f.lens)]
  }

  /** The matched text first occurs where the match starts, so `base.split(match)[0]`
      is the text before the match. */
  lemma MatchedTextFirstOccurrence(s: string, ts: seq<Token>)
    requires WellFormed(ts) && Search(s, ts).Some?
    ensures var f := Search(s, ts).value; IndexOf(s, MatchedText(s, ts, f)) == Some(f.start)
  {
    var f := Search(s, ts).value;
    var t := MatchedText(s, ts, f);
    match IndexOf(s, t)
    case None =>
    case Some(j) =>
      if j < f.start {
        ConformsShift(s, f.start, j, ts, f.lens);
        MatchFromComplete(s, j, ts, f.lens);
      }
  }

  /** Token `k` of a conforming match covers `lens[k]` characters after those of the
      tokens before it. */
  lemma {:induction false} ConformsToken(s: string, i: nat, ts: seq<Token>, lens: seq<nat>, k: nat)
    requires Conforms(s, i, ts, lens) && k < |ts|
    ensures TokenAt(s, i + Sum(lens[..k]), ts[k], lens[k])
    decreases k
  {
    if k == 0 {
      assert lens[..0] == [];
    } else {
      ConformsToken(s, i + lens[0], ts[1..], lens[1..], k - 1);
      assert lens[..k][1..] == lens[1..][..k - 1];
    }
  }

  /** The text of the captured group at token `k`: `match.group(name)`. */
  function Group(s: string, ts: seq<Token>, f: Found, k: nat): (g: string)
    requires Conforms(s, f.start, ts, f.lens) && k < |ts| && ts[k].Digits?
    ensures AllDigits(g) && ts[k].min <= |g| <= ts[k].max
  {
    ConformsToken(s, f.start, ts, f.lens, k);
    var o := f.start + Sum(f.lens[..k]);
    s[o..o + f.lens[k]]
  }

  lemma TwoDigitsBelow100(g: string)
    requires AllDigits(g) && |g| <= 2
    ensures DecimalValue(g) < 100
  {
    if g != [] {
      assert |g[..|g| - 1]| <= 1;
      if |g| == 2 {
        assert DecimalValue(g[..1]) == DecimalValue(g[..1][..0]) * 10 + DigitValue(g[0]);
        assert g[..1][..0] == [];
      }
    }
  }

  // ---------------------------------------------------------------------------
  // the four date patterns

  /** Where a pattern's named groups are, as token positions. */
  datatype Layout =
    | YearMonthDay(year: nat, month: nat, day: nat)
    | FirstSecondYear(first: nat, second: nat, year: nat)

  datatype Pattern = Pattern(tokens: seq<Token>, layout: Layout)

  predicate IsGroup(p: Pattern, k: nat, width: nat) {
    k < |p.tokens| && p.tokens[k].Digits? && p.tokens[k].max <= width
  }

  /** The groups the layout names exist, and the month, day, first and second groups have
      at most two digits. */
  predicate ValidPattern(p: Pattern) {
    && WellFormed(p.tokens)
    && match p.layout
       case YearMonthDay(y, m, d) => IsGroup(p, y, 4) && IsGroup(p, m, 2) && IsGroup(p, d, 2)
       case FirstSecondYear(a, b, y) => IsGroup(p, a, 2) && IsGroup(p, b, 2) && IsGroup(p, y, 4)
  }

  const DateSeparators: set<char> := {'-', '.'}

  /** The patterns in the order they are tried:
      `YYYY[-.]M[-.]D`, `F[-.]S[-.]YYYY`, `YYYYMMDD` and `F_S_YYYY`,
      where `M`, `D`, `F` and `S` have one or two digits. */
  function Patterns(): (ps: seq<Pattern>)
    ensures |ps| == 4 && forall k :: 0 <= k < |ps| ==> ValidPattern(ps[k])
  {
    [
    Pattern([Digits(4, 4), OneOf(DateSeparators), Digits(1, 2), OneOf(DateSeparators), Digits(1, 2)],
      YearMonthDay(0, 2, 4)),
    Pattern([Digits(1, 2), OneOf(DateSeparators), Digits(1, 2), OneOf(DateSeparators), Digits(4, 4)],
      FirstSecondYear(0, 2, 4)),
    Pattern([Digits(4, 4), Digits(2, 2), Digits(2, 2)],
      YearMonthDay(0, 1, 2)),
    Pattern([Digits(1, 2), OneOf({'_'}), Digits(1, 2), OneOf({'_'}), Digits(4, 4)],
      FirstSecondYear(0, 2, 4))
    ]
  }

  // ---------------------------------------------------------------------------
  // the date of a match

  /** Why `_extract_fund_info` raises. */
  datatype ExtractError =
    | NoDatePattern               // `ValueError`: no pattern matches
    | InvalidDate(e: DateError)   // raised by `normalize_date`
    | MissingKey(key: string)     // `KeyError`

  function Lift(r: Result<string, DateError>): Result<string, ExtractError> {
    match r
    case Ok(t) => Ok(t)
    case Err(e) => Err(InvalidDate(e))
  }

  /** An ambiguous date: month first, and day first when month first raises
      `ValueError`; an `IndexError` is not caught. */
  function AmbiguousDate(year: nat, first: nat, second: nat): (r: Result<string, ExtractError>)
    ensures NormalizeDate(year, first, second).Ok? ==> r == Ok(NormalizeDate(year, first, second).value)
    ensures NormalizeDate(year, first, second).Err? && r.Ok? ==>
      NormalizeDate(year, first, second).error == ValueError && r == Lift(NormalizeDate(year, second, first))
  {
    match NormalizeDate(year, first, second)
    case Ok(t) => Ok(t)
    case Err(ValueError) => Lift(NormalizeDate(year, second, first))
    case Err(IndexError) => Err(InvalidDate(IndexError))
  }

  /** Lines 125-136 as written: the fallback reads `parts['second']` after `parts` was
      rebound to the keys `year`, `month` and `day`, so it raises `KeyError` instead of
      trying day first. */
  function AmbiguousDateAsWritten(year: nat, first: nat, second: nat): (r: Result<string, ExtractError>)
    ensures r.Ok? <==> NormalizeDate(year, first, second).Ok?
    ensures r.Ok? ==> r.value == NormalizeDate(year, first, second).value
    ensures NormalizeDate(year, first, second) == Err(ValueError) ==> r == Err(MissingKey("second"))
  {
    match NormalizeDate(year, first, second)
    case Ok(t) => Ok(t)
    case Err(ValueError) => Err(MissingKey("second"))
    case Err(IndexError) => Err(InvalidDate(IndexError))
  }

  /** `13-32-2023` is read as month 13, day 32; that raises `ValueError`, and the fallback
      then raises `KeyError('second')` where day first would have raised `ValueError`. */
  lemma AsWrittenRaisesKeyError()
    ensures AmbiguousDateAsWritten(2023, 13, 32) == Err(MissingKey("second"))
    ensures AmbiguousDate(2023, 13, 32) == Err(InvalidDate(ValueError))
  {
  }

  /** Day first never rescues a date month first rejected: `normalize_date` already swaps a
      month above 12, and the two-digit-year rule never yields a year in range. So the
      retry only ever changes which exception is raised. */
  lemma RetryNeverRescues(year: nat, first: nat, second: nat)
    requires first < 100 && second < 100
    ensures AmbiguousDate(year, first, second) == Lift(NormalizeDate(year, first, second))
  {
    if InYearRange(year) {
      NormalizeDateOutcome(year, first, second);
      NormalizeDateOutcome(year, second, first);
    } else {
      OutOfRangeSymmetric(year, first, second);
    }
  }

  /** With the year out of range, the month and day groups play symmetric parts. */
  lemma OutOfRangeSymmetric(year: nat, first: nat, second: nat)
    requires first < 100 && second < 100 && !InYearRange(year)
    ensures NormalizeDate(year, first, second) == NormalizeDate(year, second, first)
  {
    OutOfRangeError(year, first, second);
    OutOfRangeError(year, second, first);
  }

  /** Outside 1900-2100, `normalize_date` raises `IndexError` when all three values are
      the same number above 31 and `ValueError` otherwise. */
  lemma OutOfRangeError(year: nat, month: nat, day: nat)
    requires month < 100 && day < 100 && !InYearRange(year)
    ensures NormalizeDate(year, month, day) ==
      if year == month == day && year > 31 then Err(IndexError) else Err(ValueError)
  {
    ArrangeOutOfRange(year, month, day);
  }

  lemma ArrangeOutOfRange(year: nat, month: nat, day: nat)
    requires month < 100 && day < 100 && !InYearRange(year)
    ensures Arrange(year, month, day) == Err(IndexError) <==> year == month == day && year > 31
    ensures Arrange(year, month, day).Err? ==> Arrange(year, month, day) != Err(IndexError) ==>
      Arrange(year, month, day) == Err(ValueError)
    ensures Arrange(year, month, day).Ok? ==> !InYearRange(Arrange(year, month, day).value.0)
  {
    var top := Max3(year, month, day);
    if top > 31 {
      OthersOfThree(year, month, day, top);
    }
  }

  lemma OthersOfThree(a: nat, b: nat, c: nat, t: nat)
    ensures |Others([a, b, c], t)| == (if a != t then 1 else 0) + (if b != t then 1 else 0) + (if c != t then 1 else 0)
  {
    assert [a][..0] == [];
    assert Others([a], t) == (if a != t then [a] else []);
    assert [a, b][..1] == [a];
    assert Others([a, b], t) == Others([a], t) + (if b != t then [b] else []);
    assert [a, b, c][..2] == [a, b];
    assert Others([a, b, c], t) == Others([a, b], t) + (if c != t then [c] else []);
  }

  /** The code as written and the corrected fallback agree on every date they return. */
  lemma AsWrittenAgreesOnDates(year: nat, first: nat, second: nat)
    requires first < 100 && second < 100
    ensures AmbiguousDateAsWritten(year, first, second).Ok? <==> AmbiguousDate(year, first, second).Ok?
    ensures AmbiguousDate(year, first, second).Ok? ==>
      AmbiguousDateAsWritten(year, first, second) == AmbiguousDate(year, first, second)
  {
    RetryNeverRescues(year, first, second);
  }

  /** The date of a match of pattern `p` as lines 113-136 compute it: `normalize_date`
      on its groups, and for the ambiguous patterns the fallback that raises `KeyError`. */
  function DateOf(s: string, p: Pattern, f: Found): Result<string, ExtractError>
    requires ValidPattern(p) && Conforms(s, f.start, p.tokens, f.lens)
  {
    match p.layout
    case YearMonthDay(y, m, d) =>
      Lift(NormalizeDate(
        DecimalValue(Group(s, p.tokens, f, y)),
        DecimalValue(Group(s, p.tokens, f, m)),
        DecimalValue(Group(s, p.tokens, f, d))))
    case FirstSecondYear(a, b, y) =>
      AmbiguousDateAsWritten(
        DecimalValue(Group(s, p.tokens, f, y)),
        DecimalValue(Group(s, p.tokens, f, a)),
        DecimalValue(Group(s, p.tokens, f, b)))
  }

  /** The date of a match with the evidently intended fallback: month first, then day
      first. */
  function DateOfIntended(s: string, p: Pattern, f: Found): Result<string, ExtractError>
    requires ValidPattern(p) && Conforms(s, f.start, p.tokens, f.lens)
  {
    match p.layout
    case YearMonthDay(y, m, d) =>
      Lift(NormalizeDate(
        DecimalValue(Group(s, p.tokens, f, y)),
        DecimalValue(Group(s, p.tokens, f, m)),
        DecimalValue(Group(s, p.tokens, f, d))))
    case FirstSecondYear(a, b, y) =>
      AmbiguousDate(
        DecimalValue(Group(s, p.tokens, f, y)),
        DecimalValue(Group(s, p.tokens, f, a)),
        DecimalValue(Group(s, p.tokens, f, b)))
  }

  /** Both fallbacks give the same dates; where they differ, the code as written raises
      `KeyError('second')` and the intended one the `ValueError` of `normalize_date`. */
  lemma DateOfAgreesWithIntended(s: string, p: Pattern, f: Found)
    requires ValidPattern(p) && Conforms(s, f.start, p.tokens, f.lens)
    ensures DateOf(s, p, f).Ok? <==> DateOfIntended(s, p, f).Ok?
    ensures DateOf(s, p, f).Ok? ==> DateOf(s, p, f) == DateOfIntended(s, p, f)
    ensures DateOf(s, p, f) != DateOfIntended(s, p, f) ==>
      DateOf(s, p, f) == Err(MissingKey("second")) && DateOfIntended(s, p, f) == Err(InvalidDate(ValueError))
  {
    match p.layout
    case YearMonthDay(_, _, _) =>
    case FirstSecondYear(a, b, y) =>
      var first := DecimalValue(Group(s, p.tokens, f, a));
      var second := DecimalValue(Group(s, p.tokens, f, b));
      TwoDigitsBelow100(Group(s, p.tokens, f, a));
      TwoDigitsBelow100(Group(s, p.tokens, f, b));
      RetryNeverRescues(DecimalValue(Group(s, p.tokens, f, y)), first, second);
  }

  // ---------------------------------------------------------------------------
  // file names

  /** The last position of `c` in `s`. */
  function LastIndexOf(s: string, c: char): (r: Option<nat>)
    ensures r.Some? ==> r.value < |s| && s[r.value] == c && forall k :: r.value < k < |s| ==> s[k] != c
    ensures r.None? ==> forall k :: 0 <= k < |s| ==> s[k] != c
  {
    if s == [] then None
    else if s[|s| - 1] == c then Some(|s| - 1)
    else LastIndexOf(s[..|s| - 1], c)
  }

  /** `os.path.basename` with `/` as the separator: the text after the last `/`. */
  function Basename(path: string): (r: string)
    ensures forall k :: 0 <= k < |r| ==> r[k] != '/'
    ensures |r| <= |path| && r == path[|path| - |r|..]
  {
    match LastIndexOf(path, '/')
    case None => path
    case Some(i) => path[i + 1..]
  }

  /** `os.path.splitext(name)[0]`: drops the text from the last `.` on, unless every
      character before that `.` is a `.` too (a leading-dot name has no extension). */
  function Stem(name: string): (r: string)
    ensures |r| <= |name| && r == name[..|r|]
    ensures |r| < |name| ==> name[|r|] == '.' && forall k :: |r| < k < |name| ==> name[k] != '.'
    ensures |r| < |name| ==> exists k :: 0 <= k < |r| && name[k] != '.'
    ensures |r| == |name| ==> forall i, k :: 0 <= k < i < |name| && name[i] == '.' ==> name[k] == '.'
  {
    match LastIndexOf(name, '.')
    case None => name
    case Some(i) => if exists k :: 0 <= k < i && name[k] != '.' then name[..i] else name
  }

  const FundNameEdges: set<char> := {' ', '.', '-', '_'}

  /** Lines 149-156: each noise word removed in turn, then ` .-_` stripped from both ends. */
  function CleanFundName(raw: string): (r: string)
    ensures r == [] || (r[0] !in FundNameEdges && r[|r| - 1] !in FundNameEdges)
  {
    var s := RemoveAll(RemoveAll(RemoveAll(RemoveAll(RemoveAll(raw, "Fund "), "Report-of-"), "mend-report "), "rpt-"), "TT_monthly_");
    StripIsMiddle(s, FundNameEdges);
    Strip(s, FundNameEdges)
  }

  /** Among patterns `k`, `k + 1`, ..., the first that matches, with its match. */
  function FirstMatch(base: string, k: nat): (r: Option<(nat, Found)>)
    requires k <= |Patterns()|
    ensures r.Some? ==> k <= r.value.0 < |Patterns()| && Search(base, Patterns()[r.value.0].tokens) == Some(r.value.1)
    ensures forall j :: k <= j < |Patterns()| && (r.None? || j < r.value.0) ==> Search(base, Patterns()[j].tokens).None?
  {
    FirstMatchIn(base, Patterns(), k)
  }

  /** Among patterns `ps[k]`, `ps[k + 1]`, ..., the first that matches, with its match. */
  function FirstMatchIn(base: string, ps: seq<Pattern>, k: nat): (r: Option<(nat, Found)>)
    requires k <= |ps|
    ensures r.Some? ==> k <= r.value.0 < |ps| && Search(base, ps[r.value.0].tokens) == Some(r.value.1)
    ensures forall j :: k <= j < |ps| && (r.None? || j < r.value.0) ==> Search(base, ps[j].tokens).None?
    decreases |ps| - k
  {
    if k == |ps| then None
    else match Search(base, ps[k].tokens)
      case Some(f) => Some((k, f))
      case None => FirstMatchIn(base, ps, k + 1)
  }

  /** `_extract_fund_info(filename)` as written: the fund name and the ISO date, or the
      exception. */
  function FundInfoOf(filename: string): (r: Result<(string, string), ExtractError>)
  {
    var base := Stem(Basename(filename));
    match FirstMatch(base, 0)
    case None => Err(NoDatePattern)
    case Some((k, f)) =>
      match DateOf(base, Patterns()[k], f)
      case Err(e) => Err(e)
      case Ok(iso) => Ok((CleanFundName(BeforeFirst(base, MatchedText(base, Patterns()[k].tokens, f))), iso))
  }

  /** `_extract_fund_info(filename)` with the intended day-first fallback. */
  function FundInfoOfIntended(filename: string): (r: Result<(string, string), ExtractError>)
  {
    var base := Stem(Basename(filename));
    match FirstMatch(base, 0)
    case None => Err(NoDatePattern)
    case Some((k, f)) =>
      match DateOfIntended(base, Patterns()[k], f)
      case Err(e) => Err(e)
      case Ok(iso) => Ok((CleanFundName(BeforeFirst(base, MatchedText(base, Patterns()[k].tokens, f))), iso))
  }

  /** The extraction as written returns exactly what the intended one returns; the two
      differ only where the code as written raises `KeyError('second')` and the intended
      one `ValueError`. */
  lemma FundInfoAgreesWithIntended(filename: string)
    ensures FundInfoOf(filename).Ok? <==> FundInfoOfIntended(filename).Ok?
    ensures FundInfoOf(filename).Ok? ==> FundInfoOf(filename) == FundInfoOfIntended(filename)
    ensures FundInfoOf(filename) != FundInfoOfIntended(filename) ==>
      FundInfoOf(filename) == Err(MissingKey("second")) && FundInfoOfIntended(filename) == Err(InvalidDate(ValueError))
  {
    var base := Stem(Basename(filename));
    match FirstMatch(base, 0)
    case None =>
    case Some((k, f)) =>
      DateOfAgreesWithIntended(base, Patterns()[k], f);
  }

  /** Lines 100-159: the patterns are tried in order inside a loop that stops at the first
      match; the date is normalised there, and the fund name is cut from the text before
      the matched date. */
  method ExtractFundInfo(filename: string) returns (r: Result<(string, string), ExtractError>)
    ensures r == FundInfoOf(filename)
  {
    var base := Stem(Basename(filename));
    var dateMatch: Option<(nat, Found)> := None;
    var isoDate := "";
    var i := 0;
    while i < |Patterns()|
      invariant 0 <= i <= |Patterns()|
      invariant dateMatch.None? && FirstMatch(base, 0) == FirstMatch(base, i)
    {
      var found := Search(base, Patterns()[i].tokens);
      if found.Some? {
        dateMatch := Some((i, found.value));
        var date := DateOf(base, Patterns()[i], found.value);
        if date.Err? {
          return Err(date.error);
        }
        isoDate := date.value;
        break;
      }
      i := i + 1;
    }
    if dateMatch.None? {
      return Err(NoDatePattern);
    }
    var (k, f) := dateMatch.value;
    var fundName := CleanFundName(BeforeFirst(base, MatchedText(base, Patterns()[k].tokens, f)));
    return Ok((fundName, isoDate));
  }

  // ---------------------------------------------------------------------------
  // properties of the extraction

  function BaseName(filename: string): string {
    Stem(Basename(filename))
  }

  /** The extraction fails with "no valid date pattern" exactly when none of the four
      patterns occurs in the name. */
  lemma NoPatternNoInfo(filename: string)
    ensures FundInfoOf(filename) == Err(NoDatePattern) <==>
      forall k :: 0 <= k < |Patterns()| ==> Search(BaseName(filename), Patterns()[k].tokens).None?
  {
    var base := BaseName(filename);
    match FirstMatch(base, 0)
    case None =>
    case Some((k, f)) =>
      DateOfNeverNoPattern(base, Patterns()[k], f);
  }

  /** A found date only fails with the errors of `normalize_date` or a missing key. */
  lemma DateOfNeverNoPattern(s: string, p: Pattern, f: Found)
    requires ValidPattern(p) && Conforms(s, f.start, p.tokens, f.lens)
    ensures DateOf(s, p, f) != Err(NoDatePattern)
  {
    match p.layout
    case YearMonthDay(_, _, _) =>
    case FirstSecondYear(_, _, _) =>
  }

  /** The first pattern that occurs decides the date, even when it is invalid and a later
      pattern would have given a valid one. */
  lemma FirstPatternDecides(filename: string, k: nat)
    requires k < |Patterns()| && Search(BaseName(filename), Patterns()[k].tokens).Some?
    requires forall j :: 0 <= j < k ==> Search(BaseName(filename), Patterns()[j].tokens).None?
    ensures var base := BaseName(filename); var f := Search(base, Patterns()[k].tokens).value;
      match DateOf(base, Patterns()[k], f)
      case Err(e) => FundInfoOf(filename) == Err(e)
      case Ok(iso) => FundInfoOf(filename).Ok? && FundInfoOf(filename).value.1 == iso
  {
    assert FirstMatch(BaseName(filename), 0) == Some((k, Search(BaseName(filename), Patterns()[k].tokens).value));
  }

  /** The fund name is the cleaned text before the date the first matching pattern found. */
  lemma FundNameBeforeDate(filename: string)
    requires FundInfoOf(filename).Ok?
    ensures var base := BaseName(filename); var (k, f) := FirstMatch(base, 0).value;
      FundInfoOf(filename).value.0 == CleanFundName(base[..f.start])
  {
    var base := BaseName(filename);
    var (k, f) := FirstMatch(base, 0).value;
    MatchedTextFirstOccurrence(base, Patterns()[k].tokens);
  }

  /** A returned date is an ISO date text with the year in 1900-2100, the month in 1-12
      and the day in 1-31. */
  lemma ExtractedDateIsValid(filename: string)
    requires FundInfoOf(filename).Ok?
    ensures IsValidIso(FundInfoOf(filename).value.1)
  {
    var base := BaseName(filename);
    var (k, f) := FirstMatch(base, 0).value;
    DateOfIsValid(base, Patterns()[k], f);
  }

  predicate IsValidIso(t: string) {
    ParseIso(t).Some? && InYearRange(ParseIso(t).value.0) && ValidMonthDay(ParseIso(t).value.1, ParseIso(t).value.2)
  }

  lemma DateOfIsValid(s: string, p: Pattern, f: Found)
    requires ValidPattern(p) && Conforms(s, f.start, p.tokens, f.lens)
    ensures DateOf(s, p, f).Ok? ==> IsValidIso(DateOf(s, p, f).value)
  {
    match p.layout
    case YearMonthDay(_, _, _) =>
    case FirstSecondYear(a, b, y) =>
  }
}
