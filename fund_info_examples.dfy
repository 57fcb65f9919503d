/** A worked file name from the repository's test suite, run through the model of
    `_extract_fund_info`. */
module FundInfoExamples {
  import opened Wrappers
  import opened Strings
  import opened FundInfo

  lemma LastIndexOfAt(s: string, c: char, i: nat)
    requires i < |s| && s[i] == c && c !in s[i + 1..]
    ensures LastIndexOf(s, c) == Some(i)
  {
    forall k | i < k < |s| ensures s[k] != c {
      assert s[i + 1..][k - i - 1] == s[k];
    }
  }

  lemma {:induction false} TryDigitsAtNonDigit(s: string, j: nat, ts: seq<Token>, n: nat)
    requires j < |s| && !IsDigit(s[j]) && ts != [] && ts[0].Digits? && n <= ts[0].max
    ensures TryDigits(s, j, ts, n).None?
    decreases n
  {
    if n > 0 && n >= ts[0].min {
      if j + n <= |s| {
        assert s[j..j + n][0] == s[j];
      }
      TryDigitsAtNonDigit(s, j, ts, n - 1);
    }
  }

  /** A pattern opening with a group cannot match at a non-digit. */
  lemma NoDigitNoMatch(s: string, j: nat, ts: seq<Token>)
    requires j < |s| && !IsDigit(s[j]) && ts != [] && ts[0].Digits?
    ensures MatchFrom(s, j, ts).None?
  {
    TryDigitsAtNonDigit(s, j, ts, ts[0].max);
  }

  lemma SearchSkips(s: string, ts: seq<Token>, from: nat, p: nat)
    requires from <= p <= |s| && ts != [] && ts[0].Digits?
    requires forall j :: from <= j < p ==> !IsDigit(s[j])
    ensures SearchFrom(s, ts, from) == SearchFrom(s, ts, p)
    decreases p - from
  {
    if from < p {
      NoDigitNoMatch(s, from, ts);
      SearchSkips(s, ts, from + 1, p);
    }
  }

  lemma RemoveAllAbsent(s: string, t: string, c: char)
    requires c in t && c !in s
    ensures RemoveAll(s, t) == s
  {
    var m :| 0 <= m < |t| && t[m] == c;
    forall i: nat ensures !OccursAt(s, t, i) {
      if i + |t| <= |s| {
        assert s[i..i + |t|][m] == s[i + m];
      }
    }
    RemoveAllUnchanged(s, t);
  }

  const ReportFile := "rpt-GlobalFund.2023-12-25.csv"

  lemma NoSlashInReport()
    ensures Basename(ReportFile) == ReportFile
  {
    assert '/' !in ReportFile;
  }

  lemma ExtensionOfReport()
    ensures LastIndexOf(ReportFile, '.') == Some(25)
  {
    assert ReportFile[26..] == "csv";
    LastIndexOfAt(ReportFile, '.', 25);
  }

  lemma BaseOfReport()
    ensures BaseName(ReportFile) == "rpt-GlobalFund.2023-12-25"
  {
    NoSlashInReport();
    ExtensionOfReport();
    assert ReportFile[0] != '.';
    assert ReportFile[..25] == "rpt-GlobalFund.2023-12-25";
  }

  /** A group takes its full width when the rest then matches. */
  lemma GreedyStep(s: string, i: nat, lo: nat, hi: nat, rest: seq<Token>, lens: seq<nat>)
    requires 1 <= lo <= hi && i + hi <= |s| && AllDigits(s[i..i + hi])
    requires MatchFrom(s, i + hi, rest) == Some(lens)
    ensures MatchFrom(s, i, [Digits(lo, hi)] + rest) == Some([hi] + lens)
  {
    var ts := [Digits(lo, hi)] + rest;
    assert ts[0] == Digits(lo, hi) && ts[1..] == rest;
  }

  lemma SeparatorStep(s: string, i: nat, cs: set<char>, rest: seq<Token>, lens: seq<nat>)
    requires i < |s| && s[i] in cs
    requires MatchFrom(s, i + 1, rest) == Some(lens)
    ensures MatchFrom(s, i, [OneOf(cs)] + rest) == Some([1] + lens)
  {
    var ts := [OneOf(cs)] + rest;
    assert ts[0] == OneOf(cs) && ts[1..] == rest;
  }

  lemma SearchOfReport()
    ensures Search("rpt-GlobalFund.2023-12-25", Patterns()[0].tokens) == Some(Found(15, [4, 1, 2, 1, 2]))
  {
    var s := "rpt-GlobalFund.2023-12-25";
    var ts := Patterns()[0].tokens;
    SearchSkips(s, ts, 0, 15);
    MatchOfReport();
  }

  lemma MatchOfReport()
    ensures MatchFrom("rpt-GlobalFund.2023-12-25", 15, Patterns()[0].tokens) == Some([4, 1, 2, 1, 2])
  {
    var s := "rpt-GlobalFund.2023-12-25";
    assert s[15..19] == "2023" && s[20..22] == "12" && s[23..25] == "25";
    assert AllDigits("2023") && AllDigits("12") && AllDigits("25");
    assert s[19] == '-' && s[22] == '-';
    FullIsoMatch(s, 15);
  }

  /** `YYYY-MM-DD` at `i`, with two-digit month and day, matches the first pattern with
      every group at its widest. */
  lemma FullIsoMatch(s: string, i: nat)
    requires i + 10 <= |s| && AllDigits(s[i..i + 4]) && AllDigits(s[i + 5..i + 7]) && AllDigits(s[i + 8..i + 10])
    requires s[i + 4] in DateSeparators && s[i + 7] in DateSeparators
    ensures MatchFrom(s, i, Patterns()[0].tokens) == Some([4, 1, 2, 1, 2])
  {
    var t4: seq<Token> := [Digits(1, 2)] + [];
    var t3 := [OneOf(DateSeparators)] + t4;
    var t2 := [Digits(1, 2)] + t3;
    var t1 := [OneOf(DateSeparators)] + t2;
    var t0 := [Digits(4, 4)] + t1;
    assert t0 == Patterns()[0].tokens;
    GreedyStep(s, i + 8, 1, 2, [], []);
    assert [2] + [] == [2];
    SeparatorStep(s, i + 7, DateSeparators, t4, [2]);
    assert [1] + [2] == [1, 2];
    GreedyStep(s, i + 5, 1, 2, t3, [1, 2]);
    assert [2] + [1, 2] == [2, 1, 2];
    SeparatorStep(s, i + 4, DateSeparators, t2, [2, 1, 2]);
    assert [1] + [2, 1, 2] == [1, 2, 1, 2];
    GreedyStep(s, i, 4, 4, t1, [1, 2, 1, 2]);
    assert [4] + [1, 2, 1, 2] == [4, 1, 2, 1, 2];
  }

  const ReportBase := "rpt-GlobalFund.2023-12-25"

  const ReportMatch := Found(15, [4, 1, 2, 1, 2])

  lemma PrefixSums()
    ensures ReportMatch.lens[..0] == [] && Sum([]) == 0
    ensures ReportMatch.lens[..2] == [4, 1] && Sum([4, 1]) == 5
    ensures ReportMatch.lens[..4] == [4, 1, 2, 1] && Sum([4, 1, 2, 1]) == 8
  {
    assert Sum([1]) == 1;
    assert Sum([1, 2, 1]) == 4 by {
      assert Sum([2, 1]) == 3;
    }
  }

  lemma GroupsOfReport()
    ensures Conforms(ReportBase, 15, Patterns()[0].tokens, ReportMatch.lens)
    ensures Group(ReportBase, Patterns()[0].tokens, ReportMatch, 0) == "2023"
    ensures Group(ReportBase, Patterns()[0].tokens, ReportMatch, 2) == "12"
    ensures Group(ReportBase, Patterns()[0].tokens, ReportMatch, 4) == "25"
  {
    SearchOfReport();
    PrefixSums();
    assert ReportBase[15..19] == "2023";
    assert ReportBase[20..22] == "12";
    assert ReportBase[23..25] == "25";
  }

  lemma Text12()
    ensures DecimalString(12) == "12" && ZFill("12", 2) == "12"
  {
    assert DecimalString(1) == "1";
  }

  lemma Text25()
    ensures DecimalString(25) == "25" && ZFill("25", 2) == "25"
  {
    assert DecimalString(2) == "2";
  }

  lemma ValuesOfReport()
    ensures DecimalValue("2023") == 2023 && DecimalValue("12") == 12 && DecimalValue("25") == 25
  {
    DecimalText2023();
    Text12();
    Text25();
  }

  lemma IsoOfReport()
    ensures IsoText(2023, 12, 25) == "2023-12-25"
  {
    DecimalText2023();
    Text12();
    Text25();
    assert "2023" + "-" + "12" + "-" + "25" == "2023-12-25";
  }

  lemma NormalizedReport()
    ensures NormalizeDate(2023, 12, 25) == Ok("2023-12-25")
  {
    NormalizeDateOutcome(2023, 12, 25);
    IsoOfReport();
  }

  /** The date groups of the match make 2023-12-25. */
  lemma DateOfReport()
    ensures Conforms(ReportBase, 15, Patterns()[0].tokens, ReportMatch.lens)
    ensures DateOf(ReportBase, Patterns()[0], ReportMatch) == Ok("2023-12-25")
  {
    GroupsOfReport();
    var p := Patterns()[0];
    assert ValidPattern(p) && p.layout == YearMonthDay(0, 2, 4);
    DateFromGroups(ReportBase, p, ReportMatch);
  }

  lemma DateFromGroups(s: string, p: Pattern, f: Found)
    requires ValidPattern(p) && Conforms(s, f.start, p.tokens, f.lens) && p.layout == YearMonthDay(0, 2, 4)
    requires Group(s, p.tokens, f, 0) == "2023" && Group(s, p.tokens, f, 2) == "12"
    requires Group(s, p.tokens, f, 4) == "25"
    ensures DateOf(s, p, f) == Ok("2023-12-25")
  {
    ValuesOfReport();
    NormalizedReport();
  }

  lemma NoiseAbsent(raw: string)
    requires ' ' !in raw && 'R' !in raw && '_' !in raw
    ensures RemoveAll(raw, "Fund ") == raw && RemoveAll(raw, "Report-of-") == raw
    ensures RemoveAll(raw, "mend-report ") == raw && RemoveAll(raw, "TT_monthly_") == raw
  {
    RemoveAllAbsent(raw, "Fund ", ' ');
    RemoveAllAbsent(raw, "Report-of-", 'R');
    RemoveAllAbsent(raw, "mend-report ", ' ');
    RemoveAllAbsent(raw, "TT_monthly_", '_');
  }

  lemma PrefixRemoved()
    ensures RemoveAll("rpt-GlobalFund.", "rpt-") == "GlobalFund."
  {
    var raw := "rpt-GlobalFund.";
    assert raw[..4] == "rpt-" && raw[4..] == "GlobalFund.";
    RemoveAllAbsent("GlobalFund.", "rpt-", '-');
  }

  lemma TrailingDotStripped()
    ensures StripRight("GlobalFund.", FundNameEdges) == "GlobalFund"
  {
    var t := "GlobalFund.";
    assert t[|t| - 1] == '.' && t[..|t| - 1] == "GlobalFund";
    assert StripRight("GlobalFund", FundNameEdges) == "GlobalFund";
  }

  lemma LeadingKept()
    ensures StripLeft("GlobalFund.", FundNameEdges) == "GlobalFund."
  {
    var t := "GlobalFund.";
    assert t != [] && t[0] == 'G' && 'G' !in FundNameEdges;
  }

  lemma EdgesStripped()
    ensures Strip("GlobalFund.", FundNameEdges) == "GlobalFund"
  {
    LeadingKept();
    TrailingDotStripped();
  }

  /** The fund name left once the prefix `rpt-` and the trailing `.` are removed. */
  lemma NameOfReport()
    ensures CleanFundName("rpt-GlobalFund.") == "GlobalFund"
  {
    assert ' ' !in "rpt-GlobalFund." && 'R' !in "rpt-GlobalFund.";
    NoiseAbsent("rpt-GlobalFund.");
    PrefixRemoved();
    assert ' ' !in "GlobalFund." && 'R' !in "GlobalFund." && '_' !in "GlobalFund.";
    NoiseAbsent("GlobalFund.");
    EdgesStripped();
  }

  lemma FirstMatchOfReport()
    ensures FirstMatch(ReportBase, 0) == Some((0, ReportMatch))
  {
    SearchOfReport();
  }

  lemma BeforeDateOfReport()
    ensures Conforms(ReportBase, 15, Patterns()[0].tokens, ReportMatch.lens)
    ensures BeforeFirst(ReportBase, MatchedText(ReportBase, Patterns()[0].tokens, ReportMatch)) == "rpt-GlobalFund."
  {
    ReportPrefix();
    SearchOfReport();
    var ts := Patterns()[0].tokens;
    assert ValidPattern(Patterns()[0]);
    TextBeforeMatch(ReportBase, ts, ReportMatch);
  }

  lemma ReportPrefix()
    ensures ReportBase[..15] == "rpt-GlobalFund."
  {
  }

  lemma TextBeforeMatch(s: string, ts: seq<Token>, f: Found)
    requires WellFormed(ts) && Search(s, ts) == Some(f)
    ensures Conforms(s, f.start, ts, f.lens)
    ensures BeforeFirst(s, MatchedText(s, ts, f)) == s[..f.start]
  {
    MatchedTextFirstOccurrence(s, ts);
  }

  /** `_extract_fund_info('rpt-GlobalFund.2023-12-25.csv')` gives `('GlobalFund', '2023-12-25')`. */
  lemma ReportFileInfo()
    ensures FundInfoOf(ReportFile) == Ok(("GlobalFund", "2023-12-25"))
  {
    BaseOfReport();
    FirstMatchOfReport();
    DateOfReport();
    BeforeDateOfReport();
    NameOfReport();
  }

  // ---------------------------------------------------------------------------
  // more file names of the test suite, and the ambiguous date that raises `KeyError`

  /** A file name without `/`, whose last `.` is at `dot` and which does not start with
      `.`, has the text before that `.` as its base name. */
  lemma BaseOfFile(file: string, dot: nat)
    requires '/' !in file && dot < |file| && file[dot] == '.' && '.' !in file[dot + 1..] && file[0] != '.'
    ensures BaseName(file) == file[..dot]
  {
    LastIndexOfAt(file, '.', dot);
    assert Basename(file) == file;
  }

  /** A pattern that opens with a group of at least `lo` digits followed by a separator
      does not occur when no `lo` digits stand right before a separator. */
  lemma NoDigitsBeforeSeparator(s: string, ts: seq<Token>)
    requires |ts| >= 2 && ts[0].Digits? && 1 <= ts[0].min && ts[1].OneOf?
    requires forall j :: ts[0].min <= j < |s| && s[j] in ts[1].chars ==> !AllDigits(s[j - ts[0].min..j])
    ensures Search(s, ts).None?
  {
    if Search(s, ts).Some? {
      DigitsThenSeparator(s, ts, Search(s, ts).value);
      assert false;
    }
  }

  /** A match of such a pattern has at least `lo` digits right before a separator. */
  lemma DigitsThenSeparator(s: string, ts: seq<Token>, f: Found)
    requires |ts| >= 2 && ts[0].Digits? && ts[1].OneOf? && Conforms(s, f.start, ts, f.lens)
    ensures var j := f.start + f.lens[0];
      ts[0].min <= j < |s| && s[j] in ts[1].chars && AllDigits(s[j - ts[0].min..j])
  {
    ConformsToken(s, f.start, ts, f.lens, 0);
    ConformsToken(s, f.start, ts, f.lens, 1);
    assert f.lens[..0] == [] && f.lens[..1] == [f.lens[0]];
    assert Sum(f.lens[..1]) == f.lens[0];
    DigitSuffix(s, f.start, f.lens[0], ts[0].min);
  }

  /** The last `lo` characters of a run of digits are digits. */
  lemma DigitSuffix(s: string, i: nat, n: nat, lo: nat)
    requires lo <= n && i + n <= |s| && AllDigits(s[i..i + n])
    ensures AllDigits(s[i + n - lo..i + n])
  {
    var run, tail := s[i..i + n], s[i + n - lo..i + n];
    forall k | 0 <= k < lo ensures IsDigit(tail[k]) {
      assert tail[k] == run[n - lo + k];
    }
  }

  /** `F-S-YYYY` at `i`, with two-digit `F` and `S`, matches the second pattern with every
      group at its widest. */
  lemma FullAmbiguousMatch(s: string, i: nat)
    requires i + 10 <= |s| && AllDigits(s[i..i + 2]) && AllDigits(s[i + 3..i + 5]) && AllDigits(s[i + 6..i + 10])
    requires s[i + 2] in DateSeparators && s[i + 5] in DateSeparators
    ensures MatchFrom(s, i, Patterns()[1].tokens) == Some([2, 1, 2, 1, 4])
  {
    var t4: seq<Token> := [Digits(4, 4)] + [];
    var t3 := [OneOf(DateSeparators)] + t4;
    var t2 := [Digits(1, 2)] + t3;
    var t1 := [OneOf(DateSeparators)] + t2;
    var t0 := [Digits(1, 2)] + t1;
    assert t0 == Patterns()[1].tokens;
    GreedyStep(s, i + 6, 4, 4, [], []);
    assert [4] + [] == [4];
    SeparatorStep(s, i + 5, DateSeparators, t4, [4]);
    assert [1] + [4] == [1, 4];
    GreedyStep(s, i + 3, 1, 2, t3, [1, 4]);
    assert [2] + [1, 4] == [2, 1, 4];
    SeparatorStep(s, i + 2, DateSeparators, t2, [2, 1, 4]);
    assert [1] + [2, 1, 4] == [1, 2, 1, 4];
    GreedyStep(s, i, 1, 2, t1, [1, 2, 1, 4]);
    assert [2] + [1, 2, 1, 4] == [2, 1, 2, 1, 4];
  }

  /** `YYYYMMDD` at `i` matches the third pattern. */
  lemma CompactMatch(s: string, i: nat)
    requires i + 8 <= |s| && AllDigits(s[i..i + 4]) && AllDigits(s[i + 4..i + 6]) && AllDigits(s[i + 6..i + 8])
    ensures MatchFrom(s, i, Patterns()[2].tokens) == Some([4, 2, 2])
  {
    var t2: seq<Token> := [Digits(2, 2)] + [];
    var t1 := [Digits(2, 2)] + t2;
    var t0 := [Digits(4, 4)] + t1;
    assert t0 == Patterns()[2].tokens;
    GreedyStep(s, i + 6, 2, 2, [], []);
    assert [2] + [] == [2];
    GreedyStep(s, i + 4, 2, 2, t2, [2]);
    assert [2] + [2] == [2, 2];
    GreedyStep(s, i, 4, 4, t1, [2, 2]);
    assert [4] + [2, 2] == [4, 2, 2];
  }

  lemma SumsOfFive(a: nat, b: nat, c: nat, d: nat, e: nat)
    ensures [a, b, c, d, e][..0] == [] && Sum([]) == 0
    ensures [a, b, c, d, e][..2] == [a, b] && Sum([a, b]) == a + b
    ensures [a, b, c, d, e][..4] == [a, b, c, d] && Sum([a, b, c, d]) == a + b + c + d
  {
    assert Sum([b]) == b;
    assert Sum([b, c, d]) == b + c + d by {
      assert Sum([c, d]) == c + d by {
        assert Sum([d]) == d;
      }
    }
  }

  lemma SumsOfThree(a: nat, b: nat, c: nat)
    ensures [a, b, c][..0] == [] && Sum([]) == 0
    ensures [a, b, c][..1] == [a] && Sum([a]) == a
    ensures [a, b, c][..2] == [a, b] && Sum([a, b]) == a + b
  {
    assert Sum([b]) == b;
  }

  /** The groups of a `F-S-YYYY` match at `i`. */
  lemma AmbiguousGroups(s: string, i: nat)
    requires i + 10 <= |s| && Conforms(s, i, Patterns()[1].tokens, [2, 1, 2, 1, 4])
    ensures var f := Found(i, [2, 1, 2, 1, 4]);
      Group(s, Patterns()[1].tokens, f, 0) == s[i..i + 2] &&
      Group(s, Patterns()[1].tokens, f, 2) == s[i + 3..i + 5] &&
      Group(s, Patterns()[1].tokens, f, 4) == s[i + 6..i + 10]
  {
    SumsOfFive(2, 1, 2, 1, 4);
  }

  /** The groups of a `YYYYMMDD` match at `i`. */
  lemma CompactGroups(s: string, i: nat)
    requires i + 8 <= |s| && Conforms(s, i, Patterns()[2].tokens, [4, 2, 2])
    ensures var f := Found(i, [4, 2, 2]);
      Group(s, Patterns()[2].tokens, f, 0) == s[i..i + 4] &&
      Group(s, Patterns()[2].tokens, f, 1) == s[i + 4..i + 6] &&
      Group(s, Patterns()[2].tokens, f, 2) == s[i + 6..i + 8]
  {
    SumsOfThree(4, 2, 2);
  }

  /** The groups of a `YYYY-MM-DD` match at `i`. */
  lemma IsoGroups(s: string, i: nat)
    requires i + 10 <= |s| && Conforms(s, i, Patterns()[0].tokens, [4, 1, 2, 1, 2])
    ensures var f := Found(i, [4, 1, 2, 1, 2]);
      Group(s, Patterns()[0].tokens, f, 0) == s[i..i + 4] &&
      Group(s, Patterns()[0].tokens, f, 2) == s[i + 5..i + 7] &&
      Group(s, Patterns()[0].tokens, f, 4) == s[i + 8..i + 10]
  {
    SumsOfFive(4, 1, 2, 1, 2);
  }

  /** A name that neither starts nor ends with ` .-_`, followed by one `.`, loses the `.`. */
  lemma TrailingDotOnly(name: string)
    requires name != [] && name[0] !in FundNameEdges && name[|name| - 1] !in FundNameEdges
    ensures Strip(name + ".", FundNameEdges) == name
  {
    var t := name + ".";
    assert t[0] == name[0] && t[|t| - 1] == '.' && t[..|t| - 1] == name;
  }

  // `Fund.13-32-2023.csv`: month 13 and day 32 fail both ways round

  const AmbiguousName := "Fund."

  const AmbiguousDate := "13-32-2023"

  const AmbiguousBase := AmbiguousName + AmbiguousDate

  const AmbiguousFile := AmbiguousBase + ".csv"

  /** The file name the pieces spell. */
  lemma AmbiguousFileSpelling()
    ensures AmbiguousFile == "Fund.13-32-2023.csv"
  {
  }

  lemma BaseOfAmbiguous()
    ensures BaseName(AmbiguousFile) == AmbiguousBase
  {
    assert '/' !in AmbiguousName && '/' !in AmbiguousDate && AmbiguousName[0] == 'F';
    NotInEither(AmbiguousName, AmbiguousDate, '/');
    assert ".csv"[1..] == "csv";
    BaseOfStem(AmbiguousBase, ".csv");
  }

  /** Where the groups and separators of the date stand in the base name. */
  lemma AmbiguousPieces()
    ensures |AmbiguousBase| == 15
    ensures AmbiguousBase[5..7] == "13" && AmbiguousBase[8..10] == "32" && AmbiguousBase[11..15] == "2023"
    ensures AmbiguousBase[7] == '-' && AmbiguousBase[10] == '-'
  {
    var s := AmbiguousBase;
    assert AmbiguousDate[0..2] == "13" && AmbiguousDate[3..5] == "32" && AmbiguousDate[6..10] == "2023";
    SliceOfRest(AmbiguousName, AmbiguousDate, 0, 2);
    SliceOfRest(AmbiguousName, AmbiguousDate, 3, 5);
    SliceOfRest(AmbiguousName, AmbiguousDate, 6, 10);
    assert s[7] == AmbiguousDate[2] && s[10] == AmbiguousDate[5];
  }

  lemma AmbiguousNotIso()
    ensures Search(AmbiguousBase, Patterns()[0].tokens).None?
  {
    var s := AmbiguousBase;
    AmbiguousPieces();
    assert forall j :: 0 <= j < 5 ==> s[j] == AmbiguousName[j];
    assert forall j :: 5 <= j < 15 ==> s[j] == AmbiguousDate[j - 5];
    assert forall j :: 0 <= j < 15 && s[j] in DateSeparators ==> j == 4 || j == 7 || j == 10;
    forall j | 4 <= j < |s| && s[j] in DateSeparators ensures !AllDigits(s[j - 4..j]) {
      if j == 4 {
        assert s[0..4][0] == s[0] == 'F';
      } else if j == 7 {
        assert s[3..7][0] == s[3] == 'd';
      } else {
        assert s[6..10][1] == s[7];
      }
    }
    NoDigitsBeforeSeparator(s, Patterns()[0].tokens);
  }

  const AmbiguousMatch := Found(5, [2, 1, 2, 1, 4])

  lemma SearchOfAmbiguous()
    ensures Search(AmbiguousBase, Patterns()[1].tokens) == Some(AmbiguousMatch)
  {
    assert forall k :: 0 <= k < |AmbiguousName| ==> !IsDigit(AmbiguousName[k]);
    SearchPastName(AmbiguousName, AmbiguousDate, Patterns()[1].tokens);
    AmbiguousPieces();
    FullAmbiguousMatch(AmbiguousBase, 5);
  }

  lemma FirstMatchOfAmbiguous()
    ensures FirstMatch(AmbiguousBase, 0) == Some((1, AmbiguousMatch))
  {
    AmbiguousNotIso();
    SearchOfAmbiguous();
  }

  lemma Text13()
    ensures DecimalValue("13") == 13 && DecimalValue("32") == 32
  {
    assert DecimalString(1) == "1" && DecimalString(13) == "13";
    assert DecimalString(3) == "3" && DecimalString(32) == "32";
  }

  /** Month first reads month 13 and day 32, which `normalize_date` rejects. */
  lemma DateOfAmbiguous()
    ensures Conforms(AmbiguousBase, 5, Patterns()[1].tokens, AmbiguousMatch.lens)
    ensures DateOf(AmbiguousBase, Patterns()[1], AmbiguousMatch) == Err(MissingKey("second"))
    ensures DateOfIntended(AmbiguousBase, Patterns()[1], AmbiguousMatch) == Err(InvalidDate(ValueError))
  {
    var s := AmbiguousBase;
    SearchOfAmbiguous();
    AmbiguousPieces();
    AmbiguousGroups(s, 5);
    DecimalText2023();
    Text13();
    AsWrittenRaisesKeyError();
  }

  /** `_extract_fund_info('Fund.13-32-2023.csv')` raises `KeyError('second')`, where the
      intended day-first retry would raise the `ValueError` of `normalize_date`. */
  lemma AmbiguousFileRaisesKeyError()
    ensures AmbiguousFile == "Fund.13-32-2023.csv"
    ensures FundInfoOf(AmbiguousFile) == Err(MissingKey("second"))
    ensures FundInfoOfIntended(AmbiguousFile) == Err(InvalidDate(ValueError))
  {
    AmbiguousFileSpelling();
    BaseOfAmbiguous();
    FirstMatchOfAmbiguous();
    DateOfAmbiguous();
  }

  // `TT_monthly_AsiaFund.20230228.csv`: the compact `YYYYMMDD` pattern

  /** A search skips a name without digits in front of the rest. */
  lemma SearchPastName(name: string, rest: string, ts: seq<Token>)
    requires ts != [] && ts[0].Digits? && forall k :: 0 <= k < |name| ==> !IsDigit(name[k])
    ensures Search(name + rest, ts) == SearchFrom(name + rest, ts, |name|)
  {
    var s := name + rest;
    forall j | 0 <= j < |name| ensures !IsDigit(s[j]) {
      assert s[j] == name[j];
    }
    SearchSkips(s, ts, 0, |name|);
  }

  lemma SliceOfRest(name: string, rest: string, x: nat, y: nat)
    requires x <= y <= |rest|
    ensures (name + rest)[|name| + x..|name| + y] == rest[x..y]
  {
    var s := name + rest;
    forall k | 0 <= k < y - x ensures s[|name| + x..|name| + y][k] == rest[x..y][k] {
      assert s[|name| + x + k] == rest[x + k];
    }
  }

  const MonthlyName := "TT_monthly_AsiaFund."

  const MonthlyDigits := "20230228"

  const MonthlyFile := MonthlyName + MonthlyDigits + ".csv"

  const MonthlyMatch := Found(20, [4, 2, 2])

  /** The file name the pieces spell. */
  lemma MonthlyFileSpelling()
    ensures MonthlyFile == "TT_monthly_AsiaFund.20230228.csv"
  {
  }

  lemma BaseOfMonthly()
    ensures BaseName(MonthlyFile) == MonthlyName + MonthlyDigits
  {
    assert '/' !in MonthlyName && '/' !in MonthlyDigits && MonthlyName[0] == 'T';
    NotInEither(MonthlyName, MonthlyDigits, '/');
    assert ".csv"[1..] == "csv";
    BaseOfStem(MonthlyName + MonthlyDigits, ".csv");
  }

  lemma NotInEither(a: string, b: string, c: char)
    requires c !in a && c !in b
    ensures c !in a + b && (a != [] ==> (a + b)[0] == a[0])
  {
  }

  /** `base` followed by an extension `.ext`, with no `/` anywhere and no `.` leading
      the base or inside `ext`, has base name `base`. */
  lemma BaseOfStem(base: string, ext: string)
    requires base != [] && base[0] != '.' && '/' !in base
    requires ext != [] && ext[0] == '.' && '/' !in ext && '.' !in ext[1..]
    ensures BaseName(base + ext) == base
  {
    var file := base + ext;
    assert file[|base|] == '.' && file[|base| + 1..] == ext[1..] && file[..|base|] == base;
    assert '/' !in file by {
      forall k | 0 <= k < |file| ensures file[k] != '/' {
        if k < |base| {
          assert file[k] == base[k];
        } else {
          assert file[k] == ext[k - |base|];
        }
      }
    }
    BaseOfFile(file, |base|);
  }

  /** The name has no digit, and its one separator, the trailing `.`, follows a letter. */
  lemma MonthlyNameShape()
    ensures |MonthlyName| == 20 && forall k :: 0 <= k < 20 ==> !IsDigit(MonthlyName[k])
    ensures forall k :: 0 <= k < 20 && MonthlyName[k] in DateSeparators ==> k == 19
    ensures MonthlyName[18] == 'd'
  {
  }

  /** The only separator, the `.` at 19, follows a letter. */
  lemma MonthlyNotSeparated()
    ensures Search(MonthlyName + MonthlyDigits, Patterns()[0].tokens).None?
    ensures Search(MonthlyName + MonthlyDigits, Patterns()[1].tokens).None?
  {
    var s := MonthlyName + MonthlyDigits;
    MonthlyNameShape();
    assert forall j :: 20 <= j < |s| ==> s[j] == MonthlyDigits[j - 20];
    assert forall j :: 0 <= j < 20 ==> s[j] == MonthlyName[j];
    assert forall j :: 0 <= j < |s| && s[j] in DateSeparators ==> j == 19;
    forall j | 4 <= j < |s| && s[j] in DateSeparators ensures !AllDigits(s[j - 4..j]) {
      assert s[j - 4..j][3] == s[18];
    }
    NoDigitsBeforeSeparator(s, Patterns()[0].tokens);
    forall j | 1 <= j < |s| && s[j] in DateSeparators ensures !AllDigits(s[j - 1..j]) {
      assert s[j - 1..j][0] == s[18];
    }
    NoDigitsBeforeSeparator(s, Patterns()[1].tokens);
  }

  lemma MonthlyDigitGroups()
    ensures MonthlyDigits[0..4] == "2023" && MonthlyDigits[4..6] == "02" && MonthlyDigits[6..8] == "28"
  {
  }

  lemma MonthlyGroupsAt()
    ensures var s := MonthlyName + MonthlyDigits;
      s[20..24] == "2023" && s[24..26] == "02" && s[26..28] == "28"
  {
    MonthlyDigitGroups();
    SliceOfRest(MonthlyName, MonthlyDigits, 0, 4);
    SliceOfRest(MonthlyName, MonthlyDigits, 4, 6);
    SliceOfRest(MonthlyName, MonthlyDigits, 6, 8);
  }

  lemma SearchOfMonthly()
    ensures Search(MonthlyName + MonthlyDigits, Patterns()[2].tokens) == Some(MonthlyMatch)
  {
    var s := MonthlyName + MonthlyDigits;
    MonthlyNameShape();
    SearchPastName(MonthlyName, MonthlyDigits, Patterns()[2].tokens);
    MonthlyGroupsAt();
    CompactMatch(s, 20);
  }

  lemma FirstMatchOfMonthly()
    ensures FirstMatch(MonthlyName + MonthlyDigits, 0) == Some((2, MonthlyMatch))
  {
    MonthlyNotSeparated();
    SearchOfMonthly();
  }

  lemma Text0228()
    ensures DecimalValue("02") == 2 && DecimalValue("28") == 28
    ensures ZFill(DecimalString(2), 2) == "02" && ZFill(DecimalString(28), 2) == "28"
  {
    assert "02"[..1] == "0" && "0"[..0] == [];
    assert DecimalString(2) == "2" && DecimalString(28) == "28";
    PaddedTwo();
  }

  lemma Padded28()
    ensures ZFill(DecimalString(28), 2) == "28"
  {
    assert DecimalString(2) == "2";
    assert DecimalString(28) == "28";
    assert ZFill("28", 2) == "28";
  }

  lemma IsoOfMonthly()
    ensures IsoText(2023, 2, 28) == "2023-02-28"
  {
    DecimalText2023();
    PaddedTwo();
    Padded28();
  }

  lemma NormalizedMonthly()
    ensures NormalizeDate(2023, 2, 28) == Ok("2023-02-28")
  {
    NormalizeDateOutcome(2023, 2, 28);
    IsoOfMonthly();
  }

  lemma DateOfMonthly()
    ensures Conforms(MonthlyName + MonthlyDigits, 20, Patterns()[2].tokens, MonthlyMatch.lens)
    ensures DateOf(MonthlyName + MonthlyDigits, Patterns()[2], MonthlyMatch) == Ok("2023-02-28")
  {
    var s := MonthlyName + MonthlyDigits;
    SearchOfMonthly();
    CompactGroups(s, 20);
    MonthlyGroupsAt();
    DecimalText2023();
    Text0228();
    NormalizedMonthly();
  }

  lemma BeforeDateOfMonthly()
    ensures Conforms(MonthlyName + MonthlyDigits, 20, Patterns()[2].tokens, MonthlyMatch.lens)
    ensures BeforeFirst(MonthlyName + MonthlyDigits, MatchedText(MonthlyName + MonthlyDigits, Patterns()[2].tokens, MonthlyMatch)) ==
      MonthlyName
  {
    var s := MonthlyName + MonthlyDigits;
    SearchOfMonthly();
    assert ValidPattern(Patterns()[2]);
    TextBeforeMatch(s, Patterns()[2].tokens, MonthlyMatch);
    assert s[..20] == MonthlyName;
  }

  /** `TT_monthly_` is removed, then the trailing `.`. */
  lemma NameOfMonthly()
    ensures CleanFundName(MonthlyName) == "AsiaFund"
  {
    assert MonthlyName == "TT_monthly_" + "AsiaFund" + ".";
    assert ' ' !in "AsiaFund" && 'R' !in "AsiaFund" && '-' !in "AsiaFund" && 'T' !in "AsiaFund";
    MonthlyPrefixName("AsiaFund");
  }

  /** A name behind `TT_monthly_` that holds no other noise word keeps only itself. */
  lemma MonthlyPrefixName(name: string)
    requires name != [] && name[0] !in FundNameEdges && name[|name| - 1] !in FundNameEdges
    requires ' ' !in name && 'R' !in name && '-' !in name && 'T' !in name
    ensures CleanFundName("TT_monthly_" + name + ".") == name
  {
    var rest := name + ".";
    var raw := "TT_monthly_" + rest;
    assert "TT_monthly_" + name + "." == raw;
    assert ' ' !in raw && 'R' !in raw && '-' !in raw && 'T' !in rest;
    RemoveAllAbsent(raw, "Fund ", ' ');
    RemoveAllAbsent(raw, "Report-of-", 'R');
    RemoveAllAbsent(raw, "mend-report ", ' ');
    RemoveAllAbsent(raw, "rpt-", '-');
    PrefixThenAbsent("TT_monthly_", rest, 'T');
    TrailingDotOnly(name);
  }

  /** Removing `t` from `t + rest`, where `rest` misses a character of `t`, leaves `rest`. */
  lemma PrefixThenAbsent(t: string, rest: string, c: char)
    requires c in t && c !in rest
    ensures RemoveAll(t + rest, t) == rest
  {
    assert (t + rest)[..|t|] == t && (t + rest)[|t|..] == rest;
    RemoveAllAbsent(rest, t, c);
  }

  /** `_extract_fund_info('TT_monthly_AsiaFund.20230228.csv')` gives
      `('AsiaFund', '2023-02-28')`. */
  lemma MonthlyFileInfo()
    ensures MonthlyFile == "TT_monthly_AsiaFund.20230228.csv"
    ensures FundInfoOf(MonthlyFile) == Ok(("AsiaFund", "2023-02-28"))
  {
    MonthlyFileSpelling();
    BaseOfMonthly();
    FirstMatchOfMonthly();
    DateOfMonthly();
    BeforeDateOfMonthly();
    NameOfMonthly();
  }

  // `FundA.2023-01-31.csv`: the ISO pattern right after the name

  const FundAName := "FundA."

  const FundADate := "2023-01-31"

  const FundABase := FundAName + FundADate

  const FundAFile := FundABase + ".csv"

  const FundAMatch := Found(6, [4, 1, 2, 1, 2])

  /** The file name the pieces spell. */
  lemma FundAFileSpelling()
    ensures FundAFile == "FundA.2023-01-31.csv"
  {
  }

  lemma BaseOfFundA()
    ensures BaseName(FundAFile) == FundABase
  {
    assert '/' !in FundAName && '/' !in FundADate && FundAName[0] == 'F';
    NotInEither(FundAName, FundADate, '/');
    assert ".csv"[1..] == "csv";
    BaseOfStem(FundABase, ".csv");
  }

  /** Where the groups and separators of the date stand in the base name. */
  lemma FundAPieces()
    ensures |FundABase| == 16
    ensures FundABase[6..10] == "2023" && FundABase[11..13] == "01" && FundABase[14..16] == "31"
    ensures FundABase[10] == '-' && FundABase[13] == '-'
  {
    var s := FundABase;
    assert FundADate[0..4] == "2023" && FundADate[5..7] == "01" && FundADate[8..10] == "31";
    SliceOfRest(FundAName, FundADate, 0, 4);
    SliceOfRest(FundAName, FundADate, 5, 7);
    SliceOfRest(FundAName, FundADate, 8, 10);
    assert s[10] == FundADate[4] && s[13] == FundADate[7];
  }

  lemma SearchOfFundA()
    ensures Search(FundABase, Patterns()[0].tokens) == Some(FundAMatch)
  {
    assert forall k :: 0 <= k < |FundAName| ==> !IsDigit(FundAName[k]);
    SearchPastName(FundAName, FundADate, Patterns()[0].tokens);
    FundAPieces();
    FullIsoMatch(FundABase, 6);
  }

  lemma Text0131()
    ensures DecimalValue("01") == 1 && DecimalValue("31") == 31
    ensures ZFill(DecimalString(1), 2) == "01" && ZFill(DecimalString(31), 2) == "31"
  {
    assert "01"[..1] == "0" && "0"[..0] == [];
    assert DecimalString(1) == "1" && DecimalString(31) == "31";
    assert seq(1, _ => '0') == "0";
    DecimalText31();
  }

  lemma PaddedOne()
    ensures ZFill(DecimalString(1), 2) == "01"
  {
    assert DecimalString(1) == "1";
    assert seq(1, _ => '0') == "0";
  }

  lemma IsoOfFundA()
    ensures IsoText(2023, 1, 31) == "2023-01-31"
  {
    DecimalText2023();
    PaddedOne();
    DecimalText31();
  }

  lemma NormalizedFundA()
    ensures NormalizeDate(2023, 1, 31) == Ok("2023-01-31")
  {
    NormalizeDateOutcome(2023, 1, 31);
    IsoOfFundA();
  }

  lemma DateOfFundA()
    ensures Conforms(FundABase, 6, Patterns()[0].tokens, FundAMatch.lens)
    ensures DateOf(FundABase, Patterns()[0], FundAMatch) == Ok("2023-01-31")
  {
    var s := FundABase;
    SearchOfFundA();
    FundAPieces();
    IsoGroups(s, 6);
    DecimalText2023();
    Text0131();
    NormalizedFundA();
  }

  lemma BeforeDateOfFundA()
    ensures Conforms(FundABase, 6, Patterns()[0].tokens, FundAMatch.lens)
    ensures BeforeFirst(FundABase, MatchedText(FundABase, Patterns()[0].tokens, FundAMatch)) == FundAName
  {
    SearchOfFundA();
    assert ValidPattern(Patterns()[0]);
    TextBeforeMatch(FundABase, Patterns()[0].tokens, FundAMatch);
    assert FundABase[..6] == FundAName;
  }

  /** No noise word occurs; the trailing `.` goes. */
  lemma NameOfFundA()
    ensures CleanFundName(FundAName) == "FundA"
  {
    assert FundAName == "FundA" + ".";
    assert ' ' !in "FundA" && 'R' !in "FundA" && '_' !in "FundA" && '-' !in "FundA";
    PlainName("FundA");
  }

  /** A name that holds no noise word keeps only itself once the trailing `.` goes. */
  lemma PlainName(name: string)
    requires name != [] && name[0] !in FundNameEdges && name[|name| - 1] !in FundNameEdges
    requires ' ' !in name && 'R' !in name && '_' !in name && '-' !in name
    ensures CleanFundName(name + ".") == name
  {
    var raw := name + ".";
    assert ' ' !in raw && 'R' !in raw && '_' !in raw && '-' !in raw;
    NoiseAbsent(raw);
    RemoveAllAbsent(raw, "rpt-", '-');
    TrailingDotOnly(name);
  }

  /** `_extract_fund_info('FundA.2023-01-31.csv')` gives `('FundA', '2023-01-31')`. */
  lemma FundAFileInfo()
    ensures FundAFile == "FundA.2023-01-31.csv"
    ensures FundInfoOf(FundAFile) == Ok(("FundA", "2023-01-31"))
  {
    FundAFileSpelling();
    BaseOfFundA();
    SearchOfFundA();
    DateOfFundA();
    BeforeDateOfFundA();
    NameOfFundA();
  }
}
