/** Python `str` operations used by the pipeline, on `seq<char>` compared by code point. */
module Strings {
  import opened Wrappers

  /** The characters Python's `str.strip()` removes when called without arguments. */
  const Whitespace: set<char> := {
    ' ', '\t', '\n', '\r', '\U{000B}', '\U{000C}', '\U{001C}', '\U{001D}',
    '\U{001E}', '\U{001F}', '\U{0085}', '\U{00A0}', '\U{1680}', '\U{2000}', '\U{2001}', '\U{2002}',
    '\U{2003}', '\U{2004}', '\U{2005}', '\U{2006}', '\U{2007}', '\U{2008}', '\U{2009}', '\U{200A}',
    '\U{2028}', '\U{2029}', '\U{202F}', '\U{205F}', '\U{3000}'
  }

  // ---------------------------------------------------------------------------
  // strip

  /** `s.lstrip(cs)`: drops the longest prefix made of characters of `cs`. */
  function StripLeft(s: string, cs: set<char>): (r: string)
    ensures |r| <= |s| && r == s[|s| - |r|..]
    ensures forall k :: 0 <= k < |s| - |r| ==> s[k] in cs
    ensures r != [] ==> r[0] !in cs
  {
    if s != [] && s[0] in cs then StripLeft(s[1..], cs) else s
  }

  /** `s.rstrip(cs)`: drops the longest suffix made of characters of `cs`. */
  function StripRight(s: string, cs: set<char>): (r: string)
    ensures |r| <= |s| && r == s[..|r|]
    ensures forall k :: |r| <= k < |s| ==> s[k] in cs
    ensures r != [] ==> r[|r| - 1] !in cs
  {
    if s != [] && s[|s| - 1] in cs then StripRight(s[..|s| - 1], cs) else s
  }

  /** `s.strip(cs)`: drops characters of `cs` from both ends. */
  function Strip(s: string, cs: set<char>): string {
    StripRight(StripLeft(s, cs), cs)
  }

  /** `Strip` keeps exactly the middle part of `s` between two runs of `cs`, and
      the part it keeps starts and ends outside `cs`. */
  lemma StripIsMiddle(s: string, cs: set<char>)
    ensures var r := Strip(s, cs);
      exists i, j :: 0 <= i <= j <= |s| && r == s[i..j]
        && (forall k :: 0 <= k < i ==> s[k] in cs)
        && (forall k :: j <= k < |s| ==> s[k] in cs)
    ensures var r := Strip(s, cs); r != [] ==> r[0] !in cs && r[|r| - 1] !in cs
  {
    var l := StripLeft(s, cs);
    var r := StripRight(l, cs);
    var i := |s| - |l|;
    MiddleOf(s, cs, l, r, i);
  }

  /** The facts behind `StripIsMiddle`, stated over the two strip results. */
  lemma MiddleOf(s: string, cs: set<char>, l: string, r: string, i: nat)
    requires i == |s| - |l| && l == s[i..] && forall k :: 0 <= k < i ==> s[k] in cs
    requires |r| <= |l| && r == l[..|r|] && forall k :: |r| <= k < |l| ==> l[k] in cs
    ensures 0 <= i <= i + |r| <= |s| && r == s[i..i + |r|]
    ensures forall k :: i + |r| <= k < |s| ==> s[k] in cs
  {
    var j := i + |r|;
    forall k | j <= k < |s| ensures s[k] in cs {
      assert s[k] == l[k - i];
    }
  }

  /** Every character `Strip` keeps comes from `s`. */
  lemma StripKeepsCharacters(s: string, cs: set<char>)
    ensures forall k :: 0 <= k < |Strip(s, cs)| ==> Strip(s, cs)[k] in s
  {
    var l := StripLeft(s, cs);
    var r := StripRight(l, cs);
    var i := |s| - |l|;
    MiddleOf(s, cs, l, r, i);
    forall k | 0 <= k < |r| ensures r[k] in s {
      assert r[k] == s[i + k];
    }
  }

  /** Stripping twice is stripping once. */
  lemma StripIdempotent(s: string, cs: set<char>)
    ensures Strip(Strip(s, cs), cs) == Strip(s, cs)
  {
    var r := Strip(s, cs);
    if r != [] {
      assert StripLeft(r, cs) == r;
      assert StripRight(r, cs) == r;
    }
  }

  /** A string that starts and ends outside `cs` is its own strip. */
  lemma StripNoEdges(s: string, cs: set<char>)
    requires s != [] ==> s[0] !in cs && s[|s| - 1] !in cs
    ensures Strip(s, cs) == s
  {
    assert StripLeft(s, cs) == s;
  }

  /** `Strip` leaves `s` alone exactly when `s` starts and ends outside `cs`, and
      whenever it removes nothing it leaves `s` alone. */
  lemma StripUnchanged(s: string, cs: set<char>)
    ensures Strip(s, cs) == s <==> (s != [] ==> s[0] !in cs && s[|s| - 1] !in cs)
    ensures |Strip(s, cs)| == |s| ==> Strip(s, cs) == s
  {
    var l := StripLeft(s, cs);
    var r := StripRight(l, cs);
    if |r| == |s| {
      assert l == s[0..] == s;
      assert r == l[..|l|] == l;
    }
    StripIsMiddle(s, cs);
    if s != [] ==> s[0] !in cs && s[|s| - 1] !in cs {
      StripNoEdges(s, cs);
    }
  }

  // ---------------------------------------------------------------------------
  // code-point order, as Python compares `str` values

  /** Python's `a < b` on strings: lexicographic by code point, a proper prefix first. */
  predicate Less(a: string, b: string)
    decreases |a|
  {
    if a == [] then b != []
    else if b == [] then false
    else if a[0] == b[0] then Less(a[1..], b[1..])
    else a[0] < b[0]
  }

  /** String order is irreflexive, transitive and total on distinct strings. */
  lemma {:induction false} LessIsStrictTotal(a: string, b: string, c: string)
    ensures !Less(a, a)
    ensures Less(a, b) && Less(b, c) ==> Less(a, c)
    ensures a == b || Less(a, b) || Less(b, a)
    decreases |a|
  {
    if a != [] && b != [] && c != [] {
      LessIsStrictTotal(a[1..], b[1..], c[1..]);
    } else if a != [] && b != [] {
      LessIsStrictTotal(a[1..], b[1..], b[1..]);
      if a[0] == b[0] && a[1..] == b[1..] {
        assert a == [a[0]] + a[1..] && b == [b[0]] + b[1..];
      }
    } else if a != [] {
      LessIsStrictTotal(a[1..], a[1..], a[1..]);
    }
    if a != [] && b != [] && a[0] == b[0] && a[1..] == b[1..] {
      assert a == [a[0]] + a[1..] && b == [b[0]] + b[1..];
    }
  }

  // ---------------------------------------------------------------------------
  // decimal digits

  /** ASCII decimal digit, as matched by `\d` in the model. */
  predicate IsDigit(c: char) {
    '0' <= c <= '9'
  }

  predicate AllDigits(s: string) {
    forall k :: 0 <= k < |s| ==> IsDigit(s[k])
  }

  function DigitValue(c: char): (v: nat)
    requires IsDigit(c)
    ensures v < 10
  {
    (c as int) - ('0' as int)
  }

  function DigitChar(v: nat): (c: char)
    requires v < 10
    ensures IsDigit(c) && DigitValue(c) == v
  {
    ('0' as int + v) as char
  }

  /** `int(s)` for a string of digits (leading zeros allowed). */
  function DecimalValue(s: string): nat
    requires AllDigits(s)
  {
    if s == [] then 0 else DecimalValue(s[..|s| - 1]) * 10 + DigitValue(s[|s| - 1])
  }

  /** `str(n)` for a natural number: decimal digits without leading zeros. */
  function DecimalString(n: nat): (r: string)
    ensures r != [] && AllDigits(r)
    ensures DecimalValue(r) == n
    ensures |r| > 1 ==> r[0] != '0'
    decreases n
  {
    if n < 10 then [DigitChar(n)]
    else
      var r := DecimalString(n / 10) + [DigitChar(n % 10)];
      assert r[..|r| - 1] == DecimalString(n / 10);
      r
  }

  /** `str(n)` has exactly four characters for a four-digit number. */
  lemma {:induction false} DecimalStringOfFourDigits(n: nat)
    requires 1000 <= n < 10000
    ensures |DecimalString(n)| == 4
  {
    assert |DecimalString(n / 1000)| == 1;
    assert DecimalString(n / 100) == DecimalString(n / 1000) + [DigitChar((n / 100) % 10)];
    assert DecimalString(n / 10) == DecimalString(n / 100) + [DigitChar((n / 10) % 10)];
  }

  /** `s.zfill(width)` for an unsigned digit string: left-pads with `'0'`. */
  function ZFill(s: string, width: nat): (r: string)
    ensures |r| == if |s| >= width then |s| else width
    ensures r[|r| - |s|..] == s
    ensures forall k :: 0 <= k < |r| - |s| ==> r[k] == '0'
  {
    if |s| >= width then s else seq(width - |s|, _ => '0') + s
  }

  /** Leading zeros do not change the value of a digit string. */
  lemma {:induction false} LeadingZeros(z: string, s: string)
    requires forall k :: 0 <= k < |z| ==> z[k] == '0'
    requires AllDigits(s)
    ensures AllDigits(z + s) && DecimalValue(z + s) == DecimalValue(s)
    decreases |s|
  {
    if s == [] {
      assert z + s == z;
      ZerosValue(z);
    } else {
      assert (z + s)[..|z + s| - 1] == z + s[..|s| - 1];
      LeadingZeros(z, s[..|s| - 1]);
    }
  }

  lemma {:induction false} ZerosValue(z: string)
    requires forall k :: 0 <= k < |z| ==> z[k] == '0'
    ensures AllDigits(z) && DecimalValue(z) == 0
    decreases |z|
  {
    if z != [] {
      ZerosValue(z[..|z| - 1]);
    }
  }

  /** `str(n).zfill(2)` for `n < 100` is two digits whose value is `n`. */
  lemma TwoDigitPadding(n: nat)
    requires n < 100
    ensures var r := ZFill(DecimalString(n), 2);
      |r| == 2 && AllDigits(r) && DecimalValue(r) == n
  {
    var s := DecimalString(n);
    if n >= 10 {
      assert DecimalString(n / 10) == [DigitChar(n / 10)];
    }
    var r := ZFill(s, 2);
    LeadingZeros(r[..|r| - |s|], s);
    assert r == r[..|r| - |s|] + s;
  }

  // ---------------------------------------------------------------------------
  // case, search and replace

  /** `c.lower()` on ASCII letters; other characters are unchanged. */
  function LowerChar(c: char): (r: char)
    ensures 'A' <= c <= 'Z' ==> 'a' <= r <= 'z'
    ensures !('A' <= c <= 'Z') ==> r == c
  {
    if 'A' <= c <= 'Z' then (c as int + 32) as char else c
  }

  function Lower(s: string): (r: string)
    ensures |r| == |s| && forall k :: 0 <= k < |s| ==> r[k] == LowerChar(s[k])
  {
    seq(|s|, k requires 0 <= k < |s| => LowerChar(s[k]))
  }

  /** `t` occurs in `s` at position `i`. */
  predicate OccursAt(s: string, t: string, i: nat) {
    i + |t| <= |s| && s[i..i + |t|] == t
  }

  /** `s.find(t)`: the first position at or after `from` where `t` occurs. */
  function IndexOfFrom(s: string, t: string, from: nat): (r: Option<nat>)
    ensures r.Some? ==> from <= r.value && OccursAt(s, t, r.value)
    ensures forall j :: from <= j && (r.None? || j < r.value) ==> !OccursAt(s, t, j)
    decreases |s| - from
  {
    if from + |t| > |s| then None
    else if s[from..from + |t|] == t then Some(from)
    else IndexOfFrom(s, t, from + 1)
  }

  function IndexOf(s: string, t: string): Option<nat> {
    IndexOfFrom(s, t, 0)
  }

  /** The first position at or after `from` holding a character of `cs`. */
  function IndexOfAnyFrom(s: string, cs: set<char>, from: nat): (r: Option<nat>)
    ensures r.Some? ==> from <= r.value < |s| && s[r.value] in cs
    ensures forall j :: from <= j < |s| && (r.None? || j < r.value) ==> s[j] !in cs
    decreases |s| - from
  {
    if from >= |s| then None
    else if s[from] in cs then Some(from)
    else IndexOfAnyFrom(s, cs, from + 1)
  }

  function IndexOfAny(s: string, cs: set<char>): Option<nat> {
    IndexOfAnyFrom(s, cs, 0)
  }

  /** A string with no character of `cs` is left alone by `Strip` and has no position
      holding a character of `cs`. */
  lemma {:induction false} NothingToStrip(s: string, cs: set<char>)
    requires forall k :: 0 <= k < |s| ==> s[k] !in cs
    ensures Strip(s, cs) == s
    ensures IndexOfAny(s, cs) == None
  {
    assert StripLeft(s, cs) == s;
    assert StripRight(s, cs) == s;
  }

  /** `s.split(sep)[0]`: the text before the first occurrence of `sep` (all of `s` if none). */
  function BeforeFirst(s: string, sep: string): (r: string)
    ensures IndexOf(s, sep).Some? ==> r == s[..IndexOf(s, sep).value]
    ensures IndexOf(s, sep).None? ==> r == s
  {
    match IndexOf(s, sep)
    case Some(i) => s[..i]
    case None => s
  }

  /** `s.replace(token, '')`: removes the non-overlapping occurrences of `token` found
      scanning from left to right. */
  function RemoveAll(s: string, token: string): (r: string)
    requires token != []
    ensures |r| <= |s|
    decreases |s|
  {
    if |s| < |token| then s
    else if s[..|token|] == token then RemoveAll(s[|token|..], token)
    else [s[0]] + RemoveAll(s[1..], token)
  }

  /** An occurrence in `s[1..]` is an occurrence in `s`, one position later. */
  lemma OccursInTail(s: string, t: string, i: nat)
    requires s != []
    ensures OccursAt(s[1..], t, i) <==> OccursAt(s, t, i + 1)
  {
    if i + 1 + |t| <= |s| {
      assert s[1..][i..i + |t|] == s[i + 1..i + 1 + |t|];
    }
  }

  /** Removal changes nothing exactly when `token` does not occur at all. */
  lemma {:induction false} RemoveAllUnchanged(s: string, token: string)
    requires token != []
    ensures RemoveAll(s, token) == s <==> forall i :: !OccursAt(s, token, i)
    decreases |s|
  {
    if |s| < |token| {
    } else if s[..|token|] == token {
      assert OccursAt(s, token, 0);
    } else {
      RemoveAllUnchanged(s[1..], token);
      assert !OccursAt(s, token, 0);
      forall i: nat ensures OccursAt(s[1..], token, i) <==> OccursAt(s, token, i + 1) {
        OccursInTail(s, token, i);
      }
      assert s == [s[0]] + s[1..];
      if RemoveAll(s, token) == s {
        assert RemoveAll(s[1..], token) == s[1..];
        forall i: nat ensures !OccursAt(s, token, i) {
          if i > 0 { OccursInTail(s, token, i - 1); }
        }
      }
    }
  }
}
