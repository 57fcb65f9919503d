/** `DataValidator._preprocess_dataframe`: the header normalisation, the symbol clean-up,
    the market-value quality check, the numeric coercion and the column selection applied
    to the table of one fund file. */
module Preprocess {
  import opened Wrappers
  import opened Strings
  import opened Sorting
  import opened Numeric

  // ---------------------------------------------------------------------------
  // column headers: lower-case, runs of other characters to `_`, `_` stripped

  predicate IsWordChar(c: char) {
    'a' <= c <= 'z' || '0' <= c <= '9'
  }

  predicate IsHeaderChar(c: char) {
    IsWordChar(c) || c == '_'
  }

  predicate NoDoubleUnderscore(s: string) {
    forall k :: 0 <= k < |s| - 1 && s[k] == '_' ==> s[k + 1] != '_'
  }

  /** `re.sub('[^a-z0-9]+', '_', s)`: every maximal run of characters outside `[a-z0-9]`
      becomes a single underscore. The result holds only `[a-z0-9_]`, never two
      underscores in a row, and ends with an underscore exactly when `s` ends outside
      `[a-z0-9]`. */
  function CollapseRuns(s: string): (r: string)
    ensures s == [] <==> r == []
    ensures s != [] ==> (r[|r| - 1] == '_' <==> !IsWordChar(s[|s| - 1]))
    ensures forall k :: 0 <= k < |r| ==> IsHeaderChar(r[k])
    ensures NoDoubleUnderscore(r)
    decreases |s|
  {
    if s == [] then []
    else
      var init, c := s[..|s| - 1], s[|s| - 1];
      var r := CollapseRuns(init);
      if IsWordChar(c) then r + [c]
      else if init != [] && !IsWordChar(init[|init| - 1]) then r
      else r + "_"
  }

  /** The letters and digits of the header survive, in their order. */
  lemma {:induction false} CollapseKeepsWords(s: string)
    ensures Filter(CollapseRuns(s), IsWordChar) == Filter(s, IsWordChar)
    decreases |s|
  {
    if s != [] {
      var init, c := s[..|s| - 1], s[|s| - 1];
      var r := CollapseRuns(init);
      CollapseKeepsWords(init);
      if IsWordChar(c) {
        assert (r + [c])[..|r + [c]| - 1] == r;
      } else if !(init != [] && !IsWordChar(init[|init| - 1])) {
        assert (r + "_")[..|r + "_"| - 1] == r;
      }
    }
  }

  /** A string of `[a-z0-9_]` without a double underscore is left as it is. */
  lemma {:induction false} CollapseClean(s: string)
    requires forall k :: 0 <= k < |s| ==> IsHeaderChar(s[k])
    requires NoDoubleUnderscore(s)
    ensures CollapseRuns(s) == s
    decreases |s|
  {
    if s != [] {
      var init := s[..|s| - 1];
      CollapseClean(init);
      assert s == init + [s[|s| - 1]];
      if init != [] && s[|s| - 1] == '_' {
        assert s[|s| - 2] != '_';
      }
    }
  }

  /** `df.columns.str.lower().str.replace(r'[^a-z0-9]+', '_', regex=True).str.strip('_')`:
      a header made of `[a-z0-9_]`, with no double underscore and no underscore at
      either end. */
  function NormalizeHeader(h: string): (r: string)
    ensures forall k :: 0 <= k < |r| ==> IsHeaderChar(r[k])
    ensures NoDoubleUnderscore(r)
    ensures r != [] ==> r[0] != '_' && r[|r| - 1] != '_'
  {
    var c := CollapseRuns(Lower(h));
    StripIsMiddle(c, {'_'});
    var r := Strip(c, {'_'});
    MiddleKeepsShape(c, r);
    r
  }

  lemma MiddleKeepsShape(c: string, r: string)
    requires forall k :: 0 <= k < |c| ==> IsHeaderChar(c[k])
    requires NoDoubleUnderscore(c)
    requires exists i, j :: 0 <= i <= j <= |c| && r == c[i..j]
    ensures forall k :: 0 <= k < |r| ==> IsHeaderChar(r[k])
    ensures NoDoubleUnderscore(r)
  {
    var i, j :| 0 <= i <= j <= |c| && r == c[i..j];
    forall k | 0 <= k < |r| ensures IsHeaderChar(r[k]) && (k < |r| - 1 && r[k] == '_' ==> r[k + 1] != '_') {
      assert r[k] == c[i + k];
      if k < |r| - 1 {
        assert r[k + 1] == c[i + k + 1];
      }
    }
  }

  /** Only ASCII capitals change under `Lower`. */
  lemma LowerKeepsLowercase(s: string)
    requires forall k :: 0 <= k < |s| ==> IsHeaderChar(s[k])
    ensures Lower(s) == s
  {
  }

  /** Normalising a normalised header changes nothing. */
  lemma HeaderIdempotent(h: string)
    ensures NormalizeHeader(NormalizeHeader(h)) == NormalizeHeader(h)
  {
    var n := NormalizeHeader(h);
    LowerKeepsLowercase(n);
    CollapseClean(n);
    StripNoEdges(n, {'_'});
  }

  /** The letters and digits of a header, lower-cased, are those of its normalised form. */
  lemma HeaderKeepsWords(h: string)
    ensures Filter(NormalizeHeader(h), IsWordChar) == Filter(Lower(h), IsWordChar)
  {
    var c := CollapseRuns(Lower(h));
    CollapseKeepsWords(Lower(h));
    UnderscoresStripped(c);
  }

  lemma UnderscoresStripped(c: string)
    ensures Filter(Strip(c, {'_'}), IsWordChar) == Filter(c, IsWordChar)
  {
    assert forall x :: x in {'_'} ==> !IsWordChar(x);
    FilterStripLeft(c, {'_'}, IsWordChar);
    FilterStripRight(StripLeft(c, {'_'}), {'_'}, IsWordChar);
  }

  /** Stripping characters a filter drops does not change what it keeps. */
  lemma FilterStripLeft(c: string, cs: set<char>, p: char -> bool)
    requires forall x :: x in cs ==> !p(x)
    ensures Filter(StripLeft(c, cs), p) == Filter(c, p)
  {
    var l := StripLeft(c, cs);
    FilterDropFront(c, |c| - |l|, p);
  }

  lemma FilterStripRight(l: string, cs: set<char>, p: char -> bool)
    requires forall x :: x in cs ==> !p(x)
    ensures Filter(StripRight(l, cs), p) == Filter(l, p)
  {
    var r := StripRight(l, cs);
    FilterDropBack(l, |r|, p);
  }

  lemma FilterDropFront(c: string, i: nat, p: char -> bool)
    requires i <= |c|
    requires forall k :: 0 <= k < i ==> !p(c[k])
    ensures Filter(c[i..], p) == Filter(c, p)
  {
    var a := c[..i];
    assert c == a + c[i..];
    forall k | 0 <= k < |a| ensures !p(a[k]) {
      assert a[k] == c[k];
    }
    FilterNone(a, p);
    FilterAppend(a, c[i..], p);
    assert [] + Filter(c[i..], p) == Filter(c[i..], p);
  }

  lemma {:induction false} FilterDropBack(c: string, j: nat, p: char -> bool)
    requires j <= |c|
    requires forall k :: j <= k < |c| ==> !p(c[k])
    ensures Filter(c[..j], p) == Filter(c, p)
    decreases |c| - j
  {
    if j < |c| {
      var init := c[..|c| - 1];
      assert init[..j] == c[..j];
      forall k | j <= k < |init| ensures !p(init[k]) {
        assert init[k] == c[k];
      }
      FilterDropBack(init, j, p);
      FilterLast(c, p);
    } else {
      assert c[..j] == c;
    }
  }

  lemma {:induction false} FilterAppend(a: string, b: string, p: char -> bool)
    ensures Filter(a + b, p) == Filter(a, p) + Filter(b, p)
    decreases |b|
  {
    if b == [] {
      assert a + b == a;
    } else {
      assert (a + b)[..|a + b| - 1] == a + b[..|b| - 1];
      FilterAppend(a, b[..|b| - 1], p);
    }
  }

  lemma {:induction false} FilterNone(s: string, p: char -> bool)
    requires forall k :: 0 <= k < |s| ==> !p(s[k])
    ensures Filter(s, p) == []
    decreases |s|
  {
    if s != [] {
      FilterNone(s[..|s| - 1], p);
    }
  }

  // ---------------------------------------------------------------------------
  // the text columns `security_name` and `symbol`

  /** One of `X_`, `SEC-` or `FIN-` starts at position `i`. */
  predicate NoiseAt(s: string, i: nat) {
    OccursAt(s, "X_", i) || OccursAt(s, "SEC-", i) || OccursAt(s, "FIN-", i)
  }

  /** `str.replace(r'(X_|SEC-|FIN-)', '', regex=True)`: scanning from the left, an
      occurrence of one of the three prefixes is removed and the scan goes on after it
      (the three start with different letters, so at most one matches at a position). */
  function RemoveNoise(s: string): (r: string)
    ensures |r| <= |s|
    decreases |s|
  {
    if s == [] then []
    else if OccursAt(s, "X_", 0) then RemoveNoise(s[2..])
    else if OccursAt(s, "SEC-", 0) || OccursAt(s, "FIN-", 0) then RemoveNoise(s[4..])
    else [s[0]] + RemoveNoise(s[1..])
  }

  /** The removal changes nothing exactly when no prefix occurs anywhere. */
  lemma {:induction false} RemoveNoiseUnchanged(s: string)
    ensures RemoveNoise(s) == s <==> forall i: nat :: !NoiseAt(s, i)
    decreases |s|
  {
    if s == [] {
    } else if NoiseAt(s, 0) {
      assert |RemoveNoise(s)| < |s|;
    } else {
      RemoveNoiseUnchanged(s[1..]);
      forall i: nat ensures NoiseAt(s[1..], i) <==> NoiseAt(s, i + 1) {
        OccursInTail(s, "X_", i);
        OccursInTail(s, "SEC-", i);
        OccursInTail(s, "FIN-", i);
      }
      assert s == [s[0]] + s[1..];
      if RemoveNoise(s) == s {
        assert RemoveNoise(s[1..]) == s[1..];
        forall i: nat ensures !NoiseAt(s, i) {
          if i > 0 {
            assert !NoiseAt(s[1..], i - 1);
          }
        }
      }
    }
  }

  /** The prefix `SEC-`, and a text in which removing it joins a new one. */
  const Sec: string := "SEC-"
  const Rejoined: string := "SE" + Sec + "C-"

  /** A single pass is not idempotent: removing `SEC-` from the middle of `SESEC-C-`
      joins `SE` and `C-` into a new `SEC-`, which a second cleaning of the column
      would remove. */
  lemma RemoveNoiseNotIdempotent()
    ensures Rejoined == "SESEC-C-" && Sec == "SEC-"
    ensures RemoveNoise(Rejoined) == Sec
    ensures RemoveNoise(Sec) == ""
  {
    SecRemoved();
    TailKept();
    RejoinedPieces();
    SecThen("C-");
    KeepFirst('E', Sec + "C-");
    KeepFirst('S', ['E'] + (Sec + "C-"));
  }

  /** `SEC-` alone is removed entirely. */
  lemma SecRemoved()
    ensures OccursAt(Sec, "SEC-", 0) && RemoveNoise(Sec) == ""
  {
    SecStep(Sec);
  }

  /** `C-` holds no prefix and stays as it is. */
  lemma TailKept()
    ensures RemoveNoise("C-") == "C-" && ['S'] + (['E'] + "C-") == Sec
  {
    NoNoiseWithoutInitials("C-");
    RemoveNoiseUnchanged("C-");
  }

  /** `SESEC-C-` is `S`, `E`, `SEC-` and `C-`, and neither `S` nor `E` starts a prefix
      there. */
  lemma RejoinedPieces()
    ensures Rejoined == ['S'] + (['E'] + (Sec + "C-")) && Rejoined == "SESEC-C-"
    ensures !NoiseAt(['S'] + (['E'] + (Sec + "C-")), 0) && !NoiseAt(['E'] + (Sec + "C-"), 0)
  {
    var s := ['S'] + (['E'] + (Sec + "C-"));
    assert s[0..4][2] == 'S' && s[0..2][1] == 'E';
    NoInitial(['E'] + (Sec + "C-"));
  }

  /** `SEC-` followed by a tail: the scan drops it and goes on with the tail. */
  lemma SecThen(tail: string)
    ensures RemoveNoise(Sec + tail) == RemoveNoise(tail)
  {
    SecStep(Sec + tail);
    assert (Sec + tail)[4..] == tail;
  }

  /** A first character that starts no prefix is kept. */
  lemma KeepFirst(c: char, rest: string)
    requires !NoiseAt([c] + rest, 0)
    ensures RemoveNoise([c] + rest) == [c] + RemoveNoise(rest)
  {
    KeepStep([c] + rest);
    assert ([c] + rest)[1..] == rest;
  }

  /** The scan drops a `SEC-` at the start. */
  lemma SecStep(s: string)
    requires OccursAt(s, "SEC-", 0)
    ensures RemoveNoise(s) == RemoveNoise(s[4..])
  {
  }

  /** No prefix starts with a character other than `X`, `S` or `F`. */
  lemma NoInitial(s: string)
    requires s != [] && s[0] != 'X' && s[0] != 'S' && s[0] != 'F'
    ensures !NoiseAt(s, 0)
  {
    if |s| >= 2 {
      assert s[0..2][0] == s[0];
    }
    if |s| >= 4 {
      assert s[0..4][0] == s[0];
    }
  }

  /** The scan keeps a first character that starts no prefix. */
  lemma KeepStep(s: string)
    requires s != [] && !NoiseAt(s, 0)
    ensures RemoveNoise(s) == [s[0]] + RemoveNoise(s[1..])
  {
  }

  /** `astype(str)`: a missing value becomes the text `nan`, a number the text Python
      prints for it (`numberText`), and text stays as it is. */
  function CellText(c: Cell, numberText: real -> string): string {
    match c
    case Missing => "nan"
    case Number(x) => numberText(x)
    case Text(s) => s
  }

  /** Line 32: the prefixes removed, then surrounding whitespace. The result starts and
      ends outside Python's whitespace. */
  function CleanSymbol(c: Cell, numberText: real -> string): (r: string)
    ensures r != [] ==> r[0] !in Whitespace && r[|r| - 1] !in Whitespace
    ensures |r| <= |CellText(c, numberText)|
  {
    var s := RemoveNoise(CellText(c, numberText));
    StripIsMiddle(s, Whitespace);
    Strip(s, Whitespace)
  }

  /** Cleaning leaves a text alone exactly when none of the prefixes occurs in it and it
      has no surrounding whitespace. */
  lemma CleanSymbolUnchanged(s: string, numberText: real -> string)
    ensures CleanSymbol(Text(s), numberText) == s <==>
      (forall i: nat :: !NoiseAt(s, i)) && (s != [] ==> s[0] !in Whitespace && s[|s| - 1] !in Whitespace)
  {
    var r := RemoveNoise(s);
    RemoveNoiseUnchanged(s);
    StripUnchanged(r, Whitespace);
    StripUnchanged(s, Whitespace);
  }

  /** Without the letters `X`, `S` and `F`, none of the prefixes can occur. */
  lemma NoNoiseWithoutInitials(s: string)
    requires 'X' !in s && 'S' !in s && 'F' !in s
    ensures forall i: nat :: !NoiseAt(s, i)
  {
    forall i: nat ensures !NoiseAt(s, i) {
      if i + 2 <= |s| {
        assert s[i] in s && s[i..i + 2][0] == s[i];
      }
      if i + 4 <= |s| {
        assert s[i..i + 4][0] == s[i];
      }
    }
  }

  /** A missing symbol becomes the text `nan`, not an empty or missing value. */
  lemma MissingSymbolIsNan(numberText: real -> string)
    ensures CleanSymbol(Missing, numberText) == "nan"
  {
    NanHasNoEdges();
    NoNoiseWithoutInitials("nan");
    CleanSymbolUnchanged("nan", numberText);
    assert CleanSymbol(Missing, numberText) == CleanSymbol(Text("nan"), numberText);
  }

  lemma NanHasNoEdges()
    ensures var s := "nan"; s != [] ==> s[0] !in Whitespace && s[|s| - 1] !in Whitespace
  {
    assert "nan"[0] == 'n' && "nan"[2] == 'n';
  }

  // ---------------------------------------------------------------------------
  // the table

  /** A column of the file as read: its header and its cells, one per row. */
  datatype Column = Column(name: string, cells: seq<Cell>)

  /** A data frame: the number of rows of its index and its columns by name. */
  datatype Table = Table(height: nat, columns: map<string, seq<Cell>>)

  datatype PreprocessError = MissingColumn(name: string)   // `KeyError`

  /** Every column has one cell per row. */
  predicate Rectangular(t: Table) {
    forall n :: n in t.columns ==> |t.columns[n]| == t.height
  }

  predicate SameHeight(cols: seq<Column>, height: nat) {
    forall k :: 0 <= k < |cols| ==> |cols[k].cells| == height
  }

  /** No two headers normalise to the same name. */
  predicate DistinctHeaders(cols: seq<Column>) {
    forall i, j :: 0 <= i < j < |cols| ==> NormalizeHeader(cols[i].name) != NormalizeHeader(cols[j].name)
  }

  /** The columns under the names `rename` gives their headers; a later column replaces
      an earlier one of the same name. */
  function RenameBy(cols: seq<Column>, rename: string -> string): map<string, seq<Cell>>
  {
    if cols == [] then map[]
    else
      var last := cols[|cols| - 1];
      RenameBy(cols[..|cols| - 1], rename)[rename(last.name) := last.cells]
  }

  lemma {:induction false} RenameByKeys(cols: seq<Column>, rename: string -> string, n: string)
    ensures n in RenameBy(cols, rename) <==> exists k :: 0 <= k < |cols| && rename(cols[k].name) == n
    decreases |cols|
  {
    if cols != [] {
      var init, last := cols[..|cols| - 1], cols[|cols| - 1];
      RenameByKeys(init, rename, n);
      if n in RenameBy(init, rename) {
        var k :| 0 <= k < |init| && rename(init[k].name) == n;
        assert cols[k] == init[k];
      } else if n != rename(last.name) {
        forall k | 0 <= k < |cols| ensures rename(cols[k].name) != n {
          if k < |init| {
            assert cols[k] == init[k];
          }
        }
      }
    }
  }

  lemma {:induction false} RenameByHeight(cols: seq<Column>, rename: string -> string, height: nat)
    requires SameHeight(cols, height)
    ensures Rectangular(Table(height, RenameBy(cols, rename)))
    decreases |cols|
  {
    if cols != [] {
      var init := cols[..|cols| - 1];
      assert SameHeight(init, height) by {
        forall k | 0 <= k < |init| ensures |init[k].cells| == height {
          assert init[k] == cols[k];
        }
      }
      RenameByHeight(init, rename, height);
    }
  }

  lemma {:induction false} RenameByColumn(cols: seq<Column>, rename: string -> string, k: nat)
    requires k < |cols|
    requires forall i, j :: 0 <= i < j < |cols| ==> rename(cols[i].name) != rename(cols[j].name)
    ensures rename(cols[k].name) in RenameBy(cols, rename)
    ensures RenameBy(cols, rename)[rename(cols[k].name)] == cols[k].cells
    decreases |cols|
  {
    var init := cols[..|cols| - 1];
    if k < |cols| - 1 {
      assert init[k] == cols[k];
      forall i, j | 0 <= i < j < |init| ensures rename(init[i].name) != rename(init[j].name) {
        assert init[i] == cols[i] && init[j] == cols[j];
      }
      RenameByColumn(init, rename, k);
    }
  }

  /** Line 20: the columns under their normalised headers. */
  function Renamed(cols: seq<Column>): map<string, seq<Cell>> {
    RenameBy(cols, NormalizeHeader)
  }

  /** The renamed table has a column under each normalised header and no other. */
  lemma RenamedKeys(cols: seq<Column>, n: string)
    ensures n in Renamed(cols) <==> exists k :: 0 <= k < |cols| && NormalizeHeader(cols[k].name) == n
  {
    RenameByKeys(cols, NormalizeHeader, n);
  }

  /** Renaming keeps the number of rows. */
  lemma RenamedHeight(cols: seq<Column>, height: nat)
    requires SameHeight(cols, height)
    ensures Rectangular(Table(height, Renamed(cols)))
  {
    RenameByHeight(cols, NormalizeHeader, height);
  }

  /** With distinct headers, each column is found under its normalised header. */
  lemma RenamedColumn(cols: seq<Column>, k: nat)
    requires DistinctHeaders(cols) && k < |cols|
    ensures NormalizeHeader(cols[k].name) in Renamed(cols)
    ensures Renamed(cols)[NormalizeHeader(cols[k].name)] == cols[k].cells
  {
    RenameByColumn(cols, NormalizeHeader, k);
  }

  predicate AllMissing(cells: seq<Cell>) {
    forall i :: 0 <= i < |cells| ==> cells[i].Missing?
  }

  /** Line 23, `dropna(axis=1, how='all')`: a column without a single non-missing cell is
      dropped; on a table without rows that is every column. */
  function DropEmptyColumns(t: Table): Table {
    Table(t.height, map n | n in t.columns && !AllMissing(t.columns[n]) :: t.columns[n])
  }

  /** Lines 26-27: a column holding `value` on every row, replacing any column of that name. */
  function WithConstant(t: Table, name: string, value: string): Table {
    Table(t.height, t.columns[name := seq(t.height, _ => Text(value))])
  }

  const TextColumns: seq<string> := ["security_name", "symbol"]

  const NumericColumns: seq<string> := ["price", "quantity", "realised_p_l", "market_value"]

  const RequiredColumns: seq<string> := [
    "fund_name", "eom_date", "financial_type", "symbol", "security_name",
    "sedol", "isin", "price", "quantity", "realised_p_l", "market_value"]

  /** Line 32 on one column. */
  function CleanColumn(t: Table, name: string, numberText: real -> string): Table
    requires name in t.columns
  {
    var col := t.columns[name];
    Table(t.height, t.columns[name := seq(|col|, i requires 0 <= i < |col| => Text(CleanSymbol(col[i], numberText)))])
  }

  /** A text cell without surrounding whitespace. */
  predicate IsCleanText(c: Cell) {
    c.Text? && (c.s != [] ==> c.s[0] !in Whitespace && c.s[|c.s| - 1] !in Whitespace)
  }

  /** Lines 30-32: each listed column that is present, cleaned in turn. */
  function CleanColumns(t: Table, names: seq<string>, numberText: real -> string): (r: Table)
    ensures r.height == t.height && r.columns.Keys == t.columns.Keys
    ensures forall n :: n in t.columns && n !in names ==> r.columns[n] == t.columns[n]
    ensures forall n :: n in t.columns && n in names ==>
      forall i :: 0 <= i < |r.columns[n]| ==> IsCleanText(r.columns[n][i])
    ensures Rectangular(t) ==> Rectangular(r)
  {
    if names == [] then t
    else
      var u := CleanColumns(t, names[..|names| - 1], numberText);
      var n := names[|names| - 1];
      if n in u.columns then CleanColumnShape(u, n, numberText); CleanColumn(u, n, numberText) else u
  }

  /** Cleaning one column leaves the others and the shape alone. */
  lemma CleanColumnShape(t: Table, name: string, numberText: real -> string)
    requires name in t.columns
    ensures var r := CleanColumn(t, name, numberText);
      r.height == t.height && r.columns.Keys == t.columns.Keys
    ensures var r := CleanColumn(t, name, numberText);
      forall n :: n in t.columns && n != name ==> r.columns[n] == t.columns[n]
    ensures var r := CleanColumn(t, name, numberText);
      forall i :: 0 <= i < |r.columns[name]| ==> IsCleanText(r.columns[name][i])
    ensures Rectangular(t) ==> Rectangular(CleanColumn(t, name, numberText))
  {
  }

  function IsMissing(c: Cell): bool {
    c.Missing?
  }

  function IsTrue(b: bool): bool {
    b
  }

  /** The rows that `dropna(subset=['market_value', 'realised_p_l'])` keeps. */
  function RowMask(mv: seq<Cell>, pl: seq<Cell>): (mask: seq<bool>)
    requires |mv| == |pl|
    ensures |mask| == |mv|
    ensures forall i :: 0 <= i < |mv| ==> (mask[i] <==> !mv[i].Missing? && !pl[i].Missing?)
  {
    seq(|mv|, i requires 0 <= i < |mv| => !mv[i].Missing? && !pl[i].Missing?)
  }

  /** The elements of `s` at the positions `mask` marks, in order. */
  function Select<T>(s: seq<T>, mask: seq<bool>): (r: seq<T>)
    requires |s| == |mask|
    ensures |r| == CountIf(mask, IsTrue)
    decreases |s|
  {
    if s == [] then []
    else
      var n := |s| - 1;
      Select(s[..n], mask[..n]) + (if mask[n] then [s[n]] else [])
  }

  /** Every selected element comes from a marked position. */
  lemma {:induction false} SelectFromMarked<T>(s: seq<T>, mask: seq<bool>, p: T -> bool)
    requires |s| == |mask|
    requires forall i :: 0 <= i < |s| && mask[i] ==> p(s[i])
    ensures forall k :: 0 <= k < |Select(s, mask)| ==> p(Select(s, mask)[k])
    decreases |s|
  {
    if s != [] {
      var n := |s| - 1;
      SelectFromMarked(s[..n], mask[..n], p);
    }
  }

  /** Everything is selected when every position is marked. */
  lemma {:induction false} SelectAll<T>(s: seq<T>, mask: seq<bool>)
    requires |s| == |mask| && forall i :: 0 <= i < |mask| ==> mask[i]
    ensures Select(s, mask) == s
    decreases |s|
  {
    if s != [] {
      var n := |s| - 1;
      SelectAll(s[..n], mask[..n]);
      assert s == s[..n] + [s[n]];
    }
  }

  function DropRows(t: Table, mask: seq<bool>): (r: Table)
    requires Rectangular(t) && |mask| == t.height
    ensures Rectangular(r) && r.columns.Keys == t.columns.Keys
  {
    Table(CountIf(mask, IsTrue), map n | n in t.columns :: Select(t.columns[n], mask))
  }

  /** Lines 35-39: `market_value` must exist; when any of its cells is missing, the rows
      missing `market_value` or `realised_p_l` are dropped, and `realised_p_l` must exist. */
  function QualityCheck(t: Table): Result<Table, PreprocessError>
    requires Rectangular(t)
  {
    if "market_value" !in t.columns then Err(MissingColumn("market_value"))
    else if CountIf(t.columns["market_value"], IsMissing) == 0 then Ok(t)
    else if "realised_p_l" !in t.columns then Err(MissingColumn("realised_p_l"))
    else Ok(DropRows(t, RowMask(t.columns["market_value"], t.columns["realised_p_l"])))
  }

  /** `pd.to_numeric(..., errors='coerce')` on one cell. */
  function Coerced(c: Cell): (r: Cell)
    ensures !r.Text?
    ensures r.Number? <==> ToNumeric(c).Some?
  {
    match ToNumeric(c)
    case Some(x) => Number(x)
    case None => Missing
  }

  function CoerceColumn(t: Table, name: string): Table
    requires name in t.columns
  {
    var col := t.columns[name];
    Table(t.height, t.columns[name := seq(|col|, i requires 0 <= i < |col| => Coerced(col[i]))])
  }

  /** Lines 42-45: each listed column that is present, coerced in turn: its cells are
      those of `to_numeric` on the original cells. */
  function CoerceColumns(t: Table, names: seq<string>): (r: Table)
    ensures r.height == t.height && r.columns.Keys == t.columns.Keys
    ensures forall n :: n in t.columns && n !in names ==> r.columns[n] == t.columns[n]
    ensures forall n :: n in t.columns && n in names ==> forall i :: 0 <= i < |r.columns[n]| ==> !r.columns[n][i].Text?
    ensures forall n :: n in t.columns && n in names ==>
      && |r.columns[n]| == |t.columns[n]|
      && forall i :: 0 <= i < |t.columns[n]| ==> r.columns[n][i] == Coerced(t.columns[n][i])
    ensures Rectangular(t) ==> Rectangular(r)
  {
    if names == [] then t
    else
      var u := CoerceColumns(t, names[..|names| - 1]);
      var n := names[|names| - 1];
      if n in u.columns then CoerceColumnShape(u, n); CoerceColumn(u, n) else u
  }

  /** Coercing one column leaves the others and the shape alone, and coercing a column
      twice is coercing it once. */
  lemma CoerceColumnShape(t: Table, name: string)
    requires name in t.columns
    ensures var r := CoerceColumn(t, name);
      r.height == t.height && r.columns.Keys == t.columns.Keys
    ensures var r := CoerceColumn(t, name);
      forall n :: n in t.columns && n != name ==> r.columns[n] == t.columns[n]
    ensures var r := CoerceColumn(t, name);
      && |r.columns[name]| == |t.columns[name]|
      && forall i :: 0 <= i < |t.columns[name]| ==> r.columns[name][i] == Coerced(t.columns[name][i])
    ensures forall i :: 0 <= i < |t.columns[name]| ==> Coerced(Coerced(t.columns[name][i])) == Coerced(t.columns[name][i])
    ensures Rectangular(t) ==> Rectangular(CoerceColumn(t, name))
  {
  }

  /** Lines 47-48, `df[name].fillna(0.0)`: a missing column raises `KeyError`. */
  function FillZero(t: Table, name: string): Result<Table, PreprocessError> {
    if name !in t.columns then Err(MissingColumn(name))
    else
      var col := t.columns[name];
      Ok(Table(t.height, t.columns[name := seq(|col|, i requires 0 <= i < |col| =>
        if col[i].Missing? then Number(0.0) else col[i])]))
  }

  /** The test `col in df.columns` of line 54. */
  function PresentIn(t: Table): string -> bool {
    n => n in t.columns
  }

  /** Lines 51-55: the required columns that are present, in the listed order, each with
      its cells. */
  function Selected(t: Table): (r: seq<Column>)
    ensures |r| == |Filter(RequiredColumns, PresentIn(t))|
    ensures forall k :: 0 <= k < |r| ==>
      r[k].name == Filter(RequiredColumns, PresentIn(t))[k] && r[k].name in t.columns && r[k].cells == t.columns[r[k].name]
  {
    var names := Filter(RequiredColumns, PresentIn(t));
    FilterMembers(RequiredColumns, PresentIn(t));
    var r := seq(|names|, k requires 0 <= k < |names| =>
      assert names[k] in names;
      Column(names[k], t.columns[names[k]]));
    assert forall k :: 0 <= k < |r| ==> r[k].name == names[k] && names[k] in names;
    r
  }

  // ---------------------------------------------------------------------------
  // the whole of `_preprocess_dataframe`

  /** Column `n` exists after line 23: some header normalises to it and it holds a
      non-missing cell. */
  predicate Present(cols: seq<Column>, n: string) {
    n in Renamed(cols) && !AllMissing(Renamed(cols)[n])
  }

  /** The columns of the result: the two constants and the columns that survive line 23. */
  predicate Kept(cols: seq<Column>, n: string) {
    n == "fund_name" || n == "eom_date" || Present(cols, n)
  }

  /** The table after line 23. */
  function Dropped(cols: seq<Column>, height: nat): Table {
    DropEmptyColumns(Table(height, Renamed(cols)))
  }

  /** The table after line 27. */
  function Stamped(cols: seq<Column>, height: nat, fundName: string, eomDate: string): Table {
    WithConstant(WithConstant(Dropped(cols, height), "fund_name", fundName), "eom_date", eomDate)
  }

  /** The table after line 32. */
  function Prepared(cols: seq<Column>, height: nat, fundName: string, eomDate: string, numberText: real -> string): Table {
    CleanColumns(Stamped(cols, height, fundName, eomDate), TextColumns, numberText)
  }

  lemma DroppedShape(cols: seq<Column>, height: nat)
    requires SameHeight(cols, height)
    ensures Rectangular(Dropped(cols, height)) && Dropped(cols, height).height == height
    ensures forall n :: n in Dropped(cols, height).columns <==> Present(cols, n)
    ensures forall n :: n in Dropped(cols, height).columns ==> Dropped(cols, height).columns[n] == Renamed(cols)[n]
  {
    RenamedHeight(cols, height);
  }

  lemma StampedShape(cols: seq<Column>, height: nat, fundName: string, eomDate: string)
    requires SameHeight(cols, height)
    ensures var t := Stamped(cols, height, fundName, eomDate);
      Rectangular(t) && t.height == height && (forall n :: n in t.columns <==> Kept(cols, n))
    ensures var t := Stamped(cols, height, fundName, eomDate);
      forall n :: n in t.columns && n != "fund_name" && n != "eom_date" ==> t.columns[n] == Renamed(cols)[n]
    ensures var t := Stamped(cols, height, fundName, eomDate);
      t.columns["fund_name"] == seq(height, _ => Text(fundName)) && t.columns["eom_date"] == seq(height, _ => Text(eomDate))
  {
    DroppedShape(cols, height);
  }

  lemma PreparedShape(cols: seq<Column>, height: nat, fundName: string, eomDate: string, numberText: real -> string)
    requires SameHeight(cols, height)
    ensures var t := Prepared(cols, height, fundName, eomDate, numberText);
      Rectangular(t) && t.height == height && (forall n :: n in t.columns <==> Kept(cols, n))
    ensures var t := Prepared(cols, height, fundName, eomDate, numberText);
      forall n :: n in t.columns && n !in TextColumns && n != "fund_name" && n != "eom_date" ==>
        t.columns[n] == Renamed(cols)[n]
    ensures var t := Prepared(cols, height, fundName, eomDate, numberText);
      t.columns["fund_name"] == seq(height, _ => Text(fundName)) && t.columns["eom_date"] == seq(height, _ => Text(eomDate))
    ensures var t := Prepared(cols, height, fundName, eomDate, numberText);
      forall n :: n in t.columns && n in TextColumns ==> forall i :: 0 <= i < |t.columns[n]| ==> IsCleanText(t.columns[n][i])
  {
    StampedShape(cols, height, fundName, eomDate);
    assert "fund_name" !in TextColumns && "eom_date" !in TextColumns;
  }

  lemma PreparedRectangular(cols: seq<Column>, height: nat, fundName: string, eomDate: string, numberText: real -> string)
    requires SameHeight(cols, height)
    ensures Rectangular(Prepared(cols, height, fundName, eomDate, numberText))
  {
    PreparedShape(cols, height, fundName, eomDate, numberText);
  }

  /** Column `n` is in the table after line 32 exactly when it is kept. */
  lemma PreparedHas(cols: seq<Column>, height: nat, fundName: string, eomDate: string, numberText: real -> string, n: string)
    requires SameHeight(cols, height)
    ensures n in Prepared(cols, height, fundName, eomDate, numberText).columns <==> Kept(cols, n)
  {
    StampedShape(cols, height, fundName, eomDate);
  }

  /** The table after line 39, or the `KeyError` raised on the way. */
  function Checked(cols: seq<Column>, height: nat, fundName: string, eomDate: string, numberText: real -> string)
    : Result<Table, PreprocessError>
    requires SameHeight(cols, height)
  {
    PreparedRectangular(cols, height, fundName, eomDate, numberText);
    QualityCheck(Prepared(cols, height, fundName, eomDate, numberText))
  }

  /** Lines 47-48 on the coerced table. */
  function Filled(t: Table): Result<Table, PreprocessError> {
    match FillZero(t, "realised_p_l")
    case Err(e) => Err(e)
    case Ok(v) => FillZero(v, "quantity")
  }

  /** The table after lines 20-48, or the `KeyError` raised on the way. */
  function Processed(cols: seq<Column>, height: nat, fundName: string, eomDate: string, numberText: real -> string)
    : Result<Table, PreprocessError>
    requires SameHeight(cols, height)
  {
    match Checked(cols, height, fundName, eomDate, numberText)
    case Err(e) => Err(e)
    case Ok(u) => Filled(CoerceColumns(u, NumericColumns))
  }

  /** `_preprocess_dataframe(df, fund_name, eom_date)`: the selected columns, or the
      `KeyError` raised on the way. */
  function PreprocessSpec(cols: seq<Column>, height: nat, fundName: string, eomDate: string, numberText: real -> string)
    : Result<seq<Column>, PreprocessError>
    requires SameHeight(cols, height) && DistinctHeaders(cols)
  {
    match Processed(cols, height, fundName, eomDate, numberText)
    case Err(e) => Err(e)
    case Ok(t) => Ok(Selected(t))
  }

  /** Lines 35-39 fail only for a missing `market_value`, or for a missing `realised_p_l`
      when some `market_value` is missing; otherwise every column is kept. */
  lemma CheckedOutcome(cols: seq<Column>, height: nat, fundName: string, eomDate: string, numberText: real -> string)
    requires SameHeight(cols, height)
    ensures var c := Checked(cols, height, fundName, eomDate, numberText);
      !Present(cols, "market_value") ==> c == Err(MissingColumn("market_value"))
    ensures var c := Checked(cols, height, fundName, eomDate, numberText);
      Present(cols, "market_value") && c.Err? ==> c == Err(MissingColumn("realised_p_l")) && !Present(cols, "realised_p_l")
    ensures var c := Checked(cols, height, fundName, eomDate, numberText);
      c.Ok? ==> forall n :: n in c.value.columns <==> Kept(cols, n)
  {
    PreparedRectangular(cols, height, fundName, eomDate, numberText);
    PreparedHas(cols, height, fundName, eomDate, numberText, "market_value");
    PreparedHas(cols, height, fundName, eomDate, numberText, "realised_p_l");
    var t := Prepared(cols, height, fundName, eomDate, numberText);
    QualityOutcome(t);
    forall n ensures n in t.columns <==> Kept(cols, n) {
      PreparedHas(cols, height, fundName, eomDate, numberText, n);
    }
  }

  /** Lines 35-39 on a table: the two `KeyError`s, the column set kept, and the number of
      rows left. */
  lemma QualityOutcome(t: Table)
    requires Rectangular(t)
    ensures "market_value" !in t.columns ==> QualityCheck(t) == Err(MissingColumn("market_value"))
    ensures "market_value" in t.columns && QualityCheck(t).Err? ==>
      QualityCheck(t) == Err(MissingColumn("realised_p_l")) && "realised_p_l" !in t.columns
    ensures QualityCheck(t).Ok? ==> Rectangular(QualityCheck(t).value)
    ensures QualityCheck(t).Ok? ==> QualityCheck(t).value.columns.Keys == t.columns.Keys
    ensures QualityCheck(t).Ok? && "realised_p_l" in t.columns ==>
      var mv, pl := t.columns["market_value"], t.columns["realised_p_l"];
      QualityCheck(t).value.height ==
        if CountIf(mv, IsMissing) == 0 then t.height else CountIf(RowMask(mv, pl), IsTrue)
  {
  }

  /** Lines 47-48 fail exactly for the first of `realised_p_l` and `quantity` missing,
      and otherwise keep every column. */
  lemma FilledOutcome(t: Table)
    ensures "realised_p_l" !in t.columns ==> Filled(t) == Err(MissingColumn("realised_p_l"))
    ensures "realised_p_l" in t.columns && "quantity" !in t.columns ==> Filled(t) == Err(MissingColumn("quantity"))
    ensures "realised_p_l" in t.columns && "quantity" in t.columns ==>
      Filled(t).Ok? && Filled(t).value.columns.Keys == t.columns.Keys
  {
  }

  lemma ProcessedOutcome(cols: seq<Column>, height: nat, fundName: string, eomDate: string, numberText: real -> string)
    requires SameHeight(cols, height)
    ensures var r := Processed(cols, height, fundName, eomDate, numberText);
      !Present(cols, "market_value") ==> r == Err(MissingColumn("market_value"))
    ensures var r := Processed(cols, height, fundName, eomDate, numberText);
      Present(cols, "market_value") && !Present(cols, "realised_p_l") ==> r == Err(MissingColumn("realised_p_l"))
    ensures var r := Processed(cols, height, fundName, eomDate, numberText);
      Present(cols, "market_value") && Present(cols, "realised_p_l") && !Present(cols, "quantity") ==>
        r == Err(MissingColumn("quantity"))
    ensures var r := Processed(cols, height, fundName, eomDate, numberText);
      Present(cols, "market_value") && Present(cols, "realised_p_l") && Present(cols, "quantity") ==>
        r.Ok? && forall n :: n in r.value.columns <==> Kept(cols, n)
  {
    CheckedOutcome(cols, height, fundName, eomDate, numberText);
    var c := Checked(cols, height, fundName, eomDate, numberText);
    if c.Ok? {
      CoercedOutcome(cols, c.value);
    }
  }

  lemma CoercedOutcome(cols: seq<Column>, t: Table)
    requires forall n :: n in t.columns <==> Kept(cols, n)
    ensures var u := CoerceColumns(t, NumericColumns);
      !Present(cols, "realised_p_l") ==> Filled(u) == Err(MissingColumn("realised_p_l"))
    ensures var u := CoerceColumns(t, NumericColumns);
      Present(cols, "realised_p_l") && !Present(cols, "quantity") ==> Filled(u) == Err(MissingColumn("quantity"))
    ensures var u := CoerceColumns(t, NumericColumns);
      Present(cols, "realised_p_l") && Present(cols, "quantity") ==>
        Filled(u).Ok? && forall n :: n in Filled(u).value.columns <==> Kept(cols, n)
  {
    var u := CoerceColumns(t, NumericColumns);
    assert "realised_p_l" in u.columns <==> Kept(cols, "realised_p_l");
    assert "quantity" in u.columns <==> Kept(cols, "quantity");
    FilledOutcome(u);
  }

  /** The only errors are the `KeyError`s of lines 35-48: `market_value` must survive the
      dropping of empty columns, then `realised_p_l`, then `quantity`; once all three
      do, the table is produced. */
  lemma PreprocessOutcome(cols: seq<Column>, height: nat, fundName: string, eomDate: string, numberText: real -> string)
    requires SameHeight(cols, height) && DistinctHeaders(cols)
    ensures var r := PreprocessSpec(cols, height, fundName, eomDate, numberText);
      !Present(cols, "market_value") ==> r == Err(MissingColumn("market_value"))
    ensures var r := PreprocessSpec(cols, height, fundName, eomDate, numberText);
      Present(cols, "market_value") && !Present(cols, "realised_p_l") ==> r == Err(MissingColumn("realised_p_l"))
    ensures var r := PreprocessSpec(cols, height, fundName, eomDate, numberText);
      Present(cols, "market_value") && Present(cols, "realised_p_l") && !Present(cols, "quantity") ==>
        r == Err(MissingColumn("quantity"))
    ensures var r := PreprocessSpec(cols, height, fundName, eomDate, numberText);
      Present(cols, "market_value") && Present(cols, "realised_p_l") && Present(cols, "quantity") ==> r.Ok?
  {
    ProcessedOutcome(cols, height, fundName, eomDate, numberText);
  }

  /** A file without rows fails: every column is dropped as empty, `market_value` with
      them. */
  lemma EmptyFileFails(cols: seq<Column>, fundName: string, eomDate: string, numberText: real -> string)
    requires SameHeight(cols, 0) && DistinctHeaders(cols)
    ensures PreprocessSpec(cols, 0, fundName, eomDate, numberText) == Err(MissingColumn("market_value"))
  {
    RenamedHeight(cols, 0);
    PreprocessOutcome(cols, 0, fundName, eomDate, numberText);
  }

  /** The number of rows after line 39: all of them unless some `market_value` is missing,
      and otherwise the rows holding both `market_value` and `realised_p_l`. */
  function KeptRows(cols: seq<Column>, height: nat): nat
    requires SameHeight(cols, height) && Present(cols, "market_value") && Present(cols, "realised_p_l")
  {
    RenamedHeight(cols, height);
    var mv, pl := Renamed(cols)["market_value"], Renamed(cols)["realised_p_l"];
    if CountIf(mv, IsMissing) == 0 then height else CountIf(RowMask(mv, pl), IsTrue)
  }

  /** No row is lost unless a `market_value` is missing, and a missing one always costs
      at least its own row. */
  lemma KeptRowsBound(cols: seq<Column>, height: nat)
    requires SameHeight(cols, height) && Present(cols, "market_value") && Present(cols, "realised_p_l")
    ensures KeptRows(cols, height) <= height
    ensures KeptRows(cols, height) == height <==> CountIf(Renamed(cols)["market_value"], IsMissing) == 0
  {
    RenamedHeight(cols, height);
    var mv, pl := Renamed(cols)["market_value"], Renamed(cols)["realised_p_l"];
    if CountIf(mv, IsMissing) > 0 {
      var i := CountIfWitness(mv, IsMissing);
      var mask := RowMask(mv, pl);
      assert !IsTrue(mask[i]);
      CountIfBelow(mask, IsTrue, i);
    }
  }

  /** A property of every cell of a column survives the row drop. */
  lemma DropRowsKeeps(t: Table, mask: seq<bool>, n: string, p: Cell -> bool)
    requires Rectangular(t) && |mask| == t.height && n in t.columns
    requires forall i :: 0 <= i < |t.columns[n]| ==> p(t.columns[n][i])
    ensures forall i :: 0 <= i < |DropRows(t, mask).columns[n]| ==> p(DropRows(t, mask).columns[n][i])
  {
    SelectFromMarked(t.columns[n], mask, p);
  }

  lemma QualityKeeps(t: Table, n: string, p: Cell -> bool)
    requires Rectangular(t) && QualityCheck(t).Ok? && n in t.columns
    requires forall i :: 0 <= i < |t.columns[n]| ==> p(t.columns[n][i])
    ensures n in QualityCheck(t).value.columns
    ensures forall i :: 0 <= i < |QualityCheck(t).value.columns[n]| ==> p(QualityCheck(t).value.columns[n][i])
  {
    if CountIf(t.columns["market_value"], IsMissing) > 0 {
      DropRowsKeeps(t, RowMask(t.columns["market_value"], t.columns["realised_p_l"]), n, p);
    }
  }

  /** The table after line 39 has the rows `KeptRows` counts and the kept columns. */
  lemma CheckedRows(cols: seq<Column>, height: nat, fundName: string, eomDate: string, numberText: real -> string)
    requires SameHeight(cols, height)
    requires Checked(cols, height, fundName, eomDate, numberText).Ok?
    requires Present(cols, "realised_p_l")
    ensures Present(cols, "market_value")
    ensures var u := Checked(cols, height, fundName, eomDate, numberText).value;
      Rectangular(u) && u.height == KeptRows(cols, height) && (forall n :: n in u.columns <==> Kept(cols, n))
  {
    CheckedOutcome(cols, height, fundName, eomDate, numberText);
    QualityColumnsAreNumeric();
    PreparedNumeric(cols, height, fundName, eomDate, numberText, "market_value");
    PreparedNumeric(cols, height, fundName, eomDate, numberText, "realised_p_l");
    PreparedRectangular(cols, height, fundName, eomDate, numberText);
    QualityOutcome(Prepared(cols, height, fundName, eomDate, numberText));
  }

  lemma QualityColumnsAreNumeric()
    ensures "market_value" !in TextColumns && "market_value" != "fund_name" && "market_value" != "eom_date"
    ensures "realised_p_l" !in TextColumns && "realised_p_l" != "fund_name" && "realised_p_l" != "eom_date"
  {
  }

  /** A kept column outside the text and constant columns reaches line 35 unchanged. */
  lemma PreparedNumeric(cols: seq<Column>, height: nat, fundName: string, eomDate: string, numberText: real -> string, n: string)
    requires SameHeight(cols, height) && Present(cols, n)
    requires n !in TextColumns && n != "fund_name" && n != "eom_date"
    ensures n in Prepared(cols, height, fundName, eomDate, numberText).columns
    ensures Prepared(cols, height, fundName, eomDate, numberText).columns[n] == Renamed(cols)[n]
  {
    PreparedShape(cols, height, fundName, eomDate, numberText);
  }

  /** The two constant columns hold `fundName` and `eomDate`, and the text columns hold
      cleaned text. */
  predicate TextShaped(t: Table, fundName: string, eomDate: string) {
    && "fund_name" in t.columns && "eom_date" in t.columns
    && (forall i :: 0 <= i < |t.columns["fund_name"]| ==> t.columns["fund_name"][i] == Text(fundName))
    && (forall i :: 0 <= i < |t.columns["eom_date"]| ==> t.columns["eom_date"][i] == Text(eomDate))
    && (forall n :: n in t.columns && n in TextColumns ==> forall i :: 0 <= i < |t.columns[n]| ==> IsCleanText(t.columns[n][i]))
  }

  lemma PreparedText(cols: seq<Column>, height: nat, fundName: string, eomDate: string, numberText: real -> string)
    requires SameHeight(cols, height)
    ensures TextShaped(Prepared(cols, height, fundName, eomDate, numberText), fundName, eomDate)
  {
    PreparedShape(cols, height, fundName, eomDate, numberText);
  }

  /** Dropping rows at line 39 keeps the constant and text columns as they were. */
  lemma QualityText(t: Table, fundName: string, eomDate: string)
    requires Rectangular(t) && QualityCheck(t).Ok? && TextShaped(t, fundName, eomDate)
    ensures TextShaped(QualityCheck(t).value, fundName, eomDate)
  {
    QualityKeeps(t, "fund_name", c => c == Text(fundName));
    QualityKeeps(t, "eom_date", c => c == Text(eomDate));
    forall n | n in t.columns && n in TextColumns
      ensures forall i :: 0 <= i < |QualityCheck(t).value.columns[n]| ==> IsCleanText(QualityCheck(t).value.columns[n][i])
    {
      QualityKeeps(t, n, IsCleanText);
    }
  }

  /** The table after line 39 keeps the two constant columns and the cleaned text. */
  lemma CheckedText(cols: seq<Column>, height: nat, fundName: string, eomDate: string, numberText: real -> string)
    requires SameHeight(cols, height)
    requires Checked(cols, height, fundName, eomDate, numberText).Ok?
    ensures TextShaped(Checked(cols, height, fundName, eomDate, numberText).value, fundName, eomDate)
  {
    PreparedRectangular(cols, height, fundName, eomDate, numberText);
    PreparedText(cols, height, fundName, eomDate, numberText);
    QualityText(Prepared(cols, height, fundName, eomDate, numberText), fundName, eomDate);
  }

  /** Every cell is a number. */
  predicate AllNumbers(cells: seq<Cell>) {
    forall i :: 0 <= i < |cells| ==> cells[i].Number?
  }

  /** No cell holds text. */
  predicate NoText(cells: seq<Cell>) {
    forall i :: 0 <= i < |cells| ==> !cells[i].Text?
  }

  /** `fillna(0.0)` on a present column puts `0.0` in its missing cells and keeps its
      other cells and every other column; a column without text becomes numbers. */
  lemma FillZeroShape(t: Table, name: string)
    requires Rectangular(t) && name in t.columns
    ensures FillZero(t, name).Ok?
    ensures var v := FillZero(t, name).value;
      Rectangular(v) && v.height == t.height && v.columns.Keys == t.columns.Keys
    ensures var v := FillZero(t, name).value;
      forall n :: n in t.columns && n != name ==> v.columns[n] == t.columns[n]
    ensures var v, col := FillZero(t, name).value, t.columns[name];
      |v.columns[name]| == |col| &&
      forall i :: 0 <= i < |col| ==> v.columns[name][i] == if col[i].Missing? then Number(0.0) else col[i]
    ensures NoText(t.columns[name]) ==> AllNumbers(FillZero(t, name).value.columns[name])
  {
  }

  /** The value a cell has in `realised_p_l` and `quantity` after lines 44 and 47-48:
      what `to_numeric` makes of it, and `0.0` where that is NULL. */
  function NumberOrZero(c: Cell): real {
    match ToNumeric(c)
    case Some(x) => x
    case None => 0.0
  }

  /** Filling a coerced cell with `0.0` gives `NumberOrZero`: a number cell keeps its
      value, a NULL or a text that does not convert becomes `0.0`. */
  lemma FilledCoerced(c: Cell)
    ensures (if Coerced(c).Missing? then Number(0.0) else Coerced(c)) == Number(NumberOrZero(c))
    ensures c.Number? ==> NumberOrZero(c) == c.x
    ensures c.Missing? ==> NumberOrZero(c) == 0.0
  {
  }

  /** The checked table has the shape of the prepared one. */
  lemma CheckedRectangular(cols: seq<Column>, height: nat, fundName: string, eomDate: string, numberText: real -> string)
    requires SameHeight(cols, height) && Checked(cols, height, fundName, eomDate, numberText).Ok?
    ensures Rectangular(Checked(cols, height, fundName, eomDate, numberText).value)
  {
    PreparedRectangular(cols, height, fundName, eomDate, numberText);
  }

  /** Lines 42-48 on a table: `realised_p_l` and `quantity` end up holding numbers only,
      the other numeric columns no text, and nothing else changes. */
  lemma FinishShape(c: Table)
    requires Rectangular(c) && Filled(CoerceColumns(c, NumericColumns)).Ok?
    ensures var v := Filled(CoerceColumns(c, NumericColumns)).value;
      Rectangular(v) && v.height == c.height && v.columns.Keys == c.columns.Keys
    ensures var v := Filled(CoerceColumns(c, NumericColumns)).value;
      && "realised_p_l" in v.columns && AllNumbers(v.columns["realised_p_l"])
      && "quantity" in v.columns && AllNumbers(v.columns["quantity"])
    ensures var v := Filled(CoerceColumns(c, NumericColumns)).value;
      forall n :: n in v.columns && n in NumericColumns ==> NoText(v.columns[n])
    ensures var v := Filled(CoerceColumns(c, NumericColumns)).value;
      forall n :: n in v.columns && n !in NumericColumns ==> v.columns[n] == c.columns[n]
  {
    var u := CoerceColumns(c, NumericColumns);
    FilledColumnsAreNumeric();
    FillZeroShape(u, "realised_p_l");
    var w := FillZero(u, "realised_p_l").value;
    FillZeroShape(w, "quantity");
  }

  /** Lines 42-48 cell by cell: `realised_p_l` and `quantity` hold `NumberOrZero` of
      their cells, and `price` and `market_value` what `to_numeric` makes of them. */
  lemma FinishCells(c: Table, names: seq<string>, n: string)
    requires Rectangular(c) && Filled(CoerceColumns(c, names)).Ok?
    requires n in c.columns && n in names
    ensures var v := Filled(CoerceColumns(c, names)).value;
      n in v.columns && |v.columns[n]| == |c.columns[n]|
    ensures var v := Filled(CoerceColumns(c, names)).value;
      forall i :: 0 <= i < |c.columns[n]| ==>
        v.columns[n][i] == if n == "realised_p_l" || n == "quantity" then Number(NumberOrZero(c.columns[n][i]))
                           else Coerced(c.columns[n][i])
  {
    FillCoercedCells(c.columns[n], CoerceColumns(c, names), n);
  }

  /** Lines 47-48 on a column that holds the coerced cells of `col`. */
  lemma FillCoercedCells(col: seq<Cell>, u: Table, n: string)
    requires Rectangular(u) && Filled(u).Ok? && n in u.columns && |u.columns[n]| == |col|
    requires forall i :: 0 <= i < |col| ==> u.columns[n][i] == Coerced(col[i])
    ensures var v := Filled(u).value; n in v.columns && |v.columns[n]| == |col|
    ensures var v := Filled(u).value;
      forall i :: 0 <= i < |col| ==>
        v.columns[n][i] == if n == "realised_p_l" || n == "quantity" then Number(NumberOrZero(col[i]))
                           else Coerced(col[i])
  {
    FilledCells(u, n);
    forall i | 0 <= i < |col| {
      FilledCoerced(col[i]);
    }
  }

  /** Lines 47-48 cell by cell: `0.0` in the missing cells of `realised_p_l` and
      `quantity`, every other cell as it was. */
  lemma FilledCells(u: Table, n: string)
    requires Rectangular(u) && Filled(u).Ok? && n in u.columns
    ensures var v := Filled(u).value; n in v.columns && |v.columns[n]| == |u.columns[n]|
    ensures var v, col := Filled(u).value, u.columns[n];
      forall i :: 0 <= i < |col| ==>
        v.columns[n][i] == if (n == "realised_p_l" || n == "quantity") && col[i].Missing? then Number(0.0) else col[i]
  {
    FillZeroShape(u, "realised_p_l");
    var w := FillZero(u, "realised_p_l").value;
    FillZeroShape(w, "quantity");
  }

  /** The two columns lines 47-48 fill are distinct numeric columns. */
  lemma FilledColumnsAreNumeric()
    ensures "realised_p_l" in NumericColumns && "quantity" in NumericColumns
    ensures "realised_p_l" != "quantity"
  {
  }

  /** A successful run is lines 42-48 applied to the checked table. */
  lemma ProcessedUnfold(cols: seq<Column>, height: nat, fundName: string, eomDate: string, numberText: real -> string)
    requires SameHeight(cols, height) && Processed(cols, height, fundName, eomDate, numberText).Ok?
    ensures Checked(cols, height, fundName, eomDate, numberText).Ok?
    ensures Rectangular(Checked(cols, height, fundName, eomDate, numberText).value)
    ensures Processed(cols, height, fundName, eomDate, numberText)
      == Filled(CoerceColumns(Checked(cols, height, fundName, eomDate, numberText).value, NumericColumns))
  {
    CheckedRectangular(cols, height, fundName, eomDate, numberText);
  }

  /** After line 48 `realised_p_l` and `quantity` hold numbers only, and the other numeric
      columns hold no text. */
  lemma ProcessedNumbers(cols: seq<Column>, height: nat, fundName: string, eomDate: string, numberText: real -> string)
    requires SameHeight(cols, height) && Processed(cols, height, fundName, eomDate, numberText).Ok?
    ensures var v := Processed(cols, height, fundName, eomDate, numberText).value;
      && "realised_p_l" in v.columns && AllNumbers(v.columns["realised_p_l"])
      && "quantity" in v.columns && AllNumbers(v.columns["quantity"])
    ensures var v := Processed(cols, height, fundName, eomDate, numberText).value;
      forall n :: n in v.columns && n in NumericColumns ==> NoText(v.columns[n])
  {
    ProcessedUnfold(cols, height, fundName, eomDate, numberText);
    FinishShape(Checked(cols, height, fundName, eomDate, numberText).value);
  }

  /** After line 48 each cell of a numeric column is the cell the quality check kept at
      line 39, converted: `realised_p_l` and `quantity` by `NumberOrZero` (a NULL or a
      text that is not a number becomes `0.0`), `price` and `market_value` by `to_numeric`
      (such cells become NULL). */
  lemma ProcessedCells(cols: seq<Column>, height: nat, fundName: string, eomDate: string, numberText: real -> string, n: string)
    requires SameHeight(cols, height) && Processed(cols, height, fundName, eomDate, numberText).Ok?
    requires n in NumericColumns && Present(cols, n)
    ensures Checked(cols, height, fundName, eomDate, numberText).Ok?
    ensures var c, v := Checked(cols, height, fundName, eomDate, numberText).value,
        Processed(cols, height, fundName, eomDate, numberText).value;
      n in c.columns && n in v.columns && |v.columns[n]| == |c.columns[n]|
    ensures var c, v := Checked(cols, height, fundName, eomDate, numberText).value,
        Processed(cols, height, fundName, eomDate, numberText).value;
      forall i :: 0 <= i < |c.columns[n]| ==>
        v.columns[n][i] == if n == "realised_p_l" || n == "quantity" then Number(NumberOrZero(c.columns[n][i]))
                           else Coerced(c.columns[n][i])
  {
    ProcessedUnfold(cols, height, fundName, eomDate, numberText);
    CheckedOutcome(cols, height, fundName, eomDate, numberText);
    FinishCells(Checked(cols, height, fundName, eomDate, numberText).value, NumericColumns, n);
  }

  /** After line 48 the table has the rows kept at line 39 and the kept columns. */
  lemma ProcessedRows(cols: seq<Column>, height: nat, fundName: string, eomDate: string, numberText: real -> string)
    requires SameHeight(cols, height) && Processed(cols, height, fundName, eomDate, numberText).Ok?
    ensures Present(cols, "market_value") && Present(cols, "realised_p_l") && Present(cols, "quantity")
    ensures var v := Processed(cols, height, fundName, eomDate, numberText).value;
      Rectangular(v) && v.height == KeptRows(cols, height) && forall n :: n in v.columns <==> Kept(cols, n)
  {
    ProcessedOutcome(cols, height, fundName, eomDate, numberText);
    CheckedRows(cols, height, fundName, eomDate, numberText);
    ProcessedUnfold(cols, height, fundName, eomDate, numberText);
    FinishShape(Checked(cols, height, fundName, eomDate, numberText).value);
  }

  /** Lines 42-48 leave a column outside the numeric ones as it was. */
  lemma FinishKeeps(c: Table, n: string)
    requires Rectangular(c) && Filled(CoerceColumns(c, NumericColumns)).Ok?
    requires n in c.columns && n !in NumericColumns
    ensures n in Filled(CoerceColumns(c, NumericColumns)).value.columns
    ensures Filled(CoerceColumns(c, NumericColumns)).value.columns[n] == c.columns[n]
  {
    FinishShape(c);
  }

  /** A table that keeps every non-numeric column of a text-shaped table is text-shaped
      too. */
  lemma KeepsTextShape(c: Table, v: Table, fundName: string, eomDate: string)
    requires TextShaped(c, fundName, eomDate) && v.columns.Keys == c.columns.Keys
    requires forall n :: n in v.columns && n !in NumericColumns ==> v.columns[n] == c.columns[n]
    ensures TextShaped(v, fundName, eomDate)
  {
    assert "fund_name" !in NumericColumns && "eom_date" !in NumericColumns;
    assert forall n :: n in TextColumns ==> n !in NumericColumns;
  }

  /** After line 48 the constant columns hold the fund name and the date, and the text
      columns hold text without surrounding whitespace. */
  lemma ProcessedText(cols: seq<Column>, height: nat, fundName: string, eomDate: string, numberText: real -> string)
    requires SameHeight(cols, height) && Processed(cols, height, fundName, eomDate, numberText).Ok?
    ensures TextShaped(Processed(cols, height, fundName, eomDate, numberText).value, fundName, eomDate)
  {
    CheckedText(cols, height, fundName, eomDate, numberText);
    ProcessedUnfold(cols, height, fundName, eomDate, numberText);
    var c := Checked(cols, height, fundName, eomDate, numberText).value;
    FinishShape(c);
    KeepsTextShape(c, Processed(cols, height, fundName, eomDate, numberText).value, fundName, eomDate);
  }

  lemma CleanStep(t: Table, names: seq<string>, k: nat, numberText: real -> string)
    requires k < |names|
    ensures var u := CleanColumns(t, names[..k], numberText);
      CleanColumns(t, names[..k + 1], numberText) ==
        if names[k] in u.columns then CleanColumn(u, names[k], numberText) else u
  {
    assert names[..k + 1][..k] == names[..k];
  }

  lemma CoerceStep(t: Table, names: seq<string>, k: nat)
    requires k < |names|
    ensures var u := CoerceColumns(t, names[..k]);
      CoerceColumns(t, names[..k + 1]) == if names[k] in u.columns then CoerceColumn(u, names[k]) else u
  {
    assert names[..k + 1][..k] == names[..k];
  }

  /** Lines 30-32: the loop over `security_name` and `symbol`. */
  method CleanTextColumns(df: Table, numberText: real -> string) returns (r: Table)
    ensures r == CleanColumns(df, TextColumns, numberText)
  {
    r := df;
    for k := 0 to |TextColumns|
      invariant r == CleanColumns(df, TextColumns[..k], numberText)
    {
      var col := TextColumns[k];
      CleanStep(df, TextColumns, k, numberText);
      if col in r.columns {
        r := CleanColumn(r, col, numberText);
      }
    }
    assert TextColumns[..|TextColumns|] == TextColumns;
  }

  /** Lines 43-45: the loop over the numeric columns. */
  method CoerceNumericColumns(df: Table) returns (r: Table)
    ensures r == CoerceColumns(df, NumericColumns)
  {
    r := df;
    for k := 0 to |NumericColumns|
      invariant r == CoerceColumns(df, NumericColumns[..k])
    {
      var col := NumericColumns[k];
      CoerceStep(df, NumericColumns, k);
      if col in r.columns {
        r := CoerceColumn(r, col);
      }
    }
    assert NumericColumns[..|NumericColumns|] == NumericColumns;
  }

  /** Lines 20-55, step by step: `df` is the frame being rebuilt and each early return
      is a `KeyError`. */
  method Preprocess(cols: seq<Column>, height: nat, fundName: string, eomDate: string, numberText: real -> string)
    returns (r: Result<seq<Column>, PreprocessError>)
    requires SameHeight(cols, height) && DistinctHeaders(cols)
    ensures r == PreprocessSpec(cols, height, fundName, eomDate, numberText)
  {
    var df := Table(height, Renamed(cols));
    df := DropEmptyColumns(df);
    df := WithConstant(df, "fund_name", fundName);
    df := WithConstant(df, "eom_date", eomDate);
    df := CleanTextColumns(df, numberText);
    assert df == Prepared(cols, height, fundName, eomDate, numberText);
    PreparedRectangular(cols, height, fundName, eomDate, numberText);
    if "market_value" !in df.columns {
      return Err(MissingColumn("market_value"));
    }
    var missing := CountIf(df.columns["market_value"], IsMissing);
    if missing > 0 {
      if "realised_p_l" !in df.columns {
        return Err(MissingColumn("realised_p_l"));
      }
      df := DropRows(df, RowMask(df.columns["market_value"], df.columns["realised_p_l"]));
    }
    df := CoerceNumericColumns(df);
    var filled := FillZero(df, "realised_p_l");
    if filled.Err? {
      return Err(filled.error);
    }
    filled := FillZero(filled.value, "quantity");
    if filled.Err? {
      return Err(filled.error);
    }
    return Ok(Selected(filled.value));
  }

  // ---------------------------------------------------------------------------
  // the columns returned

  /** The test deciding which required columns the result has. */
  function KeptIn(cols: seq<Column>): string -> bool {
    n => Kept(cols, n)
  }

  /** What a returned column holds, by its name: the fund name and the date in the
      constant columns, clean text in the text columns, numbers only in `realised_p_l`
      and `quantity`, and no text in the other numeric columns. */
  predicate ColumnShaped(c: Column, fundName: string, eomDate: string) {
    && (c.name == "fund_name" ==> forall i :: 0 <= i < |c.cells| ==> c.cells[i] == Text(fundName))
    && (c.name == "eom_date" ==> forall i :: 0 <= i < |c.cells| ==> c.cells[i] == Text(eomDate))
    && (c.name in TextColumns ==> forall i :: 0 <= i < |c.cells| ==> IsCleanText(c.cells[i]))
    && (c.name in NumericColumns ==> NoText(c.cells))
    && (c.name == "realised_p_l" || c.name == "quantity" ==> AllNumbers(c.cells))
  }

  /** The facts `ColumnShaped` draws on, for a whole table. */
  predicate NumbersShaped(v: Table) {
    && "realised_p_l" in v.columns && AllNumbers(v.columns["realised_p_l"])
    && "quantity" in v.columns && AllNumbers(v.columns["quantity"])
    && forall n :: n in v.columns && n in NumericColumns ==> NoText(v.columns[n])
  }

  /** A column of a table with those facts is shaped as its name says. */
  lemma TableColumnShaped(v: Table, n: string, fundName: string, eomDate: string)
    requires TextShaped(v, fundName, eomDate) && NumbersShaped(v) && n in v.columns
    ensures ColumnShaped(Column(n, v.columns[n]), fundName, eomDate)
  {
  }

  /** The two column tests, applied to a name. */
  lemma TestsApplied(t: Table, cols: seq<Column>, n: string)
    ensures PresentIn(t)(n) == (n in t.columns) && KeptIn(cols)(n) == Kept(cols, n)
  {
  }

  /** A successful `_preprocess_dataframe` returns the required columns that are kept
      (the two constant columns and those surviving the empty-column drop), in the
      order of the required list. */
  lemma PreprocessNames(cols: seq<Column>, height: nat, fundName: string, eomDate: string, numberText: real -> string)
    requires SameHeight(cols, height) && DistinctHeaders(cols)
    requires PreprocessSpec(cols, height, fundName, eomDate, numberText).Ok?
    ensures var r, names := PreprocessSpec(cols, height, fundName, eomDate, numberText).value, Filter(RequiredColumns, KeptIn(cols));
      |r| == |names| && forall k :: 0 <= k < |r| ==> r[k].name == names[k]
    ensures "fund_name" in Filter(RequiredColumns, KeptIn(cols)) && "eom_date" in Filter(RequiredColumns, KeptIn(cols))
  {
    ProcessedRows(cols, height, fundName, eomDate, numberText);
    var v := Processed(cols, height, fundName, eomDate, numberText).value;
    forall k | 0 <= k < |RequiredColumns|
      ensures PresentIn(v)(RequiredColumns[k]) == KeptIn(cols)(RequiredColumns[k])
    {
      var x := RequiredColumns[k];
      assert (x in v.columns) == Kept(cols, x);
      TestsApplied(v, cols, x);
    }
    FilterAgree(RequiredColumns, PresentIn(v), KeptIn(cols));
    FilterMembers(RequiredColumns, KeptIn(cols));
    ConstantsRequired();
    TestsApplied(v, cols, "fund_name");
    TestsApplied(v, cols, "eom_date");
  }

  /** A name is among the returned columns exactly when it is required and kept: a
      column that is absent from the file, or empty in every row and so dropped at
      line 23, is not returned at all (a `symbol` column among them). */
  lemma ReturnedIffKept(cols: seq<Column>, height: nat, fundName: string, eomDate: string, numberText: real -> string, n: string)
    requires SameHeight(cols, height) && DistinctHeaders(cols)
    requires PreprocessSpec(cols, height, fundName, eomDate, numberText).Ok?
    ensures var r := PreprocessSpec(cols, height, fundName, eomDate, numberText).value;
      (exists k :: 0 <= k < |r| && r[k].name == n) <==> n in RequiredColumns && Kept(cols, n)
  {
    PreprocessNames(cols, height, fundName, eomDate, numberText);
    NamedLike(PreprocessSpec(cols, height, fundName, eomDate, numberText).value, Filter(RequiredColumns, KeptIn(cols)), n);
    FilterMembers(RequiredColumns, KeptIn(cols));
    TestsApplied(Table(0, map[]), cols, n);
  }

  /** A file whose `symbol` column is absent or empty in every row returns no `symbol`
      column, so its rows load with a NULL symbol; with some symbol present, the column
      is returned. */
  lemma SymbolReturnedIffPresent(cols: seq<Column>, height: nat, fundName: string, eomDate: string, numberText: real -> string)
    requires SameHeight(cols, height) && DistinctHeaders(cols)
    requires PreprocessSpec(cols, height, fundName, eomDate, numberText).Ok?
    ensures var r := PreprocessSpec(cols, height, fundName, eomDate, numberText).value;
      (exists k :: 0 <= k < |r| && r[k].name == "symbol") <==> Present(cols, "symbol")
  {
    ReturnedIffKept(cols, height, fundName, eomDate, numberText, "symbol");
    SymbolRequired();
  }

  /** `symbol` is a required column and not one of the two constants. */
  lemma SymbolRequired()
    ensures "symbol" in RequiredColumns && "symbol" != "fund_name" && "symbol" != "eom_date"
  {
  }

  /** Columns named position by position after a list of names: a name is among them
      exactly when it is in the list. */
  lemma NamedLike(r: seq<Column>, names: seq<string>, n: string)
    requires |r| == |names| && forall k :: 0 <= k < |r| ==> r[k].name == names[k]
    ensures (exists k :: 0 <= k < |r| && r[k].name == n) <==> n in names
  {
    if n in names {
      var k :| 0 <= k < |names| && names[k] == n;
      assert r[k].name == n;
    }
  }

  /** The two constant columns are among the required ones. */
  lemma ConstantsRequired()
    ensures "fund_name" in RequiredColumns && "eom_date" in RequiredColumns
  {
  }

  /** Each returned column has the cells of the processed table: as many as the rows
      kept at line 39, and shaped as `ColumnShaped` says. */
  lemma PreprocessCells(cols: seq<Column>, height: nat, fundName: string, eomDate: string, numberText: real -> string)
    requires SameHeight(cols, height) && DistinctHeaders(cols)
    requires PreprocessSpec(cols, height, fundName, eomDate, numberText).Ok?
    ensures Processed(cols, height, fundName, eomDate, numberText).Ok?
    ensures Present(cols, "market_value") && Present(cols, "realised_p_l")
    ensures var r, v := PreprocessSpec(cols, height, fundName, eomDate, numberText).value,
        Processed(cols, height, fundName, eomDate, numberText).value;
      forall k :: 0 <= k < |r| ==> r[k].name in v.columns && r[k].cells == v.columns[r[k].name]
    ensures var r := PreprocessSpec(cols, height, fundName, eomDate, numberText).value;
      forall k :: 0 <= k < |r| ==>
        |r[k].cells| == KeptRows(cols, height) && ColumnShaped(r[k], fundName, eomDate)
  {
    ProcessedRows(cols, height, fundName, eomDate, numberText);
    ProcessedText(cols, height, fundName, eomDate, numberText);
    ProcessedNumbers(cols, height, fundName, eomDate, numberText);
    var v := Processed(cols, height, fundName, eomDate, numberText).value;
    var r := Selected(v);
    forall k | 0 <= k < |r| ensures ColumnShaped(r[k], fundName, eomDate) {
      TableColumnShaped(v, r[k].name, fundName, eomDate);
    }
  }
}
