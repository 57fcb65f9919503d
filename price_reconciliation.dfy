/** `PriceReconciler.run_reconciliation`: reported fund prices against master reference
    prices, using the last available reference price on or before each report date. */
module PriceReconciliation {
  import opened Wrappers
  import opened Dates
  import opened Strings
  import opened Sorting
  import opened Numeric

  // ---------------------------------------------------------------------------
  // query results

  /** A row of the fund positions table, in the columns the reconciliation selects. */
  datatype PositionRow = PositionRow(
    eomDate: Date, financialType: Option<string>, symbol: Option<string>,
    isin: Option<string>, fundName: Option<string>, price: Cell)

  /** A row of the equity or bond reference price table. */
  datatype PriceRow = PriceRow(datetime: Date, key: Option<string>, price: Cell)

  /** A row of the instruments query, before coercion. */
  datatype InstrumentRow = InstrumentRow(
    eomDate: Date, financialType: Option<string>, identifier: Option<string>,
    fundName: Option<string>, reportedPrice: Cell)

  /** A row of the master prices query, before coercion. The reference type column it
      also carries is never read afterwards. */
  datatype MasterRow = MasterRow(eomDate: Date, identifier: Option<string>, masterPrice: Cell)

  /** SQL `COALESCE(symbol, isin)`: the symbol, or the ISIN when the symbol is NULL. */
  function Coalesce(symbol: Option<string>, isin: Option<string>): (r: Option<string>)
    ensures symbol.Some? ==> r == symbol
    ensures symbol.None? ==> r == isin
  {
    if symbol.Some? then symbol else isin
  }

  function SelectInstrument(p: PositionRow): InstrumentRow {
    InstrumentRow(p.eomDate, p.financialType, Coalesce(p.symbol, p.isin), p.fundName, p.price)
  }

  /** The instruments query: the selected columns of every position, `DISTINCT`. */
  function InstrumentsQuery(positions: seq<PositionRow>): (r: seq<InstrumentRow>)
    ensures NoDuplicates(r)
    ensures forall x :: x in r <==> exists k :: 0 <= k < |positions| && x == SelectInstrument(positions[k])
  {
    var selected := seq(|positions|, k requires 0 <= k < |positions| => SelectInstrument(positions[k]));
    forall x ensures x in selected <==> exists k :: 0 <= k < |positions| && x == SelectInstrument(positions[k]) {
      if x in selected {
        var k :| 0 <= k < |selected| && selected[k] == x;
      }
      if exists k :: 0 <= k < |positions| && x == SelectInstrument(positions[k]) {
        var k :| 0 <= k < |positions| && x == SelectInstrument(positions[k]);
        assert selected[k] == x;
      }
    }
    Distinct(selected)
  }

  /** The master prices query: every equity price keyed by its symbol, then (`UNION ALL`)
      every bond price keyed by its ISIN. */
  function MasterPricesQuery(equity: seq<PriceRow>, bonds: seq<PriceRow>): (r: seq<MasterRow>)
    ensures |r| == |equity| + |bonds|
    ensures forall k :: 0 <= k < |equity| ==>
      r[k] == MasterRow(equity[k].datetime, equity[k].key, equity[k].price)
    ensures forall k :: 0 <= k < |bonds| ==>
      r[|equity| + k] == MasterRow(bonds[k].datetime, bonds[k].key, bonds[k].price)
  {
    seq(|equity|, k requires 0 <= k < |equity| => MasterRow(equity[k].datetime, equity[k].key, equity[k].price))
    + seq(|bonds|, k requires 0 <= k < |bonds| => MasterRow(bonds[k].datetime, bonds[k].key, bonds[k].price))
  }

  // ---------------------------------------------------------------------------
  // coercion and normalisation

  /** A fund position after coercion and normalisation. */
  datatype Instrument = Instrument(
    eomDate: Date, financialType: Option<string>, identifier: string,
    fundName: Option<string>, reportedPrice: Option<real>)

  /** A reference price after coercion and normalisation. */
  datatype MasterPrice = MasterPrice(eomDate: Date, identifier: string, masterPrice: Option<real>)

  /** `fillna('').astype(str).str.strip()`: a NULL identifier becomes the empty string,
      and surrounding whitespace is removed. */
  function NormalizeIdentifier(id: Option<string>): (r: string)
    ensures id.None? ==> r == ""
    ensures r != [] ==> r[0] !in Whitespace && r[|r| - 1] !in Whitespace
    ensures id.Some? ==> exists i, j :: 0 <= i <= j <= |id.value| && r == id.value[i..j]
  {
    match id
    case None => ""
    case Some(s) => StripIsMiddle(s, Whitespace); Strip(s, Whitespace)
  }

  /** Normalising an identifier twice changes nothing more. */
  lemma NormalizeIdempotent(id: Option<string>)
    ensures NormalizeIdentifier(Some(NormalizeIdentifier(id))) == NormalizeIdentifier(id)
  {
    match id
    case None =>
    case Some(s) => StripIdempotent(s, Whitespace);
  }

  /** A NULL identifier and a blank one both normalise to `""`, so they match each other. */
  lemma NullMatchesBlank(blank: string)
    requires forall k :: 0 <= k < |blank| ==> blank[k] in Whitespace
    ensures NormalizeIdentifier(Some(blank)) == NormalizeIdentifier(None)
  {
    StripIsMiddle(blank, Whitespace);
  }

  function NormalizeInstrument(p: InstrumentRow): Instrument {
    Instrument(p.eomDate, p.financialType, NormalizeIdentifier(p.identifier), p.fundName,
      ToNumeric(p.reportedPrice))
  }

  function NormalizeMaster(m: MasterRow): MasterPrice {
    MasterPrice(m.eomDate, NormalizeIdentifier(m.identifier), ToNumeric(m.masterPrice))
  }

  /** The fund instruments frame after its price and identifier columns are rewritten. */
  function Instruments(positions: seq<PositionRow>): (r: seq<Instrument>)
    ensures |r| == |InstrumentsQuery(positions)|
    ensures forall k :: 0 <= k < |r| ==> r[k] == NormalizeInstrument(InstrumentsQuery(positions)[k])
  {
    var q := InstrumentsQuery(positions);
    seq(|q|, k requires 0 <= k < |q| => NormalizeInstrument(q[k]))
  }

  /** The master prices frame after its price and identifier columns are rewritten. */
  function MasterPrices(equity: seq<PriceRow>, bonds: seq<PriceRow>): (r: seq<MasterPrice>)
    ensures |r| == |equity| + |bonds|
    ensures forall k :: 0 <= k < |r| ==> r[k] == NormalizeMaster(MasterPricesQuery(equity, bonds)[k])
  {
    var q := MasterPricesQuery(equity, bonds);
    seq(|q|, k requires 0 <= k < |q| => NormalizeMaster(q[k]))
  }

  // ---------------------------------------------------------------------------
  // the last available price, as a specification

  /** A reference row that can price identifier `id` on date `d`. */
  predicate Qualifies(r: MasterPrice, id: string, d: Date) {
    r.identifier == id && NotAfter(r.eomDate, d) && r.masterPrice.Some?
  }

  /** Reference row `j` is no later than row `k`: an earlier date, or the same date and
      not after it in query order. */
  predicate NoLater(refs: seq<MasterPrice>, j: nat, k: nat)
    requires j < |refs| && k < |refs|
  {
    Before(refs[j].eomDate, refs[k].eomDate) || (refs[j].eomDate == refs[k].eomDate && j <= k)
  }

  /** Among the first `n` reference rows, the latest one that qualifies. */
  function LatestRef(refs: seq<MasterPrice>, id: string, d: Date, n: nat): (r: Option<nat>)
    requires n <= |refs|
    ensures r.Some? ==> r.value < n && Qualifies(refs[r.value], id, d)
    ensures forall k :: 0 <= k < n && Qualifies(refs[k], id, d) ==> r.Some? && NoLater(refs, k, r.value)
    decreases n
  {
    if n == 0 then None
    else
      var b := LatestRef(refs, id, d, n - 1);
      if Qualifies(refs[n - 1], id, d) && (b.None? || NotAfter(refs[b.value].eomDate, refs[n - 1].eomDate))
      then Some(n - 1)
      else b
  }

  /** The last available price of `id` on `d`: the price of the latest reference row with
      that identifier, a date on or before `d` and a price; NULL when there is none. */
  function LatestRefPrice(refs: seq<MasterPrice>, id: string, d: Date): Option<real> {
    match LatestRef(refs, id, d, |refs|)
    case None => None
    case Some(k) => refs[k].masterPrice
  }

  // ---------------------------------------------------------------------------
  // the timeline

  /** A row of the combined timeline. `seqNo` is the row's position in the
      concatenation, which the stable sort keeps among rows with equal keys. */
  datatype LapPoint = LapPoint(
    identifier: string, date: Date, price: Option<real>, isFundReport: bool, seqNo: nat)

  function RefPoint(r: MasterPrice, k: nat): LapPoint {
    LapPoint(r.identifier, r.eomDate, r.masterPrice, false, k)
  }

  /** A fund report point carries no master price. */
  function FundPoint(p: Instrument, k: nat): LapPoint {
    LapPoint(p.identifier, p.eomDate, None, true, k)
  }

  /** The reference rows followed by the fund report points. */
  function Timeline(refs: seq<MasterPrice>, funds: seq<Instrument>): (c: seq<LapPoint>)
    ensures |c| == |refs| + |funds|
    ensures forall k :: 0 <= k < |refs| ==> c[k] == RefPoint(refs[k], k)
    ensures forall k :: 0 <= k < |funds| ==> c[|refs| + k] == FundPoint(funds[k], |refs| + k)
  {
    seq(|refs| + |funds|, k requires 0 <= k < |refs| + |funds| =>
      if k < |refs| then RefPoint(refs[k], k) else FundPoint(funds[k - |refs|], k))
  }

  /** Every timeline row sits at the position its `seqNo` records. */
  lemma InTimeline(refs: seq<MasterPrice>, funds: seq<Instrument>, x: LapPoint)
    requires x in Timeline(refs, funds)
    ensures x.seqNo < |refs| + |funds| && Timeline(refs, funds)[x.seqNo] == x
  {
    var c := Timeline(refs, funds);
    var k :| 0 <= k < |c| && c[k] == x;
    if k >= |refs| {
      assert c[|refs| + (k - |refs|)] == x;
    }
  }

  /** `sort_values(['identifier', 'eom_date'])`, stable: identifier, then date, then
      position in the concatenation. */
  predicate TimelineLess(a: LapPoint, b: LapPoint) {
    Less(a.identifier, b.identifier)
    || (a.identifier == b.identifier && Before(a.date, b.date))
    || (a.identifier == b.identifier && a.date == b.date && a.seqNo < b.seqNo)
  }

  predicate SameKey(a: LapPoint, b: LapPoint) {
    a.identifier == b.identifier && a.date == b.date && a.seqNo == b.seqNo
  }

  lemma TimelineLessFacts(a: LapPoint, b: LapPoint, c: LapPoint)
    ensures !TimelineLess(a, a)
    ensures TimelineLess(a, b) && TimelineLess(b, c) ==> TimelineLess(a, c)
    ensures TimelineLess(a, b) || TimelineLess(b, a) || SameKey(a, b)
  {
    LessIsStrictTotal(a.identifier, b.identifier, c.identifier);
    LessIsStrictTotal(a.identifier, a.identifier, a.identifier);
    BeforeIsStrictTotal(a.date, b.date, c.date);
  }

  /** The timeline order is a strict weak order, so the sort is well defined. */
  lemma TimelineOrder()
    ensures StrictWeakOrder(TimelineLess)
  {
    forall a, b | TimelineLess(a, b) ensures !TimelineLess(b, a) {
      TimelineLessFacts(a, b, a);
    }
    forall a, b, c | TimelineLess(a, c) ensures TimelineLess(a, b) || TimelineLess(b, c) {
      TimelineLessFacts(a, b, c);
      TimelineLessFacts(b, c, a);
      TimelineLessFacts(c, a, b);
      TimelineLessFacts(a, c, b);
      TimelineLessFacts(b, a, c);
    }
  }

  /** The sorted timeline. */
  function SortedTimeline(refs: seq<MasterPrice>, funds: seq<Instrument>): (t: seq<LapPoint>)
    ensures |t| == |refs| + |funds|
    ensures multiset(t) == multiset(Timeline(refs, funds))
  {
    Sort(Timeline(refs, funds), TimelineLess)
  }

  // ---------------------------------------------------------------------------
  // forward fill

  /** Among the first `n` timeline rows, the last one of identifier `id` with a price. */
  function LastPriced(t: seq<LapPoint>, id: string, n: nat): (r: Option<nat>)
    requires n <= |t|
    ensures r.Some? ==> r.value < n && t[r.value].identifier == id && t[r.value].price.Some?
    ensures forall k :: 0 <= k < n && t[k].identifier == id && t[k].price.Some? ==> r.Some? && k <= r.value
    decreases n
  {
    if n == 0 then None
    else if t[n - 1].identifier == id && t[n - 1].price.Some? then Some(n - 1)
    else LastPriced(t, id, n - 1)
  }

  /** The price a forward fill within the group of `id` holds after the first `n` rows. */
  function LastPrice(t: seq<LapPoint>, id: string, n: nat): Option<real>
    requires n <= |t|
  {
    match LastPriced(t, id, n)
    case None => None
    case Some(k) => t[k].price
  }

  /** `groupby('identifier')['master_price'].ffill()`: one pass over the timeline,
      remembering the last price seen for each identifier. */
  method ForwardFill(t: seq<LapPoint>) returns (filled: seq<Option<real>>)
    ensures |filled| == |t|
    ensures forall i :: 0 <= i < |t| ==> filled[i] == LastPrice(t, t[i].identifier, i + 1)
  {
    var last: map<string, real> := map[];
    filled := [];
    var i := 0;
    while i < |t|
      invariant 0 <= i <= |t| && |filled| == i
      invariant forall id :: LastPrice(t, id, i) == (if id in last then Some(last[id]) else None)
      invariant forall k :: 0 <= k < i ==> filled[k] == LastPrice(t, t[k].identifier, k + 1)
    {
      var p := t[i];
      if p.price.Some? {
        last := last[p.identifier := p.price.value];
      }
      forall id ensures LastPrice(t, id, i + 1) == (if id in last then Some(last[id]) else None) {
        LastPriceStep(t, id, i);
      }
      filled := filled + [if p.identifier in last then Some(last[p.identifier]) else None];
      i := i + 1;
    }
  }

  /** One more row changes the fill of its own identifier only, and only when it has a
      price. */
  lemma LastPriceStep(t: seq<LapPoint>, id: string, i: nat)
    requires i < |t|
    ensures LastPrice(t, id, i + 1) ==
      if t[i].identifier == id && t[i].price.Some? then t[i].price else LastPrice(t, id, i)
  {
  }

  // ---------------------------------------------------------------------------
  // the forward fill finds the last available price

  /** The sorted timeline is ordered, and holds exactly the timeline's rows. */
  lemma SortedTimelineFacts(refs: seq<MasterPrice>, funds: seq<Instrument>)
    ensures var t := SortedTimeline(refs, funds);
      && NoInversion(t, TimelineLess)
      && (forall m :: 0 <= m < |t| ==> t[m].seqNo < |t| && Timeline(refs, funds)[t[m].seqNo] == t[m])
      && (forall k :: 0 <= k < |t| ==> Timeline(refs, funds)[k] in t)
  {
    var c := Timeline(refs, funds);
    var t := SortedTimeline(refs, funds);
    TimelineOrder();
    SortIsOrdered(c, TimelineLess);
    forall m | 0 <= m < |t| ensures t[m].seqNo < |t| && c[t[m].seqNo] == t[m] {
      assert t[m] in multiset(c);
      InTimeline(refs, funds, t[m]);
    }
    forall k | 0 <= k < |t| ensures c[k] in t {
      assert c[k] in multiset(t);
    }
  }

  /** A fund report point comes after every reference row that can price it. */
  lemma QualifyingRefIsEarlier(refs: seq<MasterPrice>, funds: seq<Instrument>, i: nat, k: nat)
    requires i < |SortedTimeline(refs, funds)| && SortedTimeline(refs, funds)[i].isFundReport
    requires k < |refs|
    requires var p := SortedTimeline(refs, funds)[i]; Qualifies(refs[k], p.identifier, p.date)
    ensures exists m :: 0 <= m < i && SortedTimeline(refs, funds)[m] == RefPoint(refs[k], k)
  {
    var c := Timeline(refs, funds);
    var t := SortedTimeline(refs, funds);
    SortedTimelineFacts(refs, funds);
    assert t[i].seqNo >= |refs|;
    assert c[k] == RefPoint(refs[k], k);
    var m :| 0 <= m < |t| && t[m] == c[k];
    assert TimelineLess(t[m], t[i]);
  }

  /** The filled price at a fund report point is the last available reference price for
      its identifier and date. */
  lemma FilledIsLatest(refs: seq<MasterPrice>, funds: seq<Instrument>, i: nat)
    requires i < |SortedTimeline(refs, funds)| && SortedTimeline(refs, funds)[i].isFundReport
    ensures var p := SortedTimeline(refs, funds)[i];
      LastPrice(SortedTimeline(refs, funds), p.identifier, i + 1) == LatestRefPrice(refs, p.identifier, p.date)
  {
    var c := Timeline(refs, funds);
    var t := SortedTimeline(refs, funds);
    var id, d := t[i].identifier, t[i].date;
    SortedTimelineFacts(refs, funds);
    var latest := LatestRef(refs, id, d, |refs|);
    match LastPriced(t, id, i + 1)
    case None =>
      if latest.Some? {
        QualifyingRefIsEarlier(refs, funds, i, latest.value);
      }
    case Some(j) =>
      LastPricedIsLatest(refs, funds, i, j);
  }

  /** The last priced row of the identifier before a fund report point is the latest
      qualifying reference row. */
  lemma LastPricedIsLatest(refs: seq<MasterPrice>, funds: seq<Instrument>, i: nat, j: nat)
    requires i < |SortedTimeline(refs, funds)| && SortedTimeline(refs, funds)[i].isFundReport
    requires var t := SortedTimeline(refs, funds); LastPriced(t, t[i].identifier, i + 1) == Some(j)
    ensures var t := SortedTimeline(refs, funds);
      LatestRef(refs, t[i].identifier, t[i].date, |refs|) == Some(t[j].seqNo)
  {
    var t := SortedTimeline(refs, funds);
    var id, d := t[i].identifier, t[i].date;
    SortedTimelineFacts(refs, funds);
    var latest := LatestRef(refs, id, d, |refs|);
    var p := t[j].seqNo;
    assert p < |refs|;
    assert t[j] == RefPoint(refs[p], p);
    assert j < i;
    assert !TimelineLess(t[i], t[j]);
    BeforeIsStrictTotal(refs[p].eomDate, d, d);
    assert Qualifies(refs[p], id, d);
    assert latest.Some?;
    var r := latest.value;
    assert NoLater(refs, p, r);
    QualifyingRefIsEarlier(refs, funds, i, r);
    var m :| 0 <= m < i && t[m] == RefPoint(refs[r], r);
    assert m <= j;
    if m < j {
      assert !TimelineLess(t[j], t[m]);
      BeforeIsStrictTotal(refs[p].eomDate, refs[r].eomDate, refs[r].eomDate);
    }
    assert p == r;
  }

  // ---------------------------------------------------------------------------
  // the fund report points and their filled prices

  /** A row of `reconciliation_df`, in the three columns the merge uses. */
  datatype FillRow = FillRow(identifier: string, eomDate: Date, masterPriceFilled: Option<real>)

  /** `lap_df[lap_df['is_fund_report']]`: the fund report points, in timeline order,
      with their filled prices. */
  function FundFills(t: seq<LapPoint>, filled: seq<Option<real>>): (r: seq<FillRow>)
    requires |filled| == |t|
    ensures forall x :: x in r ==>
      exists i :: 0 <= i < |t| && t[i].isFundReport && x == FillRow(t[i].identifier, t[i].date, filled[i])
    decreases |t|
  {
    if t == [] then []
    else
      var n := |t| - 1;
      FundFills(t[..n], filled[..n])
      + (if t[n].isFundReport then [FillRow(t[n].identifier, t[n].date, filled[n])] else [])
  }

  function FillKeyIs(id: string, d: Date): FillRow -> bool {
    (x: FillRow) => x.identifier == id && x.eomDate == d
  }

  function FundPointAt(id: string, d: Date): LapPoint -> bool {
    (x: LapPoint) => x.isFundReport && x.identifier == id && x.date == d
  }

  function InstrumentKeyIs(id: string, d: Date): Instrument -> bool {
    (x: Instrument) => x.identifier == id && x.eomDate == d
  }

  /** The number of fund positions with the key of `p`. */
  function KeyCount(funds: seq<Instrument>, p: Instrument): nat {
    CountIf(funds, InstrumentKeyIs(p.identifier, p.eomDate))
  }

  lemma {:induction false} FundFillsCount(t: seq<LapPoint>, filled: seq<Option<real>>, id: string, d: Date)
    requires |filled| == |t|
    ensures CountIf(FundFills(t, filled), FillKeyIs(id, d)) == CountIf(t, FundPointAt(id, d))
    decreases |t|
  {
    if t != [] {
      var n := |t| - 1;
      FundFillsCount(t[..n], filled[..n], id, d);
      var tail := if t[n].isFundReport then [FillRow(t[n].identifier, t[n].date, filled[n])] else [];
      CountIfAppend(FundFills(t[..n], filled[..n]), tail, FillKeyIs(id, d));
      if tail != [] {
        assert tail[..0] == [];
      }
    }
  }

  /** The first `n` timeline rows hold as many fund points of a key as the positions
      they come from. */
  lemma TimelineCount(refs: seq<MasterPrice>, funds: seq<Instrument>, id: string, d: Date, n: nat)
    requires n <= |refs| + |funds|
    ensures CountIf(Timeline(refs, funds)[..n], FundPointAt(id, d))
      == if n <= |refs| then 0 else CountIf(funds[..n - |refs|], InstrumentKeyIs(id, d))
  {
    PrefixCount(Timeline(refs, funds), funds, |refs|, id, d, n);
  }

  lemma {:induction false} PrefixCount(c: seq<LapPoint>, funds: seq<Instrument>, r: nat, id: string, d: Date, n: nat)
    requires |c| == r + |funds| && n <= |c|
    requires forall k :: 0 <= k < r ==> !c[k].isFundReport
    requires forall k :: 0 <= k < |funds| ==> c[r + k] == FundPoint(funds[k], r + k)
    ensures CountIf(c[..n], FundPointAt(id, d))
      == if n <= r then 0 else CountIf(funds[..n - r], InstrumentKeyIs(id, d))
    decreases n
  {
    if n > 0 {
      PrefixCount(c, funds, r, id, d, n - 1);
      assert c[..n][..n - 1] == c[..n - 1];
      if n > r {
        assert funds[..n - r][..n - 1 - r] == funds[..n - 1 - r];
        assert c[n - 1] == FundPoint(funds[n - 1 - r], n - 1);
      } else {
        assert !c[n - 1].isFundReport;
      }
    }
  }

  /** `reconciliation_df` holds, for each key, one row per fund position with that key. */
  lemma FillRowCount(refs: seq<MasterPrice>, funds: seq<Instrument>, filled: seq<Option<real>>, id: string, d: Date)
    requires |filled| == |SortedTimeline(refs, funds)|
    ensures CountIf(FundFills(SortedTimeline(refs, funds), filled), FillKeyIs(id, d))
      == CountIf(funds, InstrumentKeyIs(id, d))
  {
    var c := Timeline(refs, funds);
    var t := SortedTimeline(refs, funds);
    FundFillsCount(t, filled, id, d);
    CountIfPermutation(t, c, FundPointAt(id, d));
    TimelineCount(refs, funds, id, d, |c|);
    assert c[..|c|] == c;
    assert funds[..|funds|] == funds;
  }

  /** Every row of `reconciliation_df` carries the last available price of its key. */
  lemma FillRowsAreLatest(refs: seq<MasterPrice>, funds: seq<Instrument>, filled: seq<Option<real>>)
    requires |filled| == |SortedTimeline(refs, funds)|
    requires var t := SortedTimeline(refs, funds);
      forall i :: 0 <= i < |t| ==> filled[i] == LastPrice(t, t[i].identifier, i + 1)
    ensures forall x :: x in FundFills(SortedTimeline(refs, funds), filled) ==>
      x.masterPriceFilled == LatestRefPrice(refs, x.identifier, x.eomDate)
  {
    var t := SortedTimeline(refs, funds);
    forall x | x in FundFills(t, filled)
      ensures x.masterPriceFilled == LatestRefPrice(refs, x.identifier, x.eomDate)
    {
      var i :| 0 <= i < |t| && t[i].isFundReport && x == FillRow(t[i].identifier, t[i].date, filled[i]);
      FilledIsLatest(refs, funds, i);
    }
  }

  // ---------------------------------------------------------------------------
  // the left merge

  /** A row of the merged frame: a fund position with the filled price it was joined to. */
  datatype Merged = Merged(position: Instrument, masterPriceFilled: Option<real>)

  /** The rows of `right` whose key is the key of `p`, joined to `p`, in order. */
  function MatchRows(p: Instrument, right: seq<FillRow>): (r: seq<Merged>)
    ensures |r| == CountIf(right, FillKeyIs(p.identifier, p.eomDate))
    decreases |right|
  {
    if right == [] then []
    else
      var n := |right| - 1;
      MatchRows(p, right[..n])
      + (if right[n].identifier == p.identifier && right[n].eomDate == p.eomDate
         then [Merged(p, right[n].masterPriceFilled)] else [])
  }

  /** `left.merge(right, on=['identifier', 'eom_date'], how='left')`: each left row once per
      matching right row, or once with a NULL price when nothing matches. */
  function LeftMerge(left: seq<Instrument>, right: seq<FillRow>): seq<Merged>
    decreases |left|
  {
    if left == [] then [] else JoinRows(left[0], right) + LeftMerge(left[1..], right)
  }

  /** The merged rows of one left row. */
  function JoinRows(p: Instrument, right: seq<FillRow>): seq<Merged> {
    var m := MatchRows(p, right);
    if m == [] then [Merged(p, None)] else m
  }

  /** `n` copies of `x`. */
  function Repeat<T>(x: T, n: nat): (r: seq<T>)
    ensures |r| == n && forall k :: 0 <= k < n ==> r[k] == x
  {
    seq(n, _ => x)
  }

  /** When all matching rows carry the same price, the matches are that many copies. */
  lemma {:induction false} MatchRowsAllSame(p: Instrument, right: seq<FillRow>, v: Option<real>)
    requires forall x :: x in right && x.identifier == p.identifier && x.eomDate == p.eomDate ==>
      x.masterPriceFilled == v
    ensures MatchRows(p, right) == Repeat(Merged(p, v), CountIf(right, FillKeyIs(p.identifier, p.eomDate)))
    decreases |right|
  {
    if right != [] {
      var n := |right| - 1;
      assert forall x :: x in right[..n] ==> x in right;
      MatchRowsAllSame(p, right[..n], v);
    }
  }

  /** What the reconciliation promises: each position, in input order, once per position
      sharing its key, with the last available price of that key. */
  function Expected(ps: seq<Instrument>, funds: seq<Instrument>, refs: seq<MasterPrice>): seq<Merged>
    decreases |ps|
  {
    if ps == [] then []
    else
      Repeat(Merged(ps[0], LatestRefPrice(refs, ps[0].identifier, ps[0].eomDate)), KeyCount(funds, ps[0]))
      + Expected(ps[1..], funds, refs)
  }

  /** A position joins once to each position sharing its key, always with the last
      available price of that key. */
  lemma JoinRowsIsExpected(p: Instrument, refs: seq<MasterPrice>, funds: seq<Instrument>, filled: seq<Option<real>>)
    requires p in funds
    requires |filled| == |SortedTimeline(refs, funds)|
    requires var t := SortedTimeline(refs, funds);
      forall i :: 0 <= i < |t| ==> filled[i] == LastPrice(t, t[i].identifier, i + 1)
    ensures JoinRows(p, FundFills(SortedTimeline(refs, funds), filled))
      == Repeat(Merged(p, LatestRefPrice(refs, p.identifier, p.eomDate)), KeyCount(funds, p))
  {
    var right := FundFills(SortedTimeline(refs, funds), filled);
    FillRowsAreLatest(refs, funds, filled);
    MatchRowsAllSame(p, right, LatestRefPrice(refs, p.identifier, p.eomDate));
    FillRowCount(refs, funds, filled, p.identifier, p.eomDate);
    var k :| 0 <= k < |funds| && funds[k] == p;
    CountIfPositive(funds, InstrumentKeyIs(p.identifier, p.eomDate), k);
  }

  /** The left merge of the positions with `reconciliation_df` is the expected frame. */
  lemma {:induction false} MergeIsExpected(
    ps: seq<Instrument>, refs: seq<MasterPrice>, funds: seq<Instrument>, filled: seq<Option<real>>)
    requires forall x :: x in ps ==> x in funds
    requires |filled| == |SortedTimeline(refs, funds)|
    requires var t := SortedTimeline(refs, funds);
      forall i :: 0 <= i < |t| ==> filled[i] == LastPrice(t, t[i].identifier, i + 1)
    ensures LeftMerge(ps, FundFills(SortedTimeline(refs, funds), filled)) == Expected(ps, funds, refs)
    decreases |ps|
  {
    if ps != [] {
      JoinRowsIsExpected(ps[0], refs, funds, filled);
      assert forall x :: x in ps[1..] ==> x in ps;
      MergeIsExpected(ps[1..], refs, funds, filled);
    }
  }

  // ---------------------------------------------------------------------------
  // the result frame

  /** A row of the result, in its seven output columns. */
  datatype ResultRow = ResultRow(
    fundName: Option<string>, eomDate: Date, financialType: Option<string>, identifier: string,
    reportedPrice: Option<real>, masterPriceFilled: Option<real>, priceDifference: Option<real>)

  /** `reported_price - master_price_filled`, NULL whenever either side is NULL. */
  function Difference(reported: Option<real>, filled: Option<real>): (r: Option<real>)
    ensures r.Some? <==> reported.Some? && filled.Some?
    ensures r.Some? ==> r.value + filled.value == reported.value
  {
    if reported.Some? && filled.Some? then Some(reported.value - filled.value) else None
  }

  function Output(m: Merged): ResultRow {
    var p := m.position;
    ResultRow(p.fundName, p.eomDate, p.financialType, p.identifier, p.reportedPrice,
      m.masterPriceFilled, Difference(p.reportedPrice, m.masterPriceFilled))
  }

  function Outputs(ms: seq<Merged>): (r: seq<ResultRow>)
    ensures |r| == |ms| && forall k :: 0 <= k < |ms| ==> r[k] == Output(ms[k])
  {
    seq(|ms|, k requires 0 <= k < |ms| => Output(ms[k]))
  }

  /** `run_reconciliation`: the result frame built from the three tables. Each position
      appears once per position sharing its identifier and date, carrying the last
      available reference price for them and the difference to its reported price. */
  method RunReconciliation(positions: seq<PositionRow>, equity: seq<PriceRow>, bonds: seq<PriceRow>)
    returns (result: seq<ResultRow>)
    ensures var funds := Instruments(positions);
      result == Outputs(Expected(funds, funds, MasterPrices(equity, bonds)))
  {
    var funds := Instruments(positions);
    var refs := MasterPrices(equity, bonds);
    var lap := SortedTimeline(refs, funds);
    var filled := ForwardFill(lap);
    var reconciliation := FundFills(lap, filled);
    var merged := LeftMerge(funds, reconciliation);
    MergeIsExpected(funds, refs, funds, filled);
    result := Outputs(merged);
  }

  // ---------------------------------------------------------------------------
  // properties of the result

  /** Keys `(identifier, eom_date)` are unique among the positions. */
  predicate UniqueKeys(funds: seq<Instrument>) {
    forall i, j :: 0 <= i < j < |funds| ==>
      funds[i].identifier != funds[j].identifier || funds[i].eomDate != funds[j].eomDate
  }

  lemma {:induction false} UniqueKeyCount(funds: seq<Instrument>, i: nat)
    requires UniqueKeys(funds) && i < |funds|
    ensures KeyCount(funds, funds[i]) == 1
    decreases |funds|
  {
    var n := |funds| - 1;
    var p := funds[i];
    assert UniqueKeys(funds[..n]);
    if i < n {
      UniqueKeyCount(funds[..n], i);
      assert funds[..n][i] == p;
    } else {
      NoKeyNoCount(funds[..n], p);
    }
  }

  lemma {:induction false} NoKeyNoCount(funds: seq<Instrument>, p: Instrument)
    requires forall k :: 0 <= k < |funds| ==>
      funds[k].identifier != p.identifier || funds[k].eomDate != p.eomDate
    ensures KeyCount(funds, p) == 0
    decreases |funds|
  {
    if funds != [] {
      NoKeyNoCount(funds[..|funds| - 1], p);
    }
  }

  /** With unique keys, the result has one row per position, in position order. */
  lemma {:induction false} OneRowPerPosition(ps: seq<Instrument>, funds: seq<Instrument>, refs: seq<MasterPrice>, offset: nat)
    requires UniqueKeys(funds) && offset + |ps| <= |funds| && ps == funds[offset..offset + |ps|]
    ensures |Expected(ps, funds, refs)| == |ps|
    ensures forall k :: 0 <= k < |ps| ==>
      Expected(ps, funds, refs)[k] == Merged(ps[k], LatestRefPrice(refs, ps[k].identifier, ps[k].eomDate))
    decreases |ps|
  {
    if ps != [] {
      assert ps[0] == funds[offset];
      UniqueKeyCount(funds, offset);
      assert ps[1..] == funds[offset + 1..offset + |ps|];
      OneRowPerPosition(ps[1..], funds, refs, offset + 1);
    }
  }

  /** The reconciliation of positions with unique keys: row `k` reports position `k`
      against its last available price. */
  lemma UniqueKeysResult(funds: seq<Instrument>, refs: seq<MasterPrice>)
    requires UniqueKeys(funds)
    ensures var r := Outputs(Expected(funds, funds, refs));
      |r| == |funds|
      && forall k :: 0 <= k < |funds| ==>
        r[k] == Output(Merged(funds[k], LatestRefPrice(refs, funds[k].identifier, funds[k].eomDate)))
  {
    assert funds == funds[0..|funds|];
    OneRowPerPosition(funds, funds, refs, 0);
  }

  /** No positions, no rows. */
  lemma EmptyPositions(equity: seq<PriceRow>, bonds: seq<PriceRow>)
    ensures Outputs(Expected(Instruments([]), Instruments([]), MasterPrices(equity, bonds))) == []
  {
    assert |Instruments([])| == 0;
  }

  // ---------------------------------------------------------------------------
  // properties of the last available price

  /** The filled price is NULL exactly when no reference row of the identifier has a
      price dated on or before the position; otherwise it is the price of such a row, and
      no other such row is dated later. */
  lemma LastAvailablePrice(refs: seq<MasterPrice>, id: string, d: Date)
    ensures LatestRefPrice(refs, id, d).None? <==> forall k :: 0 <= k < |refs| ==> !Qualifies(refs[k], id, d)
    ensures LatestRefPrice(refs, id, d).Some? ==>
      exists k :: 0 <= k < |refs| && Qualifies(refs[k], id, d)
        && LatestRefPrice(refs, id, d) == refs[k].masterPrice
        && forall j :: 0 <= j < |refs| && Qualifies(refs[j], id, d) ==> !Before(refs[k].eomDate, refs[j].eomDate)
  {
    match LatestRef(refs, id, d, |refs|)
    case None =>
    case Some(k) =>
      forall j | 0 <= j < |refs| && Qualifies(refs[j], id, d) ensures !Before(refs[k].eomDate, refs[j].eomDate) {
        assert NoLater(refs, j, k);
        BeforeIsStrictTotal(refs[j].eomDate, refs[k].eomDate, refs[j].eomDate);
      }
  }

  /** When a reference row of the identifier has a price on the position's own date, the
      filled price is a price from that date. */
  lemma ExactDateWins(refs: seq<MasterPrice>, id: string, d: Date, k: nat)
    requires k < |refs| && Qualifies(refs[k], id, d) && refs[k].eomDate == d
    ensures exists j ::
      && 0 <= j < |refs| && refs[j].identifier == id && refs[j].eomDate == d
      && LatestRefPrice(refs, id, d) == refs[j].masterPrice
  {
    var j := LatestRef(refs, id, d, |refs|).value;
    assert NoLater(refs, k, j);
  }

  lemma {:induction false} LatestRefPrefix(refs: seq<MasterPrice>, x: MasterPrice, id: string, d: Date, n: nat)
    requires n <= |refs|
    ensures LatestRef(refs + [x], id, d, n) == LatestRef(refs, id, d, n)
    decreases n
  {
    if n > 0 {
      LatestRefPrefix(refs, x, id, d, n - 1);
      assert (refs + [x])[n - 1] == refs[n - 1];
    }
  }

  /** A reference row that cannot price the position (a NULL price, another identifier,
      or a later date) leaves the filled price unchanged: a NULL reference price never
      replaces an earlier valid one. */
  lemma UnusableRefIgnored(refs: seq<MasterPrice>, x: MasterPrice, id: string, d: Date)
    requires !Qualifies(x, id, d)
    ensures LatestRefPrice(refs + [x], id, d) == LatestRefPrice(refs, id, d)
  {
    LatestRefPrefix(refs, x, id, d, |refs|);
    var b := LatestRef(refs, id, d, |refs|);
    if b.Some? {
      assert (refs + [x])[b.value] == refs[b.value];
    }
  }

  /** The basic scenario: an exact match, a difference of -1 and a price carried from an
      earlier date. */
  lemma BasicScenario()
    ensures var jan15, jan31 := Date(2023, 1, 15), Date(2023, 1, 31);
      var refs := [MasterPrice(jan31, "AAPL", Some(150.0)), MasterPrice(jan31, "BOND1", Some(96.0)),
                   MasterPrice(jan15, "GOOGL", Some(2000.0))];
      && Difference(Some(150.0), LatestRefPrice(refs, "AAPL", jan31)) == Some(0.0)
      && Difference(Some(95.0), LatestRefPrice(refs, "BOND1", jan31)) == Some(-1.0)
      && LatestRefPrice(refs, "GOOGL", jan31) == Some(2000.0)
      && LatestRefPrice(refs, "MISSING", jan31) == None
  {
    var jan15, jan31 := Date(2023, 1, 15), Date(2023, 1, 31);
    var refs := [MasterPrice(jan31, "AAPL", Some(150.0)), MasterPrice(jan31, "BOND1", Some(96.0)),
                 MasterPrice(jan15, "GOOGL", Some(2000.0))];
    assert "AAPL" != "BOND1" && "AAPL" != "GOOGL" && "BOND1" != "GOOGL";
    assert "MISSING" != "AAPL" && "MISSING" != "BOND1" && "MISSING" != "GOOGL";
    assert LatestRef(refs, "AAPL", jan31, 1) == Some(0);
    assert LatestRef(refs, "AAPL", jan31, 3) == Some(0);
    assert LatestRef(refs, "BOND1", jan31, 2) == Some(1);
    assert LatestRef(refs, "BOND1", jan31, 3) == Some(1);
    assert LatestRef(refs, "GOOGL", jan31, 2) == None;
    assert LatestRef(refs, "GOOGL", jan31, 3) == Some(2);
    assert LatestRef(refs, "MISSING", jan31, 2) == None;
  }

  // ---------------------------------------------------------------------------
  // statistics

  /** The tolerance above which a price difference counts. */
  const Tolerance: real := 0.0001

  function Abs(x: real): (r: real)
    ensures r >= 0.0 && (r == x || r == -x)
  {
    if x < 0.0 then -x else x
  }

  /** `price_difference.abs() > 0.0001`; a NULL difference compares false. */
  predicate HasDiff(r: ResultRow) {
    r.priceDifference.Some? && Abs(r.priceDifference.value) > Tolerance
  }

  predicate AboveTolerance(x: real) {
    x > Tolerance
  }

  /** The absolute differences that are not NULL, in row order. */
  function AbsDiffs(rows: seq<ResultRow>): (r: seq<real>)
    ensures |r| <= |rows|
    ensures forall k :: 0 <= k < |r| ==> r[k] >= 0.0
    decreases |rows|
  {
    if rows == [] then []
    else
      var n := |rows| - 1;
      AbsDiffs(rows[..n]) + (if rows[n].priceDifference.Some? then [Abs(rows[n].priceDifference.value)] else [])
  }

  /** Pandas' `max()` skipping NULLs: NULL for no values. */
  function MaxOf(xs: seq<real>): (r: Option<real>)
    ensures r.None? <==> xs == []
    ensures r.Some? ==> r.value in xs && forall k :: 0 <= k < |xs| ==> xs[k] <= r.value
    decreases |xs|
  {
    if xs == [] then None
    else
      var n := |xs| - 1;
      match MaxOf(xs[..n])
      case None => Some(xs[n])
      case Some(m) => Some(if xs[n] > m then xs[n] else m)
  }

  function SumOf(xs: seq<real>): real
    decreases |xs|
  {
    if xs == [] then 0.0 else SumOf(xs[..|xs| - 1]) + xs[|xs| - 1]
  }

  /** Pandas' `mean()` skipping NULLs: NULL for no values. */
  function MeanOf(xs: seq<real>): Option<real> {
    if xs == [] then None else Some(SumOf(xs) / (|xs| as real))
  }

  /** `diff_stats`. */
  datatype DiffStats = DiffStats(
    totalPositions: nat, positionsWithDiffs: nat, maxDiff: Option<real>, meanDiff: Option<real>)

  function Statistics(rows: seq<ResultRow>): (s: DiffStats)
    ensures s.totalPositions == |rows| && s.positionsWithDiffs <= |rows|
    ensures s.maxDiff.None? <==> forall k :: 0 <= k < |rows| ==> rows[k].priceDifference.None?
  {
    NoDiffsNoValues(rows);
    DiffStats(|rows|, CountIf(rows, HasDiff), MaxOf(AbsDiffs(rows)), MeanOf(AbsDiffs(rows)))
  }

  lemma {:induction false} NoDiffsNoValues(rows: seq<ResultRow>)
    ensures AbsDiffs(rows) == [] <==> forall k :: 0 <= k < |rows| ==> rows[k].priceDifference.None?
    decreases |rows|
  {
    if rows != [] {
      var n := |rows| - 1;
      NoDiffsNoValues(rows[..n]);
      assert forall k :: 0 <= k < n ==> rows[..n][k] == rows[k];
    }
  }

  /** `positions_with_diffs` counts the non-NULL absolute differences above the tolerance:
      rows with a NULL difference are never counted. */
  lemma {:induction false} DiffCountIgnoresNulls(rows: seq<ResultRow>)
    ensures CountIf(rows, HasDiff) == CountIf(AbsDiffs(rows), AboveTolerance)
    ensures CountIf(rows, HasDiff) <= |AbsDiffs(rows)|
    decreases |rows|
  {
    if rows != [] {
      var n := |rows| - 1;
      DiffCountIgnoresNulls(rows[..n]);
      var tail := if rows[n].priceDifference.Some? then [Abs(rows[n].priceDifference.value)] else [];
      CountIfAppend(AbsDiffs(rows[..n]), tail, AboveTolerance);
      if tail != [] {
        assert tail[..0] == [];
      }
    }
  }

  lemma {:induction false} SumBelow(xs: seq<real>, m: real)
    requires forall k :: 0 <= k < |xs| ==> 0.0 <= xs[k] <= m
    ensures 0.0 <= SumOf(xs) <= (|xs| as real) * m
    decreases |xs|
  {
    if xs != [] {
      SumBelow(xs[..|xs| - 1], m);
    }
  }

  lemma DivideBelow(total: real, n: real, m: real)
    requires n > 0.0 && 0.0 <= total <= n * m
    ensures 0.0 <= total / n <= m
  {
    assert total / n * n == total;
  }

  /** The mean absolute difference lies between zero and the maximum one. */
  lemma MeanWithinMax(rows: seq<ResultRow>)
    ensures var s := Statistics(rows);
      s.meanDiff.Some? <==> s.maxDiff.Some?
    ensures var s := Statistics(rows);
      s.meanDiff.Some? ==> 0.0 <= s.meanDiff.value <= s.maxDiff.value
  {
    if AbsDiffs(rows) != [] {
      MeanBelowMax(AbsDiffs(rows));
    }
  }

  lemma MeanBelowMax(xs: seq<real>)
    requires forall k :: 0 <= k < |xs| ==> xs[k] >= 0.0
    requires xs != []
    ensures 0.0 <= MeanOf(xs).value <= MaxOf(xs).value
  {
    var m := MaxOf(xs).value;
    SumBelow(xs, m);
    MeanOfBound(xs, m);
  }

  lemma MeanOfBound(xs: seq<real>, m: real)
    requires xs != [] && 0.0 <= SumOf(xs) <= (|xs| as real) * m
    ensures 0.0 <= MeanOf(xs).value <= m
  {
    MeanBound(SumOf(xs), |xs|, m);
  }

  lemma MeanBound(total: real, count: nat, m: real)
    requires count > 0 && 0.0 <= total <= (count as real) * m
    ensures 0.0 <= total / (count as real) <= m
  {
    DivideBelow(total, count as real, m);
  }

  // ---------------------------------------------------------------------------
  // positions sharing a key

  /** Two positions sharing a key, such as two funds holding the same instrument at the
      same month end, come out as four rows: each joins to both fund report points. */
  lemma SharedKeyRowsMultiply(a: Instrument, b: Instrument, refs: seq<MasterPrice>)
    requires a.identifier == b.identifier && a.eomDate == b.eomDate
    ensures |Outputs(Expected([a, b], [a, b], refs))| == 4
  {
    var funds := [a, b];
    var key := InstrumentKeyIs(a.identifier, a.eomDate);
    assert key(a) && key(b);
    assert CountIf([a], key) == 1 by {
      assert [a][..0] == [];
    }
    assert CountIf(funds, key) == 2 by {
      assert funds[..1] == [a];
    }
    assert KeyCount(funds, a) == 2 && KeyCount(funds, b) == 2;
    assert funds[1..] == [b];
    assert [b][1..] == [];
    assert |Expected([b], funds, refs)| == 2;
  }

  /** Whether some row of `right` has the key `(id, d)`. */
  predicate HasKey(right: seq<FillRow>, id: string, d: Date) {
    exists k :: 0 <= k < |right| && right[k].identifier == id && right[k].eomDate == d
  }

  /** `drop_duplicates(['identifier', 'eom_date'])`: the first row of each key. */
  function FirstPerKey(right: seq<FillRow>): (r: seq<FillRow>)
    ensures forall x :: x in r ==> x in right
    decreases |right|
  {
    if right == [] then []
    else
      var n := |right| - 1;
      var x := right[n];
      var kept := FirstPerKey(right[..n]);
      if HasKey(right[..n], x.identifier, x.eomDate) then kept else kept + [x]
  }

  /** After dropping duplicates each key present occurs exactly once. */
  lemma {:induction false} FirstPerKeyCount(right: seq<FillRow>, id: string, d: Date)
    ensures CountIf(FirstPerKey(right), FillKeyIs(id, d)) == if HasKey(right, id, d) then 1 else 0
    decreases |right|
  {
    if right != [] {
      var n := |right| - 1;
      var x := right[n];
      FirstPerKeyCount(right[..n], id, d);
      var kept := FirstPerKey(right[..n]);
      if HasKey(right[..n], id, d) {
        var k :| 0 <= k < n && right[..n][k].identifier == id && right[..n][k].eomDate == d;
        assert right[k] == right[..n][k];
      }
      if HasKey(right, id, d) && !HasKey(right[..n], id, d) {
        var k :| 0 <= k < |right| && right[k].identifier == id && right[k].eomDate == d;
        assert k == n;
      }
      if !HasKey(right[..n], x.identifier, x.eomDate) {
        CountIfAppend(kept, [x], FillKeyIs(id, d));
        assert [x][..0] == [];
      }
    }
  }

  /** The evidently intended reconciliation: `reconciliation_df` deduplicated on the merge
      key before the merge, so that each position yields exactly one row, carrying the
      last available price of its key. */
  method RunReconciliationOnce(positions: seq<PositionRow>, equity: seq<PriceRow>, bonds: seq<PriceRow>)
    returns (result: seq<ResultRow>)
    ensures var funds := Instruments(positions);
      && |result| == |funds|
      && forall k :: 0 <= k < |funds| ==>
           var p := funds[k];
           result[k] == Output(Merged(p, LatestRefPrice(MasterPrices(equity, bonds), p.identifier, p.eomDate)))
  {
    var funds := Instruments(positions);
    var refs := MasterPrices(equity, bonds);
    var lap := SortedTimeline(refs, funds);
    var filled := ForwardFill(lap);
    var reconciliation := FirstPerKey(FundFills(lap, filled));
    var merged := LeftMerge(funds, reconciliation);
    FillRowsAreLatest(refs, funds, filled);
    DeduplicatedMerge(funds, refs, funds, filled);
    result := Outputs(merged);
  }

  /** With duplicates dropped, the merge pairs each position with its last available price. */
  lemma DeduplicatedMerge(
    ps: seq<Instrument>, refs: seq<MasterPrice>, funds: seq<Instrument>, filled: seq<Option<real>>)
    requires forall x :: x in ps ==> x in funds
    requires |filled| == |SortedTimeline(refs, funds)|
    requires forall x :: x in FundFills(SortedTimeline(refs, funds), filled) ==>
      x.masterPriceFilled == LatestRefPrice(refs, x.identifier, x.eomDate)
    ensures var m := LeftMerge(ps, FirstPerKey(FundFills(SortedTimeline(refs, funds), filled)));
      |m| == |ps| && forall k :: 0 <= k < |ps| ==>
        m[k] == Merged(ps[k], LatestRefPrice(refs, ps[k].identifier, ps[k].eomDate))
  {
    var right := FirstPerKey(FundFills(SortedTimeline(refs, funds), filled));
    forall k | 0 <= k < |ps|
      ensures JoinRows(ps[k], right) == [Merged(ps[k], LatestRefPrice(refs, ps[k].identifier, ps[k].eomDate))]
    {
      assert ps[k] in ps;
      DeduplicatedJoin(ps[k], refs, funds, filled);
    }
    MergeOnce(ps, right, refs);
  }

  /** When every position joins exactly once, the merge is the positions in order, each
      with its price. */
  lemma {:induction false} MergeOnce(ps: seq<Instrument>, right: seq<FillRow>, refs: seq<MasterPrice>)
    requires forall k :: 0 <= k < |ps| ==>
      JoinRows(ps[k], right) == [Merged(ps[k], LatestRefPrice(refs, ps[k].identifier, ps[k].eomDate))]
    ensures var m := LeftMerge(ps, right);
      |m| == |ps| && forall k :: 0 <= k < |ps| ==>
        m[k] == Merged(ps[k], LatestRefPrice(refs, ps[k].identifier, ps[k].eomDate))
    decreases |ps|
  {
    if ps != [] {
      forall k | 0 <= k < |ps[1..]|
        ensures JoinRows(ps[1..][k], right)
          == [Merged(ps[1..][k], LatestRefPrice(refs, ps[1..][k].identifier, ps[1..][k].eomDate))]
      {
        assert ps[1..][k] == ps[k + 1];
      }
      MergeOnce(ps[1..], right, refs);
    }
  }

  lemma DeduplicatedJoin(p: Instrument, refs: seq<MasterPrice>, funds: seq<Instrument>, filled: seq<Option<real>>)
    requires p in funds
    requires |filled| == |SortedTimeline(refs, funds)|
    requires forall x :: x in FundFills(SortedTimeline(refs, funds), filled) ==>
      x.masterPriceFilled == LatestRefPrice(refs, x.identifier, x.eomDate)
    ensures JoinRows(p, FirstPerKey(FundFills(SortedTimeline(refs, funds), filled)))
      == [Merged(p, LatestRefPrice(refs, p.identifier, p.eomDate))]
  {
    var right := FundFills(SortedTimeline(refs, funds), filled);
    FillRowCount(refs, funds, filled, p.identifier, p.eomDate);
    var k :| 0 <= k < |funds| && funds[k] == p;
    CountIfPositive(funds, InstrumentKeyIs(p.identifier, p.eomDate), k);
    if !HasKey(right, p.identifier, p.eomDate) {
      NoMatchNoCount(right, p.identifier, p.eomDate);
    }
    JoinOnce(p, right, LatestRefPrice(refs, p.identifier, p.eomDate));
  }

  /** A position whose key is present, at one price, joins exactly once after duplicates
      are dropped. */
  lemma JoinOnce(p: Instrument, right: seq<FillRow>, v: Option<real>)
    requires HasKey(right, p.identifier, p.eomDate)
    requires forall x :: x in right && x.identifier == p.identifier && x.eomDate == p.eomDate ==>
      x.masterPriceFilled == v
    ensures JoinRows(p, FirstPerKey(right)) == [Merged(p, v)]
  {
    MatchRowsAllSame(p, FirstPerKey(right), v);
    FirstPerKeyCount(right, p.identifier, p.eomDate);
  }

  lemma {:induction false} NoMatchNoCount(right: seq<FillRow>, id: string, d: Date)
    requires !HasKey(right, id, d)
    ensures CountIf(right, FillKeyIs(id, d)) == 0
    decreases |right|
  {
    if right != [] {
      var n := |right| - 1;
      assert forall k :: 0 <= k < n ==> right[..n][k] == right[k];
      NoMatchNoCount(right[..n], id, d);
    }
  }
}
