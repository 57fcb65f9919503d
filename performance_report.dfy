/** `PerformanceCalculator.run_attribution`: monthly rate of return per fund and the best
    performing fund of each month. */
module PerformanceReport {
  import opened Wrappers
  import opened Dates
  import opened Strings
  import opened Sorting

  // ---------------------------------------------------------------------------
  // aggregation

  /** A row of the fund positions table, in the columns the aggregation reads. */
  datatype Position = Position(
    eomDate: Date, fundName: Option<string>, marketValue: Option<real>, realisedPL: Option<real>)

  /** SQL `SUM`: NULLs are skipped, and the sum of nothing but NULLs is NULL. */
  function SqlSum(xs: seq<Option<real>>): (r: Option<real>)
    ensures r.None? <==> forall k :: 0 <= k < |xs| ==> xs[k].None?
    decreases |xs|
  {
    if xs == [] then None
    else
      var n := |xs| - 1;
      var b := SqlSum(xs[..n]);
      match xs[n]
      case None => b
      case Some(v) => Some((if b.Some? then b.value else 0.0) + v)
  }

  /** Adding two SQL sums: NULL only when both are NULL. */
  function SqlAdd(a: Option<real>, b: Option<real>): Option<real> {
    if a.None? then b else if b.None? then a else Some(a.value + b.value)
  }

  /** Summing a group in two parts and adding the parts gives the sum of the group. */
  lemma {:induction false} SqlSumAppend(a: seq<Option<real>>, b: seq<Option<real>>)
    ensures SqlSum(a + b) == SqlAdd(SqlSum(a), SqlSum(b))
    decreases |b|
  {
    if b == [] {
      assert a + b == a;
    } else {
      var n := |b| - 1;
      assert (a + b)[..|a + b| - 1] == a + b[..n];
      SqlSumAppend(a, b[..n]);
    }
  }

  /** The group a position belongs to. */
  type Key = (Date, Option<string>)

  function KeyOf(p: Position): Key {
    (p.eomDate, p.fundName)
  }

  /** The market values of the positions of group `key`, in table order. */
  function MarketValues(positions: seq<Position>, key: Key): seq<Option<real>>
    decreases |positions|
  {
    if positions == [] then []
    else
      var n := |positions| - 1;
      MarketValues(positions[..n], key) + (if KeyOf(positions[n]) == key then [positions[n].marketValue] else [])
  }

  /** The realised profit and loss of the positions of group `key`, in table order. */
  function RealisedValues(positions: seq<Position>, key: Key): seq<Option<real>>
    decreases |positions|
  {
    if positions == [] then []
    else
      var n := |positions| - 1;
      RealisedValues(positions[..n], key) + (if KeyOf(positions[n]) == key then [positions[n].realisedPL] else [])
  }

  /** A row of the aggregation query. */
  datatype AggRow = AggRow(
    eomDate: Date, fundName: Option<string>, fundMvEnd: Option<real>, realizedPL: Option<real>)

  /** The aggregate of group `key`. */
  function GroupOf(positions: seq<Position>, key: Key): (r: AggRow)
    ensures r.eomDate == key.0 && r.fundName == key.1
  {
    AggRow(key.0, key.1, SqlSum(MarketValues(positions, key)), SqlSum(RealisedValues(positions, key)))
  }

  /** The groups present, each once. */
  function GroupKeys(positions: seq<Position>): (keys: seq<Key>)
    ensures NoDuplicates(keys)
    ensures forall key :: key in keys <==> exists k :: 0 <= k < |positions| && key == KeyOf(positions[k])
  {
    var all := seq(|positions|, k requires 0 <= k < |positions| => KeyOf(positions[k]));
    forall key ensures key in all <==> exists k :: 0 <= k < |positions| && key == KeyOf(positions[k]) {
      if exists k :: 0 <= k < |positions| && key == KeyOf(positions[k]) {
        var k :| 0 <= k < |positions| && key == KeyOf(positions[k]);
        assert all[k] == key;
      }
    }
    Distinct(all)
  }

  function GroupRows(positions: seq<Position>, keys: seq<Key>): (r: seq<AggRow>)
    ensures |r| == |keys| && forall i :: 0 <= i < |keys| ==> r[i] == GroupOf(positions, keys[i])
  {
    seq(|keys|, i requires 0 <= i < |keys| => GroupOf(positions, keys[i]))
  }

  lemma GroupRowsMembers(positions: seq<Position>)
    ensures forall x :: x in GroupRows(positions, GroupKeys(positions)) <==>
      exists k :: 0 <= k < |positions| && x == GroupOf(positions, KeyOf(positions[k]))
  {
    var keys := GroupKeys(positions);
    var r := GroupRows(positions, keys);
    forall x ensures x in r <==> exists k :: 0 <= k < |positions| && x == GroupOf(positions, KeyOf(positions[k])) {
      if x in r {
        var i :| 0 <= i < |r| && r[i] == x;
        assert keys[i] in keys;
      }
      if exists k :: 0 <= k < |positions| && x == GroupOf(positions, KeyOf(positions[k])) {
        var k :| 0 <= k < |positions| && x == GroupOf(positions, KeyOf(positions[k]));
        assert KeyOf(positions[k]) in keys;
        var i :| 0 <= i < |keys| && keys[i] == KeyOf(positions[k]);
        assert r[i] == x;
      }
    }
  }

  lemma GroupRowsDistinct(positions: seq<Position>)
    ensures NoDuplicates(GroupRows(positions, GroupKeys(positions)))
  {
    var keys := GroupKeys(positions);
    var r := GroupRows(positions, keys);
    forall i, j | 0 <= i < j < |r| ensures r[i] != r[j] {
      assert keys[i] != keys[j];
    }
  }

  /** `GROUP BY eom_date, fund_name` with the two sums: one row for each group present,
      holding the SQL sums of that group. */
  function Aggregate(positions: seq<Position>): (r: seq<AggRow>)
    ensures NoDuplicates(r)
    ensures forall x :: x in r <==> exists k :: 0 <= k < |positions| && x == GroupOf(positions, KeyOf(positions[k]))
  {
    GroupRowsMembers(positions);
    GroupRowsDistinct(positions);
    GroupRows(positions, GroupKeys(positions))
  }

  /** SQL order of `fund_name`: NULL first, then by code point. */
  predicate SqlFundLess(a: Option<string>, b: Option<string>) {
    match (a, b)
    case (None, Some(_)) => true
    case (Some(x), Some(y)) => Less(x, y)
    case _ => false
  }

  /** `ORDER BY eom_date, fund_name`. */
  predicate SqlOrderLess(a: AggRow, b: AggRow) {
    Before(a.eomDate, b.eomDate) || (a.eomDate == b.eomDate && SqlFundLess(a.fundName, b.fundName))
  }

  /** The aggregation query's result. */
  function AggregationQuery(positions: seq<Position>): (r: seq<AggRow>)
    ensures multiset(r) == multiset(Aggregate(positions))
  {
    Sort(Aggregate(positions), SqlOrderLess)
  }

  // ---------------------------------------------------------------------------
  // the fund and date order

  /** Pandas' order of `fund_name`: by code point, a missing name last. */
  predicate FundLess(a: Option<string>, b: Option<string>) {
    match (a, b)
    case (Some(_), None) => true
    case (Some(x), Some(y)) => Less(x, y)
    case _ => false
  }

  /** `sort_values(by=['fund_name', 'eom_date_dt'])`. */
  predicate FundDateLess(a: AggRow, b: AggRow) {
    FundLess(a.fundName, b.fundName) || (a.fundName == b.fundName && Before(a.eomDate, b.eomDate))
  }

  lemma FundLessFacts(a: Option<string>, b: Option<string>, c: Option<string>)
    ensures !FundLess(a, a)
    ensures FundLess(a, b) && FundLess(b, c) ==> FundLess(a, c)
    ensures a == b || FundLess(a, b) || FundLess(b, a)
  {
    if a.Some? && b.Some? && c.Some? {
      LessIsStrictTotal(a.value, b.value, c.value);
    } else if a.Some? && b.Some? {
      LessIsStrictTotal(a.value, b.value, b.value);
    } else if a.Some? {
      LessIsStrictTotal(a.value, a.value, a.value);
    }
  }

  lemma FundDateLessFacts(a: AggRow, b: AggRow, c: AggRow)
    ensures !FundDateLess(a, a)
    ensures FundDateLess(a, b) && FundDateLess(b, c) ==> FundDateLess(a, c)
    ensures FundDateLess(a, b) || FundDateLess(b, a) || (a.fundName == b.fundName && a.eomDate == b.eomDate)
  {
    FundLessFacts(a.fundName, b.fundName, c.fundName);
    FundLessFacts(a.fundName, a.fundName, a.fundName);
    BeforeIsStrictTotal(a.eomDate, b.eomDate, c.eomDate);
  }

  lemma FundDateOrder()
    ensures StrictWeakOrder(FundDateLess)
  {
    forall a, b | FundDateLess(a, b) ensures !FundDateLess(b, a) {
      FundDateLessFacts(a, b, a);
    }
    forall a, b, c | FundDateLess(a, c) ensures FundDateLess(a, b) || FundDateLess(b, c) {
      FundDateLessFacts(a, b, c);
      FundDateLessFacts(b, c, a);
      FundDateLessFacts(c, a, b);
      FundDateLessFacts(a, c, b);
      FundDateLessFacts(b, a, c);
    }
  }

  /** The aggregate sorted by fund and date. */
  function ByFund(agg: seq<AggRow>): (t: seq<AggRow>)
    ensures multiset(t) == multiset(agg)
  {
    Sort(agg, FundDateLess)
  }

  /** Two aggregate rows of the same group are the same row. */
  lemma GroupDeterminesRow(positions: seq<Position>, x: AggRow, y: AggRow)
    requires x in Aggregate(positions) && y in Aggregate(positions)
    requires x.eomDate == y.eomDate && x.fundName == y.fundName
    ensures x == y
  {
    var i :| 0 <= i < |positions| && x == GroupOf(positions, KeyOf(positions[i]));
    var j :| 0 <= j < |positions| && y == GroupOf(positions, KeyOf(positions[j]));
    assert KeyOf(positions[i]) == KeyOf(positions[j]);
  }

  /** Sorted by fund and date, each fund's months come strictly in date order. */
  lemma ByFundIsStrict(positions: seq<Position>)
    ensures StrictlyOrdered(ByFund(AggregationQuery(positions)), FundDateLess)
  {
    var agg := Aggregate(positions);
    var t := ByFund(AggregationQuery(positions));
    FundDateOrder();
    SortIsOrdered(AggregationQuery(positions), FundDateLess);
    PermutationKeepsNoDuplicates(agg, t);
    forall i, j | 0 <= i < j < |t| ensures FundDateLess(t[i], t[j]) {
      assert t[i] in multiset(agg) && t[j] in multiset(agg);
      if t[i].eomDate == t[j].eomDate && t[i].fundName == t[j].fundName {
        GroupDeterminesRow(positions, t[i], t[j]);
      }
      FundDateLessFacts(t[i], t[j], t[j]);
    }
  }

  // ---------------------------------------------------------------------------
  // the lag

  /** Among the first `n` rows, the last one of fund `f`. */
  function LastOfFund(rows: seq<AggRow>, f: string, n: nat): (r: Option<nat>)
    requires n <= |rows|
    ensures r.Some? ==> r.value < n && rows[r.value].fundName == Some(f)
    ensures forall k :: 0 <= k < n && rows[k].fundName == Some(f) ==> r.Some? && k <= r.value
    decreases n
  {
    if n == 0 then None
    else if rows[n - 1].fundName == Some(f) then Some(n - 1)
    else LastOfFund(rows, f, n - 1)
  }

  /** `groupby('fund_name').shift(1)`: the row before `i` in its fund's group. A row
      without a fund name belongs to no group. */
  function PreviousOfFund(rows: seq<AggRow>, i: nat): Option<nat>
    requires i < |rows|
  {
    match rows[i].fundName
    case None => None
    case Some(f) => LastOfFund(rows, f, i)
  }

  /** `fund_mv_start`. */
  function MvStart(rows: seq<AggRow>, i: nat): Option<real>
    requires i < |rows|
  {
    match PreviousOfFund(rows, i)
    case None => None
    case Some(j) => rows[j].fundMvEnd
  }

  /** In fund and date order, the lagged row is the same fund's latest earlier month,
      however far back; there is none exactly for a fund's first month. */
  lemma LagIsPreviousMonth(rows: seq<AggRow>, i: nat)
    requires StrictlyOrdered(rows, FundDateLess) && i < |rows| && rows[i].fundName.Some?
    ensures PreviousOfFund(rows, i).None? <==>
      forall k :: 0 <= k < |rows| && rows[k].fundName == rows[i].fundName ==> !Before(rows[k].eomDate, rows[i].eomDate)
    ensures PreviousOfFund(rows, i).Some? ==>
      var j := PreviousOfFund(rows, i).value;
      && j < |rows| && rows[j].fundName == rows[i].fundName && Before(rows[j].eomDate, rows[i].eomDate)
      && forall k :: 0 <= k < |rows| && rows[k].fundName == rows[i].fundName && Before(rows[k].eomDate, rows[i].eomDate)
           ==> NotAfter(rows[k].eomDate, rows[j].eomDate)
  {
    forall k | 0 <= k < |rows| && rows[k].fundName == rows[i].fundName
      ensures Before(rows[k].eomDate, rows[i].eomDate) <==> k < i
    {
      FundLessFacts(rows[i].fundName, rows[i].fundName, rows[i].fundName);
      BeforeIsStrictTotal(rows[k].eomDate, rows[i].eomDate, rows[i].eomDate);
      if k > i {
        assert FundDateLess(rows[i], rows[k]);
      } else if k < i {
        assert FundDateLess(rows[k], rows[i]);
      }
    }
    match PreviousOfFund(rows, i)
    case None =>
    case Some(j) =>
      forall k | 0 <= k < |rows| && rows[k].fundName == rows[i].fundName && Before(rows[k].eomDate, rows[i].eomDate)
        ensures NotAfter(rows[k].eomDate, rows[j].eomDate)
      {
        if k < j {
          assert FundDateLess(rows[k], rows[j]);
          FundLessFacts(rows[i].fundName, rows[i].fundName, rows[i].fundName);
        }
      }
  }

  // ---------------------------------------------------------------------------
  // rate of return

  /** A float quotient that is not NaN: finite, or an infinity from a division by zero. */
  datatype Ratio = NegInfinity | Finite(value: real) | PosInfinity

  /** Float division: `x / 0` is an infinity of the sign of `x`, `0 / 0` is NaN (`None`). */
  function Divide(x: real, y: real): (r: Option<Ratio>)
    ensures r.Some? && r.value.Finite? <==> y != 0.0
    ensures r.Some? && r.value.Finite? ==> r.value.value * y == x
    ensures r.None? <==> x == 0.0 && y == 0.0
    ensures r == Some(PosInfinity) <==> x > 0.0 && y == 0.0
  {
    if y != 0.0 then Some(Finite(x / y))
    else if x > 0.0 then Some(PosInfinity)
    else if x < 0.0 then Some(NegInfinity)
    else None
  }

  /** `(fund_mv_end - fund_mv_start + realized_p_l) / fund_mv_start`, NaN when any
      operand is NaN. */
  function RateOfReturn(mvEnd: Option<real>, mvStart: Option<real>, pl: Option<real>): (r: Option<Ratio>)
    ensures r.Some? ==> mvEnd.Some? && mvStart.Some? && pl.Some?
    ensures r.Some? && r.value.Finite? ==>
      r.value.value * mvStart.value == mvEnd.value - mvStart.value + pl.value
  {
    if mvEnd.Some? && mvStart.Some? && pl.Some?
    then Divide(mvEnd.value - mvStart.value + pl.value, mvStart.value)
    else None
  }

  /** A row of `fund_performance_df` after the lag and the rate of return are added. */
  datatype PerfRow = PerfRow(
    eomDate: Date, fundName: Option<string>, fundMvEnd: Option<real>, realizedPL: Option<real>,
    fundMvStart: Option<real>, rateOfReturn: Option<Ratio>)

  function Performance(rows: seq<AggRow>): (r: seq<PerfRow>)
    ensures |r| == |rows|
    ensures forall i :: 0 <= i < |rows| ==>
      && r[i].eomDate == rows[i].eomDate && r[i].fundName == rows[i].fundName
      && r[i].fundMvStart == MvStart(rows, i)
      && r[i].rateOfReturn == RateOfReturn(rows[i].fundMvEnd, MvStart(rows, i), rows[i].realizedPL)
  {
    seq(|rows|, i requires 0 <= i < |rows| =>
      PerfRow(rows[i].eomDate, rows[i].fundName, rows[i].fundMvEnd, rows[i].realizedPL, MvStart(rows, i),
        RateOfReturn(rows[i].fundMvEnd, MvStart(rows, i), rows[i].realizedPL)))
  }

  /** The frame's order, on its rows. */
  predicate PerfLess(a: PerfRow, b: PerfRow) {
    FundLess(a.fundName, b.fundName) || (a.fundName == b.fundName && Before(a.eomDate, b.eomDate))
  }

  predicate HasRate(r: PerfRow) {
    r.rateOfReturn.Some?
  }

  /** `dropna(subset=['rate_of_return'])`: an infinite rate is kept. */
  function RorFrame(perf: seq<PerfRow>): (r: seq<PerfRow>)
    ensures forall k :: 0 <= k < |r| ==> r[k].rateOfReturn.Some?
    ensures forall x :: x in r <==> x in perf && x.rateOfReturn.Some?
  {
    var r := Filter(perf, HasRate);
    FilterMembers(perf, HasRate);
    assert forall k :: 0 <= k < |r| ==> r[k] in r;
    r
  }

  /** A fund's first month has no rate of return and is dropped. */
  lemma FirstMonthDropped(rows: seq<AggRow>, i: nat)
    requires StrictlyOrdered(rows, FundDateLess) && i < |rows|
    requires forall k :: 0 <= k < |rows| && rows[k].fundName == rows[i].fundName ==>
      !Before(rows[k].eomDate, rows[i].eomDate)
    ensures Performance(rows)[i] !in RorFrame(Performance(rows))
  {
    if rows[i].fundName.Some? {
      LagIsPreviousMonth(rows, i);
    }
  }

  /** A row without a fund name never has a rate of return. */
  lemma UnnamedFundDropped(rows: seq<AggRow>, i: nat)
    requires i < |rows| && rows[i].fundName.None?
    ensures Performance(rows)[i].rateOfReturn.None?
  {
  }

  // ---------------------------------------------------------------------------
  // the best fund per month

  /** Float order on non-NaN quotients. */
  predicate RatioLess(a: Ratio, b: Ratio) {
    match (a, b)
    case (NegInfinity, NegInfinity) => false
    case (NegInfinity, _) => true
    case (Finite(x), Finite(y)) => x < y
    case (Finite(_), PosInfinity) => true
    case _ => false
  }

  predicate RatioAtMost(a: Ratio, b: Ratio) {
    !RatioLess(b, a)
  }

  /** Among the rows of month `m` in the first `n` rows of `kept`, the first one with the
      highest rate: `idxmax`. */
  function FirstBest(kept: seq<PerfRow>, m: Date, n: nat): (r: Option<nat>)
    requires n <= |kept| && forall k :: 0 <= k < |kept| ==> kept[k].rateOfReturn.Some?
    ensures r.Some? ==> r.value < n && kept[r.value].eomDate == m
    ensures forall k :: 0 <= k < n && kept[k].eomDate == m ==>
      r.Some? && RatioAtMost(kept[k].rateOfReturn.value, kept[r.value].rateOfReturn.value)
    ensures r.Some? ==> forall k :: 0 <= k < r.value && kept[k].eomDate == m ==>
      RatioLess(kept[k].rateOfReturn.value, kept[r.value].rateOfReturn.value)
    decreases n
  {
    if n == 0 then None
    else
      var b := FirstBest(kept, m, n - 1);
      if kept[n - 1].eomDate == m
        && (b.None? || RatioLess(kept[b.value].rateOfReturn.value, kept[n - 1].rateOfReturn.value))
      then Some(n - 1)
      else b
  }

  /** The `eom_date` column of the frame. */
  function DateColumn(kept: seq<PerfRow>): (dates: seq<Date>)
    ensures |dates| == |kept| && forall k :: 0 <= k < |kept| ==> dates[k] == kept[k].eomDate
  {
    seq(|kept|, k requires 0 <= k < |kept| => kept[k].eomDate)
  }

  /** The distinct months of the frame, ascending, as `groupby('eom_date_dt')` orders them. */
  function Months(kept: seq<PerfRow>): (r: seq<Date>)
    ensures forall m :: m in r <==> exists k :: 0 <= k < |kept| && kept[k].eomDate == m
  {
    var d := Distinct(DateColumn(kept));
    var r := Sort(d, Before);
    forall m ensures m in r <==> exists k :: 0 <= k < |kept| && kept[k].eomDate == m {
      assert m in r <==> m in multiset(d);
      if m in r {
        assert m in d;
        assert m in DateColumn(kept);
        var k :| 0 <= k < |kept| && DateColumn(kept)[k] == m;
        assert kept[k].eomDate == m;
      }
      if exists k :: 0 <= k < |kept| && kept[k].eomDate == m {
        var k :| 0 <= k < |kept| && kept[k].eomDate == m;
        assert DateColumn(kept)[k] == m;
        assert m in DateColumn(kept);
        assert m in d;
        assert m in multiset(d);
      }
    }
    r
  }

  lemma MonthsAscending(kept: seq<PerfRow>)
    ensures StrictlyOrdered(Months(kept), Before)
  {
    var dates := DateColumn(kept);
    var r := Months(kept);
    assert StrictWeakOrder(Before) by {
      forall a, b, c ensures (Before(a, b) ==> !Before(b, a)) && (Before(a, c) ==> Before(a, b) || Before(b, c)) {
        BeforeIsStrictTotal(a, b, c);
        BeforeIsStrictTotal(b, c, a);
      }
    }
    SortIsOrdered(Distinct(dates), Before);
    PermutationKeepsNoDuplicates(Distinct(dates), r);
    forall i, j | 0 <= i < j < |r| ensures Before(r[i], r[j]) {
      BeforeIsStrictTotal(r[i], r[j], r[j]);
    }
  }

  /** A row of the output: `eom_date`, `best_performing_fund_name`, `highest_rate_of_return`. */
  datatype BestRow = BestRow(eomDate: Date, bestPerformingFundName: Option<string>, highestRateOfReturn: Ratio)

  /** `ror_df.loc[ror_df.groupby('eom_date_dt')['rate_of_return'].idxmax()]`, renamed: for
      each month, the row with the highest rate of return. */
  function BestPerMonth(kept: seq<PerfRow>): (r: seq<BestRow>)
    requires forall k :: 0 <= k < |kept| ==> kept[k].rateOfReturn.Some?
    ensures |r| == |Months(kept)| && forall i :: 0 <= i < |r| ==> r[i].eomDate == Months(kept)[i]
    ensures forall i :: 0 <= i < |r| ==> exists w ::
      && 0 <= w < |kept| && kept[w].eomDate == r[i].eomDate
      && r[i].bestPerformingFundName == kept[w].fundName
      && r[i].highestRateOfReturn == kept[w].rateOfReturn.value
    ensures forall i, k :: 0 <= i < |r| && 0 <= k < |kept| && kept[k].eomDate == r[i].eomDate ==>
      RatioAtMost(kept[k].rateOfReturn.value, r[i].highestRateOfReturn)
  {
    var months := Months(kept);
    var r := seq(|months|, i requires 0 <= i < |months| => Best(kept, months[i]));
    forall i | 0 <= i < |r| ensures exists w ::
      && 0 <= w < |kept| && kept[w].eomDate == r[i].eomDate
      && r[i].bestPerformingFundName == kept[w].fundName
      && r[i].highestRateOfReturn == kept[w].rateOfReturn.value
    {
      assert months[i] in months;
      var w := FirstBest(kept, months[i], |kept|).value;
      assert r[i] == BestRow(months[i], kept[w].fundName, kept[w].rateOfReturn.value);
    }
    r
  }

  /** The output row of month `m`, which has at least one row. */
  function Best(kept: seq<PerfRow>, m: Date): (b: BestRow)
    requires forall k :: 0 <= k < |kept| ==> kept[k].rateOfReturn.Some?
    requires m in Months(kept)
  {
    var w := FirstBest(kept, m, |kept|).value;
    BestRow(m, kept[w].fundName, kept[w].rateOfReturn.value)
  }

  /** On a tie for the highest rate, the fund whose name sorts first wins. */
  lemma TieGoesToFirstFund(kept: seq<PerfRow>, m: Date, k: nat)
    requires forall x :: 0 <= x < |kept| ==> kept[x].rateOfReturn.Some?
    requires StrictlyOrdered(kept, PerfLess)
    requires k < |kept| && kept[k].eomDate == m
    ensures var w := FirstBest(kept, m, |kept|).value;
      kept[k].rateOfReturn == kept[w].rateOfReturn ==>
        k == w || FundLess(kept[w].fundName, kept[k].fundName)
  {
    var w := FirstBest(kept, m, |kept|).value;
    if kept[k].rateOfReturn == kept[w].rateOfReturn && k != w {
      assert k > w;
      assert PerfLess(kept[w], kept[k]);
      BeforeIsStrictTotal(m, m, m);
    }
  }

  // ---------------------------------------------------------------------------
  // the report

  /** `pd.DataFrame()` without columns when the aggregate is empty, otherwise the report. */
  datatype Attribution = NoData | Report(rows: seq<BestRow>)

  /** The rate-of-return frame of the positions. */
  function RorRows(positions: seq<Position>): (r: seq<PerfRow>)
    ensures forall k :: 0 <= k < |r| ==> r[k].rateOfReturn.Some?
  {
    RorFrame(Performance(ByFund(AggregationQuery(positions))))
  }

  lemma RorRowsOrdered(positions: seq<Position>)
    ensures StrictlyOrdered(RorRows(positions), PerfLess)
  {
    var t := ByFund(AggregationQuery(positions));
    var perf := Performance(t);
    ByFundIsStrict(positions);
    assert StrictlyOrdered(perf, PerfLess) by {
      forall i, j | 0 <= i < j < |perf| ensures PerfLess(perf[i], perf[j]) {
        assert FundDateLess(t[i], t[j]);
      }
    }
    FilterKeepsStrictOrder(perf, HasRate, PerfLess);
  }

  /** `run_attribution`. */
  function RunAttribution(positions: seq<Position>): (r: Attribution)
    ensures r.NoData? <==> positions == []
    ensures r.Report? ==> r.rows == BestPerMonth(RorRows(positions))
  {
    var agg := AggregationQuery(positions);
    if agg == [] then
      NoData
    else
      assert positions != [];
      Report(BestPerMonth(RorRows(positions)))
  }

  /** Every row of the rate-of-return frame names its fund. */
  lemma RorRowsNamed(positions: seq<Position>)
    ensures forall k :: 0 <= k < |RorRows(positions)| ==> RorRows(positions)[k].fundName.Some?
  {
    var t := ByFund(AggregationQuery(positions));
    var perf := Performance(t);
    var r := RorRows(positions);
    forall k | 0 <= k < |r| ensures r[k].fundName.Some? {
      assert r[k] in r;
      var i :| 0 <= i < |perf| && perf[i] == r[k];
      assert perf[i].rateOfReturn.Some?;
    }
  }

  /** The report names a fund in every row (and its rate is never NaN, by its type). */
  lemma ReportNamesFunds(positions: seq<Position>)
    ensures var r := RunAttribution(positions);
      r.Report? ==> forall i :: 0 <= i < |r.rows| ==> r.rows[i].bestPerformingFundName.Some?
  {
    var kept := RorRows(positions);
    RorRowsNamed(positions);
    var rows := BestPerMonth(kept);
    forall i | 0 <= i < |rows| ensures rows[i].bestPerformingFundName.Some? {
      var w :| 0 <= w < |kept| && kept[w].eomDate == rows[i].eomDate
        && rows[i].bestPerformingFundName == kept[w].fundName;
    }
  }

  // ---------------------------------------------------------------------------
  // an example: two funds over January and February 2023

  const Jan: Date := Date(2023, 1, 31)
  const Feb: Date := Date(2023, 2, 28)

  /** The aggregate sorted by fund and date. */
  function ExampleRows(): seq<AggRow> {
    [ AggRow(Jan, Some("FundA"), Some(1000.0), Some(50.0)),
      AggRow(Feb, Some("FundA"), Some(1100.0), Some(30.0)),
      AggRow(Jan, Some("FundB"), Some(2000.0), Some(20.0)),
      AggRow(Feb, Some("FundB"), Some(1900.0), Some(-10.0)) ]
  }

  /** February's rows with their rates: (1100 - 1000 + 30) / 1000 and (1900 - 2000 - 10) / 2000. */
  const FebA: PerfRow := PerfRow(Feb, Some("FundA"), Some(1100.0), Some(30.0), Some(1000.0), Some(Finite(0.13)))
  const FebB: PerfRow := PerfRow(Feb, Some("FundB"), Some(1900.0), Some(-10.0), Some(2000.0), Some(Finite(-0.055)))

  /** January starts each fund and has no start value; February lags onto January. */
  lemma ExampleLag()
    ensures MvStart(ExampleRows(), 0) == None && MvStart(ExampleRows(), 2) == None
    ensures MvStart(ExampleRows(), 1) == Some(1000.0) && MvStart(ExampleRows(), 3) == Some(2000.0)
  {
    var rows := ExampleRows();
    assert LastOfFund(rows, "FundA", 0) == None;
    assert LastOfFund(rows, "FundB", 2) == None by {
      assert LastOfFund(rows, "FundB", 1) == None;
    }
    assert LastOfFund(rows, "FundB", 3) == Some(2);
  }

  lemma ExamplePerformance()
    ensures var perf := Performance(ExampleRows());
      perf[0].rateOfReturn == None && perf[2].rateOfReturn == None && perf[1] == FebA && perf[3] == FebB
  {
    ExampleLag();
  }

  /** Only February's rows have a rate of return. */
  lemma ExampleRorFrame()
    ensures RorFrame(Performance(ExampleRows())) == [FebA, FebB]
  {
    ExamplePerformance();
    KeepsFebruary(Performance(ExampleRows()));
  }

  lemma KeepsFebruary(perf: seq<PerfRow>)
    requires |perf| == 4 && !HasRate(perf[0]) && !HasRate(perf[2]) && perf[1] == FebA && perf[3] == FebB
    ensures Filter(perf, HasRate) == [FebA, FebB]
  {
    var p1, p2, p3 := perf[..1], perf[..2], perf[..3];
    assert p1[..0] == [];
    assert Filter(p1, HasRate) == [];
    assert p2[..1] == p1;
    assert Filter(p2, HasRate) == [FebA];
    assert p3[..2] == p2;
    assert Filter(p3, HasRate) == [FebA];
  }

  lemma ExampleMonths()
    ensures Months([FebA, FebB]) == [Feb]
  {
    var kept := [FebA, FebB];
    assert DateColumn(kept) == [Feb, Feb];
    assert Distinct([Feb, Feb]) == [Feb] by {
      assert [Feb][..0] == [];
      assert Distinct([Feb]) == [Feb];
      assert [Feb, Feb][..1] == [Feb];
    }
    assert Sort([Feb], Before) == [Feb] by {
      assert [Feb][1..] == [];
    }
  }

  /** FundA is February's best performer. */
  lemma ExampleBest()
    ensures BestPerMonth([FebA, FebB]) == [BestRow(Feb, Some("FundA"), Finite(0.13))]
  {
    var kept := [FebA, FebB];
    ExampleMonths();
    assert FirstBest(kept, Feb, 2) == Some(0) by {
      assert FirstBest(kept, Feb, 1) == Some(0);
    }
    assert Best(kept, Feb) == BestRow(Feb, Some("FundA"), Finite(0.13));
  }

  /** The report of the example: one row, February, won by FundA at 0.13. */
  lemma FebruaryWinner()
    ensures BestPerMonth(RorFrame(Performance(ExampleRows()))) == [BestRow(Feb, Some("FundA"), Finite(0.13))]
  {
    ExampleRorFrame();
    ExampleBest();
  }
}
