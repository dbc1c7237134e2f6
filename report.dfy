/** The general report of app.py's relatorios view: the lifetime total, the
    monthly history, the month/year filter with its fallback to the current
    month, the records of the selected month and that month's total. */
module Report {
  import opened Wrappers
  import opened Text
  import opened Records
  import opened History

  // ---------------------------------------------------------------------------
  // Lifetime totals
  // ---------------------------------------------------------------------------

  /** SUM(comissao_calculada) over the rows of uid, `or 0` when there are none. */
  function Total(rs: seq<Record>, uid: nat): real
  {
    if rs == [] then 0.0
    else
      var r := rs[|rs| - 1];
      Total(rs[..|rs| - 1], uid) + (if r.owner == uid then r.commission else 0.0)
  }

  /** total_acumulado_geral: the four category totals added up. */
  function LifetimeTotal(t: Tables, uid: nat): real
  {
    Total(t.sales, uid) + Total(t.collections, uid) + Total(t.consultations, uid) + Total(t.procedures, uid)
  }

  /** A category total splits over any split of its table. */
  lemma {:induction false} TotalAppend(a: seq<Record>, b: seq<Record>, uid: nat)
    ensures Total(a + b, uid) == Total(a, uid) + Total(b, uid)
    decreases |b|
  {
    if b != [] {
      var b' := b[..|b| - 1];
      assert (a + b)[..|a + b| - 1] == a + b';
      TotalAppend(a, b', uid);
    } else {
      assert a + b == a;
    }
  }

  /** Records of other users never reach uid's totals. */
  lemma {:induction false} TotalIgnoresOtherUsers(rs: seq<Record>, others: seq<Record>, uid: nat)
    requires forall i :: 0 <= i < |others| ==> others[i].owner != uid
    ensures Total(rs + others, uid) == Total(rs, uid)
    decreases |others|
  {
    TotalAppend(rs, others, uid);
    OthersTotalZero(others, uid);
  }

  lemma {:induction false} OthersTotalZero(others: seq<Record>, uid: nat)
    requires forall i :: 0 <= i < |others| ==> others[i].owner != uid
    ensures Total(others, uid) == 0.0
    decreases |others|
  {
    if others != [] {
      OthersTotalZero(others[..|others| - 1], uid);
    }
  }

  /** A record appended to any one of the four tables, as the four record
      views do, raises its owner's lifetime total by exactly its commission
      and leaves every other user's total as it was. */
  lemma AppendRaisesLifetime(t: Tables, r: Record, uid: nat)
    ensures var gain := if r.owner == uid then r.commission else 0.0;
      && LifetimeTotal(t.(sales := t.sales + [r]), uid) == LifetimeTotal(t, uid) + gain
      && LifetimeTotal(t.(collections := t.collections + [r]), uid) == LifetimeTotal(t, uid) + gain
      && LifetimeTotal(t.(consultations := t.consultations + [r]), uid) == LifetimeTotal(t, uid) + gain
      && LifetimeTotal(t.(procedures := t.procedures + [r]), uid) == LifetimeTotal(t, uid) + gain
  {
    TotalSnoc(t.sales, r, uid);
    TotalSnoc(t.collections, r, uid);
    TotalSnoc(t.consultations, r, uid);
    TotalSnoc(t.procedures, r, uid);
  }

  lemma TotalSnoc(rs: seq<Record>, r: Record, uid: nat)
    ensures Total(rs + [r], uid) == Total(rs, uid) + if r.owner == uid then r.commission else 0.0
  {
    assert (rs + [r])[..|rs|] == rs;
  }

  // ---------------------------------------------------------------------------
  // The history adds up to the lifetime total
  // ---------------------------------------------------------------------------

  /** What uid's records with a usable date add to the history. */
  function DatedTotal(rs: seq<Record>, uid: nat): real
  {
    if rs == [] then 0.0
    else
      var r := rs[|rs| - 1];
      DatedTotal(rs[..|rs| - 1], uid) + (if r.owner == uid && PeriodOf(r.date).Some? then r.commission else 0.0)
  }

  /** Every record of uid in rs has a date. */
  predicate AllDated(rs: seq<Record>, uid: nat)
  {
    forall i :: 0 <= i < |rs| && rs[i].owner == uid ==> rs[i].date.Some?
  }

  predicate AllTablesDated(t: Tables, uid: nat)
  {
    AllDated(t.sales, uid) && AllDated(t.collections, uid) && AllDated(t.consultations, uid) && AllDated(t.procedures, uid)
  }

  lemma {:induction false} DatedTotalIsTotal(rs: seq<Record>, uid: nat)
    requires AllDated(rs, uid)
    ensures DatedTotal(rs, uid) == Total(rs, uid)
  {
    if rs != [] {
      DatedTotalIsTotal(rs[..|rs| - 1], uid);
    }
  }

  predicate Distinct(ks: seq<string>)
  {
    forall i, j :: 0 <= i < j < |ks| ==> ks[i] != ks[j]
  }

  /** The buckets ks of one table, added up. */
  function SumBuckets(rs: seq<Record>, uid: nat, ks: seq<string>): real
  {
    if ks == [] then 0.0 else Bucket(rs, uid, ks[0]) + SumBuckets(rs, uid, ks[1..])
  }

  /** What one record adds to the buckets ks. */
  function SumAdds(r: Record, uid: nat, ks: seq<string>): real
  {
    if ks == [] then 0.0 else (if AddsTo(r, uid, ks[0]) then r.commission else 0.0) + SumAdds(r, uid, ks[1..])
  }

  lemma {:induction false} SumBucketsEmpty(uid: nat, ks: seq<string>)
    ensures SumBuckets([], uid, ks) == 0.0
  {
    if ks != [] {
      SumBucketsEmpty(uid, ks[1..]);
    }
  }

  lemma {:induction false} SumBucketsSnoc(rs: seq<Record>, r: Record, uid: nat, ks: seq<string>)
    ensures SumBuckets(rs + [r], uid, ks) == SumBuckets(rs, uid, ks) + SumAdds(r, uid, ks)
  {
    assert (rs + [r])[..|rs|] == rs;
    if ks != [] {
      SumBucketsSnoc(rs, r, uid, ks[1..]);
    }
  }

  /** A record adds its commission to exactly one bucket, when that bucket is
      listed once. */
  lemma {:induction false} SumAddsOnce(r: Record, uid: nat, ks: seq<string>)
    requires Distinct(ks)
    ensures SumAdds(r, uid, ks) ==
      if r.owner == uid && PeriodOf(r.date).Some? && PeriodOf(r.date).value in ks then r.commission else 0.0
  {
    if ks != [] {
      assert Distinct(ks[1..]) by {
        forall i, j | 0 <= i < j < |ks[1..]| ensures ks[1..][i] != ks[1..][j] {
          assert ks[1..][i] == ks[i + 1] && ks[1..][j] == ks[j + 1];
        }
      }
      SumAddsOnce(r, uid, ks[1..]);
      if AddsTo(r, uid, ks[0]) {
        assert PeriodOf(r.date).value !in ks[1..];
      }
    }
  }

  /** Adding up the buckets of one table over distinct keys that cover all of
      its buckets gives the table's dated total. */
  lemma {:induction false} SumBucketsIsDatedTotal(rs: seq<Record>, uid: nat, ks: seq<string>)
    requires Distinct(ks)
    requires forall k :: k in BucketKeys(rs, uid) ==> k in ks
    ensures SumBuckets(rs, uid, ks) == DatedTotal(rs, uid)
    decreases |rs|
  {
    if rs == [] {
      SumBucketsEmpty(uid, ks);
    } else {
      var rs', r := rs[..|rs| - 1], rs[|rs| - 1];
      assert rs == rs' + [r];
      SumBucketsIsDatedTotal(rs', uid, ks);
      SumBucketsSnoc(rs', r, uid, ks);
      SumAddsOnce(r, uid, ks);
    }
  }

  function SumTotals(rows: seq<HistoryRow>): real
  {
    if rows == [] then 0.0 else rows[0].total + SumTotals(rows[1..])
  }

  /** Row by row, the history totals are the four tables' buckets. */
  lemma {:induction false} SumTotalsByTable(t: Tables, uid: nat, rows: seq<HistoryRow>)
    requires forall i :: 0 <= i < |rows| ==> rows[i].total == HistoryTotal(t, uid, RowKey(rows[i]))
    ensures SumTotals(rows) ==
      SumBuckets(t.sales, uid, RowKeys(rows)) + SumBuckets(t.collections, uid, RowKeys(rows))
      + SumBuckets(t.consultations, uid, RowKeys(rows)) + SumBuckets(t.procedures, uid, RowKeys(rows))
  {
    if rows != [] {
      assert RowKeys(rows)[1..] == RowKeys(rows[1..]);
      SumTotalsByTable(t, uid, rows[1..]);
    }
  }

  /** When every record of uid has a date, the history rows add up to the
      lifetime total: each commission lands in exactly one month. */
  lemma HistoryAddsUpToLifetime(t: Tables, uid: nat, rows: seq<HistoryRow>)
    requires forall i :: 0 <= i < |rows| ==> rows[i].total == HistoryTotal(t, uid, RowKey(rows[i]))
    requires forall k :: k in HistoryKeys(t, uid) ==> k in RowKeys(rows)
    requires StrictlyDescending(RowKeys(rows))
    requires AllTablesDated(t, uid)
    ensures SumTotals(rows) == LifetimeTotal(t, uid)
  {
    var ks := RowKeys(rows);
    DescendingIsDistinct(ks);
    SumTotalsByTable(t, uid, rows);
    TablesSumToLifetime(t, uid, ks);
  }

  /** The four tables' buckets over distinct keys covering all of uid's
      months add up to the lifetime total. */
  lemma TablesSumToLifetime(t: Tables, uid: nat, ks: seq<string>)
    requires Distinct(ks)
    requires forall k :: k in HistoryKeys(t, uid) ==> k in ks
    requires AllTablesDated(t, uid)
    ensures SumBuckets(t.sales, uid, ks) + SumBuckets(t.collections, uid, ks)
      + SumBuckets(t.consultations, uid, ks) + SumBuckets(t.procedures, uid, ks) == LifetimeTotal(t, uid)
  {
    TableSumIsTotal(t.sales, uid, ks);
    TableSumIsTotal(t.collections, uid, ks);
    TableSumIsTotal(t.consultations, uid, ks);
    TableSumIsTotal(t.procedures, uid, ks);
  }

  lemma DescendingIsDistinct(ks: seq<string>)
    requires StrictlyDescending(ks)
    ensures Distinct(ks)
  {
    forall i, j | 0 <= i < j < |ks|
      ensures ks[i] != ks[j]
    {
      BelowIrreflexive(ks[i]);
    }
  }

  /** One table's buckets over distinct keys covering them add up to the
      table's total, when all of uid's records in it are dated. */
  lemma TableSumIsTotal(rs: seq<Record>, uid: nat, ks: seq<string>)
    requires Distinct(ks)
    requires forall k :: k in BucketKeys(rs, uid) ==> k in ks
    requires AllDated(rs, uid)
    ensures SumBuckets(rs, uid, ks) == Total(rs, uid)
  {
    SumBucketsIsDatedTotal(rs, uid, ks);
    DatedTotalIsTotal(rs, uid);
  }

  // ---------------------------------------------------------------------------
  // The filter
  // ---------------------------------------------------------------------------

  /** mes_filtro and ano_filtro: both taken from the request when both are
      truthy, otherwise both taken from the local date; never half of each. */
  function ResolveFilter(mes: Option<int>, ano: Option<int>, localToday: PyDate): (f: (int, int))
    ensures Truthy(mes) && Truthy(ano) ==> f == (mes.value, ano.value)
    ensures !(Truthy(mes) && Truthy(ano)) ==> f == (localToday.month, localToday.year)
    ensures f.0 != 0 && f.1 != 0
  {
    if !Truthy(mes) || !Truthy(ano) then (localToday.month, localToday.year) else (mes.value, ano.value)
  }

  /** A resolved filter sent back as the request's parameters is kept as it
      is, whatever the clock says then. */
  lemma ResolveFilterIsStable(mes: Option<int>, ano: Option<int>, localToday: PyDate, later: PyDate)
    ensures var f := ResolveFilter(mes, ano, localToday); ResolveFilter(Some(f.0), Some(f.1), later) == f
  {
  }

  // ---------------------------------------------------------------------------
  // The records of the selected month
  // ---------------------------------------------------------------------------

  predicate InPeriod(d: Option<PyDate>, month: int, year: int)
  {
    d.Some? && d.value.month == month && d.value.year == year
  }

  /** extract('month', col) == mes_filtro and extract('year', col) == ano_filtro
      for a row of uid; a NULL date never matches. */
  predicate InDetail(r: Record, uid: nat, month: int, year: int)
  {
    r.owner == uid && InPeriod(r.date, month, year)
  }

  /** The rows of one table in the selected month, in table order. */
  function Detail(rs: seq<Record>, uid: nat, month: int, year: int): seq<Record>
  {
    if rs == [] then []
    else
      var r := rs[|rs| - 1];
      Detail(rs[..|rs| - 1], uid, month, year) + (if InDetail(r, uid, month, year) then [r] else [])
  }

  /** A detail list holds each matching row as many times as the table does,
      and nothing else. */
  lemma {:induction false} DetailCounts(rs: seq<Record>, uid: nat, month: int, year: int)
    ensures forall r :: multiset(Detail(rs, uid, month, year))[r] == if InDetail(r, uid, month, year) then multiset(rs)[r] else 0
  {
    if rs != [] {
      var rs', last := rs[..|rs| - 1], rs[|rs| - 1];
      assert rs == rs' + [last];
      DetailCounts(rs', uid, month, year);
    }
  }

  datatype Details = Details(sales: seq<Record>, collections: seq<Record>, consultations: seq<Record>, procedures: seq<Record>)

  /** detalhes: the four queries of the selected month. */
  function PeriodDetails(t: Tables, uid: nat, month: int, year: int): Details
  {
    Details(Detail(t.sales, uid, month, year), Detail(t.collections, uid, month, year),
            Detail(t.consultations, uid, month, year), Detail(t.procedures, uid, month, year))
  }

  function Sum(rs: seq<Record>): real
  {
    if rs == [] then 0.0 else Sum(rs[..|rs| - 1]) + rs[|rs| - 1].commission
  }

  function DetailTotal(d: Details): real
  {
    Sum(d.sales) + Sum(d.collections) + Sum(d.consultations) + Sum(d.procedures)
  }

  /** A record adds to the bucket of a month exactly when it is listed in that
      month's detail. */
  lemma AddsToIffInDetail(r: Record, uid: nat, month: int, year: int)
    ensures AddsTo(r, uid, MonthKey(year, month)) <==> InDetail(r, uid, month, year)
  {
    if AddsTo(r, uid, MonthKey(year, month)) {
      MonthKeyInjective(r.date.value.year, r.date.value.month, year, month);
    }
  }

  /** The bucket of a month is the sum of that month's detail, for every year
      and month. */
  lemma {:induction false} BucketIsDetailSum(rs: seq<Record>, uid: nat, month: int, year: int)
    ensures Bucket(rs, uid, MonthKey(year, month)) == Sum(Detail(rs, uid, month, year))
  {
    if rs != [] {
      var rs', r := rs[..|rs| - 1], rs[|rs| - 1];
      BucketIsDetailSum(rs', uid, month, year);
      AddsToIffInDetail(r, uid, month, year);
      var d' := Detail(rs', uid, month, year);
      if InDetail(r, uid, month, year) {
        assert (d' + [r])[..|d'|] == d';
      } else {
        assert d' + [] == d';
      }
    }
  }

  /** A month without records of uid lists nothing in any category, and its
      history bucket is 0. */
  lemma EmptyPeriod(t: Tables, uid: nat, month: int, year: int)
    requires forall r :: r in t.sales + t.collections + t.consultations + t.procedures ==> !InDetail(r, uid, month, year)
    ensures PeriodDetails(t, uid, month, year) == Details([], [], [], [])
    ensures HistoryTotal(t, uid, MonthKey(year, month)) == 0.0
  {
    NoMatchIsEmpty(t.sales, uid, month, year);
    NoMatchIsEmpty(t.collections, uid, month, year);
    NoMatchIsEmpty(t.consultations, uid, month, year);
    NoMatchIsEmpty(t.procedures, uid, month, year);
    BucketIsDetailSum(t.sales, uid, month, year);
    BucketIsDetailSum(t.collections, uid, month, year);
    BucketIsDetailSum(t.consultations, uid, month, year);
    BucketIsDetailSum(t.procedures, uid, month, year);
  }

  lemma NoMatchIsEmpty(rs: seq<Record>, uid: nat, month: int, year: int)
    requires forall r :: r in rs ==> !InDetail(r, uid, month, year)
    ensures Detail(rs, uid, month, year) == []
  {
    var d := Detail(rs, uid, month, year);
    DetailCounts(rs, uid, month, year);
    forall r
      ensures multiset(d)[r] == 0
    {
      if InDetail(r, uid, month, year) {
        assert r !in rs;
      }
    }
    assert multiset(d) == multiset{};
  }

  // ---------------------------------------------------------------------------
  // The total of the selected month
  // ---------------------------------------------------------------------------

  /** The key of the lookup historico.get(f"{ano_filtro:04d}-{mes_filtro:02d}", 0.0). */
  function LookupKey(month: int, year: int): string
  {
    PadZero(year, 4) + "-" + PadZero(month, 2)
  }

  /** For a four-digit year the padded lookup key is the history key. */
  lemma LookupKeyIsMonthKey(month: int, year: int)
    requires 1000 <= year <= 9999
    ensures LookupKey(month, year) == MonthKey(year, month)
  {
    assert Pow10(3) == 1000 && Pow10(4) == 10000;
    DigitsAsFixed(year, 4);
    assert PadZero(year, 4) == Zeros(0) + Digits(year);
  }

  /** For a four-digit year the selected month's total is the sum of the
      commissions the detail lists show. */
  lemma SelectedTotalIsDetailTotal(t: Tables, uid: nat, month: int, year: int)
    requires 1000 <= year <= 9999
    ensures HistoryTotal(t, uid, LookupKey(month, year)) == DetailTotal(PeriodDetails(t, uid, month, year))
  {
    LookupKeyIsMonthKey(month, year);
    BucketIsDetailSum(t.sales, uid, month, year);
    BucketIsDetailSum(t.collections, uid, month, year);
    BucketIsDetailSum(t.consultations, uid, month, year);
    BucketIsDetailSum(t.procedures, uid, month, year);
  }

  /** The four-digit precondition is needed: a sale of 10.00 dated March 999
      is listed in the detail of 3/999, but the lookup key "0999-03" is not
      the history key "999-03", so the month's total shows 0. */
  lemma ShortYearLookupMisses()
    ensures var sale := Sale(1, "Ana", Some(Date(999, 3, 15)), "Talão", 20.0, 10.0);
      var t := Tables([sale], [], [], []);
      && HistoryTotal(t, 1, MonthKey(999, 3)) == 10.0
      && HistoryTotal(t, 1, LookupKey(3, 999)) == 0.0
      && DetailTotal(PeriodDetails(t, 1, 3, 999)) == 10.0
  {
    var sale := Sale(1, "Ana", Some(Date(999, 3, 15)), "Talão", 20.0, 10.0);
    var t := Tables([sale], [], [], []);
    assert |Digits(999)| == 3;
    assert |MonthKey(999, 3)| == 6;
    assert |LookupKey(3, 999)| == 7;
    BucketIsDetailSum(t.sales, 1, 3, 999);
    assert Detail([sale], 1, 3, 999) == [sale];
  }

  /** Records are dated by the UTC clock (the utcnow column default) while
      the default filter reads the local clock (datetime.now). A sale entered
      late on 31 March local time, already 1 April in UTC, is missing from
      the default report of that evening: its month lists nothing and totals
      0, and the sale sits in April's bucket. */
  lemma UtcDateMissesLocalMonth()
    ensures var sale := Sale(1, "Ana", Some(Date(2024, 4, 1)), "PIX", 1200.0, 20.0);
      var t := Tables([sale], [], [], []);
      var f := ResolveFilter(None, None, Date(2024, 3, 31));
      && f == (3, 2024)
      && PeriodDetails(t, 1, f.0, f.1).sales == []
      && DetailTotal(PeriodDetails(t, 1, f.0, f.1)) == 0.0
      && HistoryTotal(t, 1, LookupKey(f.0, f.1)) == 0.0
      && HistoryTotal(t, 1, MonthKey(2024, 4)) == 20.0
  {
    var sale := Sale(1, "Ana", Some(Date(2024, 4, 1)), "PIX", 1200.0, 20.0);
    var t := Tables([sale], [], [], []);
    assert Detail([sale], 1, 3, 2024) == [];
    SelectedTotalIsDetailTotal(t, 1, 3, 2024);
  }

  // ---------------------------------------------------------------------------
  // The whole report
  // ---------------------------------------------------------------------------

  datatype GeneralReport = GeneralReport(
    lifetime: real,
    history: seq<HistoryRow>,
    month: int,
    year: int,
    details: Details,
    selectedTotal: real)

  lemma RowsCarryHistoryTotals(t: Tables, uid: nat, h: map<string, real>, rows: seq<HistoryRow>)
    requires forall k :: k in h ==> h[k] == HistoryTotal(t, uid, k)
    requires forall i :: 0 <= i < |rows| ==> RowOf(h, rows[i])
    ensures forall i :: 0 <= i < |rows| ==>
      && rows[i].total == HistoryTotal(t, uid, RowKey(rows[i]))
      && 1 <= rows[i].month <= 12
      && rows[i].caption == Label(rows[i].month, rows[i].year)
  {
  }

  /** The history list of the report: a row for each month key of uid and
      for no other key, each carrying that month's total and caption, from
      the greatest key down (so each key once). */
  ghost predicate HistoryListed(t: Tables, uid: nat, rows: seq<HistoryRow>)
  {
    && (forall k :: k in RowKeys(rows) <==> k in HistoryKeys(t, uid))
    && (forall i :: 0 <= i < |rows| ==>
         && rows[i].total == HistoryTotal(t, uid, RowKey(rows[i]))
         && 1 <= rows[i].month <= 12
         && rows[i].caption == Label(rows[i].month, rows[i].year))
    && StrictlyDescending(RowKeys(rows))
  }

  lemma RowsAreListed(t: Tables, uid: nat, h: map<string, real>, rows: seq<HistoryRow>)
    requires h.Keys == HistoryKeys(t, uid)
    requires forall k :: k in h ==> h[k] == HistoryTotal(t, uid, k)
    requires forall i :: 0 <= i < |rows| ==> RowOf(h, rows[i])
    requires forall k :: k in RowKeys(rows) <==> k in h
    requires StrictlyDescending(RowKeys(rows))
    ensures HistoryListed(t, uid, rows)
  {
    RowsCarryHistoryTotals(t, uid, h, rows);
  }

  /** The history part of relatorios: the month buckets of uid, then their
      rows from the greatest key down. */
  method HistorySection(t: Tables, uid: nat) returns (h: map<string, real>, rows: seq<HistoryRow>)
    ensures forall k :: Get(h, k) == HistoryTotal(t, uid, k)
    ensures HistoryListed(t, uid, rows)
  {
    h := BuildHistory(t, uid);
    rows := ListHistory(h);
    RowsAreListed(t, uid, h, rows);
  }

  /** relatorios for user uid, with the query parameters mes and ano (None
      when absent or not an integer) and the local date (datetime.now). */
  method BuildReport(t: Tables, uid: nat, mes: Option<int>, ano: Option<int>, localToday: PyDate) returns (rep: GeneralReport)
    ensures rep.lifetime == LifetimeTotal(t, uid)
    ensures HistoryListed(t, uid, rep.history)
    ensures (rep.month, rep.year) == ResolveFilter(mes, ano, localToday)
    ensures rep.details == PeriodDetails(t, uid, rep.month, rep.year)
    ensures rep.selectedTotal == HistoryTotal(t, uid, LookupKey(rep.month, rep.year))
    ensures 1000 <= rep.year <= 9999 ==> rep.selectedTotal == DetailTotal(rep.details)
    ensures AllTablesDated(t, uid) ==> SumTotals(rep.history) == rep.lifetime
  {
    var lifetime := LifetimeTotal(t, uid);
    var h, rows := HistorySection(t, uid);
    var f := ResolveFilter(mes, ano, localToday);
    var details := PeriodDetails(t, uid, f.0, f.1);
    var selected := Get(h, LookupKey(f.0, f.1));
    rep := GeneralReport(lifetime, rows, f.0, f.1, details, selected);
    TotalsAgree(t, uid, rows, f.0, f.1);
  }

  /** The report's totals agree with each other: the selected month's total
      with its detail lists (for four-digit years), and the history with the
      lifetime total (when every record of uid is dated). */
  lemma TotalsAgree(t: Tables, uid: nat, rows: seq<HistoryRow>, month: int, year: int)
    ensures 1000 <= year <= 9999 ==>
      HistoryTotal(t, uid, LookupKey(month, year)) == DetailTotal(PeriodDetails(t, uid, month, year))
    ensures HistoryListed(t, uid, rows) && AllTablesDated(t, uid) ==> SumTotals(rows) == LifetimeTotal(t, uid)
  {
    if 1000 <= year <= 9999 {
      SelectedTotalIsDetailTotal(t, uid, month, year);
    }
    if HistoryListed(t, uid, rows) && AllTablesDated(t, uid) {
      HistoryAddsUpToLifetime(t, uid, rows);
    }
  }
}
