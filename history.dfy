/** The monthly history of the general report (app.py, relatorios): the
    "Y-MM" keys, the per-month buckets that agregar accumulates over the four
    tables, and the labelled list sorted by key, most recent first. */
module History {
  import opened Wrappers
  import opened Text
  import opened Records

  // ---------------------------------------------------------------------------
  // The month key f"{int(ano)}-{int(mes):02d}" and its parse ym.split('-')
  // ---------------------------------------------------------------------------

  function MonthKey(year: int, month: int): string
  {
    Show(year) + "-" + PadZero(month, 2)
  }

  /** ano, mes = map(int, ym.split('-')); None where Python raises. */
  function ParseMonthKey(k: string): Option<(int, int)>
  {
    var parts := Split(k, '-');
    if |parts| != 2 then None
    else
      match (ParseInt(parts[0]), ParseInt(parts[1]))
      case (Some(y), Some(m)) => Some((y, m))
      case _ => None
  }

  lemma NoDashInDigits(s: string)
    requires AllDigits(s)
    ensures '-' !in s
  {
    forall i | 0 <= i < |s|
      ensures s[i] != '-'
    {
      assert IsDigit(s[i]);
    }
  }

  /** A padded month has no '-' when the month is not negative, and starts
      with one when it is. */
  lemma PadZeroDash(month: int)
    ensures month >= 0 ==> '-' !in PadZero(month, 2)
    ensures month < 0 ==> exists rest :: PadZero(month, 2) == [] + ['-'] + rest && '-' !in rest
  {
    var body := Digits(if month < 0 then -month else month);
    var fill := 2 - (if month < 0 then 1 else 0) - |body|;
    var k := if fill < 0 then 0 else fill;
    LeadingZerosValue(k, body);
    NoDashInDigits(Zeros(k) + body);
    if month < 0 {
      assert PadZero(month, 2) == [] + ['-'] + (Zeros(k) + body);
    } else {
      assert PadZero(month, 2) == Zeros(k) + body;
    }
  }

  lemma MonthKeyRoundTripNatural(year: int, month: int)
    requires year >= 0 && month >= 0
    ensures ParseMonthKey(MonthKey(year, month)) == Some((year, month))
  {
    var pad := PadZero(month, 2);
    NoDashInDigits(Digits(year));
    PadZeroDash(month);
    SplitAt(Digits(year), '-', pad);
    assert Split(MonthKey(year, month), '-') == [Digits(year), pad];
    ParsePadZero(month, 2);
    ParseShow(year);
  }

  lemma MonthKeyRoundTripNegative(year: int, month: int)
    requires year < 0 || month < 0
    ensures ParseMonthKey(MonthKey(year, month)) == None
  {
    var pad := PadZero(month, 2);
    PadZeroDash(month);
    if year >= 0 {
      var rest :| pad == [] + ['-'] + rest && '-' !in rest;
      NoDashInDigits(Digits(year));
      SplitAt(Digits(year), '-', pad);
      SplitAt([], '-', rest);
      assert |Split(MonthKey(year, month), '-')| >= 3;
    } else {
      var y := Digits(-year);
      NoDashInDigits(y);
      assert MonthKey(year, month) == [] + ['-'] + (y + ['-'] + pad);
      SplitAt([], '-', y + ['-'] + pad);
      SplitAt(y, '-', pad);
      assert |Split(MonthKey(year, month), '-')| >= 3;
    }
  }

  /** Reading a key back gives the year and month it was built from; a
      negative year or month leaves an extra '-', and the unpacking fails. */
  lemma MonthKeyRoundTrip(year: int, month: int)
    ensures ParseMonthKey(MonthKey(year, month)) == if year >= 0 && month >= 0 then Some((year, month)) else None
  {
    if year >= 0 && month >= 0 {
      MonthKeyRoundTripNatural(year, month);
    } else {
      MonthKeyRoundTripNegative(year, month);
    }
  }

  /** Different periods with a non-negative year and month never share a key. */
  lemma MonthKeyInjective(y1: int, m1: int, y2: int, m2: int)
    requires y1 >= 0 && m1 >= 0
    requires MonthKey(y1, m1) == MonthKey(y2, m2)
    ensures y1 == y2 && m1 == m2
  {
    MonthKeyRoundTrip(y1, m1);
    MonthKeyRoundTrip(y2, m2);
  }

  /** For a four-digit year and a month below 100 the key is exactly
      "YYYY-MM". */
  lemma MonthKeyIsFixedWidth(year: int, month: int)
    requires 1000 <= year <= 9999 && 0 <= month <= 99
    ensures MonthKey(year, month) == FixedDigits(year, 4) + "-" + FixedDigits(month, 2)
  {
    YearIsFixedWidth(year);
    MonthIsFixedWidth(month);
  }

  lemma YearIsFixedWidth(year: int)
    requires 1000 <= year <= 9999
    ensures Show(year) == FixedDigits(year, 4)
  {
    assert Pow10(3) == 1000 && Pow10(4) == 10000;
    DigitsAsFixed(year, 4);
  }

  lemma MonthIsFixedWidth(month: int)
    requires 0 <= month <= 99
    ensures PadZero(month, 2) == FixedDigits(month, 2)
  {
    if month < 10 {
      DigitsAsFixed(month, 1);
      assert FixedDigits(month, 2) == FixedDigits(0, 1) + [DigitChar(month)];
      assert PadZero(month, 2) == Zeros(1) + Digits(month);
    } else {
      assert Pow10(1) == 10 && Pow10(2) == 100;
      DigitsAsFixed(month, 2);
    }
  }

  /** Under four-digit years, descending key order is reverse chronological
      order: string order on keys is (year, month) order. */
  lemma MonthKeyOrder(y1: int, m1: int, y2: int, m2: int)
    requires 1000 <= y1 <= 9999 && 1000 <= y2 <= 9999
    requires 0 <= m1 <= 99 && 0 <= m2 <= 99
    ensures Below(MonthKey(y1, m1), MonthKey(y2, m2)) <==> y1 < y2 || (y1 == y2 && m1 < m2)
  {
    MonthKeyIsFixedWidth(y1, m1);
    MonthKeyIsFixedWidth(y2, m2);
    assert Pow10(2) == 100 && Pow10(4) == 10000;
    FixedDigitsOrder(y1, y2, 4);
    FixedDigitsOrder(m1, m2, 2);
    DashedOrder(FixedDigits(y1, 4), FixedDigits(y2, 4), FixedDigits(m1, 2), FixedDigits(m2, 2));
  }

  /** Two "A-B" strings whose A parts have one length compare by A, then B. */
  lemma DashedOrder(p: string, q: string, s: string, t: string)
    requires |p| == |q|
    ensures Below(p + "-" + s, q + "-" + t) <==> Below(p, q) || (p == q && Below(s, t))
  {
    assert p + "-" + s == p + ("-" + s);
    assert q + "-" + t == q + ("-" + t);
    BelowAppend(p, q, "-" + s, "-" + t);
    BelowAppend("-", "-", s, t);
    BelowIrreflexive("-");
  }

  /** The precondition is needed: the key of March 999 sorts above the key of
      March 2024, so a year below 1000 would be listed as the most recent. */
  lemma ShortYearSortsAsRecent()
    ensures Below(MonthKey(2024, 3), MonthKey(999, 3))
  {
    assert MonthKey(2024, 3)[0] == '2';
    assert MonthKey(999, 3)[0] == '9';
  }

  // ---------------------------------------------------------------------------
  // The buckets: agregar over one table
  // ---------------------------------------------------------------------------

  function YearOf(d: Option<PyDate>): Option<int>
  {
    if d.Some? then Some(d.value.year) else None
  }

  function MonthOf(d: Option<PyDate>): Option<int>
  {
    if d.Some? then Some(d.value.month) else None
  }

  /** Python truthiness of an extracted year or month. */
  predicate Truthy(v: Option<int>)
  {
    v.Some? && v.value != 0
  }

  /** The bucket a date falls in, or None when `if ano and mes` skips it. */
  function PeriodOf(d: Option<PyDate>): Option<string>
  {
    if Truthy(YearOf(d)) && Truthy(MonthOf(d)) then Some(MonthKey(d.value.year, d.value.month)) else None
  }

  /** Record r of user uid adds its commission to bucket k. */
  predicate AddsTo(r: Record, uid: nat, k: string)
  {
    r.owner == uid && PeriodOf(r.date) == Some(k)
  }

  /** What the records of uid in rs add to bucket k. */
  function Bucket(rs: seq<Record>, uid: nat, k: string): real
  {
    if rs == [] then 0.0
    else
      var r := rs[|rs| - 1];
      Bucket(rs[..|rs| - 1], uid, k) + (if AddsTo(r, uid, k) then r.commission else 0.0)
  }

  /** The buckets the records of uid in rs create. */
  function BucketKeys(rs: seq<Record>, uid: nat): set<string>
  {
    if rs == [] then {}
    else
      var r := rs[|rs| - 1];
      BucketKeys(rs[..|rs| - 1], uid) + (if r.owner == uid && PeriodOf(r.date).Some? then {PeriodOf(r.date).value} else {})
  }

  /** historico[k] of a defaultdict(float). */
  function Get(h: map<string, real>, k: string): real
  {
    if k in h then h[k] else 0.0
  }

  /** Extending rs by one record adds that record to the buckets. */
  lemma BucketStep(rs: seq<Record>, uid: nat, i: nat)
    requires i < |rs|
    ensures forall k :: Bucket(rs[..i + 1], uid, k) == Bucket(rs[..i], uid, k) + (if AddsTo(rs[i], uid, k) then rs[i].commission else 0.0)
    ensures BucketKeys(rs[..i + 1], uid) == BucketKeys(rs[..i], uid) + (if rs[i].owner == uid && PeriodOf(rs[i].date).Some? then {PeriodOf(rs[i].date).value} else {})
  {
    assert rs[..i + 1][..i] == rs[..i];
  }

  /** agregar(model, date_col): every record of uid whose year and month are
      truthy adds its commission to its month's bucket, creating it if need be. */
  method Aggregate(h0: map<string, real>, rs: seq<Record>, uid: nat) returns (h: map<string, real>)
    ensures h.Keys == h0.Keys + BucketKeys(rs, uid)
    ensures forall k :: Get(h, k) == Get(h0, k) + Bucket(rs, uid, k)
  {
    h := h0;
    for i := 0 to |rs|
      invariant h.Keys == h0.Keys + BucketKeys(rs[..i], uid)
      invariant forall k :: Get(h, k) == Get(h0, k) + Bucket(rs[..i], uid, k)
    {
      var r := rs[i];
      var ano, mes := YearOf(r.date), MonthOf(r.date);
      BucketStep(rs, uid, i);
      if r.owner == uid && Truthy(ano) && Truthy(mes) {
        var key := MonthKey(ano.value, mes.value);
        h := h[key := Get(h, key) + r.commission];
        forall k
          ensures Get(h, k) == Get(h0, k) + Bucket(rs[..i + 1], uid, k)
        {
          assert AddsTo(r, uid, k) <==> k == key;
        }
      }
    }
    assert rs[..|rs|] == rs;
  }

  /** A month key of a real date: a year in 1..9999 and a month in 1..12. */
  ghost predicate IsMonthKey(k: string)
  {
    exists y, m :: 1 <= y <= 9999 && 1 <= m <= 12 && k == MonthKey(y, m)
  }

  lemma {:induction false} BucketKeysAreMonthKeys(rs: seq<Record>, uid: nat)
    ensures forall k :: k in BucketKeys(rs, uid) ==> IsMonthKey(k)
  {
    if rs != [] {
      BucketKeysAreMonthKeys(rs[..|rs| - 1], uid);
      var d := rs[|rs| - 1].date;
      if d.Some? {
        assert IsMonthKey(MonthKey(d.value.year, d.value.month));
      }
    }
  }

  // ---------------------------------------------------------------------------
  // The history over all four tables
  // ---------------------------------------------------------------------------

  /** The bucket k of the general report: all four categories together. */
  function HistoryTotal(t: Tables, uid: nat, k: string): real
  {
    Bucket(t.sales, uid, k) + Bucket(t.collections, uid, k) + Bucket(t.consultations, uid, k) + Bucket(t.procedures, uid, k)
  }

  function HistoryKeys(t: Tables, uid: nat): set<string>
  {
    BucketKeys(t.sales, uid) + BucketKeys(t.collections, uid) + BucketKeys(t.consultations, uid) + BucketKeys(t.procedures, uid)
  }

  /** The four agregar calls on an empty defaultdict: one bucket per month in
      which uid has a dated record, holding that month's commissions across
      all four tables; every other month's total is 0. */
  method BuildHistory(t: Tables, uid: nat) returns (h: map<string, real>)
    ensures h.Keys == HistoryKeys(t, uid)
    ensures forall k :: k in h ==> IsMonthKey(k) && h[k] == HistoryTotal(t, uid, k)
    ensures forall k :: k !in h ==> HistoryTotal(t, uid, k) == 0.0
  {
    h := map[];
    h := Aggregate(h, t.sales, uid);
    h := Aggregate(h, t.collections, uid);
    h := Aggregate(h, t.consultations, uid);
    h := Aggregate(h, t.procedures, uid);
    BucketKeysAreMonthKeys(t.sales, uid);
    BucketKeysAreMonthKeys(t.collections, uid);
    BucketKeysAreMonthKeys(t.consultations, uid);
    BucketKeysAreMonthKeys(t.procedures, uid);
    forall k | true
      ensures Get(h, k) == HistoryTotal(t, uid, k)
    {
    }
  }

  // ---------------------------------------------------------------------------
  // lista_historico: sorted by key, descending, labelled
  // ---------------------------------------------------------------------------

  const MonthNames: map<int, string> := map[
    1 := "Janeiro", 2 := "Fevereiro", 3 := "Março", 4 := "Abril", 5 := "Maio", 6 := "Junho",
    7 := "Julho", 8 := "Agosto", 9 := "Setembro", 10 := "Outubro", 11 := "Novembro", 12 := "Dezembro"]

  /** f"{meses_nomes[mes]}/{ano}" */
  function Label(month: int, year: int): string
    requires 1 <= month <= 12
  {
    MonthNames[month] + "/" + Show(year)
  }

  datatype HistoryRow = HistoryRow(caption: string, total: real, month: int, year: int)

  function RowKey(row: HistoryRow): string
  {
    MonthKey(row.year, row.month)
  }

  function RowKeys(rows: seq<HistoryRow>): (ks: seq<string>)
    ensures |ks| == |rows| && forall i :: 0 <= i < |rows| ==> ks[i] == RowKey(rows[i])
  {
    seq(|rows|, i requires 0 <= i < |rows| => RowKey(rows[i]))
  }

  /** A row describes bucket RowKey(row) of h: a real month, its total, and
      the Portuguese label "Mês/ano". */
  predicate RowOf(h: map<string, real>, row: HistoryRow)
  {
    && 1 <= row.month <= 12 && 1 <= row.year <= 9999
    && RowKey(row) in h
    && row.total == h[RowKey(row)]
    && row.caption == Label(row.month, row.year)
  }

  /** A month key reads back as the real month it was built from. */
  lemma MonthKeyFacts(k: string)
    requires IsMonthKey(k)
    ensures ParseMonthKey(k).Some?
    ensures var (y, m) := ParseMonthKey(k).value; 1 <= y <= 9999 && 1 <= m <= 12 && MonthKey(y, m) == k
  {
    var y, m :| 1 <= y <= 9999 && 1 <= m <= 12 && k == MonthKey(y, m);
    MonthKeyRoundTrip(y, m);
  }

  /** One pass of the loop body: ano, mes = map(int, ym.split('-')), then the
      row with its label and total. */
  method KeyRow(h: map<string, real>, ym: string) returns (row: HistoryRow)
    requires ym in h && IsMonthKey(ym)
    ensures RowOf(h, row) && RowKey(row) == ym
  {
    MonthKeyFacts(ym);
    var (ano, mes) := ParseMonthKey(ym).value;
    row := HistoryRow(Label(mes, ano), h[ym], mes, ano);
  }

  /** The loop over historico_ordenado: each key, in the given order, read
      back into its month and year, with its total and its label. */
  method LabelRows(h: map<string, real>, ordered: seq<string>) returns (rows: seq<HistoryRow>)
    requires forall i :: 0 <= i < |ordered| ==> ordered[i] in h && IsMonthKey(ordered[i])
    ensures |rows| == |ordered|
    ensures forall i :: 0 <= i < |rows| ==> RowOf(h, rows[i])
    ensures RowKeys(rows) == ordered
  {
    rows := [];
    for i := 0 to |ordered|
      invariant |rows| == i
      invariant forall j :: 0 <= j < i ==> RowOf(h, rows[j]) && RowKey(rows[j]) == ordered[j]
    {
      var row := KeyRow(h, ordered[i]);
      rows := rows + [row];
    }
    RowKeysAre(rows, ordered);
  }

  lemma RowKeysAre(rows: seq<HistoryRow>, keys: seq<string>)
    requires |rows| == |keys|
    requires forall j :: 0 <= j < |rows| ==> RowKey(rows[j]) == keys[j]
    ensures RowKeys(rows) == keys
  {
  }

  /** lista_historico: one row per bucket of h, keys strictly descending (so
      no bucket twice), each row describing its bucket. */
  method ListHistory(h: map<string, real>) returns (rows: seq<HistoryRow>)
    requires forall k :: k in h ==> IsMonthKey(k)
    ensures |rows| == |h|
    ensures forall i :: 0 <= i < |rows| ==> RowOf(h, rows[i])
    ensures forall k :: k in RowKeys(rows) <==> k in h
    ensures StrictlyDescending(RowKeys(rows))
  {
    var ordered := SortDescending(h.Keys);
    rows := LabelRows(h, ordered);
    assert |h.Keys| == |h|;
  }

  /** With four-digit years, the rows run from the most recent month back. */
  lemma HistoryIsReverseChronological(rows: seq<HistoryRow>)
    requires forall i :: 0 <= i < |rows| ==> 1000 <= rows[i].year <= 9999 && 1 <= rows[i].month <= 12
    requires StrictlyDescending(RowKeys(rows))
    ensures forall i, j :: 0 <= i < j < |rows| ==>
      rows[j].year < rows[i].year || (rows[j].year == rows[i].year && rows[j].month < rows[i].month)
  {
    forall i, j | 0 <= i < j < |rows|
      ensures rows[j].year < rows[i].year || (rows[j].year == rows[i].year && rows[j].month < rows[i].month)
    {
      assert Below(RowKeys(rows)[j], RowKeys(rows)[i]);
      MonthKeyOrder(rows[j].year, rows[j].month, rows[i].year, rows[i].month);
    }
  }
}
