/**
 * The dashboard script: its filters, the strip/upper/remove_tildes
 * normaliser, the (LOCALIDAD, TIPO_DETALLE) aggregate, the two-key sort and
 * the row selections behind the dropdown and the two charts.
 */
module CorrerReporte {
  import opened Wrappers
  import opened Order
  import opened Seqs
  import opened Text
  import opened Incidents

  /** One row of `score_sum`: a locality, an incident subtype and its summed count. */
  datatype DetailTotal = DetailTotal(localidad: string, detalle: string, cant: int)

  // ---------------------------------------------------------------------------
  // Filters and normalisation
  // ---------------------------------------------------------------------------

  /**
   * The sentinel test looks at the raw value, so a sentinel written with
   * other spacing or case survives it and is normalised into the sentinel.
   */
  lemma SpacedSentinelSurvives()
    ensures var row := Record(ReportYear, " sumapaz ", "T", "D", Some(1));
            KeptRows([row]) == [row] && Normalize(row.localidad) == Sumapaz
  {
    SpacedSentinelPassesFilters();
    SpacedSentinelNormalizes();
  }

  lemma SpacedSentinelPassesFilters()
    ensures var row := Record(ReportYear, " sumapaz ", "T", "D", Some(1));
            KeptRows([row]) == [row]
  {
    var row := Record(ReportYear, " sumapaz ", "T", "D", Some(1));
    assert " sumapaz " != Sumapaz && " sumapaz " != SinLocalizacion;
    FilterSingleton(row, (x: Record) => x.anio == ReportYear);
    FilterSingleton(row, (x: Record) => x.localidad != SinLocalizacion);
    FilterSingleton(row, (x: Record) => x.localidad != Sumapaz);
  }

  lemma SpacedSentinelNormalizes()
    ensures Normalize(" sumapaz ") == Sumapaz
  {
    StripExample();
    UpperExample();
    AsciiSumapaz();
    NormalizeBySteps(" sumapaz ", "sumapaz", Sumapaz);
  }

  lemma NormalizeBySteps(s: string, stripped: string, upper: string)
    requires Strip(s) == stripped && Upper(stripped) == upper && RemoveTildes(upper) == upper
    ensures Normalize(s) == upper
  {
  }

  lemma AsciiSumapaz()
    ensures RemoveTildes(Sumapaz) == Sumapaz
  {
    var s := Sumapaz;
    assert forall i :: 0 <= i < |s| ==> s[i] < '\U{80}';
    RemoveTildesFixesAscii(s);
  }

  /** A trimmed, non-empty core padded by one space on each side strips back to the core. */
  lemma StripPadded(core: string)
    requires |core| >= 1 && Trimmed(core)
    ensures Strip([' '] + core + [' ']) == core
  {
    var s := [' '] + core + [' '];
    assert s[0] == ' ' && s[|s| - 1] == ' ' && s[1] == core[0] && s[|s| - 2] == core[|core| - 1];
    StripOnePad(s);
    assert s[1..|s| - 1] == core;
  }

  lemma StripExample()
    ensures Strip(" sumapaz ") == "sumapaz"
  {
    assert " sumapaz " == [' '] + "sumapaz" + [' '];
    assert !IsSpace('s') && !IsSpace('z');
    StripPadded("sumapaz");
  }

  lemma UpperExample()
    ensures Upper("sumapaz") == "SUMAPAZ"
  {
    var s := "sumapaz";
    assert forall i :: 0 <= i < |s| ==> 'a' <= s[i] <= 'z';
    UpperOfAsciiLower(s);
    assert forall i :: 0 <= i < |s| ==> Upper(s)[i] == "SUMAPAZ"[i];
  }

  // ---------------------------------------------------------------------------
  // groupby(['LOCALIDAD', 'TIPO_DETALLE'])['CANT_INCIDENTES'].sum()
  // ---------------------------------------------------------------------------

  /** The first column, then the second: the order of the aggregate's keys. */
  predicate PairLess(a: DetailTotal, b: DetailTotal) {
    StrLess(a.localidad, b.localidad) || (a.localidad == b.localidad && StrLess(a.detalle, b.detalle))
  }

  function PairsOf(t: seq<DetailTotal>): set<Key> {
    set d | d in t :: [d.localidad, d.detalle]
  }

  /** `reset_index()` of a two-key group-by. */
  function ToDetailTotal(g: Group): DetailTotal
    requires |g.key| == 2
  {
    DetailTotal(g.key[0], g.key[1], g.total)
  }

  /** `score_sum`: the group-by-sum on (LOCALIDAD, TIPO_DETALLE), its keys turned back into columns. */
  function Aggregate(rows: seq<Record>): (r: seq<DetailTotal>)
    ensures |r| == |GroupSum(rows, LocalityDetailKey)|
    ensures forall i :: 0 <= i < |r| ==> [r[i].localidad, r[i].detalle] == GroupSum(rows, LocalityDetailKey)[i].key
    ensures forall i :: 0 <= i < |r| ==> r[i].cant == GroupSum(rows, LocalityDetailKey)[i].total
  {
    var gs := GroupSum(rows, LocalityDetailKey);
    GroupKeyWidth(rows, LocalityDetailKey, 2);
    seq(|gs|, i requires 0 <= i < |gs| => ToDetailTotal(gs[i]))
  }


  /** The aggregate is strictly ascending by (LOCALIDAD, TIPO_DETALLE), so no pair occurs twice. */
  lemma AggregateAscending(rows: seq<Record>)
    ensures forall i, j :: 0 <= i < j < |Aggregate(rows)| ==> PairLess(Aggregate(rows)[i], Aggregate(rows)[j])
  {
    var r := Aggregate(rows);
    forall i, j | 0 <= i < j < |r| ensures PairLess(r[i], r[j]) {
      PairKeyLess(r[i].localidad, r[i].detalle, r[j].localidad, r[j].detalle);
    }
  }

  /** The aggregate's pairs are exactly the (LOCALIDAD, TIPO_DETALLE) pairs of the rows. */
  lemma AggregatePairs(rows: seq<Record>)
    ensures PairsOf(Aggregate(rows)) == RowKeys(rows, LocalityDetailKey)
  {
    var gs := GroupSum(rows, LocalityDetailKey);
    var r := Aggregate(rows);
    forall k | k in KeysOf(gs) ensures k in PairsOf(r) {
      var i :| 0 <= i < |gs| && gs[i] in gs && gs[i].key == k;
      assert r[i] in r;
    }
    forall k | k in PairsOf(r) ensures k in KeysOf(gs) {
      var d :| d in r && k == [d.localidad, d.detalle];
      var i :| 0 <= i < |r| && r[i] == d;
      assert gs[i] in gs;
    }
  }

  /** Each aggregate row holds the sum of the non-missing counts of its pair's rows. */
  lemma AggregateTotals(rows: seq<Record>, i: int)
    requires 0 <= i < |Aggregate(rows)|
    ensures Aggregate(rows)[i].cant == SumFor(rows, LocalityDetailKey, [Aggregate(rows)[i].localidad, Aggregate(rows)[i].detalle])
  {
    GroupSumTotals(rows, LocalityDetailKey, i);
  }

  /** A pair whose every count is missing sums to 0. */
  lemma {:induction false} AllMissingSumsToZero(rows: seq<Record>, k: Key)
    requires forall i :: 0 <= i < |rows| && LocalityDetailKey(rows[i]) == k ==> rows[i].cant.None?
    ensures SumFor(rows, LocalityDetailKey, k) == 0
  {
    if rows != [] {
      AllMissingSumsToZero(rows[1..], k);
    }
  }

  // ---------------------------------------------------------------------------
  // sort_values(by=['LOCALIDAD', 'CANT_INCIDENTES'], ascending=[True, False])
  // ---------------------------------------------------------------------------

  /** `a` may come before `b`: smaller locality, or the same locality and a count at least as large. */
  predicate ReportBefore(a: DetailTotal, b: DetailTotal) {
    StrLess(a.localidad, b.localidad) || (a.localidad == b.localidad && a.cant >= b.cant)
  }

  lemma ReportBeforeIsTotalPreorder()
    ensures TotalPreorder(ReportBefore)
  {
    forall a: DetailTotal, b: DetailTotal ensures ReportBefore(a, b) || ReportBefore(b, a) {
      StrLessTotal(a.localidad, b.localidad);
    }
    forall a: DetailTotal, b: DetailTotal, c: DetailTotal | ReportBefore(a, b) && ReportBefore(b, c)
      ensures ReportBefore(a, c)
    {
      if StrLess(a.localidad, b.localidad) && StrLess(b.localidad, c.localidad) {
        StrLessTransitive(a.localidad, b.localidad, c.localidad);
      }
    }
  }

  /**
   * The sorted table: a permutation of the aggregate, ordered by locality
   * ascending and, within a locality, by count descending.
   */
  function SortReport(t: seq<DetailTotal>): (r: seq<DetailTotal>)
    ensures multiset(r) == multiset(t)
    ensures forall i, j :: 0 <= i < j < |r| ==> !StrLess(r[j].localidad, r[i].localidad)
    ensures forall i, j :: 0 <= i < j < |r| && r[i].localidad == r[j].localidad ==> r[i].cant >= r[j].cant
  {
    ReportBeforeIsTotalPreorder();
    var r := SortBy(t, ReportBefore);
    forall i, j | 0 <= i < j < |r| ensures !StrLess(r[j].localidad, r[i].localidad) {
      assert ReportBefore(r[i], r[j]);
      StrLessTotal(r[i].localidad, r[j].localidad);
      StrLessIrreflexive(r[i].localidad);
    }
    r
  }

  /** Two rows tie under the sort exactly when they share the locality and the count. */
  lemma ReportTies(c: DetailTotal, d: DetailTotal)
    ensures TiedWith(ReportBefore, c)(d) <==> d.localidad == c.localidad && d.cant == c.cant
  {
    assert TiedWith(ReportBefore, c)(d) == (ReportBefore(c, d) && ReportBefore(d, c));
    StrLessIrreflexive(c.localidad);
    StrLessTotal(c.localidad, d.localidad);
  }

  /**
   * `sort_values` on two keys is stable: rows with the same locality and
   * count stay in the order the aggregate gave them, that is by subtype.
   */
  lemma SortReportKeepsTies(t: seq<DetailTotal>, c: DetailTotal)
    ensures Filter(SortReport(t), TiedWith(ReportBefore, c)) == Filter(t, TiedWith(ReportBefore, c))
  {
    ReportBeforeIsTotalPreorder();
    assert SortReport(t) == SortBy(t, ReportBefore);
    SortByKeepsTies(t, ReportBefore, c);
  }

  // ---------------------------------------------------------------------------
  // The script body up to the app layout
  // ---------------------------------------------------------------------------

  /** Every locality of the aggregate is the locality of one of its rows. */
  lemma AggregateLocalityFromRows(rows: seq<Record>, i: int)
    requires 0 <= i < |Aggregate(rows)|
    ensures exists k :: 0 <= k < |rows| && rows[k].localidad == Aggregate(rows)[i].localidad
  {
    var gs := GroupSum(rows, LocalityDetailKey);
    GroupKeyIsRowKey(rows, LocalityDetailKey, i);
    var x :| x in rows && LocalityDetailKey(x) == gs[i].key;
    var k :| 0 <= k < |rows| && rows[k] == x;
    assert rows[k].localidad == gs[i].key[0];
  }

  /** The dashboard's table: the sorted aggregate of the normalised kept rows. */
  function ReportTable(raw: seq<Record>): (r: seq<DetailTotal>)
    ensures multiset(r) == multiset(Aggregate(MapLocalidad(KeptRows(raw), Normalize)))
  {
    SortReport(Aggregate(MapLocalidad(KeptRows(raw), Normalize)))
  }

  /** Every locality the dashboard shows is in normal form: normalising it again changes nothing. */
  lemma ReportTableIsNormal(raw: seq<Record>, i: int)
    requires 0 <= i < |ReportTable(raw)|
    ensures Normalize(ReportTable(raw)[i].localidad) == ReportTable(raw)[i].localidad
  {
    var rows := MapLocalidad(KeptRows(raw), Normalize);
    NormalizedRowsAreNormal(KeptRows(raw));
    SortedNormalRows(rows, i);
  }

  /** After the in-place rewrite of line 35 every locality is in normal form. */
  lemma NormalizedRowsAreNormal(kept: seq<Record>)
    ensures forall k :: 0 <= k < |MapLocalidad(kept, Normalize)| ==>
              Normalize(MapLocalidad(kept, Normalize)[k].localidad) == MapLocalidad(kept, Normalize)[k].localidad
  {
    var rows := MapLocalidad(kept, Normalize);
    forall k | 0 <= k < |rows| ensures Normalize(rows[k].localidad) == rows[k].localidad {
      NormalizeIdempotent(kept[k].localidad);
    }
  }

  lemma SortedNormalRows(rows: seq<Record>, i: int)
    requires forall k :: 0 <= k < |rows| ==> Normalize(rows[k].localidad) == rows[k].localidad
    requires 0 <= i < |SortReport(Aggregate(rows))|
    ensures Normalize(SortReport(Aggregate(rows))[i].localidad) == SortReport(Aggregate(rows))[i].localidad
  {
    var agg := Aggregate(rows);
    var r := SortReport(agg);
    assert r[i] in multiset(agg);
    var j :| 0 <= j < |agg| && agg[j] == r[i];
    AggregateOfNormalRows(rows, j);
  }

  /** Aggregating rows whose localities are all normal yields normal localities. */
  lemma AggregateOfNormalRows(rows: seq<Record>, i: int)
    requires forall k :: 0 <= k < |rows| ==> Normalize(rows[k].localidad) == rows[k].localidad
    requires 0 <= i < |Aggregate(rows)|
    ensures Normalize(Aggregate(rows)[i].localidad) == Aggregate(rows)[i].localidad
  {
    AggregateLocalityFromRows(rows, i);
  }

  /** Lines 17-41 step by step: load, filter, rewrite LOCALIDAD in place, aggregate, sort. */
  method BuildReport(raw: seq<Record>) returns (table: seq<DetailTotal>)
    ensures table == ReportTable(raw)
  {
    var df := new Frame(raw);
    df.KeepYear(ReportYear);
    df.Drop(SinLocalizacion);
    df.Drop(Sumapaz);
    df.ApplyToLocalidad(Normalize);
    assert df.rows == MapLocalidad(KeptRows(raw), Normalize);
    var scoreSum := Aggregate(df.rows);
    table := SortReport(scoreSum);
  }

  // ---------------------------------------------------------------------------
  // The callbacks' row selection
  // ---------------------------------------------------------------------------

  predicate CountAtLeast(a: DetailTotal, b: DetailTotal) {
    a.cant >= b.cant
  }

  lemma CountAtLeastIsTotalPreorder()
    ensures TotalPreorder(CountAtLeast)
  {
  }

  function Min(a: int, b: int): int {
    if a <= b then a else b
  }

  /**
   * `nlargest(n, 'CANT_INCIDENTES')`: the first `n` rows of a stable sort by
   * count descending, so among equal counts the earlier row wins. It returns
   * min(n, |rows|) of the rows, by count descending, and every count it
   * returns is at least every count it leaves out.
   */
  function NLargest(rows: seq<DetailTotal>, n: nat): (r: seq<DetailTotal>)
    ensures |r| == Min(n, |rows|)
    ensures multiset(r) <= multiset(rows)
    ensures forall i, j :: 0 <= i < j < |r| ==> r[i].cant >= r[j].cant
    ensures forall x, y :: x in multiset(r) && y in multiset(rows) - multiset(r) ==> x.cant >= y.cant
  {
    CountAtLeastIsTotalPreorder();
    var s := SortBy(rows, CountAtLeast);
    var m := Min(n, |s|);
    TakeSplit(s, m);
    TakeDominates(s, m);
    s[..m]
  }

  lemma TakeSplit(s: seq<DetailTotal>, m: nat)
    requires m <= |s|
    ensures multiset(s) == multiset(s[..m]) + multiset(s[m..])
  {
    assert s == s[..m] + s[m..];
  }

  lemma TakeDominates(s: seq<DetailTotal>, m: nat)
    requires m <= |s| && SortedBy(s, CountAtLeast)
    ensures forall x, y :: x in multiset(s[..m]) && y in multiset(s[m..]) ==> x.cant >= y.cant
  {
    forall x, y | x in multiset(s[..m]) && y in multiset(s[m..]) ensures x.cant >= y.cant {
      var i :| 0 <= i < m && s[..m][i] == x;
      var j :| 0 <= j < |s| - m && s[m..][j] == y;
      assert CountAtLeast(s[i], s[m + j]);
    }
  }

  /** Two rows tie under the count order exactly when their counts are equal. */
  lemma CountTies(c: DetailTotal, d: DetailTotal)
    ensures TiedWith(CountAtLeast, c)(d) <==> d.cant == c.cant
  {
    assert TiedWith(CountAtLeast, c)(d) == (CountAtLeast(c, d) && CountAtLeast(d, c));
  }

  /**
   * `keep='first'`: of the rows with any one count, `NLargest` takes the
   * earliest ones, in input order.
   */
  lemma NLargestKeepsFirstTies(rows: seq<DetailTotal>, n: nat, c: DetailTotal)
    ensures var p := TiedWith(CountAtLeast, c);
            var t := Filter(NLargest(rows, n), p);
            |t| <= |Filter(rows, p)| && t == Filter(rows, p)[..|t|]
  {
    CountAtLeastIsTotalPreorder();
    var s := SortBy(rows, CountAtLeast);
    assert |s| == |multiset(s)| == |multiset(rows)| == |rows|;
    assert NLargest(rows, n) == s[..Min(n, |rows|)];
    SortByKeepsTies(rows, CountAtLeast, c);
    FilterTake(s, Min(n, |rows|), TiedWith(CountAtLeast, c));
  }

  /** The rows of one locality, in table order. */
  function RowsOf(table: seq<DetailTotal>, localidad: string): (r: seq<DetailTotal>)
    ensures forall x :: multiset(r)[x] == if x.localidad == localidad then multiset(table)[x] else 0
  {
    var r := Filter(table, (d: DetailTotal) => d.localidad == localidad);
    forall x ensures multiset(r)[x] == if x.localidad == localidad then multiset(table)[x] else 0 {
      FilterCount(table, (d: DetailTotal) => d.localidad == localidad, x);
    }
    r
  }

  /** How many rows of the table belong to the locality. */
  function CountOf(table: seq<DetailTotal>, localidad: string): nat {
    if table == [] then 0
    else (if table[0].localidad == localidad then 1 else 0) + CountOf(table[1..], localidad)
  }

  lemma {:induction false} RowsOfCount(table: seq<DetailTotal>, localidad: string)
    ensures |RowsOf(table, localidad)| == CountOf(table, localidad)
  {
    if table != [] {
      RowsOfCount(table[1..], localidad);
      assert Filter(table, (d: DetailTotal) => d.localidad == localidad)
          == (if table[0].localidad == localidad then [table[0]] else [])
             + Filter(table[1..], (d: DetailTotal) => d.localidad == localidad);
    }
  }

  /**
   * `score_sum[score_sum['LOCALIDAD'] == selected].nlargest(20, ...)`, the
   * rows both charts show: min(20, n) rows of the selected locality, n being
   * its row count, by count descending, every one with a count at least that
   * of every row of the locality left out.
   */
  function TopDetails(table: seq<DetailTotal>, selected: string): (r: seq<DetailTotal>)
    ensures |r| == Min(20, CountOf(table, selected))
    ensures forall i :: 0 <= i < |r| ==> r[i].localidad == selected
    ensures forall i, j :: 0 <= i < j < |r| ==> r[i].cant >= r[j].cant
    ensures multiset(r) <= multiset(table)
    ensures forall x, y: DetailTotal :: x in multiset(r) && y.localidad == selected && y in multiset(table) - multiset(r)
              ==> x.cant >= y.cant
  {
    var rows := RowsOf(table, selected);
    RowsOfCount(table, selected);
    var r := NLargest(rows, 20);
    TopOfLocality(table, selected, rows, r);
    r
  }

  /** Rows taken from the selection of one locality belong to it, and what is left of the table there is what is left of the selection. */
  lemma TopOfLocality(table: seq<DetailTotal>, selected: string, rows: seq<DetailTotal>, r: seq<DetailTotal>)
    requires rows == RowsOf(table, selected) && multiset(r) <= multiset(rows)
    ensures forall i :: 0 <= i < |r| ==> r[i].localidad == selected
    ensures multiset(r) <= multiset(table)
    ensures forall y: DetailTotal :: y.localidad == selected ==> (multiset(table) - multiset(r))[y] == (multiset(rows) - multiset(r))[y]
  {
    forall i | 0 <= i < |r| ensures r[i].localidad == selected {
      assert r[i] in multiset(rows);
    }
  }

  /**
   * Of the selected locality's rows with any one count, the charts show the
   * earliest ones in table order.
   */
  lemma TopDetailsKeepsFirstTies(table: seq<DetailTotal>, selected: string, c: DetailTotal)
    ensures var p := TiedWith(CountAtLeast, c);
            var t := Filter(TopDetails(table, selected), p);
            |t| <= |Filter(RowsOf(table, selected), p)| && t == Filter(RowsOf(table, selected), p)[..|t|]
  {
    NLargestKeepsFirstTies(RowsOf(table, selected), 20, c);
  }

  // ---------------------------------------------------------------------------
  // The dropdown
  // ---------------------------------------------------------------------------

  datatype DropdownOption = DropdownOption(caption: string, value: string)

  /** The dropdown's options and its initial value; no value when `unique()[0]` would raise. */
  datatype Dropdown = Dropdown(options: seq<DropdownOption>, value: Option<string>)

  function LocalityColumn(table: seq<DetailTotal>): (c: seq<string>)
    ensures |c| == |table| && forall i :: 0 <= i < |c| ==> c[i] == table[i].localidad
  {
    seq(|table|, i requires 0 <= i < |table| => table[i].localidad)
  }

  /**
   * One option per distinct locality, labelled by itself, in order of first
   * appearance; the default is the first option, and there is none for an
   * empty table.
   */
  function MakeDropdown(table: seq<DetailTotal>): (d: Dropdown)
    ensures forall i :: 0 <= i < |d.options| ==> d.options[i].caption == d.options[i].value
    ensures forall i, j :: 0 <= i < j < |d.options| ==> d.options[i].value != d.options[j].value
    ensures forall l :: l in Values(d.options) <==> l in LocalityColumn(table)
    ensures forall i, j :: 0 <= i < j < |d.options| ==>
              FirstIndex(LocalityColumn(table), Values(d.options)[i]) < FirstIndex(LocalityColumn(table), Values(d.options)[j])
    ensures d.value.None? <==> table == []
    ensures d.value.Some? ==> d.options != [] && d.value.value == d.options[0].value == table[0].localidad
  {
    var u := Unique(LocalityColumn(table));
    var options := seq(|u|, i requires 0 <= i < |u| => DropdownOption(u[i], u[i]));
    assert Values(options) == u;
    Dropdown(options, if |u| > 0 then Some(u[0]) else None)
  }

  /** The values the options carry, in order. */
  function Values(options: seq<DropdownOption>): (v: seq<string>)
    ensures |v| == |options| && forall i :: 0 <= i < |v| ==> v[i] == options[i].value
  {
    seq(|options|, i requires 0 <= i < |options| => options[i].value)
  }

  /**
   * On the sorted table the options come out in ascending order and the
   * default is the smallest locality.
   */
  lemma DropdownOfSortedTable(raw: seq<Record>)
    ensures var table := ReportTable(raw);
            var d := MakeDropdown(table);
            (forall i, j :: 0 <= i < j < |d.options| ==> StrLess(d.options[i].value, d.options[j].value)) &&
            (d.value.Some? ==> forall k :: 0 <= k < |table| ==> table[k].localidad == d.value.value || StrLess(d.value.value, table[k].localidad))
  {
    var table := ReportTable(raw);
    var d := MakeDropdown(table);
    var column := LocalityColumn(table);
    var u := Unique(column);
    forall i, j | 0 <= i < j < |d.options| ensures StrLess(d.options[i].value, d.options[j].value) {
      assert d.options[i].value == u[i] && d.options[j].value == u[j];
      var fi, fj := FirstIndex(column, u[i]), FirstIndex(column, u[j]);
      assert !StrLess(column[fj], column[fi]);
      StrLessTotal(u[i], u[j]);
    }
    if d.value.Some? {
      forall k | 0 <= k < |table| ensures table[k].localidad == d.value.value || StrLess(d.value.value, table[k].localidad) {
        if k > 0 {
          assert !StrLess(table[k].localidad, table[0].localidad);
          StrLessTotal(table[0].localidad, table[k].localidad);
        }
      }
    }
  }
}
