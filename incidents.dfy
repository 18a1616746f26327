/**
 * The incident table the three scripts load, the row filters they share and
 * pandas' `groupby(keys)[CANT_INCIDENTES].sum().reset_index()`.
 */
module Incidents {
  import opened Wrappers
  import opened Order
  import opened Seqs

  /** One row of the incident file, restricted to the columns the scripts read. */
  datatype Record = Record(anio: int, localidad: string, tipo: string, detalle: string, cant: Option<int>)

  /** The two raw locality values every script drops. */
  const SinLocalizacion: string := "SIN LOCALIZACION"
  const Sumapaz: string := "SUMAPAZ"

  /** The year the dashboard and the taxonomy table keep, and the only year the map loops over. */
  const ReportYear: int := 2024

  predicate IsSentinel(localidad: string) {
    localidad == SinLocalizacion || localidad == Sumapaz
  }

  // ---------------------------------------------------------------------------
  // Row filters
  // ---------------------------------------------------------------------------

  /** `df[df['ANIO'] == year]`. */
  function RowsOfYear(rows: seq<Record>, year: int): (r: seq<Record>)
    ensures forall i :: 0 <= i < |r| ==> r[i].anio == year
  {
    Filter(rows, (x: Record) => x.anio == year)
  }

  /** `df[df['LOCALIDAD'] != localidad]`, compared on the raw value. */
  function RowsWithout(rows: seq<Record>, localidad: string): (r: seq<Record>)
    ensures forall x :: x in r ==> x in rows && x.localidad != localidad
  {
    Filter(rows, (x: Record) => x.localidad != localidad)
  }

  /** The two sentinel filters, in the order the scripts apply them. */
  function WithoutSentinels(rows: seq<Record>): (r: seq<Record>)
    ensures forall i :: 0 <= i < |r| ==> !IsSentinel(r[i].localidad)
  {
    var r := RowsWithout(RowsWithout(rows, SinLocalizacion), Sumapaz);
    assert forall i :: 0 <= i < |r| ==> r[i] in r;
    r
  }

  /** The sentinel filters remove exactly the sentinel rows and keep the others in order. */
  lemma WithoutSentinelsIsOneFilter(rows: seq<Record>)
    ensures WithoutSentinels(rows) == Filter(rows, (x: Record) => !IsSentinel(x.localidad))
  {
    FilterFilter(rows, (x: Record) => x.localidad != SinLocalizacion, (x: Record) => x.localidad != Sumapaz,
                 (x: Record) => !IsSentinel(x.localidad));
  }

  /** Every non-sentinel row survives the sentinel filters as often as it occurs; no sentinel row does. */
  lemma WithoutSentinelsKeepsExactly(rows: seq<Record>, x: Record)
    ensures multiset(WithoutSentinels(rows))[x] == if IsSentinel(x.localidad) then 0 else multiset(rows)[x]
  {
    WithoutSentinelsIsOneFilter(rows);
    FilterCount(rows, (x: Record) => !IsSentinel(x.localidad), x);
  }

  /** The year filter keeps exactly the rows of that year, each as often as it occurs. */
  lemma RowsOfYearKeepsExactly(rows: seq<Record>, year: int, x: Record)
    ensures multiset(RowsOfYear(rows, year))[x] == if x.anio == year then multiset(rows)[x] else 0
  {
    FilterCount(rows, (x: Record) => x.anio == year, x);
  }

  /**
   * The map filters sentinels first and years later, the other two scripts
   * the other way round; both orders keep the same rows in the same order.
   */
  lemma {:induction false} YearAndSentinelFiltersCommute(rows: seq<Record>, year: int)
    ensures RowsOfYear(WithoutSentinels(rows), year) == WithoutSentinels(RowsOfYear(rows, year))
  {
    var both := (x: Record) => x.anio == year && !IsSentinel(x.localidad);
    var sentinel := (x: Record) => !IsSentinel(x.localidad);
    var ofYear := (x: Record) => x.anio == year;
    WithoutSentinelsIsOneFilter(rows);
    WithoutSentinelsIsOneFilter(RowsOfYear(rows, year));
    FilterFilter(rows, sentinel, ofYear, both);
    FilterFilter(rows, ofYear, sentinel, both);
  }

  /** The rows the dashboard and the taxonomy keep: year 2024 first, then the two sentinels, on raw values. */
  function KeptRows(raw: seq<Record>): (r: seq<Record>)
    ensures forall i :: 0 <= i < |r| ==> r[i].anio == ReportYear && !IsSentinel(r[i].localidad)
  {
    var r := WithoutSentinels(RowsOfYear(raw, ReportYear));
    forall i | 0 <= i < |r| ensures r[i].anio == ReportYear {
      WithoutSentinelsKeepsExactly(RowsOfYear(raw, ReportYear), r[i]);
      RowsOfYearKeepsExactly(raw, ReportYear, r[i]);
      assert r[i] in multiset(r);
    }
    r
  }

  /** A row is kept exactly when its year is 2024 and its raw locality is not a sentinel. */
  lemma KeptRowsKeepExactly(raw: seq<Record>, x: Record)
    ensures multiset(KeptRows(raw))[x]
            == if x.anio == ReportYear && !IsSentinel(x.localidad) then multiset(raw)[x] else 0
  {
    WithoutSentinelsKeepsExactly(RowsOfYear(raw, ReportYear), x);
    RowsOfYearKeepsExactly(raw, ReportYear, x);
  }

  /** `df['LOCALIDAD'].apply(f)`: the column rewritten row by row, everything else kept. */
  function MapLocalidad(rows: seq<Record>, f: string -> string): (r: seq<Record>)
    ensures |r| == |rows|
    ensures forall i :: 0 <= i < |r| ==> r[i] == rows[i].(localidad := f(rows[i].localidad))
  {
    seq(|rows|, i requires 0 <= i < |rows| => rows[i].(localidad := f(rows[i].localidad)))
  }

  /** Renaming localities does not touch `ANIO`, so it commutes with the year filter. */
  lemma {:induction false} YearFilterCommutesWithRename(rows: seq<Record>, f: string -> string, year: int)
    ensures RowsOfYear(MapLocalidad(rows, f), year) == MapLocalidad(RowsOfYear(rows, year), f)
  {
    if rows != [] {
      YearFilterCommutesWithRename(rows[1..], f, year);
      var renamed := MapLocalidad(rows, f);
      assert renamed == [renamed[0]] + MapLocalidad(rows[1..], f);
      var kept := RowsOfYear(rows, year);
      assert kept == (if rows[0].anio == year then [rows[0]] else []) + RowsOfYear(rows[1..], year);
      MapLocalidadAppend(if rows[0].anio == year then [rows[0]] else [], RowsOfYear(rows[1..], year), f);
    }
  }

  lemma MapLocalidadAppend(a: seq<Record>, b: seq<Record>, f: string -> string)
    ensures MapLocalidad(a + b, f) == MapLocalidad(a, f) + MapLocalidad(b, f)
  {
  }

  // ---------------------------------------------------------------------------
  // The data frame whose LOCALIDAD column the scripts overwrite
  // ---------------------------------------------------------------------------

  /** A loaded incident frame; the scripts rebind it after each filter and rewrite one column in place. */
  class Frame {
    var rows: seq<Record>

    constructor (rows: seq<Record>)
      ensures this.rows == rows
    {
      this.rows := rows;
    }

    /** `df = df[df['ANIO'] == year]`. */
    method KeepYear(year: int)
      modifies this
      ensures rows == RowsOfYear(old(rows), year)
    {
      rows := RowsOfYear(rows, year);
    }

    /** `df = df[df['LOCALIDAD'] != localidad]`. */
    method Drop(localidad: string)
      modifies this
      ensures rows == RowsWithout(old(rows), localidad)
    {
      rows := RowsWithout(rows, localidad);
    }

    /** `df['LOCALIDAD'] = df['LOCALIDAD'].apply(f)`: only that column of each row changes. */
    method ApplyToLocalidad(f: string -> string)
      modifies this
      ensures |rows| == |old(rows)|
      ensures forall i :: 0 <= i < |rows| ==> rows[i] == old(rows[i]).(localidad := f(old(rows[i]).localidad))
    {
      rows := MapLocalidad(rows, f);
    }
  }

  // ---------------------------------------------------------------------------
  // groupby(keys)['CANT_INCIDENTES'].sum().reset_index()
  // ---------------------------------------------------------------------------

  function LocalityKey(r: Record): Key { [r.localidad] }
  function LocalityDetailKey(r: Record): Key { [r.localidad, r.detalle] }
  function TypeDetailKey(r: Record): Key { [r.tipo, r.detalle] }

  /** One row of a group-by-sum: the key columns and the summed count. */
  datatype Group = Group(key: Key, total: int)

  /** What `sum` adds for a row: its count, or nothing when the count is missing. */
  function CountOrZero(r: Record): int {
    r.cant.GetOr(0)
  }

  /** The sum of the non-missing counts of the rows whose key is `k`. */
  function SumFor(rows: seq<Record>, keyOf: Record -> Key, k: Key): int {
    if rows == [] then 0
    else (if keyOf(rows[0]) == k then CountOrZero(rows[0]) else 0) + SumFor(rows[1..], keyOf, k)
  }

  /** The sum of the non-missing counts of all rows. */
  function SumCounts(rows: seq<Record>): int {
    if rows == [] then 0 else CountOrZero(rows[0]) + SumCounts(rows[1..])
  }

  function KeysOf(gs: seq<Group>): set<Key> {
    set g | g in gs :: g.key
  }

  function RowKeys(rows: seq<Record>, keyOf: Record -> Key): set<Key> {
    set r | r in rows :: keyOf(r)
  }

  /** Ascending by key with no key twice: pandas' sorted group order. */
  predicate StrictlyAscending(gs: seq<Group>) {
    forall i, j :: 0 <= i < j < |gs| ==> KeyLess(gs[i].key, gs[j].key)
  }

  /** The total of the group with key `k`, or 0 when there is none. */
  function TotalOf(gs: seq<Group>, k: Key): int {
    if gs == [] then 0 else if gs[0].key == k then gs[0].total else TotalOf(gs[1..], k)
  }

  /** A key that no group has totals 0. */
  lemma {:induction false} TotalOfAbsent(gs: seq<Group>, k: Key)
    requires k !in KeysOf(gs)
    ensures TotalOf(gs, k) == 0
  {
    if gs != [] {
      assert gs[0] in gs;
      assert KeysOf(gs[1..]) <= KeysOf(gs);
      TotalOfAbsent(gs[1..], k);
    }
  }

  function SumTotals(gs: seq<Group>): int {
    if gs == [] then 0 else gs[0].total + SumTotals(gs[1..])
  }

  /** Adds count `c` to the group of key `k`, creating it in its sorted place when it is new. */
  function AddTo(gs: seq<Group>, k: Key, c: int): (r: seq<Group>)
    requires StrictlyAscending(gs)
    ensures StrictlyAscending(r)
    ensures KeysOf(r) == KeysOf(gs) + {k}
    ensures forall key :: TotalOf(r, key) == TotalOf(gs, key) + (if key == k then c else 0)
    ensures SumTotals(r) == SumTotals(gs) + c
  {
    if gs == [] then [Group(k, c)]
    else if gs[0].key == k then
      AddToExisting(gs, k, c);
      [Group(k, gs[0].total + c)] + gs[1..]
    else if KeyLess(k, gs[0].key) then
      AddToFront(gs, k, c);
      [Group(k, c)] + gs
    else
      var t := AddTo(gs[1..], k, c);
      AddToRest(gs, k, c, t);
      [gs[0]] + t
  }

  lemma AddToExisting(gs: seq<Group>, k: Key, c: int)
    requires StrictlyAscending(gs) && gs != [] && gs[0].key == k
    ensures var r := [Group(k, gs[0].total + c)] + gs[1..];
            StrictlyAscending(r) && KeysOf(r) == KeysOf(gs) + {k} && SumTotals(r) == SumTotals(gs) + c &&
            forall key :: TotalOf(r, key) == TotalOf(gs, key) + (if key == k then c else 0)
  {
    var r := [Group(k, gs[0].total + c)] + gs[1..];
    assert KeysOf(gs) == {k} + KeysOf(gs[1..]);
    assert KeysOf(r) == {k} + KeysOf(gs[1..]);
    assert r[1..] == gs[1..];
  }

  lemma AddToFront(gs: seq<Group>, k: Key, c: int)
    requires StrictlyAscending(gs) && gs != [] && KeyLess(k, gs[0].key)
    ensures var r := [Group(k, c)] + gs;
            StrictlyAscending(r) && KeysOf(r) == KeysOf(gs) + {k} && SumTotals(r) == SumTotals(gs) + c &&
            forall key :: TotalOf(r, key) == TotalOf(gs, key) + (if key == k then c else 0)
  {
    var r := [Group(k, c)] + gs;
    forall j | 0 <= j < |gs| ensures KeyLess(k, gs[j].key) {
      if j > 0 { KeyLessTransitive(k, gs[0].key, gs[j].key); }
    }
    assert r[1..] == gs;
    assert KeysOf(r) == {k} + KeysOf(gs);
    KeyLessIrreflexive(k);
    TotalOfAbsent(gs, k);
  }

  lemma AddToRest(gs: seq<Group>, k: Key, c: int, t: seq<Group>)
    requires StrictlyAscending(gs) && gs != [] && gs[0].key != k && !KeyLess(k, gs[0].key)
    requires StrictlyAscending(t) && KeysOf(t) == KeysOf(gs[1..]) + {k} && SumTotals(t) == SumTotals(gs[1..]) + c
    requires forall key :: TotalOf(t, key) == TotalOf(gs[1..], key) + (if key == k then c else 0)
    ensures var r := [gs[0]] + t;
            StrictlyAscending(r) && KeysOf(r) == KeysOf(gs) + {k} && SumTotals(r) == SumTotals(gs) + c &&
            forall key :: TotalOf(r, key) == TotalOf(gs, key) + (if key == k then c else 0)
  {
    AddToRestOrder(gs, k, t);
    var r := [gs[0]] + t;
    assert r[1..] == t;
  }

  lemma AddToRestOrder(gs: seq<Group>, k: Key, t: seq<Group>)
    requires StrictlyAscending(gs) && gs != [] && gs[0].key != k && !KeyLess(k, gs[0].key)
    requires StrictlyAscending(t) && KeysOf(t) == KeysOf(gs[1..]) + {k}
    ensures StrictlyAscending([gs[0]] + t) && KeysOf([gs[0]] + t) == KeysOf(gs) + {k}
  {
    var r := [gs[0]] + t;
    KeyLessTotal(k, gs[0].key);
    assert KeysOf(gs) == {gs[0].key} + KeysOf(gs[1..]);
    forall j | 0 <= j < |t| ensures KeyLess(gs[0].key, t[j].key) {
      assert t[j].key in KeysOf(t);
    }
    assert KeysOf(r) == {gs[0].key} + KeysOf(t);
  }

  /**
   * `groupby(keyOf)['CANT_INCIDENTES'].sum()`: one group per distinct key of
   * the rows, in ascending key order, each holding the sum of its rows'
   * non-missing counts (0 when every count of the group is missing).
   */
  function GroupSum(rows: seq<Record>, keyOf: Record -> Key): (r: seq<Group>)
    ensures StrictlyAscending(r)
    ensures KeysOf(r) == RowKeys(rows, keyOf)
    ensures forall k :: TotalOf(r, k) == SumFor(rows, keyOf, k)
    ensures SumTotals(r) == SumCounts(rows)
  {
    if rows == [] then []
    else
      assert RowKeys(rows, keyOf) == {keyOf(rows[0])} + RowKeys(rows[1..], keyOf) by {
        assert rows == [rows[0]] + rows[1..];
      }
      AddTo(GroupSum(rows[1..], keyOf), keyOf(rows[0]), CountOrZero(rows[0]))
  }

  /** Every group's key is the key of some row. */
  lemma GroupKeyIsRowKey(rows: seq<Record>, keyOf: Record -> Key, i: int)
    requires 0 <= i < |GroupSum(rows, keyOf)|
    ensures exists x :: x in rows && keyOf(x) == GroupSum(rows, keyOf)[i].key
  {
    var gs := GroupSum(rows, keyOf);
    assert gs[i].key in KeysOf(gs);
  }

  /** The same, by position: some row at index `k` has the group's key. */
  lemma GroupKeyAtRow(rows: seq<Record>, keyOf: Record -> Key, i: int) returns (k: int)
    requires 0 <= i < |GroupSum(rows, keyOf)|
    ensures 0 <= k < |rows| && keyOf(rows[k]) == GroupSum(rows, keyOf)[i].key
  {
    GroupKeyIsRowKey(rows, keyOf, i);
    var x :| x in rows && keyOf(x) == GroupSum(rows, keyOf)[i].key;
    k :| 0 <= k < |rows| && rows[k] == x;
  }

  /** Every row's key has a group. */
  lemma RowHasGroup(rows: seq<Record>, keyOf: Record -> Key, k: int) returns (i: int)
    requires 0 <= k < |rows|
    ensures 0 <= i < |GroupSum(rows, keyOf)| && GroupSum(rows, keyOf)[i].key == keyOf(rows[k])
  {
    var gs := GroupSum(rows, keyOf);
    assert rows[k] in rows;
    assert keyOf(rows[k]) in KeysOf(gs);
    var g :| g in gs && g.key == keyOf(rows[k]);
    i :| 0 <= i < |gs| && gs[i] == g;
  }

  /** When every row's key has `n` columns, so has every group's. */
  lemma GroupKeyWidth(rows: seq<Record>, keyOf: Record -> Key, n: nat)
    requires forall x :: |keyOf(x)| == n
    ensures forall i :: 0 <= i < |GroupSum(rows, keyOf)| ==> |GroupSum(rows, keyOf)[i].key| == n
  {
    forall i | 0 <= i < |GroupSum(rows, keyOf)| ensures |GroupSum(rows, keyOf)[i].key| == n {
      GroupKeyIsRowKey(rows, keyOf, i);
    }
  }

  /** In a strictly ascending table a group's own key finds that group. */
  lemma {:induction false} TotalOfMember(gs: seq<Group>, i: int)
    requires StrictlyAscending(gs) && 0 <= i < |gs|
    ensures TotalOf(gs, gs[i].key) == gs[i].total
  {
    if i > 0 {
      KeyLessIrreflexive(gs[0].key);
      TotalOfMember(gs[1..], i - 1);
    }
  }

  /** Each group's count is the sum of the non-missing counts of the rows with its key. */
  lemma GroupSumTotals(rows: seq<Record>, keyOf: Record -> Key, i: int)
    requires 0 <= i < |GroupSum(rows, keyOf)|
    ensures GroupSum(rows, keyOf)[i].total == SumFor(rows, keyOf, GroupSum(rows, keyOf)[i].key)
  {
    TotalOfMember(GroupSum(rows, keyOf), i);
  }

  /** A key with no matching row sums to nothing. */
  lemma {:induction false} SumForAbsent(rows: seq<Record>, keyOf: Record -> Key, k: Key)
    requires k !in RowKeys(rows, keyOf)
    ensures SumFor(rows, keyOf, k) == 0
  {
    if rows != [] {
      assert rows[0] in rows;
      assert RowKeys(rows[1..], keyOf) <= RowKeys(rows, keyOf);
      SumForAbsent(rows[1..], keyOf, k);
    }
  }

  /** Sums of non-negative counts are non-negative. */
  lemma {:induction false} SumForNonNegative(rows: seq<Record>, keyOf: Record -> Key, k: Key)
    requires forall i :: 0 <= i < |rows| ==> rows[i].cant.GetOr(0) >= 0
    ensures SumFor(rows, keyOf, k) >= 0
  {
    if rows != [] {
      SumForNonNegative(rows[1..], keyOf, k);
    }
  }

  /** With non-negative counts every group total is non-negative. */
  lemma GroupSumNonNegative(rows: seq<Record>, keyOf: Record -> Key)
    requires forall i :: 0 <= i < |rows| ==> rows[i].cant.GetOr(0) >= 0
    ensures forall i :: 0 <= i < |GroupSum(rows, keyOf)| ==> GroupSum(rows, keyOf)[i].total >= 0
  {
    var gs := GroupSum(rows, keyOf);
    forall i | 0 <= i < |gs| ensures gs[i].total >= 0 {
      GroupSumTotals(rows, keyOf, i);
      SumForNonNegative(rows, keyOf, gs[i].key);
    }
  }
}
