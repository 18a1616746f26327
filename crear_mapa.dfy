/**
 * The map script: the sentinel filter and remove_tildes on the incident
 * rows, the "sumapaz" filter and remove_tildes on the locality polygons, and
 * for each year the per-locality sum, the left join from the polygons and
 * the hand-built legend.
 */
module CrearMapa {
  import opened Wrappers
  import opened Order
  import opened Seqs
  import opened Text
  import opened Decimal
  import opened Incidents

  /** The years the script renders a map for. */
  const Years: seq<int> := [2024]

  // ---------------------------------------------------------------------------
  // The incident rows: lines 12-13 and 26
  // ---------------------------------------------------------------------------

  /**
   * The rows all maps start from: the two sentinels dropped on the raw
   * value, then tildes removed from LOCALIDAD. Unlike the dashboard, nothing
   * is stripped or upper-cased here.
   */
  function CleanRows(raw: seq<Record>): (r: seq<Record>)
    ensures |r| == |WithoutSentinels(raw)|
    ensures forall i :: 0 <= i < |r| ==>
              r[i] == WithoutSentinels(raw)[i].(localidad := RemoveTildes(WithoutSentinels(raw)[i].localidad))
  {
    MapLocalidad(WithoutSentinels(raw), RemoveTildes)
  }

  /** Every locality of the cleaned rows is free of the 12 accented letters. */
  lemma CleanRowsHaveNoTildes(raw: seq<Record>, i: int, k: int)
    requires 0 <= i < |CleanRows(raw)| && 0 <= k < |CleanRows(raw)[i].localidad|
    ensures !IsTilde(CleanRows(raw)[i].localidad[k])
  {
  }

  /** The year filter sees the raw years, so filtering before or after removing tildes is the same. */
  lemma CleanRowsOfYear(raw: seq<Record>, year: int)
    ensures RowsOfYear(CleanRows(raw), year) == MapLocalidad(RowsOfYear(WithoutSentinels(raw), year), RemoveTildes)
  {
    YearFilterCommutesWithRename(WithoutSentinels(raw), RemoveTildes, year);
  }

  /**
   * `pd.read_csv` reads the count column as floats when any of its cells is
   * empty, and the legend then prints every sum with a ".0".
   */
  predicate CountsReadAsFloats(raw: seq<Record>) {
    exists i :: 0 <= i < |raw| && raw[i].cant.None?
  }

  // ---------------------------------------------------------------------------
  // The locality polygons: lines 33 and 36
  // ---------------------------------------------------------------------------

  /** One polygon row: its `LocNombre`, possibly missing, and its geometry as an opaque id. */
  datatype GeoRow = GeoRow(name: Option<string>, shape: nat)

  /** `str.contains('sumapaz', case=False, na=False)`: a missing name does not match. */
  predicate MentionsSumapaz(g: GeoRow) {
    g.name.Some? && ContainsIgnoringCase(g.name.value, "sumapaz")
  }

  function WithoutSumapaz(geo: seq<GeoRow>): (r: seq<GeoRow>)
    ensures forall i :: 0 <= i < |r| ==> !MentionsSumapaz(r[i])
  {
    Filter(geo, (g: GeoRow) => !MentionsSumapaz(g))
  }

  /**
   * The polygon filter removes exactly the rows whose name contains
   * "sumapaz" in any case, and keeps the rest, unnamed ones included.
   */
  lemma WithoutSumapazKeepsExactly(geo: seq<GeoRow>, x: GeoRow)
    ensures multiset(WithoutSumapaz(geo))[x] == if MentionsSumapaz(x) then 0 else multiset(geo)[x]
  {
    FilterCount(geo, (g: GeoRow) => !MentionsSumapaz(g), x);
  }

  lemma UnnamedPolygonKept(shape: nat)
    ensures WithoutSumapaz([GeoRow(None, shape)]) == [GeoRow(None, shape)]
  {
    FilterSingleton(GeoRow(None, shape), (g: GeoRow) => !MentionsSumapaz(g));
  }

  /** Any spelling of the word in any case is a match, wherever it sits in the name. */
  lemma SumapazInAnyCaseDropped(shape: nat)
    ensures WithoutSumapaz([GeoRow(Some("Loc. SumaPaz"), shape)]) == []
  {
    assert MatchesAt("Loc. SumaPaz", "sumapaz", 5);
    FilterSingleton(GeoRow(Some("Loc. SumaPaz"), shape), (g: GeoRow) => !MentionsSumapaz(g));
  }

  function RenameRow(g: GeoRow, f: string -> string): GeoRow
    requires g.name.Some?
  {
    GeoRow(Some(f(g.name.value)), g.shape)
  }

  /** `LocNombre.apply(f)`: every name rewritten, or a failure on the first missing one. */
  function RenameAll(geo: seq<GeoRow>, f: string -> string): (r: Option<seq<GeoRow>>)
    ensures r.None? <==> exists i :: 0 <= i < |geo| && geo[i].name.None?
    ensures r.Some? ==> |r.value| == |geo|
    ensures r.Some? ==> forall i :: 0 <= i < |geo| ==> r.value[i] == GeoRow(Some(f(geo[i].name.value)), geo[i].shape)
  {
    if forall i :: 0 <= i < |geo| ==> geo[i].name.Some? then
      Some(seq(|geo|, i requires 0 <= i < |geo| => RenameRow(geo[i], f)))
    else None
  }

  /** The polygon table, whose `LocNombre` column the script rebinds in place. */
  class GeoFrame {
    var rows: seq<GeoRow>

    constructor (rows: seq<GeoRow>)
      ensures this.rows == rows
    {
      this.rows := rows;
    }

    method DropSumapaz()
      modifies this
      ensures rows == WithoutSumapaz(old(rows))
    {
      rows := WithoutSumapaz(rows);
    }

    /**
     * Rewrites every name with `f`, row by row; on a missing name it stops,
     * reports failure and leaves the table as it was.
     */
    method ApplyToNames(f: string -> string) returns (ok: bool)
      modifies this
      ensures ok <==> RenameAll(old(rows), f).Some?
      ensures ok ==> rows == RenameAll(old(rows), f).value
      ensures !ok ==> rows == old(rows)
    {
      var out: seq<GeoRow> := [];
      var k := 0;
      while k < |rows|
        invariant 0 <= k <= |rows| && |out| == k
        invariant forall i :: 0 <= i < k ==> rows[i].name.Some? && out[i] == RenameRow(rows[i], f)
      {
        if rows[k].name.None? {
          return false;
        }
        out := out + [RenameRow(rows[k], f)];
        k := k + 1;
      }
      rows := out;
      ok := true;
    }
  }

  // ---------------------------------------------------------------------------
  // groupby(['LOCALIDAD'])['CANT_INCIDENTES'].sum(): line 45
  // ---------------------------------------------------------------------------

  /** One row of `score_sum`: a locality and its summed count. */
  datatype LocalityTotal = LocalityTotal(localidad: string, cant: int)

  function ScoreSum(rows: seq<Record>): (r: seq<LocalityTotal>)
    ensures |r| == |GroupSum(rows, LocalityKey)|
    ensures forall i :: 0 <= i < |r| ==> [r[i].localidad] == GroupSum(rows, LocalityKey)[i].key
    ensures forall i :: 0 <= i < |r| ==> r[i].cant == GroupSum(rows, LocalityKey)[i].total
  {
    var gs := GroupSum(rows, LocalityKey);
    GroupKeyWidth(rows, LocalityKey, 1);
    seq(|gs|, i requires 0 <= i < |gs| => LocalityTotal(gs[i].key[0], gs[i].total))
  }

  /** The localities come out strictly ascending, so none appears twice. */
  lemma ScoreSumAscending(rows: seq<Record>)
    ensures forall i, j :: 0 <= i < j < |ScoreSum(rows)| ==> StrLess(ScoreSum(rows)[i].localidad, ScoreSum(rows)[j].localidad)
  {
    var r := ScoreSum(rows);
    forall i, j | 0 <= i < j < |r| ensures StrLess(r[i].localidad, r[j].localidad) {
      SingleKeyLess(r[i].localidad, r[j].localidad);
    }
  }

  lemma ScoreSumDistinct(rows: seq<Record>)
    ensures forall i, j :: 0 <= i < j < |ScoreSum(rows)| ==> ScoreSum(rows)[i].localidad != ScoreSum(rows)[j].localidad
  {
    ScoreSumAscending(rows);
    var r := ScoreSum(rows);
    forall i, j | 0 <= i < j < |r| ensures r[i].localidad != r[j].localidad {
      StrLessIrreflexive(r[i].localidad);
    }
  }

  /** There is a row for a locality exactly when some incident row has that locality. */
  lemma ScoreSumLocalities(rows: seq<Record>, n: string)
    ensures (exists i :: 0 <= i < |ScoreSum(rows)| && ScoreSum(rows)[i].localidad == n)
        <==> (exists k :: 0 <= k < |rows| && rows[k].localidad == n)
  {
    var r := ScoreSum(rows);
    if exists i :: 0 <= i < |r| && r[i].localidad == n {
      var i :| 0 <= i < |r| && r[i].localidad == n;
      var k := GroupKeyAtRow(rows, LocalityKey, i);
      assert rows[k].localidad == n;
    }
    if exists k :: 0 <= k < |rows| && rows[k].localidad == n {
      var k :| 0 <= k < |rows| && rows[k].localidad == n;
      var i := RowHasGroup(rows, LocalityKey, k);
      assert r[i].localidad == n;
    }
  }

  /** Each locality's row holds the sum of that locality's non-missing counts. */
  lemma ScoreSumTotals(rows: seq<Record>, i: int)
    requires 0 <= i < |ScoreSum(rows)|
    ensures ScoreSum(rows)[i].cant == SumFor(rows, LocalityKey, [ScoreSum(rows)[i].localidad])
  {
    GroupSumTotals(rows, LocalityKey, i);
  }

  function TotalCount(ts: seq<LocalityTotal>): int {
    if ts == [] then 0 else ts[0].cant + TotalCount(ts[1..])
  }

  lemma {:induction false} TotalCountOfGroups(ts: seq<LocalityTotal>, gs: seq<Group>)
    requires |ts| == |gs| && forall i :: 0 <= i < |ts| ==> ts[i].cant == gs[i].total
    ensures TotalCount(ts) == SumTotals(gs)
  {
    if ts != [] {
      TotalCountOfGroups(ts[1..], gs[1..]);
    }
  }

  /** No count is lost or invented: the sums add up to the sum of all non-missing counts. */
  lemma ScoreSumGrandTotal(rows: seq<Record>)
    ensures TotalCount(ScoreSum(rows)) == SumCounts(rows)
  {
    TotalCountOfGroups(ScoreSum(rows), GroupSum(rows, LocalityKey));
  }

  // ---------------------------------------------------------------------------
  // gdf.set_index('LocNombre').join(score_sum.set_index('LOCALIDAD')): line 48
  // ---------------------------------------------------------------------------

  /** One row of `merged`: the polygon's name and geometry, and its count or NaN. */
  datatype MergedRow = MergedRow(name: Option<string>, shape: nat, cant: Option<int>)

  /** The count of the first total whose locality is `name`, compared exactly. */
  function Lookup(ts: seq<LocalityTotal>, name: Option<string>): Option<int> {
    if name.None? || ts == [] then None
    else if ts[0].localidad == name.value then Some(ts[0].cant)
    else Lookup(ts[1..], name)
  }

  lemma {:induction false} LookupFound(ts: seq<LocalityTotal>, i: int)
    requires 0 <= i < |ts|
    requires forall a, b :: 0 <= a < b < |ts| ==> ts[a].localidad != ts[b].localidad
    ensures Lookup(ts, Some(ts[i].localidad)) == Some(ts[i].cant)
  {
    if i > 0 {
      LookupFound(ts[1..], i - 1);
    }
  }

  lemma {:induction false} LookupMissing(ts: seq<LocalityTotal>, n: string)
    requires forall i :: 0 <= i < |ts| ==> ts[i].localidad != n
    ensures Lookup(ts, Some(n)) == None
  {
    if ts != [] {
      LookupMissing(ts[1..], n);
    }
  }

  /** A left join: every polygon row, in order, with its geometry and whatever count matches its name. */
  function Join(geo: seq<GeoRow>, ts: seq<LocalityTotal>): (r: seq<MergedRow>)
    ensures |r| == |geo|
    ensures forall i :: 0 <= i < |r| ==> r[i].name == geo[i].name && r[i].shape == geo[i].shape
  {
    seq(|geo|, i requires 0 <= i < |geo| => MergedRow(geo[i].name, geo[i].shape, Lookup(ts, geo[i].name)))
  }

  /** A polygon whose name is a locality of the rows gets that locality's sum. */
  lemma JoinMatched(rows: seq<Record>, geo: seq<GeoRow>, i: int, k: int)
    requires 0 <= i < |geo| && 0 <= k < |rows|
    requires geo[i].name == Some(rows[k].localidad)
    ensures Join(geo, ScoreSum(rows))[i].cant == Some(SumFor(rows, LocalityKey, [rows[k].localidad]))
  {
    var ts := ScoreSum(rows);
    ScoreSumLocalities(rows, rows[k].localidad);
    var j :| 0 <= j < |ts| && ts[j].localidad == rows[k].localidad;
    ScoreSumDistinct(rows);
    LookupFound(ts, j);
    ScoreSumTotals(rows, j);
  }

  /** A polygon with no name, or a name no row has, gets an absent count. */
  lemma JoinUnmatched(rows: seq<Record>, geo: seq<GeoRow>, i: int)
    requires 0 <= i < |geo|
    requires geo[i].name.None? || forall k :: 0 <= k < |rows| ==> rows[k].localidad != geo[i].name.value
    ensures Join(geo, ScoreSum(rows))[i].cant.None?
  {
    if geo[i].name.Some? {
      ScoreSumLocalities(rows, geo[i].name.value);
      LookupMissing(ScoreSum(rows), geo[i].name.value);
    }
  }

  /** Names are compared as they are: a polygon in other letter case stays without a count. */
  lemma JoinIsCaseSensitive()
    ensures Lookup([LocalityTotal("USAQUEN", 5)], Some("Usaquen")) == None
  {
  }

  // ---------------------------------------------------------------------------
  // The legend: lines 89-98
  // ---------------------------------------------------------------------------

  const LegendHeader: string :=
    "\n     <div style=\"position: fixed; \n     bottom: 50px; left: 50px; width: 200px; height: auto; \n     border:2px solid grey; z-index:9999; font-size:12px;  /* Smaller font size */\n     background-color:white; opacity: 0.8;\">\n     &nbsp;<b>Incidentes por Localidad</b><br>\n     "

  const LegendFooter: string := "</div>"

  /** One legend entry: `&nbsp;LOCALIDAD: count<br>`. */
  function LegendLine(t: LocalityTotal, asFloat: bool): string {
    "&nbsp;" + t.localidad + ": " + CountToString(t.cant, asFloat) + "<br>"
  }

  /** The strings of `ss` one after the other. */
  function Concat(ss: seq<string>): string {
    if ss == [] then [] else Concat(ss[..|ss| - 1]) + ss[|ss| - 1]
  }

  /** The entries of `ts`, in order. */
  function Entries(ts: seq<LocalityTotal>, asFloat: bool): (es: seq<string>)
    ensures |es| == |ts|
  {
    if ts == [] then [] else [LegendLine(ts[0], asFloat)] + Entries(ts[1..], asFloat)
  }

  lemma {:induction false} EntryOf(ts: seq<LocalityTotal>, asFloat: bool, i: int)
    requires 0 <= i < |ts|
    ensures Entries(ts, asFloat)[i] == LegendLine(ts[i], asFloat)
  {
    if i > 0 {
      EntryOf(ts[1..], asFloat, i - 1);
    }
  }

  /** A legend under an arbitrary header; the script's is `LegendWith(LegendHeader, ...)`. */
  function LegendWith(header: string, ts: seq<LocalityTotal>, asFloat: bool): string {
    header + Concat(Entries(ts, asFloat)) + LegendFooter
  }

  function Legend(ts: seq<LocalityTotal>, asFloat: bool): string {
    LegendWith(LegendHeader, ts, asFloat)
  }

  /** Where the entry of `ts[i]` starts in a legend under `header`. */
  function LineOffset(header: string, ts: seq<LocalityTotal>, asFloat: bool, i: int): nat
    requires 0 <= i <= |ts|
  {
    |header| + |Concat(Entries(ts, asFloat)[..i])|
  }

  lemma ConcatSnoc(ss: seq<string>, k: int)
    requires 0 <= k < |ss|
    ensures Concat(ss[..k + 1]) == Concat(ss[..k]) + ss[k]
  {
    assert ss[..k + 1][..k] == ss[..k];
  }

  lemma {:induction false} ConcatAppend(a: seq<string>, b: seq<string>)
    ensures Concat(a + b) == Concat(a) + Concat(b)
    decreases |b|
  {
    if b == [] {
      assert a + b == a;
    } else {
      assert (a + b)[..|a + b| - 1] == a + b[..|b| - 1];
      ConcatAppend(a, b[..|b| - 1]);
    }
  }

  /** Cutting the concatenation at entry `i`: what comes before, the entry, what comes after. */
  lemma ConcatSplit(ss: seq<string>, i: int)
    requires 0 <= i < |ss|
    ensures Concat(ss) == Concat(ss[..i]) + ss[i] + Concat(ss[i + 1..])
  {
    ConcatSnoc(ss, i);
    assert ss == ss[..i + 1] + ss[i + 1..];
    ConcatAppend(ss[..i + 1], ss[i + 1..]);
  }

  lemma LegendStep(header: string, es: seq<string>, k: int, line: string)
    requires 0 <= k < |es| && es[k] == line
    ensures header + Concat(es[..k]) + line == header + Concat(es[..k + 1])
  {
    ConcatSnoc(es, k);
  }

  lemma SliceMiddle(a: string, b: string, c: string)
    ensures (a + b + c)[|a|..|a| + |b|] == b
  {
  }

  /**
   * The legend is the header, then one entry per total in the totals'
   * order, each entry followed directly by the next, then `</div>`.
   */
  lemma LegendLayout(header: string, ts: seq<LocalityTotal>, asFloat: bool)
    ensures LegendWith(header, ts, asFloat)[..|header|] == header
    ensures LineOffset(header, ts, asFloat, 0) == |header|
    ensures LineOffset(header, ts, asFloat, |ts|) + |LegendFooter| == |LegendWith(header, ts, asFloat)|
    ensures LegendWith(header, ts, asFloat)[LineOffset(header, ts, asFloat, |ts|)..] == LegendFooter
    ensures forall i :: 0 <= i < |ts| ==> EntryAt(header, ts, asFloat, i)
  {
    var es := Entries(ts, asFloat);
    assert es[..0] == [] && es[..|ts|] == es;
    forall i | 0 <= i < |ts| ensures EntryAt(header, ts, asFloat, i) {
      LegendEntry(header, ts, asFloat, i);
    }
  }

  /** The entry of `ts[i]` sits in the legend between its offset and the next one. */
  predicate EntryAt(header: string, ts: seq<LocalityTotal>, asFloat: bool, i: int)
    requires 0 <= i < |ts|
  {
    LineOffset(header, ts, asFloat, i) <= LineOffset(header, ts, asFloat, i + 1) <= |LegendWith(header, ts, asFloat)| &&
    LegendWith(header, ts, asFloat)[LineOffset(header, ts, asFloat, i)..LineOffset(header, ts, asFloat, i + 1)]
      == Entries(ts, asFloat)[i]
  }

  lemma LegendEntry(header: string, ts: seq<LocalityTotal>, asFloat: bool, i: int)
    requires 0 <= i < |ts|
    ensures EntryAt(header, ts, asFloat, i)
  {
    ConcatEntry(header, Entries(ts, asFloat), i);
  }

  lemma ConcatEntry(header: string, es: seq<string>, i: int)
    requires 0 <= i < |es|
    ensures var whole := header + Concat(es) + LegendFooter;
            var from, to := |header| + |Concat(es[..i])|, |header| + |Concat(es[..i + 1])|;
            from <= to <= |whole| && whole[from..to] == es[i]
  {
    var before, line, after := Concat(es[..i]), es[i], Concat(es[i + 1..]);
    ConcatSplit(es, i);
    ConcatSnoc(es, i);
    assert header + Concat(es) + LegendFooter == (header + before) + line + (after + LegendFooter);
    SliceMiddle(header + before, line, after + LegendFooter);
  }

  /** Lines 89-98: the header, `+=` of one entry per row of `score_sum`, then `</div>`. */
  method BuildLegend(header: string, ts: seq<LocalityTotal>, asFloat: bool) returns (html: string)
    ensures html == LegendWith(header, ts, asFloat)
  {
    html := header;
    var k := 0;
    while k < |ts|
      invariant 0 <= k <= |ts|
      invariant html == header + Concat(Entries(ts, asFloat)[..k])
    {
      var line := LegendLine(ts[k], asFloat);
      EntryOf(ts, asFloat, k);
      LegendStep(header, Entries(ts, asFloat), k, line);
      html := html + line;
      k := k + 1;
    }
    assert Entries(ts, asFloat)[..|ts|] == Entries(ts, asFloat);
    html := html + LegendFooter;
  }

  // ---------------------------------------------------------------------------
  // The script: lines 6-103
  // ---------------------------------------------------------------------------

  /** What one iteration of the year loop hands to folium and saves. */
  datatype MapArtifact = MapArtifact(year: int, merged: seq<MergedRow>, legend: string, fileName: string)

  function MapFileName(year: int): string {
    "mapa" + IntToString(year) + ".html"
  }

  /** Different years are saved under different names. */
  lemma MapFileNamesDistinct(a: int, b: int)
    requires a != b
    ensures MapFileName(a) != MapFileName(b)
  {
    if MapFileName(a) == MapFileName(b) {
      var sa, sb := IntToString(a), IntToString(b);
      assert |sa| == |sb|;
      assert sa == MapFileName(a)[4..4 + |sa|];
      assert sb == MapFileName(b)[4..4 + |sb|];
      IntToStringInjective(a, b);
    }
  }

  lemma MapFileNameOf2024()
    ensures MapFileName(2024) == "mapa2024.html"
  {
  }

  /** The map of one year: `score_sum` of that year's cleaned rows, joined and written into the legend. */
  function MapFor(rows: seq<Record>, geo: seq<GeoRow>, year: int, asFloat: bool): MapArtifact {
    var ts := ScoreSum(RowsOfYear(rows, year));
    MapArtifact(year, Join(geo, ts), Legend(ts, asFloat), MapFileName(year))
  }

  /** The whole script: no maps at all when a kept polygon has no name, else one map per year. */
  function Maps(raw: seq<Record>, shapes: seq<GeoRow>): (r: Option<seq<MapArtifact>>)
    ensures r.None? <==> exists i :: 0 <= i < |WithoutSumapaz(shapes)| && WithoutSumapaz(shapes)[i].name.None?
    ensures r.Some? ==> |r.value| == |Years| && forall j :: 0 <= j < |Years| ==> r.value[j].year == Years[j]
  {
    match RenameAll(WithoutSumapaz(shapes), RemoveTildes)
    case None => None
    case Some(geo) => Some(MapsOf(CleanRows(raw), geo, CountsReadAsFloats(raw)))
  }

  /**
   * In a year's map every polygon keeps its place, name and geometry, and
   * its count is the year's sum for its name when some row of that year has
   * that name, and absent otherwise.
   */
  lemma MapForCounts(rows: seq<Record>, geo: seq<GeoRow>, year: int, asFloat: bool, i: int)
    requires 0 <= i < |geo|
    ensures var m := MapFor(rows, geo, year, asFloat).merged;
            var kept := RowsOfYear(rows, year);
            |m| == |geo| && m[i].name == geo[i].name && m[i].shape == geo[i].shape &&
            m[i].cant == if geo[i].name.Some? && exists k :: 0 <= k < |kept| && kept[k].localidad == geo[i].name.value
                         then Some(SumFor(kept, LocalityKey, [geo[i].name.value])) else None
  {
    var kept := RowsOfYear(rows, year);
    if geo[i].name.Some? && exists k :: 0 <= k < |kept| && kept[k].localidad == geo[i].name.value {
      var k :| 0 <= k < |kept| && kept[k].localidad == geo[i].name.value;
      JoinMatched(kept, geo, i, k);
    } else {
      JoinUnmatched(kept, geo, i);
    }
  }

  function MapsOf(rows: seq<Record>, geo: seq<GeoRow>, asFloat: bool): (r: seq<MapArtifact>)
    ensures |r| == |Years| && forall j :: 0 <= j < |Years| ==> r[j] == MapFor(rows, geo, Years[j], asFloat)
  {
    seq(|Years|, j requires 0 <= j < |Years| => MapFor(rows, geo, Years[j], asFloat))
  }

  /**
   * When the script gets through, map `j` joins the kept polygons, names
   * de-accented, to the sums of year `Years[j]`.
   */
  lemma MapsJoinKeptPolygons(raw: seq<Record>, shapes: seq<GeoRow>, j: int)
    requires Maps(raw, shapes).Some? && 0 <= j < |Years|
    ensures var kept := WithoutSumapaz(shapes);
            (forall i :: 0 <= i < |kept| ==> kept[i].name.Some?) &&
            Maps(raw, shapes).value[j]
              == MapFor(CleanRows(raw), RenameAll(kept, RemoveTildes).value, Years[j], CountsReadAsFloats(raw))
  {
  }

  /** Lines 39-103: the loop over `years`, one map per year. */
  method RenderMaps(rows: seq<Record>, geo: seq<GeoRow>, asFloat: bool) returns (out: seq<MapArtifact>)
    ensures out == MapsOf(rows, geo, asFloat)
  {
    out := [];
    var k := 0;
    while k < |Years|
      invariant 0 <= k <= |Years| && |out| == k
      invariant forall j :: 0 <= j < k ==> out[j] == MapFor(rows, geo, Years[j], asFloat)
    {
      var year := Years[k];
      var filtered := RowsOfYear(rows, year);
      var scoreSum := ScoreSum(filtered);
      var merged := Join(geo, scoreSum);
      var legend := BuildLegend(LegendHeader, scoreSum, asFloat);
      out := out + [MapArtifact(year, merged, legend, MapFileName(year))];
      k := k + 1;
    }
  }

  /** Lines 6-103 step by step: both tables rewritten in place, then one map per year. */
  method CrearMapa(raw: seq<Record>, shapes: seq<GeoRow>) returns (maps: Option<seq<MapArtifact>>)
    ensures maps == Maps(raw, shapes)
  {
    var df := new Frame(raw);
    df.Drop(SinLocalizacion);
    df.Drop(Sumapaz);
    df.ApplyToLocalidad(RemoveTildes);
    assert df.rows == CleanRows(raw);
    var gdf := new GeoFrame(shapes);
    gdf.DropSumapaz();
    var ok := gdf.ApplyToNames(RemoveTildes);
    if !ok {
      return None;
    }
    var out := RenderMaps(df.rows, gdf.rows, CountsReadAsFloats(raw));
    maps := Some(out);
  }
}
