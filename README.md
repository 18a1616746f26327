# Bogotá incident reports: cleaning, aggregation and join

A Dafny model of the data-cleaning and aggregation core of three batch
scripts. All three read one semicolon-separated table of incident records
with the columns year, locality, incident type, incident subtype and count.

- `crear_mapa.py` builds a choropleth map. It drops two sentinel
  localities, removes Spanish accents, drops the "sumapaz" polygons, sums
  counts per locality, left-joins the sums onto the polygons, and writes a
  hand-built HTML legend.
- `correr_reporte.py` builds a dashboard. It filters to 2024, drops the
  sentinels, normalises locality names (strip, upper-case, remove accents),
  sums per (locality, subtype) pair, and sorts by locality ascending and
  count descending. Its callbacks pick the top 20 subtypes of the locality
  chosen in a dropdown.
- `tipos_incidentes.py` lists the taxonomy. It applies the same filters, takes
  `unique()` of the type and subtype columns, and publishes the distinct
  (type, subtype) pairs.

Modules:

- `Wrappers`: `Option`.
- `Order`: Python's code-point order on strings and on tuple keys, proved a
  strict total order.
- `Seqs`: order-preserving selection (`df[mask]`), `unique()`, and a sort
  proved to be a sorted permutation.
- `Text`:
  - `remove_tildes`, as the chain of twelve `replace` calls, proved equal to
    a one-step table lookup;
  - `strip` and `upper` over Latin-1;
  - the dashboard's normaliser;
  - the case-insensitive `contains`.
- `Decimal`: how an f-string prints a summed count, with a round trip back
  to the number.
- `Incidents`:
  - the record type;
  - the year and sentinel filters;
  - the column rewrite;
  - a `Frame` class whose methods rebind the rows in place, as the scripts'
    `df = df[...]` and `df['LOCALIDAD'] = ...` do;
  - a group-by-sum that matches pandas: keys sorted ascending, missing
    counts skipped, an all-missing group summing to 0.
- `CrearMapa`, `CorrerReporte`, `TiposIncidentes`: one module per script.
  Each has a specification function for the script's pipeline and, where the
  script updates state step by step, a method proved equal to it.

Facts about the system the proofs make explicit:

- The sentinel filters compare raw values, before any normalisation. In the
  dashboard, a row whose locality is `" sumapaz "` passes the filters and
  is then normalised to `"SUMAPAZ"` (`CorrerReporte.SpacedSentinelSurvives`).
- The map script removes accents but never strips or upper-cases. Polygon
  names are matched to incident localities exactly, so a polygon whose name
  differs only in letter case from every locality gets no count
  (`CrearMapa.JoinUnmatched`, `CrearMapa.MapForCounts`; `CrearMapa.JoinIsCaseSensitive`
  is the example of "Usaquen" against "USAQUEN").
  The two scripts do not normalise names the same way, and the model keeps
  that difference.
- The polygon filter uses `na=False` and then negates the mask, so polygons
  with a missing name survive it. The next step, `apply(remove_tildes)`, then
  fails on them, and no map is produced (`CrearMapa.Maps`).
- The dashboard's dropdown default, `unique()[0]` (correr_reporte.py:54),
  indexes an empty array when no row survives the filters: it raises
  `IndexError` and the script stops before the app is built. The `None`
  default of `CorrerReporte.MakeDropdown` stands for that failure.

## Model

| member | source | states |
|---|---|---|
| `Text.ReplaceChar` | crear_mapa.py:18 | one `str.replace` of a character: same length, that character swapped at every position, every other position unchanged |
| `Text.ReplaceChain` | crear_mapa.py:17-23 | a chain of `replace` calls acts position by position: each output character is the input character pushed through the whole chain |
| `Text.ChainIsLookup` | crear_mapa.py:17-23 | when no replacement produces a character that a later one removes, the chain equals a lookup of the first matching pair |
| `Text.FirstReplacementOfDistinct` | crear_mapa.py:16-23 | when no two replacements target the same character, each target gets its own replacement |
| `Text.TildeChainIsTable` | crear_mapa.py:17-23 | the twelve chained replacements, in source order, are exactly the accent table for every character |
| `Text.Untilde` | crear_mapa.py:17-23 | per character: the result is never accented, an unaccented character is kept, whitespace stays whitespace |
| `Text.RemoveTildes` | crear_mapa.py:16-23 | same length; each accented letter becomes its plain letter in the same case; every other character is unchanged |
| `Text.RemoveTildesLeavesNoTilde` | crear_mapa.py:16-23 | the output contains none of the twelve accented letters |
| `Text.RemoveTildesIdempotent` | crear_mapa.py:16-23 | applying it twice equals applying it once |
| `Text.RemoveTildesFixesPlainText` | correr_reporte.py:25-32 | a string without accented letters is returned unchanged |
| `Text.RemoveTildesFixesAscii` | correr_reporte.py:25-32 | plain ASCII text is returned unchanged |
| `Text.StripOnePad` | correr_reporte.py:35 | a name padded by one whitespace character at each end strips to its middle |
| `Text.StripLeading` | correr_reporte.py:35 | the result is a suffix of the input; everything removed is whitespace; the result does not start with whitespace |
| `Text.StripTrailing` | correr_reporte.py:35 | the result is a prefix of the input; everything removed is whitespace; the result does not end with whitespace |
| `Text.Strip` | correr_reporte.py:35 | the result is a slice of the input with only whitespace cut at each end, and neither of its ends is whitespace |
| `Text.StripTrimmed` | correr_reporte.py:35 | stripping a string whose ends are not whitespace returns it unchanged |
| `Text.UpperChar` | correr_reporte.py:35 | Latin-1 `upper()` of one character is never empty, and each end is whitespace exactly when the character is |
| `Text.Upper` | correr_reporte.py:35 | `str.upper()`: each character replaced by its Latin-1 upper case; `UpperKeepsEnds`, `UpperIsUpperForm`, `UpperOneToOne` and `UpperFixesUpperForm` state what that gives |
| `Text.UpperCharIsUpperForm` | correr_reporte.py:35 | every character `upper()` produces is its own upper case |
| `Text.UpperKeepsEnds` | correr_reporte.py:35 | `upper()` never shortens a string and keeps whether each end is whitespace |
| `Text.UpperIsUpperForm` | correr_reporte.py:35 | every character of `upper(s)` is its own upper case |
| `Text.UpperOneToOne` | correr_reporte.py:35 | where no character expands (as `ß` does), `upper()` works character by character and keeps the length |
| `Text.UpperFixesUpperForm` | correr_reporte.py:35 | `upper()` leaves a string that is already upper case unchanged |
| `Text.UntildeKeepsUpperForm` | correr_reporte.py:35 | removing an accent from an upper-case letter gives an upper-case letter |
| `Text.UpperFormIsNotAsciiLower` | correr_reporte.py:35 | an upper-case character is not an ASCII lower-case letter |
| `Text.Normalize` | correr_reporte.py:35 | `remove_tildes(x.strip().upper())`, the three steps in the source's order; its shape and idempotence are `NormalizeShape` and `NormalizeIdempotent` |
| `Text.NormalizeShape` | correr_reporte.py:35 | a normalised name has no whitespace at either end, no ASCII lower-case letter and no accented letter, and is its own upper case |
| `Text.NormalizeIdempotent` | correr_reporte.py:25-35 | normalising twice equals normalising once |
| `Text.ContainsIgnoringCase` | crear_mapa.py:33 | true exactly when the needle occurs at some position of the text, up to ASCII letter case |
| `Order.StrLessIrreflexive` | correr_reporte.py:41 | no string sorts before itself |
| `Order.StrLessTransitive` | correr_reporte.py:41 | string order is transitive |
| `Order.StrLessTotal` | correr_reporte.py:41 | of two different strings exactly one sorts first |
| `Order.KeyLessTransitive` | correr_reporte.py:38 | tuple-key order is transitive |
| `Order.KeyLessTotal` | correr_reporte.py:38 | of two different group keys exactly one sorts first |
| `Order.PairKeyLess` | correr_reporte.py:38 | a two-column key sorts by its first column, then by its second |
| `Order.SingleKeyLess` | crear_mapa.py:45 | a one-column key sorts as its string |
| `Seqs.Filter` | crear_mapa.py:12 | a boolean mask keeps only rows that satisfy it, and only rows of the input |
| `Seqs.FilterCount` | crear_mapa.py:12-13 | a mask keeps every copy of a row that satisfies it and no copy of any other row |
| `Seqs.FilterFilter` | correr_reporte.py:20-22 | two masks in a row equal one mask of their conjunction |
| `Seqs.FilterAppend` | correr_reporte.py:20-22 | masking a concatenation is concatenating the masked parts, so order is kept |
| `Seqs.FilterTake` | correr_reporte.py:81 | what a mask keeps of a prefix is a prefix of what it keeps of the whole |
| `Seqs.Unique` | tipos_incidentes.py:12-13 | the values of the column, each exactly once, in order of first appearance, starting with the first value |
| `Seqs.SortBy` | correr_reporte.py:41 | the output is a permutation of the input and is sorted |
| `Seqs.InsertByKeepsTies` | correr_reporte.py:41 | inserting an element puts it before every element it ties with and keeps the order of the tied elements already there |
| `Seqs.SortByKeepsTies` | correr_reporte.py:41 | the sort is stable: the elements tied with any value come out in their input order |
| `Decimal.IntToString` | crear_mapa.py:97 | the decimal text of an integer, with a minus sign when negative; `IntRoundTrip` and `IntToStringInjective` state that it reads back and never confuses two integers |
| `Decimal.NatToStringShape` | crear_mapa.py:97 | a printed natural number is one or more digits, with a leading zero only for 0 |
| `Decimal.IntRoundTrip` | crear_mapa.py:97 | reading back a printed integer gives the integer |
| `Decimal.IntToStringInjective` | crear_mapa.py:103 | different integers print differently |
| `Decimal.CountToString` | crear_mapa.py:97 | the f-string rendering of a sum: the integer, followed by ".0" when the count column was read as floats; `CountRoundTrip` states what the text reads back as |
| `Decimal.CountRoundTrip` | crear_mapa.py:97 | a count printed as a float ends in ".0", and without that suffix it reads back as the count |
| `Incidents.RowsOfYear` | crear_mapa.py:42 | every kept row has the chosen year |
| `Incidents.RowsOfYearKeepsExactly` | crear_mapa.py:42 | the year mask keeps every copy of each row of that year and nothing else |
| `Incidents.RowsWithout` | crear_mapa.py:12 | every kept row comes from the input, and none has the excluded locality |
| `Incidents.WithoutSentinels` | crear_mapa.py:12-13 | no kept row has a sentinel locality |
| `Incidents.WithoutSentinelsIsOneFilter` | crear_mapa.py:12-13 | the two sentinel masks equal one mask that drops both |
| `Incidents.WithoutSentinelsKeepsExactly` | crear_mapa.py:12-13 | a row is kept, all its copies, exactly when its raw locality is neither sentinel |
| `Incidents.YearAndSentinelFiltersCommute` | correr_reporte.py:20-22 | year and sentinel masks give the same rows in the same order whichever runs first |
| `Incidents.KeptRows` | tipos_incidentes.py:7-9 | every kept row has year 2024 and a raw locality that is not a sentinel |
| `Incidents.KeptRowsKeepExactly` | correr_reporte.py:20-22 | a row is kept, every copy of it, exactly when its year is 2024 and its raw locality is not a sentinel |
| `Incidents.MapLocalidad` | crear_mapa.py:26 | the locality of each row is rewritten in place; row order, length and all other columns are kept |
| `Incidents.YearFilterCommutesWithRename` | crear_mapa.py:26-42 | rewriting localities before or after the year filter gives the same rows |
| `Incidents.Frame.constructor` | correr_reporte.py:17 | a frame holds the loaded rows |
| `Incidents.Frame.KeepYear` | correr_reporte.py:20 | afterwards the frame holds exactly the year mask of its old rows |
| `Incidents.Frame.Drop` | correr_reporte.py:21-22 | afterwards the frame holds its old rows without the given raw locality |
| `Incidents.Frame.ApplyToLocalidad` | correr_reporte.py:35 | afterwards every row has its locality rewritten and is otherwise unchanged |
| `Incidents.AddTo` | crear_mapa.py:45 | adding a count to a group keeps the groups strictly ascending, adds the key, raises only that key's total and raises the grand total by the count |
| `Incidents.GroupSum` | crear_mapa.py:45 | groups strictly ascending by key; the keys are exactly the rows' keys; each total is the sum of its rows' non-missing counts; the totals sum to the rows' total |
| `Incidents.GroupKeyIsRowKey` | crear_mapa.py:45 | every group key is the key of some row |
| `Incidents.RowHasGroup` | crear_mapa.py:45 | every row's key is the key of some group |
| `Incidents.GroupKeyWidth` | correr_reporte.py:38 | when every row key has n columns, so has every group key |
| `Incidents.GroupSumTotals` | correr_reporte.py:38 | each group holds the sum of the non-missing counts of its key's rows |
| `Incidents.SumForAbsent` | crear_mapa.py:45 | a key without rows sums to 0 |
| `Incidents.GroupSumNonNegative` | crear_mapa.py:45 | with non-negative counts, every group total is non-negative |
| `CrearMapa.CountsReadAsFloats` | crear_mapa.py:6 | the count column is read as floats exactly when some raw row has a missing count; it decides the ".0" of every legend entry |
| `CrearMapa.CleanRows` | crear_mapa.py:12-26 | the rows without sentinels, in order, with accents removed from LOCALIDAD and nothing else changed |
| `CrearMapa.CleanRowsHaveNoTildes` | crear_mapa.py:26 | no cleaned locality contains an accented letter |
| `CrearMapa.CleanRowsOfYear` | crear_mapa.py:26-42 | the year filter on the cleaned rows equals removing accents from the year filter of the raw rows |
| `CrearMapa.MentionsSumapaz` | crear_mapa.py:33 | the `str.contains('sumapaz', case=False, na=False)` mask: false for a missing name, otherwise a case-insensitive substring test (`ContainsIgnoringCase`) |
| `CrearMapa.WithoutSumapaz` | crear_mapa.py:33 | no kept polygon's name contains "sumapaz" in any letter case |
| `CrearMapa.WithoutSumapazKeepsExactly` | crear_mapa.py:33 | a polygon is kept exactly when it has no name or its name does not contain "sumapaz" in any letter case |
| `CrearMapa.UnnamedPolygonKept` | crear_mapa.py:33 | a polygon with a missing name survives the filter |
| `CrearMapa.SumapazInAnyCaseDropped` | crear_mapa.py:33 | a name containing "SumaPaz" anywhere is dropped |
| `CrearMapa.RenameAll` | crear_mapa.py:36 | fails exactly when some name is missing; otherwise every name is rewritten and geometry and order are kept |
| `CrearMapa.GeoFrame.constructor` | crear_mapa.py:30 | a polygon table holds the loaded rows |
| `CrearMapa.GeoFrame.DropSumapaz` | crear_mapa.py:33 | afterwards the table holds the filtered old rows |
| `CrearMapa.GeoFrame.ApplyToNames` | crear_mapa.py:36 | succeeds exactly when no name is missing, and then holds the renamed rows; on failure the table is unchanged |
| `CrearMapa.ScoreSum` | crear_mapa.py:45 | one row per group of the per-locality group-by, in its order, with its total |
| `CrearMapa.ScoreSumAscending` | crear_mapa.py:45 | localities come out strictly ascending |
| `CrearMapa.ScoreSumDistinct` | crear_mapa.py:45 | no locality appears twice |
| `CrearMapa.ScoreSumLocalities` | crear_mapa.py:45 | a locality has a row exactly when some input row has that locality |
| `CrearMapa.ScoreSumTotals` | crear_mapa.py:45 | each row holds the sum of its locality's non-missing counts |
| `CrearMapa.ScoreSumGrandTotal` | crear_mapa.py:45 | the sums add up to the sum of all non-missing counts |
| `CrearMapa.TotalCountOfGroups` | crear_mapa.py:45 | totals carried row by row add up to the same grand total |
| `CrearMapa.Lookup` | crear_mapa.py:48 | the index match of the join: the count of the first total whose locality equals the name exactly, none for a missing name; `LookupFound` and `LookupMissing` state both outcomes |
| `CrearMapa.LookupFound` | crear_mapa.py:48 | with distinct localities, looking up a locality gives its own count |
| `CrearMapa.LookupMissing` | crear_mapa.py:48 | a name that no locality has finds nothing |
| `CrearMapa.Join` | crear_mapa.py:48 | the left join keeps every polygon, in order, with its name and geometry |
| `CrearMapa.JoinMatched` | crear_mapa.py:48 | a polygon named like some row's locality gets that locality's sum |
| `CrearMapa.JoinUnmatched` | crear_mapa.py:48 | a polygon with no name, or a name no row has, gets an absent count instead of an error |
| `CrearMapa.JoinIsCaseSensitive` | crear_mapa.py:48 | "Usaquen" does not match a total for "USAQUEN" |
| `CrearMapa.Entries` | crear_mapa.py:96-97 | one legend entry per row of `score_sum` |
| `CrearMapa.LegendLine` | crear_mapa.py:97 | one legend entry, `&nbsp;` then the locality, `: `, the printed sum and `<br>`; `EntryOf` places it in the legend |
| `CrearMapa.EntryOf` | crear_mapa.py:97 | entry `i` is `&nbsp;LOCALIDAD: count<br>` for row `i` |
| `CrearMapa.ConcatSplit` | crear_mapa.py:96-97 | the joined entries are those before entry `i`, then entry `i`, then those after |
| `CrearMapa.Legend` | crear_mapa.py:89-98 | the legend of the map script: the fixed header, the entries of the rows in order, `</div>`; its layout is `LegendLayout` |
| `CrearMapa.LegendLayout` | crear_mapa.py:89-98 | the legend starts with the fixed header and ends with `</div>`; in between come exactly the entries, one per row in row order, each right after the last |
| `CrearMapa.LegendEntry` | crear_mapa.py:96-98 | entry `i` occupies the legend from its offset to the next entry's offset |
| `CrearMapa.BuildLegend` | crear_mapa.py:89-98 | the loop that appends one entry per row with `+=` builds exactly the specified legend |
| `CrearMapa.MapFileName` | crear_mapa.py:103 | `mapa{year}.html`; `MapFileNamesDistinct` and `MapFileNameOf2024` state what names it gives |
| `CrearMapa.MapFileNamesDistinct` | crear_mapa.py:103 | maps of different years are saved under different file names |
| `CrearMapa.MapFileNameOf2024` | crear_mapa.py:103 | the 2024 map is saved as `mapa2024.html` |
| `CrearMapa.Maps` | crear_mapa.py:33-40 | the script fails exactly when a kept polygon has no name; otherwise it makes one map per year, in order |
| `CrearMapa.MapFor` | crear_mapa.py:42-103 | one pass of the year loop: that year's per-locality sums, the join, the legend and the file name; `MapForCounts` states the joined counts |
| `CrearMapa.MapForCounts` | crear_mapa.py:42-48 | in a year's map each polygon keeps its name and geometry, and its count is that year's sum for its name, or absent when no row of that year has it |
| `CrearMapa.MapsOf` | crear_mapa.py:39-40 | map `j` is the map of `Years[j]` |
| `CrearMapa.MapsJoinKeptPolygons` | crear_mapa.py:36-48 | once the script gets through, every kept polygon has a name and map `j` joins the de-accented polygons to the cleaned rows of `Years[j]` |
| `CrearMapa.RenderMaps` | crear_mapa.py:39-103 | the year loop produces exactly the specified map of each year |
| `CrearMapa.CrearMapa` | crear_mapa.py:12-103 | the script body, in-place rewrites of both tables included, produces exactly the specified maps |
| `CorrerReporte.SpacedSentinelSurvives` | correr_reporte.py:20-35 | a 2024 row with locality `" sumapaz "` passes both sentinel filters and is normalised to `"SUMAPAZ"` |
| `CorrerReporte.Aggregate` | correr_reporte.py:38 | one row per group of the (LOCALIDAD, TIPO_DETALLE) group-by, in its order, with its key columns and total |
| `CorrerReporte.AggregateAscending` | correr_reporte.py:38 | rows strictly ascending by locality, then subtype, so no pair appears twice |
| `CorrerReporte.AggregatePairs` | correr_reporte.py:38 | the (locality, subtype) pairs are exactly the rows' pairs |
| `CorrerReporte.AggregateTotals` | correr_reporte.py:38 | each row holds the sum of its pair's non-missing counts |
| `CorrerReporte.AllMissingSumsToZero` | correr_reporte.py:38 | a pair whose counts are all missing sums to 0 |
| `CorrerReporte.AggregateLocalityFromRows` | correr_reporte.py:38 | every aggregate locality is the locality of some input row |
| `CorrerReporte.ReportBefore` | correr_reporte.py:41 | the order of `sort_values(by=[LOCALIDAD, CANT_INCIDENTES], ascending=[True, False])`; `ReportBeforeIsTotalPreorder` and `ReportTies` state its properties |
| `CorrerReporte.ReportBeforeIsTotalPreorder` | correr_reporte.py:41 | "locality ascending, then count descending" is a total preorder |
| `CorrerReporte.SortReport` | correr_reporte.py:41 | a permutation of the aggregate, by locality ascending and, within a locality, by count descending |
| `CorrerReporte.ReportTies` | correr_reporte.py:41 | two rows tie under the sort exactly when they have the same locality and the same count |
| `CorrerReporte.SortReportKeepsTies` | correr_reporte.py:38-41 | rows with the same locality and count keep the aggregate's order, that is ascending subtype, as pandas' stable multi-key sort does |
| `CorrerReporte.ReportTable` | correr_reporte.py:17-41 | the dashboard's table holds exactly the aggregate rows of the normalised kept rows |
| `CorrerReporte.ReportTableIsNormal` | correr_reporte.py:35-41 | every locality in the table is already normalised |
| `CorrerReporte.NormalizedRowsAreNormal` | correr_reporte.py:35 | after the in-place rewrite every row's locality is a fixed point of normalisation |
| `CorrerReporte.AggregateOfNormalRows` | correr_reporte.py:38 | aggregating rows whose localities are normal gives normal localities |
| `CorrerReporte.BuildReport` | correr_reporte.py:17-41 | the step-by-step body, with the in-place column rewrite, produces exactly the specified table |
| `CorrerReporte.NLargest` | correr_reporte.py:81 | min(n, size) rows drawn from the input, by count descending, each with a count at least that of every row left out |
| `CorrerReporte.CountTies` | correr_reporte.py:81 | two rows tie under the count order exactly when their counts are equal |
| `CorrerReporte.NLargestKeepsFirstTies` | correr_reporte.py:81 | `keep='first'`: of the rows with any one count, the ones taken are the earliest of them, in input order |
| `CorrerReporte.TakeDominates` | correr_reporte.py:81 | in a list sorted by count descending, every count in the first part is at least every count after it |
| `CorrerReporte.RowsOf` | correr_reporte.py:69 | the locality mask keeps every copy of the selected locality's rows and nothing else |
| `CorrerReporte.RowsOfCount` | correr_reporte.py:69 | the mask keeps as many rows as the locality has |
| `CorrerReporte.TopDetailsKeepsFirstTies` | correr_reporte.py:69 | of the selected locality's rows with any one count, the charts show the earliest of them, in table order |
| `CorrerReporte.TopDetails` | correr_reporte.py:69 | min(20, n) rows, n being the selected locality's row count, all of that locality, by count descending, none with a count below an omitted row of that locality |
| `CorrerReporte.LocalityColumn` | correr_reporte.py:53 | the LOCALIDAD column of the table, row by row |
| `CorrerReporte.MakeDropdown` | correr_reporte.py:53-54 | one option per distinct locality, labelled by itself, in first-appearance order; the default is the first option, or none when the table is empty |
| `CorrerReporte.DropdownOfSortedTable` | correr_reporte.py:41-54 | on the sorted table the options are strictly ascending and the default is the smallest locality |
| `TiposIncidentes.TipoColumn` | tipos_incidentes.py:12 | the TIPO_INCIDENTE column, row by row |
| `TiposIncidentes.DetalleColumn` | tipos_incidentes.py:13 | the TIPO_DETALLE column, row by row |
| `TiposIncidentes.Taxonomy` | tipos_incidentes.py:19-22 | one (type, subtype) pair per group of the group-by, in its order, with no count column |
| `TiposIncidentes.TaxonomyAscending` | tipos_incidentes.py:19 | pairs strictly ascending by type, then subtype |
| `TiposIncidentes.TaxonomyListsEachPairOnce` | tipos_incidentes.py:19-22 | no pair is listed twice |
| `TiposIncidentes.TaxonomyListsExactlyThePairs` | tipos_incidentes.py:19-22 | a pair is listed exactly when some row has that type and subtype |
| `TiposIncidentes.OutputFromRows` | tipos_incidentes.py:12-22 | the unique types, unique subtypes and pairs are exactly those of the given rows |
| `TiposIncidentes.Run` | tipos_incidentes.py:4-22 | the whole script on the loaded rows: the filters, the two `unique()` columns and the taxonomy; `RunUsesExactlyKeptRows` states what they hold |
| `TiposIncidentes.RunUsesExactlyKeptRows` | tipos_incidentes.py:4-22 | everything the script lists comes from 2024 rows outside the sentinels, and every such row contributes |

## Left out

- Reading the CSV and the shapefile, `drop(columns=...)`, and dtype coercion: the loaded rows are an input sequence of records with the five columns the scripts use.
- Missing values in the string columns: LOCALIDAD, TIPO_INCIDENTE and TIPO_DETALLE are always strings in the model. In the source a missing value has these effects, none of them modelled:
  - a missing LOCALIDAD makes `remove_tildes` raise in the map script (crear_mapa.py:26) and `strip` raise in the dashboard (correr_reporte.py:35);
  - in tipos_incidentes.py a missing LOCALIDAD passes both `!=` filters (lines 8-9) without error and the row is kept;
  - `groupby` drops rows whose key columns are missing (dropna), so rows without TIPO_DETALLE disappear from the dashboard's aggregate (correr_reporte.py:38) and rows without TIPO_INCIDENTE or TIPO_DETALLE from the taxonomy (tipos_incidentes.py:19), their counts with them;
  - `unique()` (tipos_incidentes.py:12-13) lists a missing value as one more entry.
- Unicode beyond Latin-1. `strip` and `upper` are modelled for Latin-1 characters only, the character set the CSV is read with. `contains(case=False)` folds ASCII letter case only, so a match through `ſ` (U+017F), which Python's case folding equates with `s`, is not modelled.
- Geometry: a polygon is an opaque number. The map centre from centroid means (crear_mapa.py:55) is floating-point geometry and is left out.
- folium: the Choropleth, GeoJson, tooltip, styling, LayerControl, adding the legend to the page, and `m.save`. The model keeps the joined table, the legend string and the file name that `save` would receive.
- Dash and plotly: the layout, callback wiring, `run_server`, and `px.bar`/`px.pie` figures. The model keeps the rows the callbacks select and the dropdown's options and default.
- tipos_incidentes.py: `print`, `to_html`, the CSS template, and the file write.
- The two `assert`s after the join (crear_mapa.py:51-52). In the model the merged type always has the count and geometry fields, so they cannot fail.
- Float formatting: with a missing count in the CSV, the map script's sums are floats and print with ".0". `CountToString` is exact only for integral values below 10^16; Python switches to exponent notation beyond that.
- Integer widths: counts and sums are unbounded `int`. The dashboard's `Int64` column (correr_reporte.py:12) and the map script's int64 counts wrap around at 2^63, and the map script's float64 sums (when a count is missing) round above 2^53, so beyond those bounds the model's exact sums differ from what pandas computes and prints.
