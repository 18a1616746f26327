/**
 * The taxonomy script: the 2024 rows outside the two sentinels, the
 * distinct values of the type and subtype columns, and the distinct
 * (TIPO_INCIDENTE, TIPO_DETALLE) pairs left after a group-by whose count
 * column is then dropped.
 */
module TiposIncidentes {
  import opened Order
  import opened Seqs
  import opened Incidents

  // ---------------------------------------------------------------------------
  // The columns unique() reads: lines 12-13
  // ---------------------------------------------------------------------------

  function TipoColumn(rows: seq<Record>): (c: seq<string>)
    ensures |c| == |rows| && forall k :: 0 <= k < |c| ==> c[k] == rows[k].tipo
  {
    seq(|rows|, k requires 0 <= k < |rows| => rows[k].tipo)
  }

  function DetalleColumn(rows: seq<Record>): (c: seq<string>)
    ensures |c| == |rows| && forall k :: 0 <= k < |c| ==> c[k] == rows[k].detalle
  {
    seq(|rows|, k requires 0 <= k < |rows| => rows[k].detalle)
  }

  // ---------------------------------------------------------------------------
  // groupby(['TIPO_INCIDENTE','TIPO_DETALLE']) ... drop(columns=['CANT_INCIDENTES']): lines 19-22
  // ---------------------------------------------------------------------------

  /** One row of the published table: a type and a subtype, and no count. */
  datatype TaxonomyPair = TaxonomyPair(tipo: string, detalle: string)

  predicate TaxonomyLess(a: TaxonomyPair, b: TaxonomyPair) {
    StrLess(a.tipo, b.tipo) || (a.tipo == b.tipo && StrLess(a.detalle, b.detalle))
  }

  /** The group keys of the rows, in pandas' sorted group order, with the sums dropped. */
  function Taxonomy(rows: seq<Record>): (r: seq<TaxonomyPair>)
    ensures |r| == |GroupSum(rows, TypeDetailKey)|
    ensures forall i :: 0 <= i < |r| ==> [r[i].tipo, r[i].detalle] == GroupSum(rows, TypeDetailKey)[i].key
  {
    var gs := GroupSum(rows, TypeDetailKey);
    GroupKeyWidth(rows, TypeDetailKey, 2);
    seq(|gs|, i requires 0 <= i < |gs| => TaxonomyPair(gs[i].key[0], gs[i].key[1]))
  }

  /** The pairs come out strictly ascending by type, then subtype. */
  lemma TaxonomyAscending(rows: seq<Record>)
    ensures forall i, j :: 0 <= i < j < |Taxonomy(rows)| ==> TaxonomyLess(Taxonomy(rows)[i], Taxonomy(rows)[j])
  {
    var r := Taxonomy(rows);
    forall i, j | 0 <= i < j < |r| ensures TaxonomyLess(r[i], r[j]) {
      PairKeyLess(r[i].tipo, r[i].detalle, r[j].tipo, r[j].detalle);
    }
  }

  /** So no pair is listed twice. */
  lemma TaxonomyListsEachPairOnce(rows: seq<Record>)
    ensures forall i, j :: 0 <= i < j < |Taxonomy(rows)| ==> Taxonomy(rows)[i] != Taxonomy(rows)[j]
  {
    TaxonomyAscending(rows);
    var r := Taxonomy(rows);
    forall i, j | 0 <= i < j < |r| ensures r[i] != r[j] {
      StrLessIrreflexive(r[i].tipo);
      StrLessIrreflexive(r[i].detalle);
    }
  }

  /** A pair is listed exactly when some row has that type and that subtype. */
  lemma TaxonomyListsExactlyThePairs(rows: seq<Record>, t: string, d: string)
    ensures (exists i :: 0 <= i < |Taxonomy(rows)| && Taxonomy(rows)[i] == TaxonomyPair(t, d))
        <==> (exists k :: 0 <= k < |rows| && rows[k].tipo == t && rows[k].detalle == d)
  {
    var r := Taxonomy(rows);
    if exists i :: 0 <= i < |r| && r[i] == TaxonomyPair(t, d) {
      var i :| 0 <= i < |r| && r[i] == TaxonomyPair(t, d);
      var k := GroupKeyAtRow(rows, TypeDetailKey, i);
      assert [rows[k].tipo, rows[k].detalle] == [t, d];
    }
    if exists k :: 0 <= k < |rows| && rows[k].tipo == t && rows[k].detalle == d {
      var k :| 0 <= k < |rows| && rows[k].tipo == t && rows[k].detalle == d;
      var i := RowHasGroup(rows, TypeDetailKey, k);
      assert r[i] == TaxonomyPair(t, d);
    }
  }

  // ---------------------------------------------------------------------------
  // The script: lines 4-22
  // ---------------------------------------------------------------------------

  /** What the script prints and publishes, before any formatting. */
  datatype TaxonomyOutput = TaxonomyOutput(tipos: seq<string>, detalles: seq<string>, table: seq<TaxonomyPair>)

  /** The script on the loaded rows: the two `unique()` columns and the taxonomy of the kept rows. */
  function Run(raw: seq<Record>): TaxonomyOutput {
    var rows := KeptRows(raw);
    TaxonomyOutput(Unique(TipoColumn(rows)), Unique(DetalleColumn(rows)), Taxonomy(rows))
  }

  /**
   * Every value and pair the script prints or publishes comes from a row of
   * 2024 whose raw locality is not a sentinel, and every such row contributes.
   */
  lemma RunUsesExactlyKeptRows(raw: seq<Record>)
    ensures var out, rows := Run(raw), KeptRows(raw);
            (forall t :: t in out.tipos <==> exists k :: 0 <= k < |rows| && rows[k].tipo == t) &&
            (forall d :: d in out.detalles <==> exists k :: 0 <= k < |rows| && rows[k].detalle == d) &&
            (forall t, d :: TaxonomyPair(t, d) in out.table <==>
               exists k :: 0 <= k < |rows| && rows[k].tipo == t && rows[k].detalle == d)
  {
    OutputFromRows(KeptRows(raw));
  }

  lemma OutputFromRows(rows: seq<Record>)
    ensures var tipos, detalles, table := Unique(TipoColumn(rows)), Unique(DetalleColumn(rows)), Taxonomy(rows);
            (forall t :: t in tipos <==> exists k :: 0 <= k < |rows| && rows[k].tipo == t) &&
            (forall d :: d in detalles <==> exists k :: 0 <= k < |rows| && rows[k].detalle == d) &&
            (forall t, d :: TaxonomyPair(t, d) in table <==>
               exists k :: 0 <= k < |rows| && rows[k].tipo == t && rows[k].detalle == d)
  {
    var table := Taxonomy(rows);
    forall t ensures t in TipoColumn(rows) <==> exists k :: 0 <= k < |rows| && rows[k].tipo == t {
      if t in TipoColumn(rows) {
        var k :| 0 <= k < |rows| && TipoColumn(rows)[k] == t;
      }
    }
    forall d ensures d in DetalleColumn(rows) <==> exists k :: 0 <= k < |rows| && rows[k].detalle == d {
      if d in DetalleColumn(rows) {
        var k :| 0 <= k < |rows| && DetalleColumn(rows)[k] == d;
      }
    }
    forall t, d ensures TaxonomyPair(t, d) in table <==> exists k :: 0 <= k < |rows| && rows[k].tipo == t && rows[k].detalle == d {
      TaxonomyListsExactlyThePairs(rows, t, d);
    }
  }
}
