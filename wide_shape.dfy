/** The wide-shape builder of `execute_query` in pharma/backend/execute_query.py:
    the raw prescription records of one product query become one row per
    (region, sex, age, product code) holding the total box count and one box
    count per prescriber specialty; a labelled copy then resolves the codes. */
module WideShape {
  import opened Wrappers
  import opened Cells
  import opened Lookup
  import opened Relational
  import opened Loaders

  /** One record of the query result: BEN_REG, sexe, age, the product code
      (CIP13 or GEN_NUM), PSP_SPE and BOITES as returned. */
  datatype Fact = Fact(region: string, sex: string, age: string, code: string, presc: string, boxes: Cell)

  /** (BEN_REG, sexe, age, product code). */
  type Key4 = (string, string, string, string)

  function Key4Of(f: Fact): Key4 { (f.region, f.sex, f.age, f.code) }
  function PrescOf(f: Fact): string { f.presc }
  function Key5Of(f: Fact): (Key4, string) { (Key4Of(f), f.presc) }

  /** Line 168: BOITES read with `pd.to_numeric(errors="coerce").fillna(0)`. */
  function Boxes(parse: Parser): Fact -> real
  {
    (f: Fact) => CoerceReal(parse, f.boxes)
  }

  /** One row of `unified_df`: the four key columns, `total_boites`, and the
      prescriber cells in the order of the table's prescriber columns. */
  datatype WideRow = WideRow(region: string, sex: string, age: string, code: string, total: real, cells: seq<real>)

  /** `unified_df`: the name of its product code column, its prescriber
      columns (PSP_SPE codes) and its rows. */
  datatype Table = Table(codeColumn: string, prescribers: seq<string>, rows: seq<WideRow>)

  function RowKey(r: WideRow): Key4 { (r.region, r.sex, r.age, r.code) }
  function Total(r: WideRow): real { r.total }

  function Row(k: Key4, total: real, cells: seq<real>): WideRow
  {
    WideRow(k.0, k.1, k.2, k.3, total, cells)
  }

  /** Every row has one cell per prescriber column. */
  predicate Rectangular(t: Table)
  {
    forall i :: 0 <= i < |t.rows| ==> |t.rows[i].cells| == |t.prescribers|
  }

  // ---------------------------------------------------------------- pivot

  function DistKey4(d: ((Key4, string), real)): Key4 { d.0.0 }
  function DistPresc(d: ((Key4, string), real)): string { d.0.1 }

  /** The prescriber columns of the pivot: the PSP_SPE values of `dist`. */
  function PivotColumns(dist: seq<((Key4, string), real)>): seq<string>
  {
    Dedup(Keys(dist, DistPresc))
  }

  /** The cells of the pivot row of key `k`: the one `dist` value of each
      (k, prescriber), 0 where there is none (`fill_value=0`). */
  function PivotCells(dist: seq<((Key4, string), real)>, ps: seq<string>, k: Key4): (cells: seq<real>)
    ensures |cells| == |ps|
  {
    seq(|ps|, j requires 0 <= j < |ps| => SumWhere(dist, Fst, Snd, (k, ps[j])))
  }

  /** Lines 185-194: `dist.pivot_table(index=key, columns="PSP_SPE", fill_value=0)`:
      one row per key of `dist`. As `dist` holds one value per (key,
      prescriber), the mean `pivot_table` takes is that value. */
  function Pivot(dist: seq<((Key4, string), real)>): (p: seq<(Key4, seq<real>)>)
    ensures Keys(p, Fst) == Dedup(Keys(dist, DistKey4))
    ensures forall i :: 0 <= i < |p| ==> p[i].1 == PivotCells(dist, PivotColumns(dist), p[i].0)
  {
    var ks := Dedup(Keys(dist, DistKey4));
    seq(|ks|, i requires 0 <= i < |ks| => (ks[i], PivotCells(dist, PivotColumns(dist), ks[i])))
  }

  /** The pivot's rows and columns: one row per distinct key of `dist` and
      one column per distinct PSP_SPE of `dist`, each once. */
  lemma PivotShape(dist: seq<((Key4, string), real)>)
    ensures var p, ps := Pivot(dist), PivotColumns(dist);
            && Distinct(Keys(p, Fst)) && Distinct(ps)
            && (forall k :: k in Keys(p, Fst) <==> k in Keys(dist, DistKey4))
            && (forall c :: c in ps <==> c in Keys(dist, DistPresc))
            && (forall i :: 0 <= i < |p| ==> |p[i].1| == |ps|)
  {
    var p, ps := Pivot(dist), PivotColumns(dist);
    forall k | k in Keys(dist, DistKey4) ensures k in Keys(p, Fst) {
      var a :| 0 <= a < |dist| && Keys(dist, DistKey4)[a] == k;
    }
  }

  /** `fill_value=0`: a (key, prescriber) pair without a `dist` row has a 0 cell. */
  lemma PivotFill(dist: seq<((Key4, string), real)>, i: nat, j: nat)
    requires i < |Pivot(dist)| && j < |PivotColumns(dist)|
    requires (Pivot(dist)[i].0, PivotColumns(dist)[j]) !in Keys(dist, Fst)
    ensures Pivot(dist)[i].1[j] == 0.0
  {
    SumWhereAbsent(dist, Fst, Snd, (Pivot(dist)[i].0, PivotColumns(dist)[j]));
  }

  /** With one `dist` row per (key, prescriber), as the group-by at lines
      178-182 makes it, a cell is the value of its pair's row. */
  lemma PivotValue(dist: seq<((Key4, string), real)>, a: nat, i: nat, j: nat)
    requires Distinct(Keys(dist, Fst))
    requires a < |dist| && i < |Pivot(dist)| && j < |PivotColumns(dist)|
    requires dist[a].0 == (Pivot(dist)[i].0, PivotColumns(dist)[j])
    ensures Pivot(dist)[i].1[j] == dist[a].1
  {
    SumWhereUnique(dist, Fst, Snd, a);
  }

  // ---------------------------------------------------------------- inner merge

  /** The rows the total row `x` yields in the inner merge: one per pivot row of its key. */
  function MatchRows(x: (Key4, real), pivot: seq<(Key4, seq<real>)>): seq<WideRow>
  {
    if pivot == [] then [] else
      MatchRows(x, pivot[..|pivot| - 1])
      + (if pivot[|pivot| - 1].0 == x.0 then [Row(x.0, x.1, pivot[|pivot| - 1].1)] else [])
  }

  /** Line 197: `total.merge(pivot, on=key)` (inner): every total row paired
      with every pivot row of the same key, in the order of the totals. */
  function InnerMerge(total: seq<(Key4, real)>, pivot: seq<(Key4, seq<real>)>): seq<WideRow>
  {
    if total == [] then [] else
      InnerMerge(total[..|total| - 1], pivot) + MatchRows(total[|total| - 1], pivot)
  }

  lemma {:induction false} MatchRowsAbsent(x: (Key4, real), pivot: seq<(Key4, seq<real>)>)
    requires x.0 !in Keys(pivot, Fst)
    ensures MatchRows(x, pivot) == []
    decreases |pivot|
  {
    if pivot != [] {
      assert Keys(pivot[..|pivot| - 1], Fst) == Keys(pivot, Fst)[..|pivot| - 1];
      MatchRowsAbsent(x, pivot[..|pivot| - 1]);
    }
  }

  /** With distinct pivot keys, a total row whose key the pivot has yields
      exactly one row, carrying that pivot row's cells. */
  lemma {:induction false} MatchRowsUnique(x: (Key4, real), pivot: seq<(Key4, seq<real>)>, i: nat)
    requires Distinct(Keys(pivot, Fst)) && i < |pivot| && pivot[i].0 == x.0
    ensures MatchRows(x, pivot) == [Row(x.0, x.1, pivot[i].1)]
    decreases |pivot|
  {
    var p := pivot[..|pivot| - 1];
    assert Keys(p, Fst) == Keys(pivot, Fst)[..|pivot| - 1];
    if i == |pivot| - 1 {
      MatchRowsAbsent(x, p);
    } else {
      assert Keys(pivot, Fst)[i] != Keys(pivot, Fst)[|pivot| - 1];
      MatchRowsUnique(x, p, i);
    }
  }

  /** When the pivot has every key of the totals once, the inner merge keeps
      the totals' rows one for one and adds the cells of each key. */
  lemma {:induction false} InnerMergeOneToOne(total: seq<(Key4, real)>, pivot: seq<(Key4, seq<real>)>,
                                              cellsOf: Key4 -> seq<real>)
    requires Distinct(Keys(pivot, Fst))
    requires forall i :: 0 <= i < |pivot| ==> pivot[i].1 == cellsOf(pivot[i].0)
    requires forall i :: 0 <= i < |total| ==> total[i].0 in Keys(pivot, Fst)
    ensures |InnerMerge(total, pivot)| == |total|
    ensures forall i :: 0 <= i < |total| ==>
              InnerMerge(total, pivot)[i] == Row(total[i].0, total[i].1, cellsOf(total[i].0))
    decreases |total|
  {
    if total != [] {
      var p, x := total[..|total| - 1], total[|total| - 1];
      InnerMergeOneToOne(p, pivot, cellsOf);
      var j :| 0 <= j < |pivot| && Keys(pivot, Fst)[j] == x.0;
      MatchRowsUnique(x, pivot, j);
      InnerMergeStep(total, pivot, cellsOf);
    }
  }

  /** The last total row adds its one matched row after the others. */
  lemma InnerMergeStep(total: seq<(Key4, real)>, pivot: seq<(Key4, seq<real>)>, cellsOf: Key4 -> seq<real>)
    requires total != []
    requires var p := total[..|total| - 1];
             && |InnerMerge(p, pivot)| == |p|
             && forall i :: 0 <= i < |p| ==> InnerMerge(p, pivot)[i] == Row(p[i].0, p[i].1, cellsOf(p[i].0))
    requires var x := total[|total| - 1];
             MatchRows(x, pivot) == [Row(x.0, x.1, cellsOf(x.0))]
    ensures |InnerMerge(total, pivot)| == |total|
    ensures forall i :: 0 <= i < |total| ==>
              InnerMerge(total, pivot)[i] == Row(total[i].0, total[i].1, cellsOf(total[i].0))
  {
    var p := total[..|total| - 1];
    forall i | 0 <= i < |total|
      ensures InnerMerge(total, pivot)[i] == Row(total[i].0, total[i].1, cellsOf(total[i].0))
    {
      if i < |p| {
        assert total[i] == p[i];
      }
    }
  }

  // ---------------------------------------------------------------- the builder

  /** Lines 166-197 (and 231-261 for the generic query): coerce BOITES, total
      it per (region, sex, age, product), total it per prescriber too, pivot the
      prescribers into columns and merge the two. A query that returns no record
      gives a table without any column, so reading BOITES raises `KeyError`. */
  function BuildWide(parse: Parser, facts: seq<Fact>, codeColumn: string): (r: Result<Table>)
    ensures r.KeyError? <==> facts == []
    ensures r.KeyError? ==> r.key == "BOITES"
    ensures r.Success? ==> r.value.codeColumn == codeColumn && Rectangular(r.value)
  {
    if facts == [] then KeyError("BOITES") else
      var total := GroupSum(facts, Key4Of, Boxes(parse));
      var dist := GroupSum(facts, Key5Of, Boxes(parse));
      var pivot := Pivot(dist);
      var ps := PivotColumns(dist);
      PivotComplete(parse, facts);
      InnerMergeOneToOne(total, pivot, k => PivotCells(dist, ps, k));
      Success(Table(codeColumn, ps, InnerMerge(total, pivot)))
  }

  /** Every key of the records has a pivot row. */
  lemma PivotComplete(parse: Parser, facts: seq<Fact>)
    ensures var dist := GroupSum(facts, Key5Of, Boxes(parse));
            forall i :: 0 <= i < |GroupSum(facts, Key4Of, Boxes(parse))| ==>
              GroupSum(facts, Key4Of, Boxes(parse))[i].0 in Keys(Pivot(dist), Fst)
  {
    var total := GroupSum(facts, Key4Of, Boxes(parse));
    var dist := GroupSum(facts, Key5Of, Boxes(parse));
    forall i | 0 <= i < |total| ensures total[i].0 in Keys(Pivot(dist), Fst) {
      var k := total[i].0;
      assert k in Dedup(Keys(facts, Key4Of)) by {
        assert Keys(total, Fst)[i] == k;
      }
      var a :| 0 <= a < |facts| && Keys(facts, Key4Of)[a] == k;
      PivotHasFact(parse, facts, a);
    }
  }

  /** The key of every record has a pivot row. */
  lemma PivotHasFact(parse: Parser, facts: seq<Fact>, a: nat)
    requires a < |facts|
    ensures Key4Of(facts[a]) in Keys(Pivot(GroupSum(facts, Key5Of, Boxes(parse))), Fst)
  {
    var dist := GroupSum(facts, Key5Of, Boxes(parse));
    assert Keys(facts, Key5Of)[a] == Key5Of(facts[a]);
    var b :| 0 <= b < |dist| && Keys(dist, Fst)[b] == Key5Of(facts[a]);
    assert Keys(dist, DistKey4)[b] == Key4Of(facts[a]);
  }

  /** The rows of the built table are the totals, in order, each with its pivot cells. */
  lemma WideRowsAre(parse: Parser, facts: seq<Fact>, codeColumn: string)
    requires facts != []
    ensures var t := BuildWide(parse, facts, codeColumn).value;
            var total := GroupSum(facts, Key4Of, Boxes(parse));
            var dist := GroupSum(facts, Key5Of, Boxes(parse));
            && t.prescribers == PivotColumns(dist)
            && |t.rows| == |total|
            && forall i :: 0 <= i < |total| ==>
                 t.rows[i] == Row(total[i].0, total[i].1, PivotCells(dist, t.prescribers, total[i].0))
  {
    var total := GroupSum(facts, Key4Of, Boxes(parse));
    var dist := GroupSum(facts, Key5Of, Boxes(parse));
    var ps := PivotColumns(dist);
    PivotComplete(parse, facts);
    InnerMergeOneToOne(total, Pivot(dist), k => PivotCells(dist, ps, k));
  }

  /** Every PSP_SPE of the records is a pivot column. */
  lemma PivotColumnsCover(parse: Parser, facts: seq<Fact>)
    ensures forall a :: 0 <= a < |facts| ==>
              facts[a].presc in PivotColumns(GroupSum(facts, Key5Of, Boxes(parse)))
  {
    var dist := GroupSum(facts, Key5Of, Boxes(parse));
    forall a | 0 <= a < |facts| ensures facts[a].presc in PivotColumns(dist) {
      assert Keys(facts, Key5Of)[a] == Key5Of(facts[a]);
      var b :| 0 <= b < |dist| && Keys(dist, Fst)[b] == Key5Of(facts[a]);
      assert Keys(dist, DistPresc)[b] == facts[a].presc;
    }
  }

  /** Every pivot column is the PSP_SPE of some record. */
  lemma PivotColumnsFrom(parse: Parser, facts: seq<Fact>)
    ensures var ps := PivotColumns(GroupSum(facts, Key5Of, Boxes(parse)));
            forall j :: 0 <= j < |ps| ==> ps[j] in Keys(facts, PrescOf)
  {
    var dist := GroupSum(facts, Key5Of, Boxes(parse));
    var ps := PivotColumns(dist);
    forall j | 0 <= j < |ps| ensures ps[j] in Keys(facts, PrescOf) {
      var b :| 0 <= b < |dist| && Keys(dist, DistPresc)[b] == ps[j];
      assert Keys(dist, Fst)[b] == dist[b].0;
      var a :| 0 <= a < |facts| && Keys(facts, Key5Of)[a] == dist[b].0;
      assert Keys(facts, PrescOf)[a] == facts[a].presc;
    }
  }

  /** Lines 185-194: the prescriber columns are the PSP_SPE values of the
      records, each once. */
  lemma WidePrescribers(parse: Parser, facts: seq<Fact>, codeColumn: string)
    requires facts != []
    ensures var t := BuildWide(parse, facts, codeColumn).value;
            && Distinct(t.prescribers)
            && (forall a :: 0 <= a < |facts| ==> facts[a].presc in t.prescribers)
            && (forall j :: 0 <= j < |t.prescribers| ==> t.prescribers[j] in Keys(facts, PrescOf))
  {
    WideRowsAre(parse, facts, codeColumn);
    PivotColumnsCover(parse, facts);
    PivotColumnsFrom(parse, facts);
  }

  /** Lines 171-175 and 197: one row per distinct (region, sex, age, product)
      of the records, and no other. */
  lemma WideKeys(parse: Parser, facts: seq<Fact>, codeColumn: string)
    requires facts != []
    ensures var t := BuildWide(parse, facts, codeColumn).value;
            && Distinct(Keys(t.rows, RowKey))
            && (forall a :: 0 <= a < |facts| ==> Key4Of(facts[a]) in Keys(t.rows, RowKey))
            && (forall i :: 0 <= i < |t.rows| ==> RowKey(t.rows[i]) in Keys(facts, Key4Of))
  {
    var t := BuildWide(parse, facts, codeColumn).value;
    var total := GroupSum(facts, Key4Of, Boxes(parse));
    WideRowsAre(parse, facts, codeColumn);
    assert Keys(t.rows, RowKey) == Keys(total, Fst);
    forall a | 0 <= a < |facts| ensures Key4Of(facts[a]) in Keys(t.rows, RowKey) {
      assert Keys(facts, Key4Of)[a] == Key4Of(facts[a]);
    }
  }

  /** Lines 168-175: a row's `total_boites` is the sum of the coerced BOITES of
      the records of its key, an unparsable or missing count adding 0. */
  lemma WideTotals(parse: Parser, facts: seq<Fact>, codeColumn: string)
    requires facts != []
    ensures var t := BuildWide(parse, facts, codeColumn).value;
            forall i :: 0 <= i < |t.rows| ==>
              t.rows[i].total == SumWhere(facts, Key4Of, Boxes(parse), RowKey(t.rows[i]))
  {
    WideRowsAre(parse, facts, codeColumn);
  }

  /** Lines 178-194: a row's cell for a prescriber is the sum of the coerced
      BOITES of the records of its key and that PSP_SPE, 0 when there is none. */
  lemma WideCells(parse: Parser, facts: seq<Fact>, codeColumn: string)
    requires facts != []
    ensures var t := BuildWide(parse, facts, codeColumn).value;
            forall i, j :: 0 <= i < |t.rows| && 0 <= j < |t.prescribers| ==>
              t.rows[i].cells[j] == SumWhere(facts, Key5Of, Boxes(parse), (RowKey(t.rows[i]), t.prescribers[j]))
  {
    var t := BuildWide(parse, facts, codeColumn).value;
    forall i, j | 0 <= i < |t.rows| && 0 <= j < |t.prescribers|
      ensures t.rows[i].cells[j] == SumWhere(facts, Key5Of, Boxes(parse), (RowKey(t.rows[i]), t.prescribers[j]))
    {
      WideRowCells(parse, facts, codeColumn, i);
      PivotCell(parse, facts, t.rows[i], t.prescribers, j);
    }
  }

  lemma WideRowCells(parse: Parser, facts: seq<Fact>, codeColumn: string, i: nat)
    requires facts != [] && i < |BuildWide(parse, facts, codeColumn).value.rows|
    ensures var t := BuildWide(parse, facts, codeColumn).value;
            t.rows[i].cells == PivotCells(GroupSum(facts, Key5Of, Boxes(parse)), t.prescribers, RowKey(t.rows[i]))
  {
    WideRowsAre(parse, facts, codeColumn);
  }

  /** One pivoted cell is the sum of the records of its key and PSP_SPE. */
  lemma PivotCell(parse: Parser, facts: seq<Fact>, r: WideRow, ps: seq<string>, j: nat)
    requires r.cells == PivotCells(GroupSum(facts, Key5Of, Boxes(parse)), ps, RowKey(r)) && j < |ps|
    ensures r.cells[j] == SumWhere(facts, Key5Of, Boxes(parse), (RowKey(r), ps[j]))
  {
    GroupSumLookup(facts, Key5Of, Boxes(parse), (RowKey(r), ps[j]));
  }

  /** The prescriber cells of a row add up to its `total_boites`. */
  lemma WideCellsSum(parse: Parser, facts: seq<Fact>, codeColumn: string, i: nat)
    requires facts != [] && i < |BuildWide(parse, facts, codeColumn).value.rows|
    ensures var r := BuildWide(parse, facts, codeColumn).value.rows[i];
            SumOf(r.cells, Id) == r.total
  {
    var t := BuildWide(parse, facts, codeColumn).value;
    WidePrescribers(parse, facts, codeColumn);
    WideCells(parse, facts, codeColumn);
    WideTotals(parse, facts, codeColumn);
    forall a | 0 <= a < |facts| ensures PrescOf(facts[a]) in t.prescribers {
    }
    SumWherePartition(facts, Key4Of, PrescOf, Key5Of, Boxes(parse), RowKey(t.rows[i]), t.prescribers, t.rows[i].cells);
  }

  /** The table's `total_boites` column adds up to all the coerced BOITES. */
  lemma WideConserves(parse: Parser, facts: seq<Fact>, codeColumn: string)
    requires facts != []
    ensures SumOf(BuildWide(parse, facts, codeColumn).value.rows, Total) == SumOf(facts, Boxes(parse))
  {
    var t := BuildWide(parse, facts, codeColumn).value;
    var total := GroupSum(facts, Key4Of, Boxes(parse));
    WideRowsAre(parse, facts, codeColumn);
    SumOfPointwise(t.rows, Total, total, Snd);
    GroupSumConserves(facts, Key4Of, Boxes(parse));
  }

  /** No total and no prescriber cell of a wide table is negative. */
  predicate NonNegative(t: Table)
  {
    forall i :: 0 <= i < |t.rows| ==>
      t.rows[i].total >= 0.0 && forall j :: 0 <= j < |t.rows[i].cells| ==> t.rows[i].cells[j] >= 0.0
  }

  /** Box counts that are never negative give a table without negative sums. */
  lemma WideNonNegative(parse: Parser, facts: seq<Fact>, codeColumn: string)
    requires facts != []
    requires forall a :: 0 <= a < |facts| ==> Boxes(parse)(facts[a]) >= 0.0
    ensures NonNegative(BuildWide(parse, facts, codeColumn).value)
  {
    var t := BuildWide(parse, facts, codeColumn).value;
    WideTotals(parse, facts, codeColumn);
    WideCells(parse, facts, codeColumn);
    forall i | 0 <= i < |t.rows|
      ensures t.rows[i].total >= 0.0 && forall j :: 0 <= j < |t.rows[i].cells| ==> t.rows[i].cells[j] >= 0.0
    {
      SumWhereNonNegative(facts, Key4Of, Boxes(parse), RowKey(t.rows[i]));
      forall j | 0 <= j < |t.rows[i].cells| ensures t.rows[i].cells[j] >= 0.0 {
        SumWhereNonNegative(facts, Key5Of, Boxes(parse), (RowKey(t.rows[i]), t.prescribers[j]));
      }
    }
  }
}
