/** The `execute_query` entry point of pharma/backend/execute_query.py: build
    the wide table of the brand query and of the generic query, label a copy of
    each for display, and compare the two unlabelled tables. The database, the
    environment and the CSV lookup tables are parameters: the records each
    query returns, the number parser and the lookup maps. */
module QueryPipeline {
  import opened Wrappers
  import opened Cells
  import opened Lookup
  import opened Relational
  import opened Loaders
  import opened WideShape
  import opened BrandGeneric

  /** Lines 209 and 273: the columns that are not renamed as prescribers. */
  function CoreCols(codeColumn: string): set<string>
  {
    {"BEN_REG", "sexe", "age", codeColumn, "Region", "Sex", "Age", Display(codeColumn), "total_boites"}
  }

  /** No PSP_SPE value is spelled like one of the table's fixed columns. */
  predicate PlainLabels(t: Table)
  {
    forall j :: 0 <= j < |t.prescribers| ==> t.prescribers[j] !in CoreCols(t.codeColumn)
  }

  /** One row of a labelled table: its counts and its four labels; the
      original codes are dropped (lines 214 and 278). */
  datatype MappedRow = MappedRow(total: real, cells: seq<real>, region: string, sex: string, age: string, product: string)

  datatype Mapped = Mapped(columns: seq<string>, rows: seq<MappedRow>)

  function MappedTotal(r: MappedRow): real { r.total }

  /** Lines 206 and 270: a brand product shows its CIP label, a generic group
      its GEN_NUM as text. */
  function ProductLabel(maps: Maps, codeColumn: string, code: string): string
  {
    if codeColumn == "GEN_NUM" then code else Resolve(maps.cpi, code)
  }

  function LabelRow(maps: Maps, codeColumn: string, r: WideRow): MappedRow
  {
    MappedRow(r.total, r.cells, Resolve(maps.region, r.region), Resolve(maps.sex, r.sex),
              Resolve(maps.age, r.age), ProductLabel(maps, codeColumn, r.code))
  }

  /** Lines 199-214 (and 263-278): the labelled copy of a wide table. The
      header is `total_boites`, the prescriber columns under their labels, then
      Region, Sex, Age and the product column; each row keeps its counts and
      shows the labels of its codes, a code without a label shown as itself. */
  function LabelWide(t: Table, maps: Maps): (m: Mapped)
    requires Rectangular(t) && PlainLabels(t)
    ensures |m.columns| == |t.prescribers| + 5
    ensures m.columns[0] == "total_boites"
    ensures forall j :: 0 <= j < |t.prescribers| ==> m.columns[j + 1] == Resolve(maps.presc, t.prescribers[j])
    ensures m.columns[|t.prescribers| + 1..] == ["Region", "Sex", "Age", Display(t.codeColumn)]
    ensures |m.rows| == |t.rows|
    ensures forall i :: 0 <= i < |t.rows| ==>
              && m.rows[i].total == t.rows[i].total && m.rows[i].cells == t.rows[i].cells
              && |m.rows[i].cells| == |t.prescribers|
              && m.rows[i].region == Resolve(maps.region, t.rows[i].region)
              && m.rows[i].sex == Resolve(maps.sex, t.rows[i].sex)
              && m.rows[i].age == Resolve(maps.age, t.rows[i].age)
              && m.rows[i].product == ProductLabel(maps, t.codeColumn, t.rows[i].code)
  {
    var renamed := seq(|t.prescribers|, j requires 0 <= j < |t.prescribers| => Resolve(maps.presc, t.prescribers[j]));
    var columns := ["total_boites"] + renamed + ["Region", "Sex", "Age", Display(t.codeColumn)];
    assert columns[|t.prescribers| + 1..] == ["Region", "Sex", "Age", Display(t.codeColumn)];
    Mapped(columns, seq(|t.rows|, i requires 0 <= i < |t.rows| => LabelRow(maps, t.codeColumn, t.rows[i])))
  }

  /** The labels of a query record. */
  function FactLabels(maps: Maps, codeColumn: string, f: Fact): (string, string, string, string)
  {
    (Resolve(maps.region, f.region), Resolve(maps.sex, f.sex), Resolve(maps.age, f.age),
     ProductLabel(maps, codeColumn, f.code))
  }

  function RowLabels(r: MappedRow): (string, string, string, string)
  {
    (r.region, r.sex, r.age, r.product)
  }

  /** A labelled row shows the labels of the record `f` and the total of its key. */
  predicate FromFact(parse: Parser, maps: Maps, codeColumn: string, facts: seq<Fact>, r: MappedRow, f: Fact)
  {
    RowLabels(r) == FactLabels(maps, codeColumn, f) && r.total == SumWhere(facts, Key4Of, Boxes(parse), Key4Of(f))
  }

  /** Some record of the query gives the row its labels and its total. */
  predicate FromSomeFact(parse: Parser, maps: Maps, codeColumn: string, facts: seq<Fact>, r: MappedRow)
  {
    exists a :: 0 <= a < |facts| && FromFact(parse, maps, codeColumn, facts, r, facts[a])
  }

  /** The record behind one labelled row. */
  lemma LabelledRow(parse: Parser, maps: Maps, facts: seq<Fact>, t: Table, i: nat) returns (a: nat)
    requires Rectangular(t) && PlainLabels(t) && i < |t.rows|
    requires RowKey(t.rows[i]) in Keys(facts, Key4Of)
    requires t.rows[i].total == SumWhere(facts, Key4Of, Boxes(parse), RowKey(t.rows[i]))
    ensures a < |facts| && FromFact(parse, maps, t.codeColumn, facts, LabelWide(t, maps).rows[i], facts[a])
  {
    var ks := Keys(facts, Key4Of);
    a :| 0 <= a < |ks| && ks[a] == RowKey(t.rows[i]);
  }

  /** Labelling keeps the link between a table's rows and the records. */
  lemma LabelledRowsOf(parse: Parser, maps: Maps, facts: seq<Fact>, t: Table)
    requires Rectangular(t) && PlainLabels(t)
    requires forall i :: 0 <= i < |t.rows| ==> RowKey(t.rows[i]) in Keys(facts, Key4Of)
    requires forall i :: 0 <= i < |t.rows| ==> t.rows[i].total == SumWhere(facts, Key4Of, Boxes(parse), RowKey(t.rows[i]))
    ensures forall i :: 0 <= i < |t.rows| ==> FromSomeFact(parse, maps, t.codeColumn, facts, LabelWide(t, maps).rows[i])
  {
    forall i | 0 <= i < |t.rows| ensures FromSomeFact(parse, maps, t.codeColumn, facts, LabelWide(t, maps).rows[i]) {
      var a := LabelledRow(parse, maps, facts, t, i);
    }
  }

  /** Every record's labels have a row of the labelled table. */
  lemma LabelledCoverOf(maps: Maps, facts: seq<Fact>, t: Table)
    requires Rectangular(t) && PlainLabels(t)
    requires forall a :: 0 <= a < |facts| ==> Key4Of(facts[a]) in Keys(t.rows, RowKey)
    ensures forall a :: 0 <= a < |facts| ==> FactLabels(maps, t.codeColumn, facts[a]) in Keys(LabelWide(t, maps).rows, RowLabels)
  {
    var m := LabelWide(t, maps);
    var ks := Keys(t.rows, RowKey);
    forall a | 0 <= a < |facts| ensures FactLabels(maps, t.codeColumn, facts[a]) in Keys(m.rows, RowLabels) {
      assert Key4Of(facts[a]) in ks;
      var i :| 0 <= i < |ks| && ks[i] == Key4Of(facts[a]);
      assert Keys(m.rows, RowLabels)[i] == FactLabels(maps, t.codeColumn, facts[a]);
    }
  }

  /** Lines 166-214: every labelled row shows the labels of some query record
      and the total of that record's key; every record's labels have a row. */
  lemma LabelledRows(parse: Parser, maps: Maps, facts: seq<Fact>, codeColumn: string)
    requires facts != []
    requires PlainLabels(BuildWide(parse, facts, codeColumn).value)
    ensures var m := LabelWide(BuildWide(parse, facts, codeColumn).value, maps);
            && (forall i :: 0 <= i < |m.rows| ==> FromSomeFact(parse, maps, codeColumn, facts, m.rows[i]))
            && (forall a :: 0 <= a < |facts| ==> FactLabels(maps, codeColumn, facts[a]) in Keys(m.rows, RowLabels))
  {
    WideKeys(parse, facts, codeColumn);
    WideTotals(parse, facts, codeColumn);
    LabelledRowsOf(parse, maps, facts, BuildWide(parse, facts, codeColumn).value);
    LabelledCoverOf(maps, facts, BuildWide(parse, facts, codeColumn).value);
  }

  /** The labelled table's `total_boites` column adds up to all the coerced BOITES. */
  lemma LabelledConserves(parse: Parser, maps: Maps, facts: seq<Fact>, codeColumn: string)
    requires facts != []
    requires PlainLabels(BuildWide(parse, facts, codeColumn).value)
    ensures SumOf(LabelWide(BuildWide(parse, facts, codeColumn).value, maps).rows, MappedTotal) == SumOf(facts, Boxes(parse))
  {
    var t := BuildWide(parse, facts, codeColumn).value;
    SumOfPointwise(LabelWide(t, maps).rows, MappedTotal, t.rows, Total);
    WideConserves(parse, facts, codeColumn);
  }

  /** The column names a PSP_SPE code must not be spelled like: the fixed
      columns of the wide table, of its labelled copy and of the prepared
      copy `compare_brand_vs_generic` melts. */
  function FixedNames(codeColumn: string): set<string>
  {
    CoreCols(codeColumn) + {"product_code", "product_type", "CIP13", "GEN_NUM"}
  }

  /** A query's records carry no PSP_SPE spelled like a fixed column. */
  predicate PlainFacts(facts: seq<Fact>, codeColumn: string)
  {
    forall a :: 0 <= a < |facts| ==> facts[a].presc !in FixedNames(codeColumn)
  }

  lemma PlainFrom(t: Table, facts: seq<Fact>)
    requires PlainFacts(facts, t.codeColumn)
    requires forall j :: 0 <= j < |t.prescribers| ==> t.prescribers[j] in Keys(facts, PrescOf)
    ensures PlainLabels(t) && Plain(t)
  {
    forall j | 0 <= j < |t.prescribers| ensures t.prescribers[j] !in FixedNames(t.codeColumn) {
      var ks := Keys(facts, PrescOf);
      assert t.prescribers[j] in ks;
      var a :| 0 <= a < |ks| && ks[a] == t.prescribers[j];
      assert facts[a].presc == t.prescribers[j];
    }
    forall j | 0 <= j < |t.prescribers| ensures t.prescribers[j] !in NotPrescribers + ["CIP13", "GEN_NUM"] {
      assert t.prescribers[j] !in FixedNames(t.codeColumn);
    }
  }

  lemma PlainWide(parse: Parser, facts: seq<Fact>, codeColumn: string)
    requires facts != [] && PlainFacts(facts, codeColumn)
    ensures PlainLabels(BuildWide(parse, facts, codeColumn).value) && Plain(BuildWide(parse, facts, codeColumn).value)
  {
    WidePrescribers(parse, facts, codeColumn);
    PlainFrom(BuildWide(parse, facts, codeColumn).value, facts);
  }

  /** The dictionary `execute_query` returns. */
  datatype Output = Output(unified: Mapped, unifiedGen: Mapped, metrics: Comparison)

  /** Lines 133-292, with the database, the environment and load_maps as
      parameters: `cipFacts` and `genFacts` are the records the brand and the
      generic query return. A query that returns nothing raises a KeyError on
      BOITES; the product-code check of the comparison cannot fail, since the
      two tables carry CIP13 and GEN_NUM. */
  function ExecuteQuery(parse: Parser, maps: Maps, cipFacts: seq<Fact>, genFacts: seq<Fact>): (r: Result<Output>)
    requires PlainFacts(cipFacts, "CIP13") && PlainFacts(genFacts, "GEN_NUM")
    ensures r.KeyError? <==> cipFacts == [] || genFacts == []
    ensures r.KeyError? ==> r.key == "BOITES"
  {
    match BuildWide(parse, cipFacts, "CIP13")
    case KeyError(e) => KeyError(e)
    case Success(brand) =>
      match BuildWide(parse, genFacts, "GEN_NUM")
      case KeyError(e) => KeyError(e)
      case Success(generic) =>
        PlainWide(parse, cipFacts, "CIP13");
        PlainWide(parse, genFacts, "GEN_NUM");
        PrepareKnown(brand, "brand");
        PrepareKnown(generic, "generic");
        match CompareBrandVsGeneric(brand, generic, maps)
        case KeyError(e) => KeyError(e)
        case Success(metrics) =>
          Success(Output(LabelWide(brand, maps), LabelWide(generic, maps), metrics))
  }

  /** Line 281: the metrics compare the unlabelled tables of the two queries. */
  lemma ExecuteQueryMetrics(parse: Parser, maps: Maps, cipFacts: seq<Fact>, genFacts: seq<Fact>)
    requires PlainFacts(cipFacts, "CIP13") && PlainFacts(genFacts, "GEN_NUM")
    requires cipFacts != [] && genFacts != []
    ensures var brand, generic := BuildWide(parse, cipFacts, "CIP13").value, BuildWide(parse, genFacts, "GEN_NUM").value;
            && Plain(brand) && Plain(generic)
            && CompareBrandVsGeneric(brand, generic, maps).Success?
            && ExecuteQuery(parse, maps, cipFacts, genFacts).value.metrics == CompareBrandVsGeneric(brand, generic, maps).value
  {
    var brand, generic := BuildWide(parse, cipFacts, "CIP13").value, BuildWide(parse, genFacts, "GEN_NUM").value;
    PlainWide(parse, cipFacts, "CIP13");
    PlainWide(parse, genFacts, "GEN_NUM");
    PrepareKnown(brand, "brand");
    PrepareKnown(generic, "generic");
  }

  /** Every table of the metrics accounts for all the boxes the brand query
      and the generic query returned. */
  lemma ExecuteQueryConserves(parse: Parser, maps: Maps, cipFacts: seq<Fact>, genFacts: seq<Fact>)
    requires PlainFacts(cipFacts, "CIP13") && PlainFacts(genFacts, "GEN_NUM")
    requires cipFacts != [] && genFacts != []
    ensures var c := ExecuteQuery(parse, maps, cipFacts, genFacts).value.metrics;
            var b, g := SumOf(cipFacts, Boxes(parse)), SumOf(genFacts, Boxes(parse));
            && Conserves(c.segments, b, g)
            && Conserves(c.regions, b, g) && Conserves(c.ages, b, g) && Conserves(c.genders, b, g)
  {
    var brand, generic := BuildWide(parse, cipFacts, "CIP13").value, BuildWide(parse, genFacts, "GEN_NUM").value;
    ExecuteQueryMetrics(parse, maps, cipFacts, genFacts);
    ComparisonConserves(brand, generic, maps);
    WideConserves(parse, cipFacts, "CIP13");
    WideConserves(parse, genFacts, "GEN_NUM");
  }

  /** With box counts that are never negative, every metrics row has a brand
      share between 0 and 1 wherever its combined total is positive. */
  lemma ExecuteQueryShares(parse: Parser, maps: Maps, cipFacts: seq<Fact>, genFacts: seq<Fact>)
    requires PlainFacts(cipFacts, "CIP13") && PlainFacts(genFacts, "GEN_NUM")
    requires cipFacts != [] && genFacts != []
    requires forall a :: 0 <= a < |cipFacts| ==> Boxes(parse)(cipFacts[a]) >= 0.0
    requires forall a :: 0 <= a < |genFacts| ==> Boxes(parse)(genFacts[a]) >= 0.0
    ensures var c := ExecuteQuery(parse, maps, cipFacts, genFacts).value.metrics;
            && SharesBounded(c.segments) && SharesBounded(c.regions) && SharesBounded(c.ages)
            && SharesBounded(c.genders) && SharesBounded(c.prescribers)
  {
    var brand, generic := BuildWide(parse, cipFacts, "CIP13").value, BuildWide(parse, genFacts, "GEN_NUM").value;
    ExecuteQueryMetrics(parse, maps, cipFacts, genFacts);
    WideNonNegative(parse, cipFacts, "CIP13");
    WideNonNegative(parse, genFacts, "GEN_NUM");
    ComparisonShares(brand, generic, maps);
  }
}
