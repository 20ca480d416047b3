/** `prepare_unified` and `compare_brand_vs_generic` of
    pharma/backend/execute_query.py: the brand and the generic wide tables are
    summed per (region, sex, age) segment and outer-merged, a combined total and
    a brand share are added, codes become labels, three one-dimension rollups
    recompute the share from their summed totals, and the prescriber columns
    are melted and outer-merged per (segment, prescriber). */
module BrandGeneric {
  import opened Wrappers
  import opened Lookup
  import opened Relational
  import opened Sorting
  import opened Loaders
  import opened WideShape

  // ---------------------------------------------------------------- prepare_unified

  const ProductCodeMissing: string := "No product code column found (CIP13 or GEN_NUM)"

  /** The header of a wide table as `execute_query` builds it. */
  function Header(t: Table): seq<string>
  {
    ["BEN_REG", "sexe", "age", t.codeColumn, "total_boites"] + t.prescribers
  }

  /** The columns `compare_brand_vs_generic` does not treat as prescribers. */
  const NotPrescribers: seq<string> := ["BEN_REG", "sexe", "age", "product_code", "total_boites", "product_type"]

  /** No PSP_SPE code is one of the fixed column names. */
  predicate Plain(t: Table)
  {
    forall j :: 0 <= j < |t.prescribers| ==> t.prescribers[j] !in NotPrescribers + ["CIP13", "GEN_NUM"]
  }

  /** A prepared copy: its header, its `product_type` tag and the table's data. */
  datatype Prepared = Prepared(columns: seq<string>, productType: string, table: Table)

  function RenameColumn(cols: seq<string>, from: string, to: string): seq<string>
  {
    seq(|cols|, j requires 0 <= j < |cols| => if cols[j] == from then to else cols[j])
  }

  /** Lines 18-32: the product code column becomes `product_code` (CIP13 when
      present, GEN_NUM otherwise), a `product_type` column tags every row, and
      a table with neither code column raises `KeyError`. The input is a value
      and is left as it was. */
  function PrepareUnified(t: Table, productType: string): (r: Result<Prepared>)
    ensures r.KeyError? <==> "CIP13" !in Header(t) && "GEN_NUM" !in Header(t)
    ensures r.KeyError? ==> r.key == ProductCodeMissing
    ensures r.Success? ==> r.value.table == t && r.value.productType == productType
    ensures r.Success? ==>
              var code := if "CIP13" in Header(t) then "CIP13" else "GEN_NUM";
              && |r.value.columns| == |Header(t)| + 1
              && r.value.columns[|Header(t)|] == "product_type"
              && (forall j :: 0 <= j < |Header(t)| ==>
                    r.value.columns[j] == if Header(t)[j] == code then "product_code" else Header(t)[j])
              && "product_code" in r.value.columns && code !in r.value.columns
  {
    var h := Header(t);
    if "CIP13" in h then
      Success(Prepared(RenameColumn(h, "CIP13", "product_code") + ["product_type"], productType, t))
    else if "GEN_NUM" in h then
      Success(Prepared(RenameColumn(h, "GEN_NUM", "product_code") + ["product_type"], productType, t))
    else
      KeyError(ProductCodeMissing)
  }

  /** The columns that are neither keys, codes, totals nor the tag (lines 93-94). */
  function PrescriberColumns(cols: seq<string>): (ps: seq<string>)
    ensures forall c :: c in ps <==> c in cols && c !in NotPrescribers
  {
    if cols == [] then [] else
      var ps := PrescriberColumns(cols[..|cols| - 1]);
      var c := cols[|cols| - 1];
      assert forall d :: d in cols <==> d in cols[..|cols| - 1] || d == c by {
        assert cols == cols[..|cols| - 1] + [c];
      }
      if c in NotPrescribers then ps else ps + [c]
  }

  lemma {:induction false} PrescriberColumnsConcat(a: seq<string>, b: seq<string>)
    ensures PrescriberColumns(a + b) == PrescriberColumns(a) + PrescriberColumns(b)
    decreases |b|
  {
    if b == [] {
      assert a + b == a;
    } else {
      var p, c := b[..|b| - 1], b[|b| - 1];
      assert (a + b)[..|a + b| - 1] == a + p;
      assert (a + b)[|a + b| - 1] == c;
      PrescriberColumnsConcat(a, p);
    }
  }

  lemma {:induction false} PrescriberColumnsPlain(ps: seq<string>)
    requires forall j :: 0 <= j < |ps| ==> ps[j] !in NotPrescribers
    ensures PrescriberColumns(ps) == ps
    decreases |ps|
  {
    if ps != [] {
      PrescriberColumnsPlain(ps[..|ps| - 1]);
      assert ps == ps[..|ps| - 1] + [ps[|ps| - 1]];
    }
  }

  lemma {:induction false} PrescriberColumnsNone(cs: seq<string>)
    requires forall j :: 0 <= j < |cs| ==> cs[j] in NotPrescribers
    ensures PrescriberColumns(cs) == []
    decreases |cs|
  {
    if cs != [] {
      PrescriberColumnsNone(cs[..|cs| - 1]);
    }
  }

  /** Renaming a column the header lacks changes nothing. */
  lemma RenameAbsent(cols: seq<string>, from: string, to: string)
    requires from !in cols
    ensures RenameColumn(cols, from, to) == cols
  {
  }

  /** On a plain table the code columns of the header are its code column only. */
  lemma HeaderCodes(t: Table)
    requires Plain(t)
    ensures "CIP13" in Header(t) <==> t.codeColumn == "CIP13"
    ensures "GEN_NUM" in Header(t) <==> t.codeColumn == "GEN_NUM"
  {
    var h := Header(t);
    assert "CIP13" !in t.prescribers && "GEN_NUM" !in t.prescribers;
    assert forall c :: c in h <==> c in ["BEN_REG", "sexe", "age", t.codeColumn, "total_boites"] || c in t.prescribers;
  }

  /** The header of a prepared plain table. */
  lemma PreparedColumns(t: Table, productType: string)
    requires Plain(t) && PrepareUnified(t, productType).Success?
    ensures PrepareUnified(t, productType).value.columns
         == ["BEN_REG", "sexe", "age", "product_code", "total_boites"] + t.prescribers + ["product_type"]
  {
    HeaderCodes(t);
    var code := t.codeColumn;
    assert code == "CIP13" || code == "GEN_NUM";
    assert code !in t.prescribers;
    var head := ["BEN_REG", "sexe", "age", code, "total_boites"];
    RenameConcat(head, t.prescribers, code, "product_code");
    RenameAbsent(t.prescribers, code, "product_code");
    assert RenameColumn(head, code, "product_code") == ["BEN_REG", "sexe", "age", "product_code", "total_boites"];
  }

  lemma RenameConcat(a: seq<string>, b: seq<string>, from: string, to: string)
    ensures RenameColumn(a + b, from, to) == RenameColumn(a, from, to) + RenameColumn(b, from, to)
  {
  }

  /** On a table whose PSP_SPE codes are not fixed column names, preparing fails
      exactly when the code column is neither CIP13 nor GEN_NUM. */
  lemma PrepareFails(t: Table, productType: string)
    requires Plain(t)
    ensures PrepareUnified(t, productType).KeyError? <==> t.codeColumn != "CIP13" && t.codeColumn != "GEN_NUM"
  {
    HeaderCodes(t);
  }

  /** A table built from a CIP13 or a GEN_NUM query always has its product
      code column, whatever its PSP_SPE codes. */
  lemma PrepareKnown(t: Table, productType: string)
    requires t.codeColumn == "CIP13" || t.codeColumn == "GEN_NUM"
    ensures PrepareUnified(t, productType).Success?
  {
    assert Header(t)[3] == t.codeColumn;
  }

  /** Lines 93-94: on such a table the prescriber columns are the table's own
      prescriber columns, in order. */
  lemma PreparedPrescribers(t: Table, productType: string)
    requires Plain(t) && PrepareUnified(t, productType).Success?
    ensures PrescriberColumns(PrepareUnified(t, productType).value.columns) == t.prescribers
  {
    PreparedColumns(t, productType);
    PlainNotPrescribers(t);
    PrescribersAround(t.prescribers);
  }

  lemma PlainNotPrescribers(t: Table)
    requires Plain(t)
    ensures forall j :: 0 <= j < |t.prescribers| ==> t.prescribers[j] !in NotPrescribers
  {
    forall j | 0 <= j < |t.prescribers| ensures t.prescribers[j] !in NotPrescribers {
      assert t.prescribers[j] !in NotPrescribers + ["CIP13", "GEN_NUM"];
    }
  }

  /** The fixed columns around the prescriber columns contribute none. */
  lemma PrescribersAround(ps: seq<string>)
    requires forall j :: 0 <= j < |ps| ==> ps[j] !in NotPrescribers
    ensures PrescriberColumns(["BEN_REG", "sexe", "age", "product_code", "total_boites"] + ps + ["product_type"]) == ps
  {
    var head := ["BEN_REG", "sexe", "age", "product_code", "total_boites"];
    FixedColumnsNone();
    PrescriberColumnsPlain(ps);
    PrescriberColumnsConcat(head, ps);
    PrescriberColumnsConcat(head + ps, ["product_type"]);
  }

  lemma FixedColumnsNone()
    ensures PrescriberColumns(["BEN_REG", "sexe", "age", "product_code", "total_boites"]) == []
    ensures PrescriberColumns(["product_type"]) == []
  {
    PrescriberColumnsNone(["BEN_REG", "sexe", "age", "product_code", "total_boites"]);
    PrescriberColumnsNone(["product_type"]);
  }

  // ---------------------------------------------------------------- metrics

  /** A row of a comparison table: its key (codes or labels), the brand and
      generic box counts, `combined_total` and `brand_share`. */
  datatype Metric<K> = Metric(key: K, brand: real, generic: real, combined: real, share: Option<real>)

  function MetricKey<K>(m: Metric<K>): K { m.key }
  function Brand<K>(m: Metric<K>): real { m.brand }
  function Generic<K>(m: Metric<K>): real { m.generic }
  function Combined<K>(m: Metric<K>): real { m.combined }
  function ShareOf<K>(m: Metric<K>): Option<real> { m.share }

  /** `x / d` without a zero guard: 0/0 is NaN, and the export turns NaN into
      None; a nonzero number over 0 is an infinity, also collapsed to None here. */
  function Ratio(x: real, d: real): (q: Option<real>)
    ensures q.None? <==> d == 0.0
    ensures q.Some? ==> q.value * d == x
  {
    if d == 0.0 then None else Some(x / d)
  }

  /** A row whose combined total and share are computed from its two counts. */
  predicate Consistent<K>(m: Metric<K>)
  {
    m.combined == m.brand + m.generic && m.share == Ratio(m.brand, m.combined)
  }

  function Measure<K>(k: K, b: real, g: real): Metric<K>
  {
    Metric(k, b, g, b + g, Ratio(b, b + g))
  }

  /** Lines 57-58, 72-73, 80-81, 88-89 and 114-115: `combined_total` and
      `brand_share` added to every row of a merged or grouped table. */
  function WithShares<K>(rows: seq<(K, real, real)>): (ms: seq<Metric<K>>)
    ensures |ms| == |rows|
    ensures forall i :: 0 <= i < |rows| ==>
              && ms[i].key == rows[i].0 && ms[i].brand == rows[i].1 && ms[i].generic == rows[i].2
              && ms[i].combined == rows[i].1 + rows[i].2
              && (ms[i].share.None? <==> rows[i].1 + rows[i].2 == 0.0)
              && (ms[i].share.Some? ==> ms[i].share.value * ms[i].combined == ms[i].brand)
              && Consistent(ms[i])
  {
    seq(|rows|, i requires 0 <= i < |rows| => Measure(rows[i].0, rows[i].1, rows[i].2))
  }

  /** With counts that are not negative, a positive combined total gives a
      brand share in [0, 1]. */
  lemma ShareInUnit<K>(m: Metric<K>)
    requires Consistent(m) && m.brand >= 0.0 && m.generic >= 0.0 && m.combined > 0.0
    ensures m.share.Some? && 0.0 <= m.share.value <= 1.0
  {
    var q := m.share.value;
    assert q * m.combined == m.brand <= m.combined;
  }

  function Relabelled<K, L>(f: K -> L, m: Metric<K>): Metric<L>
  {
    Metric(f(m.key), m.brand, m.generic, m.combined, m.share)
  }

  /** Lines 62-65 and 119-123: the code columns replaced by their labels. */
  function Relabel<K, L>(ms: seq<Metric<K>>, f: K -> L): (r: seq<Metric<L>>)
    ensures |r| == |ms|
    ensures forall i :: 0 <= i < |ms| ==> r[i] == Relabelled(f, ms[i])
  {
    seq(|ms|, i requires 0 <= i < |ms| => Relabelled(f, ms[i]))
  }

  /** Relabelling keeps the order by share. */
  lemma RelabelSorted<K, L>(ms: seq<Metric<K>>, f: K -> L)
    requires SortedBy(ms, ShareOf, true)
    ensures SortedBy(Relabel(ms, f), ShareOf, true)
  {
    var r := Relabel(ms, f);
    forall i, j | 0 <= i < j < |r| ensures Before(ShareOf(r[i]), ShareOf(r[j]), true) {
      assert ShareOf(r[i]) == ShareOf(ms[i]) && ShareOf(r[j]) == ShareOf(ms[j]);
    }
  }

  /** Relabelling changes only the key, to its label: the counts, the
      combined totals and the shares stay, so a table keeps its totals, its
      consistency and its share bounds. */
  lemma RelabelKeeps<K, L>(ms: seq<Metric<K>>, f: K -> L)
    ensures var r := Relabel(ms, f);
            && |r| == |ms|
            && (forall i :: 0 <= i < |ms| ==>
                  r[i].key == f(ms[i].key) && r[i].brand == ms[i].brand && r[i].generic == ms[i].generic
                  && r[i].combined == ms[i].combined && r[i].share == ms[i].share)
            && SumOf(r, Brand) == SumOf(ms, Brand) && SumOf(r, Generic) == SumOf(ms, Generic)
            && SumOf(r, Combined) == SumOf(ms, Combined)
            && (AllConsistent(ms) ==> AllConsistent(r))
            && (SharesBounded(ms) ==> SharesBounded(r))
  {
    var r := Relabel(ms, f);
    SumOfPointwise(r, Brand, ms, Brand);
    SumOfPointwise(r, Generic, ms, Generic);
    SumOfPointwise(r, Combined, ms, Combined);
  }

  // ---------------------------------------------------------------- keys and labels

  /** (BEN_REG, sexe, age). */
  type Seg3 = (string, string, string)

  /** A segment and a PSP_SPE code, and their four labels. */
  type PrescKey = (Seg3, string)
  type Label4 = (string, string, string, string)

  function SegKey(r: WideRow): Seg3 { (r.region, r.sex, r.age) }

  /** Lines 62-64: Region, Sex and Age labels of a segment's codes. */
  function Labels3(maps: Maps, k: Seg3): Seg3
  {
    (Resolve(maps.region, k.0), Resolve(maps.sex, k.1), Resolve(maps.age, k.2))
  }

  function Labeller3(maps: Maps): Seg3 -> Seg3 { k => Labels3(maps, k) }

  /** Lines 119-122: the same labels and the Prescriber label of a PSP_SPE code. */
  function Labels4(maps: Maps, k: PrescKey): Label4
  {
    (Resolve(maps.region, k.0.0), Resolve(maps.sex, k.0.1), Resolve(maps.age, k.0.2), Resolve(maps.presc, k.1))
  }

  function Labeller4(maps: Maps): PrescKey -> Label4 { k => Labels4(maps, k) }

  function RegionOf(m: Metric<Seg3>): string { m.key.0 }
  function SexOf(m: Metric<Seg3>): string { m.key.1 }
  function AgeOf(m: Metric<Seg3>): string { m.key.2 }

  // ---------------------------------------------------------------- the comparison

  /** Lines 53-65: per-segment sums of each side, outer-merged with 0 for a
      missing side, with combined total and share, sorted by share, labelled. */
  function Segments(brand: Table, generic: Table, maps: Maps): seq<Metric<Seg3>>
  {
    var seg := OuterMerge(GroupSum(brand.rows, SegKey, Total), GroupSum(generic.rows, SegKey, Total));
    Relabel(SortBy(WithShares(seg), ShareOf, true), Labeller3(maps))
  }

  /** Lines 68-90: one row per distinct label of one dimension, summing the
      segments' counts, with share recomputed from the sums, sorted by share. */
  function Rollup(segs: seq<Metric<Seg3>>, dim: Metric<Seg3> -> string): seq<Metric<string>>
  {
    SortBy(WithShares(GroupSum2(segs, dim, Brand, Generic)), ShareOf, true)
  }

  /** The long entries of one prescriber column: one per row, keyed by segment and PSP_SPE. */
  function MeltColumn(t: Table, j: nat): (m: seq<(PrescKey, real)>)
    requires Rectangular(t) && j < |t.prescribers|
    ensures |m| == |t.rows|
    ensures forall i :: 0 <= i < |t.rows| ==> m[i] == ((SegKey(t.rows[i]), t.prescribers[j]), t.rows[i].cells[j])
  {
    seq(|t.rows|, i requires 0 <= i < |t.rows| => ((SegKey(t.rows[i]), t.prescribers[j]), t.rows[i].cells[j]))
  }

  /** Lines 96-107: `melt(id_vars=segment, value_vars=prescriber columns)`:
      the first `n` prescriber columns, column after column. */
  function MeltUpTo(t: Table, n: nat): seq<(PrescKey, real)>
    requires Rectangular(t) && n <= |t.prescribers|
  {
    if n == 0 then [] else MeltUpTo(t, n - 1) + MeltColumn(t, n - 1)
  }

  function Melt(t: Table): seq<(PrescKey, real)>
    requires Rectangular(t)
  {
    MeltUpTo(t, |t.prescribers|)
  }

  /** Lines 93-123: the melted prescriber counts of both sides, outer-merged
      on (segment, PSP_SPE) without grouping, so a key repeated on both sides
      pairs every brand entry with every generic entry. */
  function PrescriberTable(brand: Table, generic: Table, maps: Maps): seq<Metric<Label4>>
    requires Rectangular(brand) && Rectangular(generic) && Plain(brand) && Plain(generic)
  {
    Relabel(SortBy(WithShares(OuterMerge(Melt(brand), Melt(generic))), ShareOf, true), Labeller4(maps))
  }

  /** The five tables `compare_brand_vs_generic` returns. */
  datatype Comparison = Comparison(
    segments: seq<Metric<Seg3>>,
    regions: seq<Metric<string>>,
    ages: seq<Metric<string>>,
    genders: seq<Metric<string>>,
    prescribers: seq<Metric<Label4>>)

  /** Lines 34-131 (the lookup tables are a parameter instead of being read
      from CSV at line 47). On tables whose PSP_SPE codes are not spelled like
      a fixed column, the columns lines 93-94 melt are exactly the tables'
      prescriber columns, which is what `Melt` walks. */
  function CompareBrandVsGeneric(brand: Table, generic: Table, maps: Maps): (r: Result<Comparison>)
    requires Rectangular(brand) && Rectangular(generic) && Plain(brand) && Plain(generic)
    ensures r.KeyError? <==> PrepareUnified(brand, "brand").KeyError? || PrepareUnified(generic, "generic").KeyError?
    ensures r.KeyError? ==> r.key == ProductCodeMissing
    ensures r.Success? ==>
              && PrescriberColumns(PrepareUnified(brand, "brand").value.columns) == brand.prescribers
              && PrescriberColumns(PrepareUnified(generic, "generic").value.columns) == generic.prescribers
  {
    match PrepareUnified(brand, "brand")
    case KeyError(e) => KeyError(e)
    case Success(b) =>
      match PrepareUnified(generic, "generic")
      case KeyError(e) => KeyError(e)
      case Success(g) =>
        PreparedPrescribers(brand, "brand");
        PreparedPrescribers(generic, "generic");
        var segs := Segments(brand, generic, maps);
        Success(Comparison(segs, Rollup(segs, RegionOf), Rollup(segs, AgeOf), Rollup(segs, SexOf),
                           PrescriberTable(brand, generic, maps)))
  }

  // ---------------------------------------------------------------- segment table

  /** The (BEN_REG, sexe, age) keys found on either side. */
  function SegKeys(brand: Table, generic: Table): set<Seg3>
  {
    (set r | r in brand.rows :: SegKey(r)) + (set r | r in generic.rows :: SegKey(r))
  }

  /** The segment row of key `k`: its labels, the `total_boites` sum of each
      side over the rows of `k` (0 for a side without any), combined and share. */
  function Segment(brand: Table, generic: Table, maps: Maps, k: Seg3): Metric<Seg3>
  {
    Measure(Labels3(maps, k), SumWhere(brand.rows, SegKey, Total, k), SumWhere(generic.rows, SegKey, Total, k))
  }

  /** The merged segment sums before labelling: each key once, each side's sum. */
  lemma MergedSegments(brand: Table, generic: Table)
    ensures var seg := OuterMerge(GroupSum(brand.rows, SegKey, Total), GroupSum(generic.rows, SegKey, Total));
            && Distinct(Keys(seg, Key3))
            && (forall t :: 0 <= t < |seg| ==>
                  seg[t].1 == SumWhere(brand.rows, SegKey, Total, seg[t].0) &&
                  seg[t].2 == SumWhere(generic.rows, SegKey, Total, seg[t].0))
  {
    var gb, gg := GroupSum(brand.rows, SegKey, Total), GroupSum(generic.rows, SegKey, Total);
    var seg := OuterMerge(gb, gg);
    OuterMergeDistinct(gb, gg);
    forall t | 0 <= t < |seg|
      ensures seg[t].1 == SumWhere(brand.rows, SegKey, Total, seg[t].0)
      ensures seg[t].2 == SumWhere(generic.rows, SegKey, Total, seg[t].0)
    {
      GroupSumLookup(brand.rows, SegKey, Total, seg[t].0);
      GroupSumLookup(generic.rows, SegKey, Total, seg[t].0);
    }
  }

  /** A key is in a side's grouped table exactly when a row of that side has it. */
  lemma GroupedKey(t: Table, k: Seg3)
    ensures k in Keys(GroupSum(t.rows, SegKey, Total), Fst) <==> k in (set r | r in t.rows :: SegKey(r))
  {
    if k in (set r | r in t.rows :: SegKey(r)) {
      var r :| r in t.rows && SegKey(r) == k;
      var i :| 0 <= i < |t.rows| && t.rows[i] == r;
      assert Keys(t.rows, SegKey)[i] == k;
    }
    if k in Keys(GroupSum(t.rows, SegKey, Total), Fst) {
      var i :| 0 <= i < |t.rows| && Keys(t.rows, SegKey)[i] == k;
      assert t.rows[i] in t.rows;
    }
  }

  /** Every key of either side is a merged key. */
  lemma MergedKeysCover(brand: Table, generic: Table)
    ensures var seg := OuterMerge(GroupSum(brand.rows, SegKey, Total), GroupSum(generic.rows, SegKey, Total));
            forall k :: k in SegKeys(brand, generic) ==> k in Keys(seg, Key3)
  {
    var gb, gg := GroupSum(brand.rows, SegKey, Total), GroupSum(generic.rows, SegKey, Total);
    var seg := OuterMerge(gb, gg);
    forall k | k in SegKeys(brand, generic) ensures k in Keys(seg, Key3) {
      GroupedKey(brand, k);
      GroupedKey(generic, k);
      if k in Keys(gb, Fst) {
        var i :| 0 <= i < |gb| && Keys(gb, Fst)[i] == k;
      } else {
        var j :| 0 <= j < |gg| && Keys(gg, Fst)[j] == k;
      }
    }
  }

  /** Every merged key is a key of one side. */
  lemma MergedKeysFrom(brand: Table, generic: Table)
    ensures var seg := OuterMerge(GroupSum(brand.rows, SegKey, Total), GroupSum(generic.rows, SegKey, Total));
            forall k :: k in Keys(seg, Key3) ==> k in SegKeys(brand, generic)
  {
    var gb, gg := GroupSum(brand.rows, SegKey, Total), GroupSum(generic.rows, SegKey, Total);
    var seg := OuterMerge(gb, gg);
    forall k | k in Keys(seg, Key3) ensures k in SegKeys(brand, generic) {
      var t :| 0 <= t < |seg| && Keys(seg, Key3)[t] == k;
      if (k, seg[t].1) in gb {
        var i :| 0 <= i < |gb| && gb[i] == (k, seg[t].1);
        assert Keys(gb, Fst)[i] == k;
        GroupedKey(brand, k);
      } else {
        var j :| 0 <= j < |gg| && gg[j] == (k, seg[t].2);
        assert Keys(gg, Fst)[j] == k;
        GroupedKey(generic, k);
      }
    }
  }

  /** The merged keys are the keys of either side. */
  lemma MergedKeys(brand: Table, generic: Table)
    ensures var seg := OuterMerge(GroupSum(brand.rows, SegKey, Total), GroupSum(generic.rows, SegKey, Total));
            forall k :: k in Keys(seg, Key3) <==> k in SegKeys(brand, generic)
  {
    MergedKeysCover(brand, generic);
    MergedKeysFrom(brand, generic);
  }

  /** Each merged row, with its share and labels, is the segment row of its key. */
  lemma MergedRows(brand: Table, generic: Table, maps: Maps)
    ensures var seg := OuterMerge(GroupSum(brand.rows, SegKey, Total), GroupSum(generic.rows, SegKey, Total));
            forall t :: 0 <= t < |seg| ==>
              Relabelled(Labeller3(maps), WithShares(seg)[t]) == Segment(brand, generic, maps, seg[t].0)
  {
    MergedSegments(brand, generic);
  }

  lemma SegmentsCount(brand: Table, generic: Table, maps: Maps)
    ensures |Segments(brand, generic, maps)| == |SegKeys(brand, generic)|
  {
    var gb, gg := GroupSum(brand.rows, SegKey, Total), GroupSum(generic.rows, SegKey, Total);
    var seg := OuterMerge(gb, gg);
    MergeDistinctKeys(gb, gg);
    MergedKeys(brand, generic);
    DistinctCard(Keys(seg, Key3));
    assert (set x | x in Keys(seg, Key3)) == SegKeys(brand, generic);
  }

  lemma SegmentsHave(brand: Table, generic: Table, maps: Maps)
    ensures forall k :: k in SegKeys(brand, generic) ==> Segment(brand, generic, maps, k) in Segments(brand, generic, maps)
  {
    var seg := OuterMerge(GroupSum(brand.rows, SegKey, Total), GroupSum(generic.rows, SegKey, Total));
    var ws := WithShares(seg);
    var ss := SortBy(ws, ShareOf, true);
    var segs := Segments(brand, generic, maps);
    MergedKeys(brand, generic);
    MergedRows(brand, generic, maps);
    forall k | k in SegKeys(brand, generic) ensures Segment(brand, generic, maps, k) in segs {
      var t :| 0 <= t < |seg| && seg[t].0 == k;
      var u := PermutedAt(ws, ss, t);
      assert segs[u] == Relabelled(Labeller3(maps), ss[u]);
    }
  }

  lemma SegmentsOnly(brand: Table, generic: Table, maps: Maps)
    ensures forall m :: m in Segments(brand, generic, maps) ==>
              exists k :: k in SegKeys(brand, generic) && m == Segment(brand, generic, maps, k)
  {
    var seg := OuterMerge(GroupSum(brand.rows, SegKey, Total), GroupSum(generic.rows, SegKey, Total));
    var ws := WithShares(seg);
    var ss := SortBy(ws, ShareOf, true);
    var segs := Segments(brand, generic, maps);
    MergedKeys(brand, generic);
    MergedRows(brand, generic, maps);
    forall m | m in segs ensures exists k :: k in SegKeys(brand, generic) && m == Segment(brand, generic, maps, k) {
      var u :| 0 <= u < |segs| && segs[u] == m;
      var t := PermutedAt(ss, ws, u);
      assert Keys(seg, Key3)[t] == seg[t].0;
      assert m == Segment(brand, generic, maps, seg[t].0);
    }
  }

  /** Lines 53-65: the segment table holds one row per (BEN_REG, sexe, age)
      key found on either side, and no other: its labels resolved, each side's
      `total_boites` sum (0 for the side without the key), their combined total
      and the brand share. */
  lemma SegmentsExact(brand: Table, generic: Table, maps: Maps)
    ensures |Segments(brand, generic, maps)| == |SegKeys(brand, generic)|
    ensures forall k :: k in SegKeys(brand, generic) ==> Segment(brand, generic, maps, k) in Segments(brand, generic, maps)
    ensures forall m :: m in Segments(brand, generic, maps) ==>
              exists k :: k in SegKeys(brand, generic) && m == Segment(brand, generic, maps, k)
  {
    SegmentsCount(brand, generic, maps);
    SegmentsHave(brand, generic, maps);
    SegmentsOnly(brand, generic, maps);
  }

  /** Lines 53-56: the segment table keeps each side's total box count. */
  lemma SegmentsConserve(brand: Table, generic: Table, maps: Maps)
    ensures SumOf(Segments(brand, generic, maps), Brand) == SumOf(brand.rows, Total)
    ensures SumOf(Segments(brand, generic, maps), Generic) == SumOf(generic.rows, Total)
  {
    var gb, gg := GroupSum(brand.rows, SegKey, Total), GroupSum(generic.rows, SegKey, Total);
    var seg := OuterMerge(gb, gg);
    var ws := WithShares(seg);
    var ss := SortBy(ws, ShareOf, true);
    var segs := Segments(brand, generic, maps);
    SumOfPointwise(segs, Brand, ss, Brand);
    SortBySum(ws, ShareOf, true, Brand);
    SumOfPointwise(ws, Brand, seg, Left3);
    SumOfPointwise(segs, Generic, ss, Generic);
    SortBySum(ws, ShareOf, true, Generic);
    SumOfPointwise(ws, Generic, seg, Right3);
    MergeDistinctSums(gb, gg);
    GroupSumConserves(brand.rows, SegKey, Total);
    GroupSumConserves(generic.rows, SegKey, Total);
  }

  // ---------------------------------------------------------------- rollups

  /** Every row of a table computes its combined total and share from its counts. */
  predicate AllConsistent<K>(ms: seq<Metric<K>>)
  {
    forall i :: 0 <= i < |ms| ==> Consistent(ms[i])
  }

  /** Lines 68-90: every rollup row is the measure of its label, with the
      segments' counts of that label summed and the share recomputed from the
      sums; labels shared by several codes are summed together. */
  lemma RollupRows(segs: seq<Metric<Seg3>>, dim: Metric<Seg3> -> string)
    ensures forall m :: m in Rollup(segs, dim) ==>
              m == Measure(m.key, SumWhere(segs, dim, Brand, m.key), SumWhere(segs, dim, Generic, m.key))
  {
    var r := GroupSum2(segs, dim, Brand, Generic);
    var ws := WithShares(r);
    forall m | m in Rollup(segs, dim)
      ensures m == Measure(m.key, SumWhere(segs, dim, Brand, m.key), SumWhere(segs, dim, Generic, m.key))
    {
      var u :| 0 <= u < |Rollup(segs, dim)| && Rollup(segs, dim)[u] == m;
      var t := PermutedAt(Rollup(segs, dim), ws, u);
    }
  }

  /** Every label of the segments has its rollup row. */
  lemma RollupHas(segs: seq<Metric<Seg3>>, dim: Metric<Seg3> -> string)
    ensures forall i :: 0 <= i < |segs| ==>
              Measure(dim(segs[i]), SumWhere(segs, dim, Brand, dim(segs[i])), SumWhere(segs, dim, Generic, dim(segs[i])))
              in Rollup(segs, dim)
  {
    forall i | 0 <= i < |segs|
      ensures Measure(dim(segs[i]), SumWhere(segs, dim, Brand, dim(segs[i])), SumWhere(segs, dim, Generic, dim(segs[i])))
              in Rollup(segs, dim)
    {
      assert Keys(segs, dim)[i] == dim(segs[i]);
      RollupHasKey(segs, dim, dim(segs[i]));
    }
  }

  lemma RollupHasKey(segs: seq<Metric<Seg3>>, dim: Metric<Seg3> -> string, x: string)
    requires x in Keys(segs, dim)
    ensures Measure(x, SumWhere(segs, dim, Brand, x), SumWhere(segs, dim, Generic, x)) in Rollup(segs, dim)
  {
    var r := GroupSum2(segs, dim, Brand, Generic);
    var ws := WithShares(r);
    var t :| 0 <= t < |r| && Keys(r, Key3)[t] == x;
    var u := PermutedAt(ws, Rollup(segs, dim), t);
  }

  /** A rollup has one row per distinct label. */
  lemma RollupCount(segs: seq<Metric<Seg3>>, dim: Metric<Seg3> -> string)
    ensures |Rollup(segs, dim)| == |set s | s in segs :: dim(s)|
  {
    var r := GroupSum2(segs, dim, Brand, Generic);
    DistinctCard(Keys(r, Key3));
    forall x | x in Keys(r, Key3) ensures x in (set s | s in segs :: dim(s)) {
      var i :| 0 <= i < |segs| && Keys(segs, dim)[i] == x;
      assert segs[i] in segs;
    }
    forall x | x in (set s | s in segs :: dim(s)) ensures x in Keys(r, Key3) {
      var s :| s in segs && dim(s) == x;
      var i :| 0 <= i < |segs| && segs[i] == s;
      assert Keys(segs, dim)[i] == x;
    }
    assert (set x | x in Keys(r, Key3)) == (set s | s in segs :: dim(s));
  }

  /** Lines 68-90: a rollup keeps the brand and generic totals of the segment
      table, and its combined column adds up to both; its rows are consistent
      and sorted by share. */
  lemma RollupConserves(segs: seq<Metric<Seg3>>, dim: Metric<Seg3> -> string)
    ensures SumOf(Rollup(segs, dim), Brand) == SumOf(segs, Brand)
    ensures SumOf(Rollup(segs, dim), Generic) == SumOf(segs, Generic)
    ensures SumOf(Rollup(segs, dim), Combined) == SumOf(segs, Brand) + SumOf(segs, Generic)
  {
    var r := GroupSum2(segs, dim, Brand, Generic);
    var ws := WithShares(r);
    var ro := Rollup(segs, dim);
    SortBySum(ws, ShareOf, true, Brand);
    SumOfPointwise(ws, Brand, r, Left3);
    SortBySum(ws, ShareOf, true, Generic);
    SumOfPointwise(ws, Generic, r, Right3);
    GroupSum2Conserves(segs, dim, Brand, Generic);
    RollupConsistent(segs, dim);
    SumOfAdd(ro, Brand, Generic, Combined);
  }

  lemma RollupConsistent(segs: seq<Metric<Seg3>>, dim: Metric<Seg3> -> string)
    ensures AllConsistent(Rollup(segs, dim))
    ensures SortedBy(Rollup(segs, dim), ShareOf, true)
  {
    var ws := WithShares(GroupSum2(segs, dim, Brand, Generic));
    forall i | 0 <= i < |Rollup(segs, dim)| ensures Consistent(Rollup(segs, dim)[i]) {
      var t := PermutedAt(Rollup(segs, dim), ws, i);
    }
  }

  // ---------------------------------------------------------------- prescriber table

  /** Every cell of the first `n` prescriber columns is a melted entry. */
  lemma MeltUpToHas(t: Table, n: nat)
    requires Rectangular(t) && n <= |t.prescribers|
    ensures forall i, j :: 0 <= i < |t.rows| && 0 <= j < n ==>
              ((SegKey(t.rows[i]), t.prescribers[j]), t.rows[i].cells[j]) in MeltUpTo(t, n)
  {
    forall i, j | 0 <= i < |t.rows| && 0 <= j < n
      ensures ((SegKey(t.rows[i]), t.prescribers[j]), t.rows[i].cells[j]) in MeltUpTo(t, n)
    {
      MeltHasCell(t, n, i, j);
    }
  }

  lemma {:induction false} MeltHasCell(t: Table, n: nat, i: nat, j: nat)
    requires Rectangular(t) && n <= |t.prescribers| && i < |t.rows| && j < n
    ensures ((SegKey(t.rows[i]), t.prescribers[j]), t.rows[i].cells[j]) in MeltUpTo(t, n)
    decreases n
  {
    var c := MeltColumn(t, n - 1);
    if j == n - 1 {
      assert c[i] in c;
    } else {
      MeltHasCell(t, n - 1, i, j);
    }
  }

  /** Every melted entry of the first `n` columns is a cell of the table. */
  lemma {:induction false} MeltUpToFrom(t: Table, n: nat)
    requires Rectangular(t) && n <= |t.prescribers|
    ensures forall e :: e in MeltUpTo(t, n) ==>
              exists i, j :: 0 <= i < |t.rows| && 0 <= j < n &&
                e == ((SegKey(t.rows[i]), t.prescribers[j]), t.rows[i].cells[j])
    decreases n
  {
    if n > 0 {
      MeltUpToFrom(t, n - 1);
      var c := MeltColumn(t, n - 1);
      forall e | e in MeltUpTo(t, n)
        ensures exists i, j :: 0 <= i < |t.rows| && 0 <= j < n &&
                  e == ((SegKey(t.rows[i]), t.prescribers[j]), t.rows[i].cells[j])
      {
        if e !in MeltUpTo(t, n - 1) {
          var i :| 0 <= i < |c| && c[i] == e;
          assert e == ((SegKey(t.rows[i]), t.prescribers[n - 1]), t.rows[i].cells[n - 1]);
        }
      }
    }
  }

  /** Lines 96-107: the melted table holds exactly one entry per (row,
      prescriber column): the row's segment, the column's PSP_SPE and the cell. */
  lemma MeltEntries(t: Table)
    requires Rectangular(t)
    ensures |Melt(t)| == |t.rows| * |t.prescribers|
    ensures forall i, j :: 0 <= i < |t.rows| && 0 <= j < |t.prescribers| ==>
              ((SegKey(t.rows[i]), t.prescribers[j]), t.rows[i].cells[j]) in Melt(t)
    ensures forall e :: e in Melt(t) ==>
              exists i, j :: 0 <= i < |t.rows| && 0 <= j < |t.prescribers| &&
                e == ((SegKey(t.rows[i]), t.prescribers[j]), t.rows[i].cells[j])
  {
    MeltLength(t, |t.prescribers|);
    MeltUpToHas(t, |t.prescribers|);
    MeltUpToFrom(t, |t.prescribers|);
  }

  lemma {:induction false} MeltLength(t: Table, n: nat)
    requires Rectangular(t) && n <= |t.prescribers|
    ensures |MeltUpTo(t, n)| == |t.rows| * n
    decreases n
  {
    if n > 0 {
      MeltLength(t, n - 1);
    }
  }

  /** Lines 109-123: every row of the prescriber table is labelled from a
      (segment, PSP_SPE) key and pairs melted entries of that key as an outer
      merge does, with combined total and share computed from its counts. No
      uniqueness is claimed: a key repeated on both sides yields every pair. */
  lemma PrescriberRows(brand: Table, generic: Table, maps: Maps)
    requires Rectangular(brand) && Rectangular(generic) && Plain(brand) && Plain(generic)
    ensures forall m :: m in PrescriberTable(brand, generic, maps) ==>
              Consistent(m) &&
              exists k :: m.key == Labels4(maps, k) && MergedFrom(Melt(brand), Melt(generic), k, m.brand, m.generic)
  {
    var pt := PrescriberTable(brand, generic, maps);
    forall m | m in pt
      ensures Consistent(m)
      ensures exists k :: m.key == Labels4(maps, k) && MergedFrom(Melt(brand), Melt(generic), k, m.brand, m.generic)
    {
      var u :| 0 <= u < |pt| && pt[u] == m;
      PrescriberRow(brand, generic, maps, u);
    }
  }

  lemma PrescriberRow(brand: Table, generic: Table, maps: Maps, u: nat)
    requires Rectangular(brand) && Rectangular(generic) && Plain(brand) && Plain(generic)
    requires u < |PrescriberTable(brand, generic, maps)|
    ensures var m := PrescriberTable(brand, generic, maps)[u];
            Consistent(m) &&
            exists k :: m.key == Labels4(maps, k) && MergedFrom(Melt(brand), Melt(generic), k, m.brand, m.generic)
  {
    MergedRow(Melt(brand), Melt(generic), Labeller4(maps), u);
  }

  /** A row of a merged, shared, sorted and relabelled table comes from one key
      of the merge. */
  lemma MergedRow<K, L>(l: seq<(K, real)>, r: seq<(K, real)>, f: K -> L, u: nat)
    requires u < |OuterMerge(l, r)|
    ensures var m := Relabel(SortBy(WithShares(OuterMerge(l, r)), ShareOf, true), f)[u];
            Consistent(m) && exists k :: m.key == f(k) && MergedFrom(l, r, k, m.brand, m.generic)
  {
    var seg := OuterMerge(l, r);
    var ws := WithShares(seg);
    var ss := SortBy(ws, ShareOf, true);
    var m := Relabel(ss, f)[u];
    var t := PermutedAt(ss, ws, u);
    assert m == Relabelled(f, ws[t]);
    assert MergedFrom(l, r, seg[t].0, m.brand, m.generic);
  }

  /** Every (segment, PSP_SPE) pair of a table is a key of its melted form. */
  lemma MeltKeys(t: Table)
    requires Rectangular(t)
    ensures forall i, j :: 0 <= i < |t.rows| && 0 <= j < |t.prescribers| ==>
              (SegKey(t.rows[i]), t.prescribers[j]) in Keys(Melt(t), Fst)
  {
    var mt := Melt(t);
    MeltUpToHas(t, |t.prescribers|);
    forall i, j | 0 <= i < |t.rows| && 0 <= j < |t.prescribers|
      ensures (SegKey(t.rows[i]), t.prescribers[j]) in Keys(mt, Fst)
    {
      var e := ((SegKey(t.rows[i]), t.prescribers[j]), t.rows[i].cells[j]);
      var a :| 0 <= a < |mt| && mt[a] == e;
      assert Keys(mt, Fst)[a] == e.0;
    }
  }

  /** Lines 109-123: every (segment, PSP_SPE) pair of either side has at least
      one row of the prescriber table, under its labels. */
  lemma PrescriberCoverage(brand: Table, generic: Table, maps: Maps)
    requires Rectangular(brand) && Rectangular(generic) && Plain(brand) && Plain(generic)
    ensures forall i, j :: 0 <= i < |brand.rows| && 0 <= j < |brand.prescribers| ==>
              Labels4(maps, (SegKey(brand.rows[i]), brand.prescribers[j])) in Keys(PrescriberTable(brand, generic, maps), MetricKey)
    ensures forall i, j :: 0 <= i < |generic.rows| && 0 <= j < |generic.prescribers| ==>
              Labels4(maps, (SegKey(generic.rows[i]), generic.prescribers[j])) in Keys(PrescriberTable(brand, generic, maps), MetricKey)
  {
    var mb, mg := Melt(brand), Melt(generic);
    MeltKeys(brand);
    MeltKeys(generic);
    forall k | k in Keys(mb, Fst) || k in Keys(mg, Fst)
      ensures Labels4(maps, k) in Keys(PrescriberTable(brand, generic, maps), MetricKey)
    {
      MergedKeyOf(mb, mg, k);
      PrescriberKey(brand, generic, maps, k);
    }
  }

  /** A key of either side is a key of their outer merge. */
  lemma MergedKeyOf<K>(l: seq<(K, real)>, r: seq<(K, real)>, k: K)
    requires k in Keys(l, Fst) || k in Keys(r, Fst)
    ensures k in Keys(OuterMerge(l, r), Key3)
  {
    if k in Keys(l, Fst) {
      var a :| 0 <= a < |l| && Keys(l, Fst)[a] == k;
      assert l[a].0 in Keys(OuterMerge(l, r), Key3);
    } else {
      var a :| 0 <= a < |r| && Keys(r, Fst)[a] == k;
      assert r[a].0 in Keys(OuterMerge(l, r), Key3);
    }
  }

  /** A merged key keeps a row, under its labels, after sorting and labelling. */
  lemma PrescriberKey(brand: Table, generic: Table, maps: Maps, k: PrescKey)
    requires Rectangular(brand) && Rectangular(generic) && Plain(brand) && Plain(generic)
    requires k in Keys(OuterMerge(Melt(brand), Melt(generic)), Key3)
    ensures Labels4(maps, k) in Keys(PrescriberTable(brand, generic, maps), MetricKey)
  {
    var seg := OuterMerge(Melt(brand), Melt(generic));
    var ws := WithShares(seg);
    var ss := SortBy(ws, ShareOf, true);
    var pt := PrescriberTable(brand, generic, maps);
    var t :| 0 <= t < |seg| && Keys(seg, Key3)[t] == k;
    var u := PermutedAt(ws, ss, t);
    assert Keys(pt, MetricKey)[u] == Labels4(maps, k);
  }

  // ---------------------------------------------------------------- the comparison as a whole

  /** Lines 53-65: the segment table is sorted by brand share, ascending with
      undefined shares last, and every row computes its total and share. */
  lemma SegmentsConsistent(brand: Table, generic: Table, maps: Maps)
    ensures AllConsistent(Segments(brand, generic, maps))
    ensures SortedBy(Segments(brand, generic, maps), ShareOf, true)
  {
    var ws := WithShares(OuterMerge(GroupSum(brand.rows, SegKey, Total), GroupSum(generic.rows, SegKey, Total)));
    var ss := SortBy(ws, ShareOf, true);
    RelabelSorted(ss, Labeller3(maps));
    forall i | 0 <= i < |ss| ensures Consistent(Segments(brand, generic, maps)[i]) {
      var t := PermutedAt(ss, ws, i);
    }
  }

  /** Lines 109-123: the prescriber table likewise. */
  lemma PrescribersConsistent(brand: Table, generic: Table, maps: Maps)
    requires Rectangular(brand) && Rectangular(generic) && Plain(brand) && Plain(generic)
    ensures AllConsistent(PrescriberTable(brand, generic, maps))
    ensures SortedBy(PrescriberTable(brand, generic, maps), ShareOf, true)
  {
    var ss := SortBy(WithShares(OuterMerge(Melt(brand), Melt(generic))), ShareOf, true);
    RelabelSorted(ss, Labeller4(maps));
    PrescriberRows(brand, generic, maps);
    var pt := PrescriberTable(brand, generic, maps);
    forall i | 0 <= i < |pt| ensures Consistent(pt[i]) {
      assert pt[i] in pt;
    }
  }

  /** A table that keeps the brand total `b` and the generic total `g`, and
      whose combined totals add up to both. */
  predicate Conserves<K>(ms: seq<Metric<K>>, b: real, g: real)
  {
    SumOf(ms, Brand) == b && SumOf(ms, Generic) == g && SumOf(ms, Combined) == b + g
  }

  lemma ConsistentCombined<K>(ms: seq<Metric<K>>)
    requires AllConsistent(ms)
    ensures SumOf(ms, Combined) == SumOf(ms, Brand) + SumOf(ms, Generic)
  {
    SumOfAdd(ms, Brand, Generic, Combined);
  }

  /** Lines 53-90: the segment table and the three rollups each account for
      every brand box and every generic box of the two wide tables. */
  lemma ComparisonConserves(brand: Table, generic: Table, maps: Maps)
    requires Rectangular(brand) && Rectangular(generic) && Plain(brand) && Plain(generic)
    requires CompareBrandVsGeneric(brand, generic, maps).Success?
    ensures var c := CompareBrandVsGeneric(brand, generic, maps).value;
            var b, g := SumOf(brand.rows, Total), SumOf(generic.rows, Total);
            && Conserves(c.segments, b, g)
            && Conserves(c.regions, b, g) && Conserves(c.ages, b, g) && Conserves(c.genders, b, g)
  {
    var segs := Segments(brand, generic, maps);
    SegmentsConserve(brand, generic, maps);
    SegmentsConsistent(brand, generic, maps);
    ConsistentCombined(segs);
    RollupConserves(segs, RegionOf);
    RollupConserves(segs, AgeOf);
    RollupConserves(segs, SexOf);
  }

  /** Lines 53-123: all five tables are sorted by brand share, ascending with
      undefined shares last, and every row computes its total and share. */
  lemma ComparisonConsistent(brand: Table, generic: Table, maps: Maps)
    requires Rectangular(brand) && Rectangular(generic) && Plain(brand) && Plain(generic)
    requires CompareBrandVsGeneric(brand, generic, maps).Success?
    ensures var c := CompareBrandVsGeneric(brand, generic, maps).value;
            && AllConsistent(c.segments) && SortedBy(c.segments, ShareOf, true)
            && AllConsistent(c.regions) && SortedBy(c.regions, ShareOf, true)
            && AllConsistent(c.ages) && SortedBy(c.ages, ShareOf, true)
            && AllConsistent(c.genders) && SortedBy(c.genders, ShareOf, true)
            && AllConsistent(c.prescribers) && SortedBy(c.prescribers, ShareOf, true)
  {
    var segs := Segments(brand, generic, maps);
    SegmentsConsistent(brand, generic, maps);
    RollupConsistent(segs, RegionOf);
    RollupConsistent(segs, AgeOf);
    RollupConsistent(segs, SexOf);
    PrescribersConsistent(brand, generic, maps);
  }

  /** Counts that are not negative, and a brand share in [0, 1] wherever the
      combined total is positive. */
  predicate SharesBounded<K>(ms: seq<Metric<K>>)
  {
    forall i :: 0 <= i < |ms| ==>
      ms[i].brand >= 0.0 && ms[i].generic >= 0.0 &&
      (ms[i].combined > 0.0 ==> ms[i].share.Some? && 0.0 <= ms[i].share.value <= 1.0)
  }

  lemma BoundedFromConsistent<K>(ms: seq<Metric<K>>)
    requires AllConsistent(ms)
    requires forall i :: 0 <= i < |ms| ==> ms[i].brand >= 0.0 && ms[i].generic >= 0.0
    ensures SharesBounded(ms)
  {
    forall i | 0 <= i < |ms| && ms[i].combined > 0.0
      ensures ms[i].share.Some? && 0.0 <= ms[i].share.value <= 1.0
    {
      ShareInUnit(ms[i]);
    }
  }

  lemma SegmentsBounded(brand: Table, generic: Table, maps: Maps)
    requires NonNegative(brand) && NonNegative(generic)
    ensures SharesBounded(Segments(brand, generic, maps))
  {
    var segs := Segments(brand, generic, maps);
    SegmentsConsistent(brand, generic, maps);
    SegmentsOnly(brand, generic, maps);
    forall i | 0 <= i < |segs| ensures segs[i].brand >= 0.0 && segs[i].generic >= 0.0 {
      assert segs[i] in segs;
      var k :| k in SegKeys(brand, generic) && segs[i] == Segment(brand, generic, maps, k);
      SumWhereNonNegative(brand.rows, SegKey, Total, k);
      SumWhereNonNegative(generic.rows, SegKey, Total, k);
    }
    BoundedFromConsistent(segs);
  }

  lemma RollupBounded(segs: seq<Metric<Seg3>>, dim: Metric<Seg3> -> string)
    requires SharesBounded(segs)
    ensures SharesBounded(Rollup(segs, dim))
  {
    var r := Rollup(segs, dim);
    RollupConsistent(segs, dim);
    RollupRows(segs, dim);
    forall i | 0 <= i < |r| ensures r[i].brand >= 0.0 && r[i].generic >= 0.0 {
      assert r[i] in r;
      SumWhereNonNegative(segs, dim, Brand, r[i].key);
      SumWhereNonNegative(segs, dim, Generic, r[i].key);
    }
    BoundedFromConsistent(r);
  }

  lemma PrescribersBounded(brand: Table, generic: Table, maps: Maps)
    requires Rectangular(brand) && Rectangular(generic) && Plain(brand) && Plain(generic)
    requires NonNegative(brand) && NonNegative(generic)
    ensures SharesBounded(PrescriberTable(brand, generic, maps))
  {
    var pt := PrescriberTable(brand, generic, maps);
    var mb, mg := Melt(brand), Melt(generic);
    PrescribersConsistent(brand, generic, maps);
    PrescriberRows(brand, generic, maps);
    MeltUpToFrom(brand, |brand.prescribers|);
    MeltUpToFrom(generic, |generic.prescribers|);
    forall i | 0 <= i < |pt| ensures pt[i].brand >= 0.0 && pt[i].generic >= 0.0 {
      assert pt[i] in pt;
      var k :| pt[i].key == Labels4(maps, k) && MergedFrom(mb, mg, k, pt[i].brand, pt[i].generic);
      if (k, pt[i].brand) in mb {
        var a, b :| 0 <= a < |brand.rows| && 0 <= b < |brand.prescribers| &&
                    (k, pt[i].brand) == ((SegKey(brand.rows[a]), brand.prescribers[b]), brand.rows[a].cells[b]);
      }
      if (k, pt[i].generic) in mg {
        var a, b :| 0 <= a < |generic.rows| && 0 <= b < |generic.prescribers| &&
                    (k, pt[i].generic) == ((SegKey(generic.rows[a]), generic.prescribers[b]), generic.rows[a].cells[b]);
      }
    }
    BoundedFromConsistent(pt);
  }

  /** Lines 53-123: when no box count is negative, every row of all five
      tables has counts that are not negative and, where its combined total is
      positive, a brand share between 0 and 1. */
  lemma ComparisonShares(brand: Table, generic: Table, maps: Maps)
    requires Rectangular(brand) && Rectangular(generic) && Plain(brand) && Plain(generic)
    requires NonNegative(brand) && NonNegative(generic)
    requires CompareBrandVsGeneric(brand, generic, maps).Success?
    ensures var c := CompareBrandVsGeneric(brand, generic, maps).value;
            && SharesBounded(c.segments) && SharesBounded(c.regions) && SharesBounded(c.ages)
            && SharesBounded(c.genders) && SharesBounded(c.prescribers)
  {
    var segs := Segments(brand, generic, maps);
    SegmentsBounded(brand, generic, maps);
    RollupBounded(segs, RegionOf);
    RollupBounded(segs, AgeOf);
    RollupBounded(segs, SexOf);
    PrescribersBounded(brand, generic, maps);
  }
}
