/** The summary page pages/3_Brand_vs_Generic.py: `load_and_prep` readies a
    per-dimension summary table (numeric coercion, an added generic share, the
    code column labelled and renamed), and the generic-products table `gp`
    gets, per product, its share within its generic group and whether it is
    one of the company's two CIP13 codes, from which the page selects one
    slice and its five largest products. Reading the CSVs and the lookup
    tables is left to the caller: the frames, the number parser and the maps
    are parameters. */
module SummaryPage {
  import opened Wrappers
  import opened Cells
  import opened Lookup
  import opened Frames
  import opened Relational
  import opened Sorting
  import opened Loaders
  import BrandGeneric

  // ---------------------------------------------------------------- load_and_prep

  /** Line 18: the summary columns coerced to numbers when present. */
  const MetricCols: seq<string> := ["brand_total", "generic_total", "combined_total", "brand_share"]

  /** `df[cols] = pd.to_numeric(..., errors="coerce").fillna(0)` on each named
      column: a number stays, anything else becomes 0. */
  function RealCoerced(parse: Parser, f: Frame, cols: seq<string>): (g: Frame)
    requires WellFormed(f)
    ensures WellFormed(g) && g.columns == f.columns && |g.rows| == |f.rows|
    ensures forall i, m :: 0 <= i < |g.rows| && m in g.columns ==>
              Get(g, i, m) == if m in cols then Real(CoerceReal(parse, Get(f, i, m))) else Get(f, i, m)
  {
    Frame(f.columns, seq(|f.rows|, i requires 0 <= i < |f.rows| =>
      seq(|f.columns|, j requires 0 <= j < |f.columns| =>
        if f.columns[j] in cols then Real(CoerceReal(parse, f.rows[i][j])) else f.rows[i][j])))
  }

  /** `pd.to_numeric(df[n], errors="coerce").fillna(0)`. */
  function RealColumn(parse: Parser, f: Frame, n: string): (vals: seq<Cell>)
    requires WellFormed(f) && n in f.columns
    ensures |vals| == |f.rows|
    ensures forall i :: 0 <= i < |vals| ==> vals[i] == Real(CoerceReal(parse, Get(f, i, n)))
  {
    seq(|f.rows|, i requires 0 <= i < |f.rows| => Real(CoerceReal(parse, Get(f, i, n))))
  }

  /** `a / b` on two numeric cells without a zero guard: `x / 0` is NaN or an
      infinity, both read here as a missing cell. */
  function Divide(a: Cell, b: Cell): (q: Cell)
    ensures q.Real? <==> a.Real? && b.Real? && b.r != 0.0
    ensures q.Real? ==> q.r * b.r == a.r
    ensures !q.Real? ==> q == Missing
  {
    if a.Real? && b.Real? && b.r != 0.0 then Real(a.r / b.r) else Missing
  }

  /** Line 23: `generic_total / combined_total`, row by row. */
  function ShareColumn(f: Frame): (vals: seq<Cell>)
    requires WellFormed(f) && "generic_total" in f.columns && "combined_total" in f.columns
    ensures |vals| == |f.rows|
    ensures forall i :: 0 <= i < |vals| ==> vals[i] == Divide(Get(f, i, "generic_total"), Get(f, i, "combined_total"))
  {
    seq(|f.rows|, i requires 0 <= i < |f.rows| => Divide(Get(f, i, "generic_total"), Get(f, i, "combined_total")))
  }

  /** Line 22: whether `generic_share` is computed. */
  predicate AddsShare(cols: seq<string>)
  {
    "generic_share" !in cols && "generic_total" in cols
  }

  /** What `load_and_prep` returns for the table `csv`: a `KeyError` when the
      share needs a `combined_total` the table lacks, or when the code column
      is missing. */
  function Prepped(parse: Parser, csv: Frame, codeCol: string, codeMap: map<string, string>, renameTo: string): Result<Frame>
    requires Valid(csv)
  {
    var df := RealCoerced(parse, csv, MetricCols);
    if AddsShare(df.columns) && "combined_total" !in df.columns then KeyError("combined_total")
    else
      var df := if AddsShare(df.columns) then Append(df, "generic_share", ShareColumn(df)) else df;
      if codeCol !in df.columns then KeyError(codeCol)
      else Success(Rename(Overwrite(df, codeCol, ResolveColumn(codeMap, df, codeCol)), map[codeCol := renameTo]))
  }

  /** Lines 15-27. */
  method LoadAndPrep(parse: Parser, csv: Frame, codeCol: string, codeMap: map<string, string>, renameTo: string)
    returns (r: Result<Frame>)
    requires Valid(csv)
    ensures r == Prepped(parse, csv, codeCol, codeMap, renameTo)
  {
    var df := csv;
    SameFrame(df, RealCoerced(parse, csv, MetricCols[..0]));
    for k := 0 to |MetricCols|
      invariant df == RealCoerced(parse, csv, MetricCols[..k])
    {
      var c := MetricCols[k];
      var next := df;
      if c in df.columns {
        next := Overwrite(df, c, RealColumn(parse, df, c));
      }
      assert MetricCols[..k + 1] == MetricCols[..k] + [c];
      SameFrame(next, RealCoerced(parse, csv, MetricCols[..k + 1]));
      df := next;
    }
    assert MetricCols[..|MetricCols|] == MetricCols;
    if AddsShare(df.columns) {
      if "combined_total" !in df.columns {
        return KeyError("combined_total");
      }
      df := Append(df, "generic_share", ShareColumn(df));
    }
    if codeCol !in df.columns {
      return KeyError(codeCol);
    }
    df := Overwrite(df, codeCol, ResolveColumn(codeMap, df, codeCol));
    r := Success(Rename(df, map[codeCol := renameTo]));
  }

  /** The cell `load_and_prep` leaves in column `n` for the cell `c` read: a
      summary column coerced to a number, the code column labelled. */
  function PrepCell(parse: Parser, codeCol: string, codeMap: map<string, string>, n: string, c: Cell): Cell
  {
    var v := if n in MetricCols then Real(CoerceReal(parse, c)) else c;
    if n == codeCol then ResolveCell(codeMap, v) else v
  }

  /** The header after `load_and_prep`: the columns read, then
      `generic_share` when it was added, with the code column renamed. */
  function PreppedColumns(cols: seq<string>, codeCol: string, renameTo: string): (out: seq<string>)
    ensures |out| == |cols| + (if AddsShare(cols) then 1 else 0)
  {
    var all := if AddsShare(cols) then cols + ["generic_share"] else cols;
    seq(|all|, j requires 0 <= j < |all| => if all[j] == codeCol then renameTo else all[j])
  }

  /** Lines 15-27: `load_and_prep` raises `KeyError` exactly when the share
      is to be computed without a `combined_total`, or the code column is
      missing (the share check comes first). */
  lemma PreppedErrors(parse: Parser, csv: Frame, codeCol: string, codeMap: map<string, string>, renameTo: string)
    requires Valid(csv)
    ensures var added := AddsShare(csv.columns);
            var r := Prepped(parse, csv, codeCol, codeMap, renameTo);
            && (r.KeyError? <==> (added && "combined_total" !in csv.columns) ||
                                 (codeCol !in csv.columns && !(added && codeCol == "generic_share")))
            && (r.KeyError? ==> r.key == if added && "combined_total" !in csv.columns then "combined_total" else codeCol)
  {
  }

  /** Lines 15-27: on success, the header is the one read with
      `generic_share` appended when it was absent and `generic_total` present,
      and the code column renamed; every cell read is coerced or labelled as
      its column asks and stays in its row and column. */
  lemma PreppedCells(parse: Parser, csv: Frame, codeCol: string, codeMap: map<string, string>, renameTo: string)
    requires Valid(csv) && Prepped(parse, csv, codeCol, codeMap, renameTo).Success?
    ensures var f := Prepped(parse, csv, codeCol, codeMap, renameTo).value;
            && f.columns == PreppedColumns(csv.columns, codeCol, renameTo)
            && |f.rows| == |csv.rows| && WellFormed(f)
            && forall i, j :: 0 <= i < |csv.rows| && 0 <= j < |csv.columns| ==>
                 f.rows[i][j] == PrepCell(parse, codeCol, codeMap, csv.columns[j], csv.rows[i][j])
  {
    PreppedHeader(parse, csv, codeCol, codeMap, renameTo);
    var f := Prepped(parse, csv, codeCol, codeMap, renameTo).value;
    forall i, j | 0 <= i < |csv.rows| && 0 <= j < |csv.columns|
      ensures f.rows[i][j] == PrepCell(parse, codeCol, codeMap, csv.columns[j], csv.rows[i][j])
    {
      PreppedCell(parse, csv, codeCol, codeMap, i, j);
    }
  }

  lemma PreppedHeader(parse: Parser, csv: Frame, codeCol: string, codeMap: map<string, string>, renameTo: string)
    requires Valid(csv) && Prepped(parse, csv, codeCol, codeMap, renameTo).Success?
    ensures var f := Prepped(parse, csv, codeCol, codeMap, renameTo).value;
            var df := RealCoerced(parse, csv, MetricCols);
            var ef := if AddsShare(df.columns) then Append(df, "generic_share", ShareColumn(df)) else df;
            && f.rows == Overwrite(ef, codeCol, ResolveColumn(codeMap, ef, codeCol)).rows
            && f.columns == PreppedColumns(csv.columns, codeCol, renameTo)
            && |f.rows| == |csv.rows| && WellFormed(f)
  {
  }

  lemma PreppedCell(parse: Parser, csv: Frame, codeCol: string, codeMap: map<string, string>, i: nat, j: nat)
    requires Valid(csv) && i < |csv.rows| && j < |csv.columns|
    requires var df := RealCoerced(parse, csv, MetricCols);
             !(AddsShare(df.columns) && "combined_total" !in df.columns) &&
             codeCol in (if AddsShare(df.columns) then df.columns + ["generic_share"] else df.columns)
    ensures var df := RealCoerced(parse, csv, MetricCols);
            var ef := if AddsShare(df.columns) then Append(df, "generic_share", ShareColumn(df)) else df;
            var gf := Overwrite(ef, codeCol, ResolveColumn(codeMap, ef, codeCol));
            |gf.rows| == |csv.rows| && WellFormed(gf) &&
            gf.rows[i][j] == PrepCell(parse, codeCol, codeMap, csv.columns[j], csv.rows[i][j])
  {
    var df := RealCoerced(parse, csv, MetricCols);
    CoercedAt(parse, csv, i, j);
    SharedAt(df, i, j);
    var ef := if AddsShare(df.columns) then Append(df, "generic_share", ShareColumn(df)) else df;
    LabelledAt(ef, codeCol, codeMap, i, j);
  }

  /** The coercion step, cell by cell. */
  lemma CoercedAt(parse: Parser, csv: Frame, i: nat, j: nat)
    requires Valid(csv) && i < |csv.rows| && j < |csv.columns|
    ensures var df := RealCoerced(parse, csv, MetricCols);
            Valid(df) &&
            df.rows[i][j] == if csv.columns[j] in MetricCols then Real(CoerceReal(parse, csv.rows[i][j])) else csv.rows[i][j]
  {
    GetAt(csv, i, j);
    GetAt(RealCoerced(parse, csv, MetricCols), i, j);
  }

  /** The share step keeps the cells read in place. */
  lemma SharedAt(df: Frame, i: nat, j: nat)
    requires Valid(df) && i < |df.rows| && j < |df.columns|
    requires AddsShare(df.columns) ==> "combined_total" in df.columns
    ensures var ef := if AddsShare(df.columns) then Append(df, "generic_share", ShareColumn(df)) else df;
            Valid(ef) && |ef.rows| == |df.rows| && ef.columns[..|df.columns|] == df.columns &&
            ef.rows[i][j] == df.rows[i][j]
  {
    if AddsShare(df.columns) {
      var ef := Append(df, "generic_share", ShareColumn(df));
      GetAt(df, i, j);
      assert ef.columns[j] == df.columns[j];
      GetAt(ef, i, j);
    }
  }

  /** The labelling step touches the code column only. */
  lemma LabelledAt(ef: Frame, codeCol: string, codeMap: map<string, string>, i: nat, j: nat)
    requires Valid(ef) && i < |ef.rows| && j < |ef.columns| && codeCol in ef.columns
    ensures var gf := Overwrite(ef, codeCol, ResolveColumn(codeMap, ef, codeCol));
            WellFormed(gf) && |gf.rows| == |ef.rows| &&
            gf.rows[i][j] == if ef.columns[j] == codeCol then ResolveCell(codeMap, ef.rows[i][j]) else ef.rows[i][j]
  {
    var gf := Overwrite(ef, codeCol, ResolveColumn(codeMap, ef, codeCol));
    GetAt(ef, i, j);
    assert Valid(gf);
    GetAt(gf, i, j);
  }

  /** Lines 22-23: the added `generic_share` is `generic_total` over
      `combined_total` after coercion, with no guard: a row whose
      `combined_total` is 0 gets no share. */
  lemma PreppedShare(parse: Parser, csv: Frame, codeCol: string, codeMap: map<string, string>, renameTo: string, i: nat)
    requires Valid(csv) && Prepped(parse, csv, codeCol, codeMap, renameTo).Success?
    requires AddsShare(csv.columns) && i < |csv.rows|
    ensures var f := Prepped(parse, csv, codeCol, codeMap, renameTo).value;
            var gt := CoerceReal(parse, Get(csv, i, "generic_total"));
            var ct := CoerceReal(parse, Get(csv, i, "combined_total"));
            && |f.rows| == |csv.rows| && WellFormed(f) && |f.columns| == |csv.columns| + 1
            && f.rows[i][|csv.columns|] == if ct == 0.0 then Missing else Real(gt / ct)
  {
    var df := RealCoerced(parse, csv, MetricCols);
    var ef := Append(df, "generic_share", ShareColumn(df));
    var gf := Overwrite(ef, codeCol, ResolveColumn(codeMap, ef, codeCol));
    var k := |csv.columns|;
    assert ef.columns[k] == "generic_share";
    GetAt(ef, i, k);
    GetAt(gf, i, k);
  }

  // ---------------------------------------------------------------- generic products

  /** Line 9: the company's two CIP13 codes. */
  const CipList: seq<string> := ["3400938014792", "3400938014914"]

  /** Line 42: `isin(cip_list)` on a CIP13 read as text; a missing code is
      never in the list. */
  predicate IsOurs(cip: Cell)
  {
    cip.Text? && cip.s in CipList
  }

  /** One row of `gp` (lines 36-46). */
  datatype Product = Product(generic: Cell, product: Cell, cip: Cell, region: Cell, ageGroup: Cell, gender: Cell,
                             boxes: int, share: Option<real>, isOurs: bool)

  function GenericOf(p: Product): Cell { p.generic }
  function BoxesOf(p: Product): real { p.boxes as real }
  function ShareOrZero(p: Product): real { p.share.GetOr(0.0) }
  function BoxesKey(p: Product): Option<real> { Some(p.boxes as real) }

  /** Lines 37-39 and 42-46 for row `i`: the labels of its codes, its boxes
      coerced to an integer and whether it is one of ours; the share comes
      after. */
  function ProductAt(parse: Parser, maps: Maps, csv: Frame, i: nat): Product
    requires WellFormed(csv) && i < |csv.rows|
    requires forall n :: n in ProductCols ==> n in csv.columns
  {
    Product(ResolveCell(maps.cpi, Get(csv, i, "GEN_NUM")), ResolveCell(maps.cpi, Get(csv, i, "CIP13")),
            Get(csv, i, "CIP13"), ResolveCell(maps.region, Get(csv, i, "BEN_REG")),
            ResolveCell(maps.age, Get(csv, i, "age")), ResolveCell(maps.sex, Get(csv, i, "sexe")),
            CoerceInt(parse, Get(csv, i, "total_boites")), None, IsOurs(Get(csv, i, "CIP13")))
  }

  /** The columns `gp` is built from, in the order the code reads them. */
  const ProductCols: seq<string> := ["total_boites", "GEN_NUM", "CIP13", "BEN_REG", "age", "sexe"]

  /** Line 41: a product's boxes over the boxes of its generic group. pandas
      leaves a missing group label out of the groupby, and a zero group total
      gives NaN or an infinity: in those cases there is no share. */
  function GroupShare(ps: seq<Product>, p: Product): Option<real>
  {
    if p.generic.Missing? then None else BrandGeneric.Ratio(BoxesOf(p), SumWhere(ps, GenericOf, BoxesOf, p.generic))
  }

  /** The first of the columns `gp` reads that the table lacks. */
  function FirstMissing(cols: seq<string>, names: seq<string>): (r: Option<string>)
    ensures r.None? <==> forall n :: n in names ==> n in cols
    ensures r.Some? ==> r.value in names && r.value !in cols
  {
    if names == [] then None
    else if names[0] !in cols then Some(names[0])
    else FirstMissing(cols, names[1..])
  }

  /** The name reported is the first absent one in read order: it comes no
      later than any absent name, so every name read before it is present. */
  lemma {:induction false} FirstMissingFirst(cols: seq<string>, names: seq<string>)
    ensures forall k :: 0 <= k < |names| && names[k] !in cols ==>
              FirstMissing(cols, names).Some? && FirstMissing(cols, names).value in names[..k + 1]
    decreases |names|
  {
    if names != [] && names[0] in cols {
      var rest := names[1..];
      FirstMissingFirst(cols, rest);
      var r := FirstMissing(cols, names);
      assert r == FirstMissing(cols, rest);
      forall k | 0 <= k < |names| && names[k] !in cols
        ensures r.Some? && r.value in names[..k + 1]
      {
        assert rest[k - 1] == names[k];
        ShiftedPrefix(names, k, r.value);
      }
    }
  }

  lemma ShiftedPrefix(names: seq<string>, k: nat, v: string)
    requires 0 < k < |names| && v in names[1..][..k]
    ensures v in names[..k + 1]
  {
    assert names[1..][..k] == names[1..k + 1];
  }

  /** Lines 36-46: the rows of `gp`, or the `KeyError` of the first column it
      reads and does not find. */
  function ProductsOf(parse: Parser, maps: Maps, csv: Frame): Result<seq<Product>>
    requires WellFormed(csv)
  {
    match FirstMissing(csv.columns, ProductCols)
    case Some(n) => KeyError(n)
    case None =>
      var base := seq(|csv.rows|, i requires 0 <= i < |csv.rows| => ProductAt(parse, maps, csv, i));
      Success(seq(|base|, i requires 0 <= i < |base| => base[i].(share := GroupShare(base, base[i]))))
  }

  /** The group totals do not depend on the shares. */
  lemma SameGroupTotals(a: seq<Product>, b: seq<Product>, g: Cell)
    requires |a| == |b| && forall i :: 0 <= i < |a| ==> a[i].generic == b[i].generic && a[i].boxes == b[i].boxes
    ensures SumWhere(a, GenericOf, BoxesOf, g) == SumWhere(b, GenericOf, BoxesOf, g)
  {
    SumWhereSame(a, b, g);
  }

  lemma {:induction false} SumWhereSame(a: seq<Product>, b: seq<Product>, g: Cell)
    requires |a| == |b| && forall i :: 0 <= i < |a| ==> a[i].generic == b[i].generic && a[i].boxes == b[i].boxes
    ensures SumWhere(a, GenericOf, BoxesOf, g) == SumWhere(b, GenericOf, BoxesOf, g)
    decreases |a|
  {
    if a != [] {
      SumWhereSame(a[..|a| - 1], b[..|b| - 1], g);
    }
  }

  /** Lines 36-46: `gp` has one product per row of the table, in order, with
      the labels of its codes, its integer boxes, the flag of line 42, and
      the share of its boxes in the boxes of its generic group. */
  lemma ProductsRows(parse: Parser, maps: Maps, csv: Frame)
    requires WellFormed(csv)
    ensures ProductsOf(parse, maps, csv).KeyError? <==> exists n :: n in ProductCols && n !in csv.columns
    ensures ProductsOf(parse, maps, csv).Success? ==>
              var ps := ProductsOf(parse, maps, csv).value;
              && |ps| == |csv.rows|
              && forall i :: 0 <= i < |ps| ==>
                   && ps[i].generic == ResolveCell(maps.cpi, Get(csv, i, "GEN_NUM"))
                   && ps[i].product == ResolveCell(maps.cpi, Get(csv, i, "CIP13"))
                   && ps[i].region == ResolveCell(maps.region, Get(csv, i, "BEN_REG"))
                   && ps[i].ageGroup == ResolveCell(maps.age, Get(csv, i, "age"))
                   && ps[i].gender == ResolveCell(maps.sex, Get(csv, i, "sexe"))
                   && ps[i].boxes == CoerceInt(parse, Get(csv, i, "total_boites"))
                   && (ps[i].isOurs <==> Get(csv, i, "CIP13").Text? && Get(csv, i, "CIP13").s in CipList)
                   && ps[i].share == GroupShare(ps, ps[i])
  {
    if ProductsOf(parse, maps, csv).Success? {
      var base := seq(|csv.rows|, i requires 0 <= i < |csv.rows| => ProductAt(parse, maps, csv, i));
      var ps := ProductsOf(parse, maps, csv).value;
      forall i | 0 <= i < |ps| ensures ps[i].share == GroupShare(ps, ps[i]) {
        SameGroupTotals(base, ps, ps[i].generic);
      }
    }
  }

  /** Line 41 for one group: where every product of group `g` has the share
      of its boxes in `total`, the group's shares add up to its boxes over
      `total`. */
  lemma {:induction false} GroupSharesScaled(ps: seq<Product>, g: Cell, total: real)
    requires total != 0.0
    requires forall i :: 0 <= i < |ps| && ps[i].generic == g ==> ps[i].share == Some(BoxesOf(ps[i]) / total)
    ensures SumWhere(ps, GenericOf, ShareOrZero, g) == SumWhere(ps, GenericOf, BoxesOf, g) / total
    decreases |ps|
  {
    if ps != [] {
      var p := ps[..|ps| - 1];
      GroupSharesScaled(p, g, total);
      DivAdd(SumWhere(p, GenericOf, BoxesOf, g), BoxesOf(ps[|ps| - 1]), total);
    }
  }

  lemma DivAdd(x: real, y: real, total: real)
    requires total != 0.0
    ensures x / total + y / total == (x + y) / total
  {
  }

  /** Lines 37 and 41: within a generic group whose boxes add up to a
      nonzero total, the products' shares add up to 1. */
  lemma GroupSharesSum(parse: Parser, maps: Maps, csv: Frame, g: Cell)
    requires WellFormed(csv) && ProductsOf(parse, maps, csv).Success?
    requires !g.Missing? && SumWhere(ProductsOf(parse, maps, csv).value, GenericOf, BoxesOf, g) != 0.0
    ensures SumWhere(ProductsOf(parse, maps, csv).value, GenericOf, ShareOrZero, g) == 1.0
  {
    ProductsRows(parse, maps, csv);
    SharesAddUp(ProductsOf(parse, maps, csv).value, g);
  }

  lemma SharesAddUp(ps: seq<Product>, g: Cell)
    requires forall i :: 0 <= i < |ps| ==> ps[i].share == GroupShare(ps, ps[i])
    requires !g.Missing? && SumWhere(ps, GenericOf, BoxesOf, g) != 0.0
    ensures SumWhere(ps, GenericOf, ShareOrZero, g) == 1.0
  {
    var total := SumWhere(ps, GenericOf, BoxesOf, g);
    forall i | 0 <= i < |ps| && ps[i].generic == g ensures ps[i].share == Some(BoxesOf(ps[i]) / total) {
      assert ps[i].share == BrandGeneric.Ratio(BoxesOf(ps[i]), total);
    }
    GroupSharesScaled(ps, g, total);
    SelfRatio(total);
  }

  lemma SelfRatio(x: real)
    requires x != 0.0
    ensures x / x == 1.0
  {
  }

  /** Line 41: with non-negative boxes, every share lies between 0 and 1. */
  lemma SharesBounded(parse: Parser, maps: Maps, csv: Frame)
    requires WellFormed(csv) && ProductsOf(parse, maps, csv).Success?
    requires forall i :: 0 <= i < |ProductsOf(parse, maps, csv).value| ==> ProductsOf(parse, maps, csv).value[i].boxes >= 0
    ensures forall i :: 0 <= i < |ProductsOf(parse, maps, csv).value| && ProductsOf(parse, maps, csv).value[i].share.Some? ==>
              0.0 <= ProductsOf(parse, maps, csv).value[i].share.value <= 1.0
  {
    var ps := ProductsOf(parse, maps, csv).value;
    ProductsRows(parse, maps, csv);
    forall i | 0 <= i < |ps| && ps[i].share.Some? ensures 0.0 <= ps[i].share.value <= 1.0 {
      ShareInGroup(ps, i);
    }
  }

  lemma ShareInGroup(ps: seq<Product>, i: nat)
    requires i < |ps| && forall k :: 0 <= k < |ps| ==> ps[k].boxes >= 0
    requires GroupShare(ps, ps[i]).Some?
    ensures 0.0 <= GroupShare(ps, ps[i]).value <= 1.0
  {
    var g := ps[i].generic;
    var total := SumWhere(ps, GenericOf, BoxesOf, g);
    SumWhereAtLeast(ps, g, i);
    var q := GroupShare(ps, ps[i]).value;
    assert q * total == BoxesOf(ps[i]) <= total;
  }

  /** A product's boxes are at most its group's boxes, all boxes being non-negative. */
  lemma {:induction false} SumWhereAtLeast(ps: seq<Product>, g: Cell, i: nat)
    requires i < |ps| && ps[i].generic == g && forall k :: 0 <= k < |ps| ==> ps[k].boxes >= 0
    ensures BoxesOf(ps[i]) <= SumWhere(ps, GenericOf, BoxesOf, g)
    decreases |ps|
  {
    var p := ps[..|ps| - 1];
    if i < |ps| - 1 {
      SumWhereAtLeast(p, g, i);
    } else {
      SumWhereNonNegative(p, GenericOf, BoxesOf, g);
    }
  }

  // ---------------------------------------------------------------- slice and top five

  /** The four labels the detail view selects on (lines 172-178). */
  datatype Selection = Selection(generic: Cell, region: Cell, ageGroup: Cell, gender: Cell)

  /** `==` on a label: a missing label (NaN) equals nothing, itself included. */
  predicate SameLabel(a: Cell, b: Cell)
  {
    a == b && !a.Missing?
  }

  predicate Matches(p: Product, sel: Selection)
  {
    SameLabel(p.generic, sel.generic) && SameLabel(p.region, sel.region) &&
    SameLabel(p.ageGroup, sel.ageGroup) && SameLabel(p.gender, sel.gender)
  }

  /** Lines 180-185: the products matching all four selected labels, in order. */
  function Slice(ps: seq<Product>, sel: Selection): (sub: seq<Product>)
    ensures forall p :: multiset(sub)[p] == if Matches(p, sel) then multiset(ps)[p] else 0
  {
    if ps == [] then [] else
      var front, last := ps[..|ps| - 1], ps[|ps| - 1];
      assert ps == front + [last];
      var sub := Slice(front, sel);
      if Matches(last, sel) then sub + [last] else sub
  }

  /** The positions in `ps` of the products the slice keeps. */
  function SliceIndices(ps: seq<Product>, sel: Selection): (ks: seq<nat>)
    ensures forall t :: 0 <= t < |ks| ==> ks[t] < |ps|
  {
    if ps == [] then [] else
      var ks := SliceIndices(ps[..|ps| - 1], sel);
      if Matches(ps[|ps| - 1], sel) then ks + [|ps| - 1] else ks
  }

  /** The t-th product of the slice is the product at the t-th kept position. */
  lemma {:induction false} SliceAt(ps: seq<Product>, sel: Selection)
    ensures var ks, sub := SliceIndices(ps, sel), Slice(ps, sel);
            |ks| == |sub| && forall t :: 0 <= t < |ks| ==> ps[ks[t]] == sub[t]
    decreases |ps|
  {
    if ps != [] {
      var front := ps[..|ps| - 1];
      SliceAt(front, sel);
      var ks, sub := SliceIndices(front, sel), Slice(front, sel);
      if Matches(ps[|ps| - 1], sel) {
        var r, q := ks + [|ps| - 1], sub + [ps[|ps| - 1]];
        assert SliceIndices(ps, sel) == r && Slice(ps, sel) == q;
        forall t | 0 <= t < |r| ensures ps[r[t]] == q[t] {
          if t < |ks| {
            assert r[t] == ks[t] && q[t] == sub[t] && ps[ks[t]] == front[ks[t]];
          }
        }
      } else {
        assert SliceIndices(ps, sel) == ks && Slice(ps, sel) == sub;
        forall t | 0 <= t < |ks| ensures ps[ks[t]] == front[ks[t]] {
        }
      }
    }
  }

  /** The slice keeps every matching position and no other, in increasing
      order: the boolean mask keeps the table's row order. */
  lemma {:induction false} SliceOrdered(ps: seq<Product>, sel: Selection)
    ensures var ks, sub := SliceIndices(ps, sel), Slice(ps, sel);
            && |ks| == |sub| && (forall t :: 0 <= t < |ks| ==> sub[t] == ps[ks[t]])
            && (forall t, u :: 0 <= t < u < |ks| ==> ks[t] < ks[u])
            && (forall t :: 0 <= t < |ks| ==> Matches(ps[ks[t]], sel))
            && (forall k :: 0 <= k < |ps| && Matches(ps[k], sel) ==> k in ks)
  {
    SliceIncreasing(ps, sel);
    SliceComplete(ps, sel);
    SliceAt(ps, sel);
    var ks, sub := SliceIndices(ps, sel), Slice(ps, sel);
    forall t | 0 <= t < |ks| ensures Matches(ps[ks[t]], sel) {
      assert sub[t] in sub;
    }
  }

  lemma {:induction false} SliceIncreasing(ps: seq<Product>, sel: Selection)
    ensures forall t, u :: 0 <= t < u < |SliceIndices(ps, sel)| ==> SliceIndices(ps, sel)[t] < SliceIndices(ps, sel)[u]
    decreases |ps|
  {
    if ps != [] {
      var front := ps[..|ps| - 1];
      SliceIncreasing(front, sel);
      var ks := SliceIndices(front, sel);
      if Matches(ps[|ps| - 1], sel) {
        var r := ks + [|ps| - 1];
        assert SliceIndices(ps, sel) == r;
        forall t, u | 0 <= t < u < |r| ensures r[t] < r[u] {
          if u < |ks| {
            assert r[t] == ks[t] && r[u] == ks[u];
          } else {
            assert r[t] == ks[t] < |front|;
          }
        }
      } else {
        assert SliceIndices(ps, sel) == ks;
      }
    }
  }

  lemma {:induction false} SliceComplete(ps: seq<Product>, sel: Selection)
    ensures forall k :: 0 <= k < |ps| && Matches(ps[k], sel) ==> k in SliceIndices(ps, sel)
    decreases |ps|
  {
    if ps != [] {
      var front, last := ps[..|ps| - 1], ps[|ps| - 1];
      var ks := SliceIndices(front, sel);
      SliceComplete(front, sel);
      var r := SliceIndices(ps, sel);
      assert r == if Matches(last, sel) then ks + [|ps| - 1] else ks;
      forall k | 0 <= k < |ps| && Matches(ps[k], sel) ensures k in r {
        if k == |ps| - 1 {
          assert r[|r| - 1] == k;
        } else {
          assert front[k] == ps[k];
          var t :| 0 <= t < |ks| && ks[t] == k;
          assert r[t] == k;
        }
      }
    }
  }

  /** Line 189: `nlargest(5, "total_boites")`. */
  function TopFive(sub: seq<Product>): seq<Product>
  {
    NLargest(sub, 5, BoxesKey)
  }

  /** Lines 180-189: the top five of a slice are at most five products of the
      slice, all matching the selection, in descending order of boxes, and
      none has fewer boxes than a product of the slice left out; of products
      with equal boxes, the ones kept are the first in the slice's order
      (`keep="first"`). */
  lemma TopFiveOfSlice(ps: seq<Product>, sel: Selection)
    ensures var sub := Slice(ps, sel);
            var top := TopFive(sub);
            && |top| == (if |sub| < 5 then |sub| else 5)
            && (forall p :: p in top ==> p in ps && Matches(p, sel))
            && (forall i, j :: 0 <= i < j < |top| ==> top[i].boxes >= top[j].boxes)
            && (forall i, y :: 0 <= i < |top| && y in multiset(sub) - multiset(top) ==> top[i].boxes >= y.boxes)
            && (forall b :: KeyRun(top, BoxesKey, b) <= KeyRun(sub, BoxesKey, b))
  {
    var sub := Slice(ps, sel);
    TopFromSlice(ps, sel);
    TopFiveOrdered(sub);
  }

  /** The products of the top five come from the slice, so from the table,
      and match the selection. */
  lemma TopFromSlice(ps: seq<Product>, sel: Selection)
    ensures forall p :: p in TopFive(Slice(ps, sel)) ==> p in ps && Matches(p, sel)
  {
    var sub := Slice(ps, sel);
    var top := TopFive(sub);
    forall p | p in top ensures p in ps && Matches(p, sel) {
      assert multiset(top)[p] > 0;
      assert multiset(sub)[p] > 0;
    }
  }

  /** The top five are in descending order of boxes and none has fewer than
      a product left out. */
  lemma TopFiveOrdered(sub: seq<Product>)
    ensures var top := TopFive(sub);
            && (forall i, j :: 0 <= i < j < |top| ==> top[i].boxes >= top[j].boxes)
            && (forall i, y :: 0 <= i < |top| && y in multiset(sub) - multiset(top) ==> top[i].boxes >= y.boxes)
  {
    var top := TopFive(sub);
    forall i, j | 0 <= i < j < |top| ensures top[i].boxes >= top[j].boxes {
      assert Before(BoxesKey(top[i]), BoxesKey(top[j]), false);
    }
    forall i, y | 0 <= i < |top| && y in multiset(sub) - multiset(top) ensures top[i].boxes >= y.boxes {
      assert Before(BoxesKey(top[i]), BoxesKey(y), false);
    }
  }
}
