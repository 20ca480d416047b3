/** The long-form page pharma/pages/3_Brand_vs_Generic.py: each wide CSV (one
    column per prescriber specialty, named by its digit code) becomes one entry
    per (row, specialty) with a positive count; the generic and the Sanofi
    entries are outer-merged on their four labels; and the merged rows are
    rolled up along one label, with the Sanofi share and the volume share of
    every group. Reading the CSVs and the lookup tables is left to the caller:
    the frames, the number parser and the maps are parameters. */
module LongCompare {
  import opened Wrappers
  import opened Cells
  import opened Lookup
  import opened Frames
  import opened Relational
  import opened Sorting
  import opened Loaders

  // ---------------------------------------------------------------- load_long

  /** `str.isdigit`, over the ASCII digits. */
  predicate IsDigits(s: string)
  {
    |s| > 0 && forall k :: 0 <= k < |s| ==> '0' <= s[k] <= '9'
  }

  /** Line 24: the prescriber columns are the columns named by digits only,
      in header order. */
  function DigitColumns(cols: seq<string>): (ps: seq<string>)
    ensures forall c :: c in ps <==> c in cols && IsDigits(c)
    ensures Distinct(cols) ==> Distinct(ps)
  {
    if cols == [] then [] else
      var ps := DigitColumns(cols[..|cols| - 1]);
      var last := cols[|cols| - 1];
      assert forall c :: c in cols <==> c in cols[..|cols| - 1] || c == last by {
        assert cols == cols[..|cols| - 1] + [last];
      }
      if IsDigits(last) then ps + [last] else ps
  }

  /** The digit columns are the header without its other names, so they keep
      the header order: their positions increase, and every digit-named
      position is among them. */
  lemma {:induction false} DigitColumnsInOrder(cols: seq<string>, others: set<string>)
    requires forall c :: c in cols ==> (c in others <==> !IsDigits(c))
    ensures DigitColumns(cols) == Without(cols, others)
    ensures var ks := KeptIndices(cols, others);
            && |ks| == |DigitColumns(cols)|
            && (forall t :: 0 <= t < |ks| ==> cols[ks[t]] == DigitColumns(cols)[t])
            && (forall t, u :: 0 <= t < u < |ks| ==> ks[t] < ks[u])
            && (forall k :: 0 <= k < |cols| && IsDigits(cols[k]) ==> k in ks)
    decreases |cols|
  {
    if cols != [] {
      var front := cols[..|cols| - 1];
      assert forall c :: c in front ==> c in cols;
      DigitColumnsInOrder(front, others);
    }
    KeptIndicesOrdered(cols, others);
  }

  /** Lines 27-29: the columns coerced to integers. */
  function CountColumns(cols: seq<string>): seq<string>
  {
    ["total_boites"] + DigitColumns(cols)
  }

  lemma TotalNotDigits()
    ensures !IsDigits("total_boites")
  {
    assert "total_boites"[0] == 't';
  }

  /** Lines 27-29: `total_boites`, then every prescriber column in turn, is
      coerced to an integer in place, an unparsable or missing count becoming 0. */
  method CoerceCounts(parse: Parser, csv: Frame) returns (df: Frame)
    requires Valid(csv) && "total_boites" in csv.columns
    ensures df == CoerceColumns(parse, csv, CountColumns(csv.columns))
  {
    var ps := DigitColumns(csv.columns);
    TotalNotDigits();
    df := Overwrite(csv, "total_boites", IntColumn(parse, csv, "total_boites"));
    SameFrame(df, CoerceColumns(parse, csv, ["total_boites"] + ps[..0]));
    var k := 0;
    while k < |ps|
      invariant k <= |ps|
      invariant df == CoerceColumns(parse, csv, ["total_boites"] + ps[..k])
    {
      var c := ps[k];
      assert c !in ["total_boites"] + ps[..k];
      var next := Overwrite(df, c, IntColumn(parse, df, c));
      assert ["total_boites"] + ps[..k + 1] == ["total_boites"] + ps[..k] + [c];
      SameFrame(next, CoerceColumns(parse, csv, ["total_boites"] + ps[..k + 1]));
      df := next;
      k := k + 1;
    }
    assert ps[..k] == ps;
  }

  /** The columns the long table reads its labels from. */
  predicate HasLabels(df: Frame)
  {
    WellFormed(df) && "BEN_REG" in df.columns && "age" in df.columns && "sexe" in df.columns
  }

  /** One entry of a long table (lines 32-47): the Region, Age Group and
      Gender labels of its row, the label of its prescriber column and its
      count. */
  datatype Entry = Entry(region: Cell, ageGroup: Cell, gender: Cell, prescriber: string, boxes: int)

  /** The count of an integer cell. */
  function CountOf(c: Cell): int
  {
    if c.Int? then c.i else 0
  }

  /** Lines 32-34, 37-42 and 44: the entry of row `i` under prescriber column
      `c`; a label is looked up with the code as fallback. */
  function EntryAt(maps: Maps, df: Frame, i: nat, c: string): Entry
    requires HasLabels(df) && i < |df.rows| && c in df.columns
  {
    Entry(ResolveCell(maps.region, Get(df, i, "BEN_REG")), ResolveCell(maps.age, Get(df, i, "age")),
          ResolveCell(maps.sex, Get(df, i, "sexe")), Resolve(maps.presc, c), CountOf(Get(df, i, c)))
  }

  /** Lines 37-43 for one prescriber column: the entries of its first `n`
      rows, top to bottom, without those whose count is not positive. */
  function MeltColumn(maps: Maps, df: Frame, c: string, n: nat): (es: seq<Entry>)
    requires HasLabels(df) && c in df.columns && n <= |df.rows|
    ensures forall e :: e in es <==> exists i :: 0 <= i < n && e == EntryAt(maps, df, i, c) && e.boxes > 0
  {
    if n == 0 then [] else
      var es := MeltColumn(maps, df, c, n - 1);
      var e := EntryAt(maps, df, n - 1, c);
      if e.boxes > 0 then es + [e] else es
  }

  /** An entry the melt of prescriber columns `ps` produces: one of a row and
      a column of `ps`, with a positive count. */
  predicate MeltedFrom(maps: Maps, df: Frame, ps: seq<string>, e: Entry)
    requires HasLabels(df) && forall c :: c in ps ==> c in df.columns
  {
    exists i, c :: 0 <= i < |df.rows| && c in ps && e == EntryAt(maps, df, i, c) && e.boxes > 0
  }

  /** Lines 37-43: `melt` stacks the prescriber columns one after the other,
      then the entries without a positive count are removed. */
  function MeltAll(maps: Maps, df: Frame, ps: seq<string>): (es: seq<Entry>)
    requires HasLabels(df) && forall c :: c in ps ==> c in df.columns
    ensures forall e :: e in es <==> MeltedFrom(maps, df, ps, e)
  {
    if ps == [] then [] else
      var front := ps[..|ps| - 1];
      var es := MeltAll(maps, df, front);
      var last := MeltColumn(maps, df, ps[|ps| - 1], |df.rows|);
      MeltStep(maps, df, ps, ps[|ps| - 1], es, last);
      es + last
  }

  lemma MeltStep(maps: Maps, df: Frame, ps: seq<string>, c: string, es: seq<Entry>, last: seq<Entry>)
    requires HasLabels(df) && forall c :: c in ps ==> c in df.columns
    requires ps != [] && c == ps[|ps| - 1]
    requires forall e :: e in es <==> MeltedFrom(maps, df, ps[..|ps| - 1], e)
    requires forall e :: e in last <==>
               exists i :: 0 <= i < |df.rows| && e == EntryAt(maps, df, i, c) && e.boxes > 0
    ensures forall e :: e in es + last <==> MeltedFrom(maps, df, ps, e)
  {
    var front := ps[..|ps| - 1];
    assert forall x :: x in ps <==> x in front || x == c by {
      assert ps == front + [c];
    }
  }

  /** One column of the grid `melt` stacks: the entry of every row under
      prescriber column `c`, top to bottom. */
  function ColumnEntries(maps: Maps, df: Frame, c: string): (es: seq<Entry>)
    requires HasLabels(df) && c in df.columns
    ensures |es| == |df.rows|
    ensures forall i :: 0 <= i < |es| ==> es[i] == EntryAt(maps, df, i, c)
  {
    seq(|df.rows|, i requires 0 <= i < |df.rows| => EntryAt(maps, df, i, c))
  }

  /** Line 37: `melt` before the filter, one entry per (prescriber column,
      row), the columns one after the other. */
  function Grid(maps: Maps, df: Frame, ps: seq<string>): (g: seq<Entry>)
    requires HasLabels(df) && forall c :: c in ps ==> c in df.columns
    ensures |g| == |ps| * |df.rows|
  {
    if ps == [] then [] else
      var g := Grid(maps, df, ps[..|ps| - 1]) + ColumnEntries(maps, df, ps[|ps| - 1]);
      assert |g| == (|ps| - 1) * |df.rows| + |df.rows|;
      g
  }

  /** The grid holds the entry of row `i` under the `j`-th column at
      position `j * rows + i`. */
  lemma {:induction false} GridAt(maps: Maps, df: Frame, ps: seq<string>, j: nat, i: nat)
    requires HasLabels(df) && forall c :: c in ps ==> c in df.columns
    requires j < |ps| && i < |df.rows|
    ensures j * |df.rows| + i < |Grid(maps, df, ps)|
    ensures Grid(maps, df, ps)[j * |df.rows| + i] == EntryAt(maps, df, i, ps[j])
    decreases |ps|
  {
    var n := |df.rows|;
    var front := ps[..|ps| - 1];
    var g := Grid(maps, df, front);
    assert Grid(maps, df, ps) == g + ColumnEntries(maps, df, ps[|ps| - 1]);
    if j < |ps| - 1 {
      BelowBlock(j, |ps| - 1, n, i);
      GridAt(maps, df, front, j, i);
    } else {
      assert j * n == |g|;
    }
  }

  /** Row `i` of block `j` lies before block `m` when `j < m`. */
  lemma BelowBlock(j: nat, m: nat, n: nat, i: nat)
    requires j < m && i < n
    ensures j * n + i < m * n
  {
    assert (j + 1) * n <= m * n;
  }

  /** Line 43: the entries with a positive count, in order. */
  function Positives(es: seq<Entry>): (r: seq<Entry>)
    ensures forall e :: e in r <==> e in es && e.boxes > 0
  {
    if es == [] then [] else
      var last := es[|es| - 1];
      assert forall e :: e in es <==> e in es[..|es| - 1] || e == last by {
        assert es == es[..|es| - 1] + [last];
      }
      Positives(es[..|es| - 1]) + if last.boxes > 0 then [last] else []
  }

  lemma {:induction false} PositivesConcat(a: seq<Entry>, b: seq<Entry>)
    ensures Positives(a + b) == Positives(a) + Positives(b)
    decreases |b|
  {
    if b == [] {
      assert a + b == a;
    } else {
      var front := b[..|b| - 1];
      assert (a + b)[..|a + b| - 1] == a + front;
      PositivesConcat(a, front);
    }
  }

  lemma {:induction false} MeltColumnPositives(maps: Maps, df: Frame, c: string, n: nat)
    requires HasLabels(df) && c in df.columns && n <= |df.rows|
    ensures MeltColumn(maps, df, c, n) == Positives(ColumnEntries(maps, df, c)[..n])
  {
    var col := ColumnEntries(maps, df, c);
    if n > 0 {
      assert col[..n][..n - 1] == col[..n - 1];
      assert col[..n][n - 1] == EntryAt(maps, df, n - 1, c);
      MeltColumnPositives(maps, df, c, n - 1);
    } else {
      assert col[..n] == [];
    }
  }

  /** Lines 37-43: the melt is the grid with the entries whose count is not
      positive removed: one entry per (row, prescriber column) with a
      positive count, in the grid's order, equal entries kept apart. */
  lemma {:induction false} MeltAllGrid(maps: Maps, df: Frame, ps: seq<string>)
    requires HasLabels(df) && forall c :: c in ps ==> c in df.columns
    ensures MeltAll(maps, df, ps) == Positives(Grid(maps, df, ps))
    decreases |ps|
  {
    if ps != [] {
      var front, c := ps[..|ps| - 1], ps[|ps| - 1];
      MeltAllGrid(maps, df, front);
      MeltColumnPositives(maps, df, c, |df.rows|);
      assert ColumnEntries(maps, df, c)[..|df.rows|] == ColumnEntries(maps, df, c);
      PositivesConcat(Grid(maps, df, front), ColumnEntries(maps, df, c));
    }
  }

  /** ASCII upper and lower case. */
  function Upper(c: char): char
  {
    if 'a' <= c <= 'z' then (c as int - 32) as char else c
  }

  function Lower(c: char): char
  {
    if 'A' <= c <= 'Z' then (c as int + 32) as char else c
  }

  /** `str.capitalize`: the first letter in upper case, the others in lower case. */
  function Capitalize(s: string): (r: string)
    ensures |r| == |s|
    ensures |s| > 0 ==> r[0] == Upper(s[0])
    ensures forall k :: 0 < k < |s| ==> r[k] == Lower(s[k])
  {
    if s == [] then [] else [Upper(s[0])] + seq(|s| - 1, k requires 0 <= k < |s| - 1 => Lower(s[k + 1]))
  }

  /** Line 47: the name of a long table's count column. */
  function ValueColumn(kind: string): string
  {
    "Boxes_" + Capitalize(kind)
  }

  /** Lines 50-51 and 61: the two kinds the page loads name the count columns
      the merged table reads. */
  lemma ValueColumns()
    ensures ValueColumn("generic") == "Boxes_Generic"
    ensures ValueColumn("sanofi") == "Boxes_Sanofi"
  {
    CapitalizeLower("generic");
    CapitalizeLower("sanofi");
  }

  /** A word whose letters after the first are lower case only has its first
      letter raised. */
  lemma CapitalizeLower(s: string)
    requires |s| > 0 && forall k :: 0 < k < |s| ==> 'a' <= s[k] <= 'z'
    ensures Capitalize(s) == [Upper(s[0])] + s[1..]
  {
  }

  /** A long table and the name of its count column. */
  datatype Long = Long(valueColumn: string, entries: seq<Entry>)

  /** What `load_long(path, kind)` returns for the table `csv` read from `path`:
      a `KeyError` on the first column it reads and does not find. */
  function LongOf(parse: Parser, maps: Maps, csv: Frame, kind: string): Result<Long>
    requires Valid(csv)
  {
    if "total_boites" !in csv.columns then KeyError("total_boites")
    else if "BEN_REG" !in csv.columns then KeyError("BEN_REG")
    else if "age" !in csv.columns then KeyError("age")
    else if "sexe" !in csv.columns then KeyError("sexe")
    else
      var df := CoerceColumns(parse, csv, CountColumns(csv.columns));
      Success(Long(ValueColumn(kind), MeltAll(maps, df, DigitColumns(csv.columns))))
  }

  /** Lines 22-47. */
  method LoadLong(parse: Parser, maps: Maps, csv: Frame, kind: string) returns (r: Result<Long>)
    requires Valid(csv)
    ensures r == LongOf(parse, maps, csv, kind)
  {
    if "total_boites" !in csv.columns {
      return KeyError("total_boites");
    }
    var df := CoerceCounts(parse, csv);
    if "BEN_REG" !in df.columns {
      return KeyError("BEN_REG");
    }
    if "age" !in df.columns {
      return KeyError("age");
    }
    if "sexe" !in df.columns {
      return KeyError("sexe");
    }
    r := Success(Long(ValueColumn(kind), MeltAll(maps, df, DigitColumns(df.columns))));
  }

  /** The entry a row and a prescriber column of the CSV give: the labels of
      the row's codes and the integer coercion of the cell. */
  function CsvEntry(parse: Parser, maps: Maps, csv: Frame, i: nat, c: string): Entry
    requires HasLabels(csv) && i < |csv.rows| && c in csv.columns
  {
    Entry(ResolveCell(maps.region, Get(csv, i, "BEN_REG")), ResolveCell(maps.age, Get(csv, i, "age")),
          ResolveCell(maps.sex, Get(csv, i, "sexe")), Resolve(maps.presc, c), CoerceInt(parse, Get(csv, i, c)))
  }

  /** Coercion leaves the label columns alone and turns a prescriber column's
      cells into their integer coercion. */
  lemma CoercedEntry(parse: Parser, maps: Maps, csv: Frame, i: nat, c: string)
    requires Valid(csv) && HasLabels(csv) && "total_boites" in csv.columns
    requires i < |csv.rows| && c in csv.columns && IsDigits(c)
    ensures var df := CoerceColumns(parse, csv, CountColumns(csv.columns));
            HasLabels(df) && EntryAt(maps, df, i, c) == CsvEntry(parse, maps, csv, i, c)
  {
    var cols := CountColumns(csv.columns);
    assert "BEN_REG"[0] == 'B' && "age"[0] == 'a' && "sexe"[0] == 's' && "total_boites"[0] == 't';
    assert "BEN_REG" !in cols && "age" !in cols && "sexe" !in cols;
    assert c in cols;
  }

  /** Lines 22-47: `load_long` raises `KeyError` on the first of
      `total_boites`, BEN_REG, age and sexe that the CSV lacks; otherwise its
      entries are exactly the (row, prescriber column) pairs of the CSV with a
      positive count, each with its labels, and its count column is named
      after the kind. */
  lemma LongEntries(parse: Parser, maps: Maps, csv: Frame, kind: string)
    requires Valid(csv)
    ensures LongOf(parse, maps, csv, kind).KeyError? <==> !HasLabels(csv) || "total_boites" !in csv.columns
    ensures LongOf(parse, maps, csv, kind).Success? ==>
              && HasLabels(csv)
              && LongOf(parse, maps, csv, kind).value.valueColumn == ValueColumn(kind)
              && forall e :: e in LongOf(parse, maps, csv, kind).value.entries <==>
                   exists i, c :: 0 <= i < |csv.rows| && c in csv.columns && IsDigits(c) &&
                     e == CsvEntry(parse, maps, csv, i, c) && e.boxes > 0
  {
    if LongOf(parse, maps, csv, kind).Success? {
      var df := CoerceColumns(parse, csv, CountColumns(csv.columns));
      var ps := DigitColumns(csv.columns);
      var es := LongOf(parse, maps, csv, kind).value.entries;
      assert HasLabels(df);
      forall e | e in es
        ensures exists i, c :: 0 <= i < |csv.rows| && c in csv.columns && IsDigits(c) &&
                  e == CsvEntry(parse, maps, csv, i, c) && e.boxes > 0
      {
        var i, c :| 0 <= i < |df.rows| && c in ps && e == EntryAt(maps, df, i, c) && e.boxes > 0;
        CoercedEntry(parse, maps, csv, i, c);
      }
      forall i, c | 0 <= i < |csv.rows| && c in csv.columns && IsDigits(c) && CsvEntry(parse, maps, csv, i, c).boxes > 0
        ensures CsvEntry(parse, maps, csv, i, c) in es
      {
        CoercedEntry(parse, maps, csv, i, c);
        assert MeltedFrom(maps, df, ps, CsvEntry(parse, maps, csv, i, c));
      }
    }
  }

  /** Lines 22-47, counted: a loaded long table is the grid of one entry per
      (prescriber column, row) with the entries whose count is not positive
      removed, in order; equal entries from different cells are all kept. */
  lemma LongEntriesGrid(parse: Parser, maps: Maps, csv: Frame, kind: string)
    requires Valid(csv) && HasLabels(csv) && "total_boites" in csv.columns
    ensures var df, ps := CoerceColumns(parse, csv, CountColumns(csv.columns)), DigitColumns(csv.columns);
            && HasLabels(df) && (forall c :: c in ps ==> c in df.columns)
            && |Grid(maps, df, ps)| == |ps| * |csv.rows|
            && LongOf(parse, maps, csv, kind) == Success(Long(ValueColumn(kind), Positives(Grid(maps, df, ps))))
  {
    var df, ps := CoerceColumns(parse, csv, CountColumns(csv.columns)), DigitColumns(csv.columns);
    assert HasLabels(df);
    MeltAllGrid(maps, df, ps);
  }

  /** The grid entry of the `j`-th prescriber column and row `i` is that
      cell's entry in the CSV: the row's labels and the cell's coerced count. */
  lemma GridCsvEntry(parse: Parser, maps: Maps, csv: Frame, j: nat, i: nat)
    requires Valid(csv) && HasLabels(csv) && "total_boites" in csv.columns
    requires j < |DigitColumns(csv.columns)| && i < |csv.rows|
    ensures var df, ps := CoerceColumns(parse, csv, CountColumns(csv.columns)), DigitColumns(csv.columns);
            && HasLabels(df) && (forall c :: c in ps ==> c in df.columns)
            && j * |csv.rows| + i < |Grid(maps, df, ps)|
            && Grid(maps, df, ps)[j * |csv.rows| + i] == CsvEntry(parse, maps, csv, i, ps[j])
  {
    var df, ps := CoerceColumns(parse, csv, CountColumns(csv.columns)), DigitColumns(csv.columns);
    assert HasLabels(df);
    GridAt(maps, df, ps, j, i);
    CoercedEntry(parse, maps, csv, i, ps[j]);
  }

  // ---------------------------------------------------------------- outer merge

  /** The four labels the two long tables are merged on (line 57). */
  type LongKey = (Cell, Cell, Cell, string)

  function KeyOf(e: Entry): LongKey
  {
    (e.region, e.ageGroup, e.gender, e.prescriber)
  }

  /** A long table as (merge key, count) pairs. */
  function Counts(es: seq<Entry>): (cs: seq<(LongKey, real)>)
    ensures |cs| == |es|
    ensures forall i :: 0 <= i < |es| ==> cs[i] == (KeyOf(es[i]), es[i].boxes as real)
    ensures Keys(cs, Fst) == Keys(es, KeyOf)
  {
    seq(|es|, i requires 0 <= i < |es| => (KeyOf(es[i]), es[i].boxes as real))
  }

  function EntryBoxes(e: Entry): real { e.boxes as real }

  /** The pairs carry every entry's labels, in order, and all of its boxes. */
  lemma CountsTotal(es: seq<Entry>)
    ensures Keys(Counts(es), Fst) == Keys(es, KeyOf)
    ensures SumOf(Counts(es), Snd) == SumOf(es, EntryBoxes)
  {
    SumOfPointwise(Counts(es), Snd, es, EntryBoxes);
  }

  /** `fillna(0)` on a label: a missing label becomes the number 0. */
  function FillZero(c: Cell): (r: Cell)
    ensures c.Missing? ==> r == Int(0)
    ensures !r.Missing?
    ensures r == c <==> !c.Missing?
  {
    if c.Missing? then Int(0) else c
  }

  /** One row of the merged table (lines 54-62). */
  datatype Merged = Merged(region: Cell, ageGroup: Cell, gender: Cell, prescriber: string,
                           generic: real, sanofi: real, total: real, share: real)

  /** Lines 62 and 81: the Sanofi share of a total, 0 for a zero total. */
  function SanofiShare(sanofi: real, total: real): real
  {
    if total == 0.0 then 0.0 else sanofi / total
  }

  /** Lines 59-62 for one merged pair of counts. */
  function MergedRow(t: (LongKey, real, real)): Merged
  {
    var total := t.1 + t.2;
    Merged(FillZero(t.0.0), FillZero(t.0.1), FillZero(t.0.2), t.0.3, t.1, t.2, total, SanofiShare(t.2, total))
  }

  /** Lines 54-62: the generic and Sanofi long tables outer-merged on their
      four labels, a count missing on one side read as 0, a missing label
      filled with 0, with the total and the Sanofi share of every row. */
  function CombineLong(generic: seq<Entry>, sanofi: seq<Entry>): (ms: seq<Merged>)
  {
    var m := OuterMerge(Counts(generic), Counts(sanofi));
    seq(|m|, t requires 0 <= t < |m| => MergedRow(m[t]))
  }

  /** The row `m` comes from the merge key `k`: its labels are `k`'s with 0 for
      a missing one, its counts are a generic and a Sanofi count of `k`, 0 for
      a side without `k`, and its total and share follow from them. */
  predicate MergedOf(generic: seq<Entry>, sanofi: seq<Entry>, m: Merged, k: LongKey)
  {
    && m.region == FillZero(k.0) && m.ageGroup == FillZero(k.1) && m.gender == FillZero(k.2)
    && m.prescriber == k.3
    && MergedFrom(Counts(generic), Counts(sanofi), k, m.generic, m.sanofi)
    && m.total == m.generic + m.sanofi && m.share == SanofiShare(m.sanofi, m.total)
  }

  ghost predicate FromSomeKey(generic: seq<Entry>, sanofi: seq<Entry>, m: Merged)
  {
    exists k :: MergedOf(generic, sanofi, m, k)
  }

  /** Lines 54-62: every merged row comes from a merge key of the two tables. */
  lemma CombineRows(generic: seq<Entry>, sanofi: seq<Entry>)
    ensures forall t :: 0 <= t < |CombineLong(generic, sanofi)| ==>
              FromSomeKey(generic, sanofi, CombineLong(generic, sanofi)[t])
  {
    var m := OuterMerge(Counts(generic), Counts(sanofi));
    forall t | 0 <= t < |m| ensures FromSomeKey(generic, sanofi, CombineLong(generic, sanofi)[t]) {
      assert MergedOf(generic, sanofi, CombineLong(generic, sanofi)[t], m[t].0);
    }
  }

  /** The labels of an entry, as the merged table shows them. */
  function FilledKey(k: LongKey): LongKey
  {
    (FillZero(k.0), FillZero(k.1), FillZero(k.2), k.3)
  }

  function MergedKey(m: Merged): LongKey
  {
    (m.region, m.ageGroup, m.gender, m.prescriber)
  }

  /** The combined table has a row labelled `k` (missing labels filled with 0)
      with the generic count `g` and the Sanofi count `s`. */
  ghost predicate Shows(c: seq<Merged>, k: LongKey, g: real, s: real)
  {
    exists m :: m in c && MergedKey(m) == FilledKey(k) && m.generic == g && m.sanofi == s
  }

  /** A row of the merge shows up, labels filled, in the combined table. */
  lemma MergedShows(generic: seq<Entry>, sanofi: seq<Entry>, x: (LongKey, real, real))
    requires x in OuterMerge(Counts(generic), Counts(sanofi))
    ensures Shows(CombineLong(generic, sanofi), x.0, x.1, x.2)
  {
    var m := OuterMerge(Counts(generic), Counts(sanofi));
    var t :| 0 <= t < |m| && m[t] == x;
    assert CombineLong(generic, sanofi)[t] == MergedRow(x);
  }

  lemma EntryCount(es: seq<Entry>, e: Entry)
    requires e in es
    ensures (KeyOf(e), EntryBoxes(e)) in Counts(es)
  {
    var i :| 0 <= i < |es| && es[i] == e;
    assert Counts(es)[i] == (KeyOf(e), EntryBoxes(e));
  }

  /** Lines 54-59: no entry of either side is lost by the outer merge. A
      generic and a Sanofi entry with the same labels meet in one row with
      both counts; an entry whose labels the other side lacks gets a row with
      its count and 0 for the other side. */
  lemma CombineCovers(generic: seq<Entry>, sanofi: seq<Entry>)
    ensures forall e :: e in generic ==> FilledKey(KeyOf(e)) in Keys(CombineLong(generic, sanofi), MergedKey)
    ensures forall e :: e in sanofi ==> FilledKey(KeyOf(e)) in Keys(CombineLong(generic, sanofi), MergedKey)
    ensures forall e, f :: e in generic && f in sanofi && KeyOf(e) == KeyOf(f) ==>
              Shows(CombineLong(generic, sanofi), KeyOf(e), EntryBoxes(e), EntryBoxes(f))
    ensures forall e :: e in generic && KeyOf(e) !in Keys(sanofi, KeyOf) ==>
              Shows(CombineLong(generic, sanofi), KeyOf(e), EntryBoxes(e), 0.0)
    ensures forall f :: f in sanofi && KeyOf(f) !in Keys(generic, KeyOf) ==>
              Shows(CombineLong(generic, sanofi), KeyOf(f), 0.0, EntryBoxes(f))
  {
    CoversKeys(generic, sanofi);
    var l, r := Counts(generic), Counts(sanofi);
    forall e, f | e in generic && f in sanofi && KeyOf(e) == KeyOf(f)
      ensures Shows(CombineLong(generic, sanofi), KeyOf(e), EntryBoxes(e), EntryBoxes(f))
    {
      EntryCount(generic, e);
      EntryCount(sanofi, f);
      PairKept(l, r, (KeyOf(e), EntryBoxes(e)), (KeyOf(f), EntryBoxes(f)));
      MergedShows(generic, sanofi, (KeyOf(e), EntryBoxes(e), EntryBoxes(f)));
    }
    forall e | e in generic && KeyOf(e) !in Keys(sanofi, KeyOf)
      ensures Shows(CombineLong(generic, sanofi), KeyOf(e), EntryBoxes(e), 0.0)
    {
      EntryCount(generic, e);
      LeftKept(l, r, (KeyOf(e), EntryBoxes(e)));
      MergedShows(generic, sanofi, (KeyOf(e), EntryBoxes(e), 0.0));
    }
    forall f | f in sanofi && KeyOf(f) !in Keys(generic, KeyOf)
      ensures Shows(CombineLong(generic, sanofi), KeyOf(f), 0.0, EntryBoxes(f))
    {
      EntryCount(sanofi, f);
      RightKept(l, r, (KeyOf(f), EntryBoxes(f)));
      MergedShows(generic, sanofi, (KeyOf(f), 0.0, EntryBoxes(f)));
    }
  }

  lemma CoversKeys(generic: seq<Entry>, sanofi: seq<Entry>)
    ensures forall e :: e in generic ==> FilledKey(KeyOf(e)) in Keys(CombineLong(generic, sanofi), MergedKey)
    ensures forall e :: e in sanofi ==> FilledKey(KeyOf(e)) in Keys(CombineLong(generic, sanofi), MergedKey)
  {
    var l, r := Counts(generic), Counts(sanofi);
    var m := OuterMerge(l, r);
    var ms := CombineLong(generic, sanofi);
    forall e | e in generic ensures FilledKey(KeyOf(e)) in Keys(ms, MergedKey) {
      var i :| 0 <= i < |generic| && generic[i] == e;
      assert l[i].0 == KeyOf(e);
      CombinedKey(generic, sanofi, KeyOf(e));
    }
    forall e | e in sanofi ensures FilledKey(KeyOf(e)) in Keys(ms, MergedKey) {
      var j :| 0 <= j < |sanofi| && sanofi[j] == e;
      assert r[j].0 == KeyOf(e);
      CombinedKey(generic, sanofi, KeyOf(e));
    }
  }

  /** A key of the merge is a key of the combined table. */
  lemma CombinedKey(generic: seq<Entry>, sanofi: seq<Entry>, k: LongKey)
    requires k in Keys(OuterMerge(Counts(generic), Counts(sanofi)), Key3)
    ensures FilledKey(k) in Keys(CombineLong(generic, sanofi), MergedKey)
  {
    var m := OuterMerge(Counts(generic), Counts(sanofi));
    var t :| 0 <= t < |m| && Keys(m, Key3)[t] == k;
    assert Keys(CombineLong(generic, sanofi), MergedKey)[t] == FilledKey(k);
  }

  /** Every entry of a long table has a positive count (line 43). */
  predicate Positive(es: seq<Entry>)
  {
    forall i :: 0 <= i < |es| ==> es[i].boxes > 0
  }

  /** Lines 62 and 81: the Sanofi share of non-negative counts with a
      positive total lies between 0 and 1. */
  lemma ShareBounded(generic: real, sanofi: real)
    requires generic >= 0.0 && sanofi >= 0.0
    ensures 0.0 <= SanofiShare(sanofi, generic + sanofi) <= 1.0
  {
    var total := generic + sanofi;
    if total != 0.0 {
      var q := sanofi / total;
      assert q * total == sanofi <= total;
    }
  }

  /** The counts of a long table with positive entries are positive. */
  lemma PositiveCounts(es: seq<Entry>)
    requires Positive(es)
    ensures forall p :: p in Counts(es) ==> p.1 > 0.0
  {
    forall p | p in Counts(es) ensures p.1 > 0.0 {
      var i :| 0 <= i < |es| && Counts(es)[i] == p;
    }
  }

  /** A pair of counts merged from two sides of positive counts. */
  lemma MergedPositive(l: seq<(LongKey, real)>, r: seq<(LongKey, real)>, k: LongKey, a: real, b: real)
    requires forall p :: p in l ==> p.1 > 0.0
    requires forall p :: p in r ==> p.1 > 0.0
    requires MergedFrom(l, r, k, a, b)
    ensures a >= 0.0 && b >= 0.0 && a + b > 0.0
  {
  }

  lemma MergedRowBounded(t: (LongKey, real, real))
    requires t.1 >= 0.0 && t.2 >= 0.0 && t.1 + t.2 > 0.0
    ensures var m := MergedRow(t);
            m.generic >= 0.0 && m.sanofi >= 0.0 && m.total > 0.0 && 0.0 <= m.share <= 1.0
  {
    ShareBounded(t.1, t.2);
  }

  /** Lines 43 and 59-62: with the positive counts the long tables keep, every
      merged row has a positive total, non-negative counts and a Sanofi share
      between 0 and 1. */
  lemma CombineShares(generic: seq<Entry>, sanofi: seq<Entry>)
    requires Positive(generic) && Positive(sanofi)
    ensures forall t :: 0 <= t < |CombineLong(generic, sanofi)| ==>
              var m := CombineLong(generic, sanofi)[t];
              m.generic >= 0.0 && m.sanofi >= 0.0 && m.total > 0.0 && 0.0 <= m.share <= 1.0
  {
    PositiveCounts(generic);
    PositiveCounts(sanofi);
    forall t | 0 <= t < |CombineLong(generic, sanofi)|
      ensures var m := CombineLong(generic, sanofi)[t];
              m.generic >= 0.0 && m.sanofi >= 0.0 && m.total > 0.0 && 0.0 <= m.share <= 1.0
    {
      CombineRowBounded(generic, sanofi, t);
    }
  }

  lemma CombineRowBounded(generic: seq<Entry>, sanofi: seq<Entry>, t: nat)
    requires forall p :: p in Counts(generic) ==> p.1 > 0.0
    requires forall p :: p in Counts(sanofi) ==> p.1 > 0.0
    requires t < |CombineLong(generic, sanofi)|
    ensures var m := CombineLong(generic, sanofi)[t];
            m.generic >= 0.0 && m.sanofi >= 0.0 && m.total > 0.0 && 0.0 <= m.share <= 1.0
  {
    var l, r := Counts(generic), Counts(sanofi);
    var m := OuterMerge(l, r);
    assert CombineLong(generic, sanofi)[t] == MergedRow(m[t]);
    MergedPositive(l, r, m[t].0, m[t].1, m[t].2);
    MergedRowBounded(m[t]);
  }

  function GenericOf(m: Merged): real { m.generic }
  function SanofiOf(m: Merged): real { m.sanofi }
  function TotalOf(m: Merged): real { m.total }
  function CountOfEntry(p: (LongKey, real)): real { p.1 }

  /** Lines 54-61: when neither CSV repeats a combination of labels, the
      merged table's Generic and Sanofi columns add up to the two long tables'
      counts, and its Total column to both. */
  lemma CombineConserves(generic: seq<Entry>, sanofi: seq<Entry>)
    requires Distinct(Keys(generic, KeyOf)) && Distinct(Keys(sanofi, KeyOf))
    ensures SumOf(CombineLong(generic, sanofi), GenericOf) == SumOf(Counts(generic), Snd)
    ensures SumOf(CombineLong(generic, sanofi), SanofiOf) == SumOf(Counts(sanofi), Snd)
    ensures SumOf(CombineLong(generic, sanofi), TotalOf) == SumOf(Counts(generic), Snd) + SumOf(Counts(sanofi), Snd)
  {
    var l, r := Counts(generic), Counts(sanofi);
    assert Keys(l, Fst) == Keys(generic, KeyOf);
    assert Keys(r, Fst) == Keys(sanofi, KeyOf);
    var m := OuterMerge(l, r);
    var ms := CombineLong(generic, sanofi);
    MergeDistinctSums(l, r);
    SumOfPointwise(ms, GenericOf, m, Left3);
    SumOfPointwise(ms, SanofiOf, m, Right3);
    SumOfAdd(ms, GenericOf, SanofiOf, TotalOf);
  }

  // ---------------------------------------------------------------- the page

  /** The merged table of the page (lines 49-62), or the `KeyError` of the
      first CSV that lacks a column `load_long` reads. */
  function LongComparison(parse: Parser, maps: Maps, genericCsv: Frame, sanofiCsv: Frame): (r: Result<seq<Merged>>)
    requires Valid(genericCsv) && Valid(sanofiCsv)
    ensures r.KeyError? <==> LongOf(parse, maps, genericCsv, "generic").KeyError? ||
                             LongOf(parse, maps, sanofiCsv, "sanofi").KeyError?
  {
    match LongOf(parse, maps, genericCsv, "generic")
    case KeyError(k) => KeyError(k)
    case Success(g) =>
      match LongOf(parse, maps, sanofiCsv, "sanofi")
      case KeyError(k) => KeyError(k)
      case Success(s) => Success(CombineLong(g.entries, s.entries))
  }

  /** Lines 49-62: the page's merged table keeps the properties of the merge:
      the count columns are those the page reads, every row comes from a merge
      key of the two long tables, and its share lies between 0 and 1. */
  lemma LongComparisonRows(parse: Parser, maps: Maps, genericCsv: Frame, sanofiCsv: Frame)
    requires Valid(genericCsv) && Valid(sanofiCsv)
    requires LongComparison(parse, maps, genericCsv, sanofiCsv).Success?
    ensures var g := LongOf(parse, maps, genericCsv, "generic");
            var s := LongOf(parse, maps, sanofiCsv, "sanofi");
            && g.Success? && s.Success?
            && g.value.valueColumn == "Boxes_Generic" && s.value.valueColumn == "Boxes_Sanofi"
            && var ms := LongComparison(parse, maps, genericCsv, sanofiCsv).value;
               forall t :: 0 <= t < |ms| ==>
                 FromSomeKey(g.value.entries, s.value.entries, ms[t]) && ms[t].total > 0.0 && 0.0 <= ms[t].share <= 1.0
  {
    var g := LongOf(parse, maps, genericCsv, "generic").value;
    var s := LongOf(parse, maps, sanofiCsv, "sanofi").value;
    ValueColumns();
    PositiveEntries(parse, maps, genericCsv, "generic");
    PositiveEntries(parse, maps, sanofiCsv, "sanofi");
    CombineRows(g.entries, s.entries);
    CombineShares(g.entries, s.entries);
  }

  lemma PositiveEntries(parse: Parser, maps: Maps, csv: Frame, kind: string)
    requires Valid(csv) && LongOf(parse, maps, csv, kind).Success?
    ensures Positive(LongOf(parse, maps, csv, kind).value.entries)
  {
    var es := LongOf(parse, maps, csv, kind).value.entries;
    forall i | 0 <= i < |es| ensures es[i].boxes > 0 {
      assert es[i] in es;
    }
  }

  // ---------------------------------------------------------------- aggregate

  /** The dimensions the page can view the merged table by (line 69). */
  datatype View = Region | AgeGroup | Gender | Prescriber

  /** The label of a merged row along a view; a prescriber label is text. */
  function Dimension(v: View): Merged -> Cell
  {
    (m: Merged) => match v
         case Region => m.region
         case AgeGroup => m.ageGroup
         case Gender => m.gender
         case Prescriber => Text(m.prescriber)
  }

  /** One row of `aggregate(df, dim)` (lines 73-83). */
  datatype Aggregated = Aggregated(key: Cell, generic: real, sanofi: real, total: real, share: real, volume: real)

  /** Line 82: a group's share of all boxes, 0 when there are none. */
  function VolumeShare(total: real, totalAll: real): real
  {
    if totalAll == 0.0 then 0.0 else total / totalAll
  }

  function GroupTotal(g: (Cell, real, real)): real { g.1 + g.2 }

  function AggregatedRow(g: (Cell, real, real), totalAll: real): Aggregated
  {
    Aggregated(g.0, g.1, g.2, g.1 + g.2, SanofiShare(g.2, g.1 + g.2), VolumeShare(g.1 + g.2, totalAll))
  }

  function AggKey(a: Aggregated): Cell { a.key }
  function AggGeneric(a: Aggregated): real { a.generic }
  function AggSanofi(a: Aggregated): real { a.sanofi }
  function AggTotal(a: Aggregated): real { a.total }
  function AggVolume(a: Aggregated): real { a.volume }
  function TotalKey(a: Aggregated): Option<real> { Some(a.total) }

  /** All boxes of the table (line 80). */
  function GrandTotal(rows: seq<Merged>): real
  {
    SumOf(rows, GenericOf) + SumOf(rows, SanofiOf)
  }

  /** `a` is the group of its label in `rows`: the sums of the group's Generic
      and Sanofi counts, their total, the Sanofi share of it, and the group's
      share of all boxes of the table. */
  predicate IsGroup(rows: seq<Merged>, v: View, a: Aggregated)
  {
    var generic := SumWhere(rows, Dimension(v), GenericOf, a.key);
    var sanofi := SumWhere(rows, Dimension(v), SanofiOf, a.key);
    && a.generic == generic && a.sanofi == sanofi && a.total == generic + sanofi
    && a.share == SanofiShare(sanofi, generic + sanofi)
    && a.volume == VolumeShare(generic + sanofi, GrandTotal(rows))
  }

  /** Lines 74-82: the groups of the view, in order of first appearance. */
  function Grouped(rows: seq<Merged>, v: View): (gs: seq<Aggregated>)
    ensures Keys(gs, AggKey) == Dedup(Keys(rows, Dimension(v)))
    ensures forall i :: 0 <= i < |gs| ==> IsGroup(rows, v, gs[i])
  {
    var g := GroupSum2(rows, Dimension(v), GenericOf, SanofiOf);
    var totalAll := SumOf(g, GroupTotal);
    GroupedTotal(rows, v);
    var gs := seq(|g|, i requires 0 <= i < |g| => AggregatedRow(g[i], totalAll));
    GroupedRows(rows, v, g, gs);
    gs
  }

  /** The rows built from the two-column grouping are the groups of their labels. */
  lemma GroupedRows(rows: seq<Merged>, v: View, g: seq<(Cell, real, real)>, gs: seq<Aggregated>)
    requires g == GroupSum2(rows, Dimension(v), GenericOf, SanofiOf)
    requires |gs| == |g| && forall i :: 0 <= i < |g| ==> gs[i] == AggregatedRow(g[i], GrandTotal(rows))
    ensures Keys(gs, AggKey) == Keys(g, Key3)
    ensures forall i :: 0 <= i < |gs| ==> IsGroup(rows, v, gs[i])
  {
    forall i | 0 <= i < |gs| ensures IsGroup(rows, v, gs[i]) {
      assert gs[i].key == g[i].0;
    }
  }

  /** Lines 73-83: `aggregate(df, dim)`, sorted by descending total. */
  function Aggregate(rows: seq<Merged>, v: View): seq<Aggregated>
  {
    SortBy(Grouped(rows, v), TotalKey, false)
  }

  /** Lines 74-82: every aggregate row is the group of its label. */
  lemma AggregateRows(rows: seq<Merged>, v: View)
    ensures forall a :: a in Aggregate(rows, v) ==> IsGroup(rows, v, a)
  {
    var gs := Grouped(rows, v);
    forall a | a in Aggregate(rows, v) ensures IsGroup(rows, v, a) {
      var u :| 0 <= u < |Aggregate(rows, v)| && Aggregate(rows, v)[u] == a;
      var t := PermutedAt(Aggregate(rows, v), gs, u);
    }
  }

  /** The total all groups add up to is the table's total. */
  lemma GroupedTotal(rows: seq<Merged>, v: View)
    ensures SumOf(GroupSum2(rows, Dimension(v), GenericOf, SanofiOf), GroupTotal) == GrandTotal(rows)
  {
    var g := GroupSum2(rows, Dimension(v), GenericOf, SanofiOf);
    GroupSum2Conserves(rows, Dimension(v), GenericOf, SanofiOf);
    SumOfAdd(g, Left3, Right3, GroupTotal);
  }

  /** Lines 74-78: the labels of the aggregate rows are the labels of the
      view in the table, one row per distinct label. */
  lemma AggregateKeys(rows: seq<Merged>, v: View)
    ensures forall x :: x in Keys(Aggregate(rows, v), AggKey) <==> x in Keys(rows, Dimension(v))
    ensures |Aggregate(rows, v)| == |LabelSet(rows, Dimension(v))|
  {
    AggregateKeySet(rows, v);
    var gs := Grouped(rows, v);
    assert |Aggregate(rows, v)| == |gs| == |Keys(gs, AggKey)|;
    DedupCount(rows, Dimension(v));
  }

  lemma AggregateKeySet(rows: seq<Merged>, v: View)
    ensures forall x :: x in Keys(Aggregate(rows, v), AggKey) <==> x in Keys(rows, Dimension(v))
  {
    var gs := Grouped(rows, v);
    var ag := Aggregate(rows, v);
    forall x ensures x in Keys(ag, AggKey) <==> x in Keys(gs, AggKey) {
      if x in Keys(ag, AggKey) {
        var t :| 0 <= t < |ag| && Keys(ag, AggKey)[t] == x;
        var u := PermutedAt(ag, gs, t);
        assert Keys(gs, AggKey)[u] == x;
      }
      if x in Keys(gs, AggKey) {
        var t :| 0 <= t < |gs| && Keys(gs, AggKey)[t] == x;
        var u := PermutedAt(gs, ag, t);
        assert Keys(ag, AggKey)[u] == x;
      }
    }
  }

  /** The set of labels the rows carry. */
  function LabelSet<T(==), K>(rows: seq<T>, key: T -> K): set<K>
  {
    set m | m in rows :: key(m)
  }

  /** The distinct keys of `rows` are as many as the keys in the set of them. */
  lemma DedupCount<T, K>(rows: seq<T>, key: T -> K)
    ensures |Dedup(Keys(rows, key))| == |LabelSet(rows, key)|
  {
    var d := Dedup(Keys(rows, key));
    DistinctCard(d);
    forall x | x in d ensures x in (set m | m in rows :: key(m)) {
      var i :| 0 <= i < |rows| && Keys(rows, key)[i] == x;
      assert rows[i] in rows;
    }
    forall x | x in (set m | m in rows :: key(m)) ensures x in d {
      var m :| m in rows && key(m) == x;
      var i :| 0 <= i < |rows| && rows[i] == m;
      assert Keys(rows, key)[i] == x;
    }
    assert (set x | x in d) == (set m | m in rows :: key(m));
  }

  /** Line 83: the groups come by descending total. */
  lemma AggregateSorted(rows: seq<Merged>, v: View)
    ensures forall i, j :: 0 <= i < j < |Aggregate(rows, v)| ==> Aggregate(rows, v)[i].total >= Aggregate(rows, v)[j].total
  {
    var ag := Aggregate(rows, v);
    forall i, j | 0 <= i < j < |ag| ensures ag[i].total >= ag[j].total {
      assert Before(TotalKey(ag[i]), TotalKey(ag[j]), false);
    }
  }

  /** Lines 74-80: the groups keep the table's Generic, Sanofi and total counts. */
  lemma AggregateConserves(rows: seq<Merged>, v: View)
    ensures SumOf(Aggregate(rows, v), AggGeneric) == SumOf(rows, GenericOf)
    ensures SumOf(Aggregate(rows, v), AggSanofi) == SumOf(rows, SanofiOf)
    ensures SumOf(Aggregate(rows, v), AggTotal) == GrandTotal(rows)
  {
    var gs := Grouped(rows, v);
    GroupedConserves(rows, v);
    SortBySum(gs, TotalKey, false, AggGeneric);
    SortBySum(gs, TotalKey, false, AggSanofi);
    SortBySum(gs, TotalKey, false, AggTotal);
  }

  /** The groups, before sorting, keep the table's counts. */
  lemma GroupedConserves(rows: seq<Merged>, v: View)
    ensures SumOf(Grouped(rows, v), AggGeneric) == SumOf(rows, GenericOf)
    ensures SumOf(Grouped(rows, v), AggSanofi) == SumOf(rows, SanofiOf)
    ensures SumOf(Grouped(rows, v), AggTotal) == GrandTotal(rows)
  {
    var g := GroupSum2(rows, Dimension(v), GenericOf, SanofiOf);
    var gs := Grouped(rows, v);
    GroupedPointwise(rows, v);
    GroupSum2Conserves(rows, Dimension(v), GenericOf, SanofiOf);
    SumOfPointwise(gs, AggGeneric, g, Left3);
    SumOfPointwise(gs, AggSanofi, g, Right3);
    SumOfAdd(gs, AggGeneric, AggSanofi, AggTotal);
  }

  lemma GroupedPointwise(rows: seq<Merged>, v: View)
    ensures var g := GroupSum2(rows, Dimension(v), GenericOf, SanofiOf);
            var gs := Grouped(rows, v);
            && |gs| == |g|
            && forall i :: 0 <= i < |g| ==>
                 && AggGeneric(gs[i]) == Left3(g[i]) && AggSanofi(gs[i]) == Right3(g[i])
                 && AggTotal(gs[i]) == AggGeneric(gs[i]) + AggSanofi(gs[i])
  {
  }

  /** Lines 80 and 82: when the table holds any boxes, the volume shares of
      the groups add up to 1. */
  lemma VolumeSharesSum(rows: seq<Merged>, v: View)
    requires GrandTotal(rows) != 0.0
    ensures SumOf(Aggregate(rows, v), AggVolume) == 1.0
  {
    AggregateVolumes(rows, v);
    AggregateConserves(rows, v);
    VolumesAddUp(Aggregate(rows, v), GrandTotal(rows));
  }

  lemma VolumesAddUp(gs: seq<Aggregated>, totalAll: real)
    requires totalAll != 0.0 && SumOf(gs, AggTotal) == totalAll
    requires forall i :: 0 <= i < |gs| ==> gs[i].volume == VolumeShare(gs[i].total, totalAll)
    ensures SumOf(gs, AggVolume) == 1.0
  {
    VolumeScaled(gs, totalAll);
  }

  lemma AggregateVolumes(rows: seq<Merged>, v: View)
    ensures forall i :: 0 <= i < |Aggregate(rows, v)| ==>
              Aggregate(rows, v)[i].volume == VolumeShare(Aggregate(rows, v)[i].total, GrandTotal(rows))
  {
    var ag := Aggregate(rows, v);
    AggregateRows(rows, v);
    forall i | 0 <= i < |ag| ensures ag[i].volume == VolumeShare(ag[i].total, GrandTotal(rows)) {
      assert ag[i] in ag;
    }
  }

  /** Volume shares are totals over the grand total, so they add up to the
      sum of the totals over the grand total. */
  lemma {:induction false} VolumeScaled(gs: seq<Aggregated>, totalAll: real)
    requires totalAll != 0.0
    requires forall i :: 0 <= i < |gs| ==> gs[i].volume == VolumeShare(gs[i].total, totalAll)
    ensures SumOf(gs, AggVolume) == SumOf(gs, AggTotal) / totalAll
    decreases |gs|
  {
    if gs != [] {
      var p := gs[..|gs| - 1];
      VolumeScaled(p, totalAll);
      var x := gs[|gs| - 1];
      assert x.volume == x.total / totalAll;
      assert SumOf(p, AggTotal) / totalAll + x.total / totalAll == (SumOf(p, AggTotal) + x.total) / totalAll;
    }
  }

  /** Line 82: the volume share of a part of a non-negative whole lies
      between 0 and 1. */
  lemma VolumeBounded(total: real, totalAll: real)
    requires 0.0 <= total <= totalAll
    ensures 0.0 <= VolumeShare(total, totalAll) <= 1.0
  {
    if totalAll != 0.0 {
      var q := total / totalAll;
      assert q * totalAll == total <= totalAll;
    }
  }

  /** Lines 79-82: over merged rows with non-negative counts, every group's
      Sanofi share and volume share lie between 0 and 1. */
  lemma AggregateBounded(rows: seq<Merged>, v: View)
    requires forall i :: 0 <= i < |rows| ==> rows[i].generic >= 0.0 && rows[i].sanofi >= 0.0
    ensures forall a :: a in Aggregate(rows, v) ==> 0.0 <= a.share <= 1.0 && 0.0 <= a.volume <= 1.0
  {
    var ag := Aggregate(rows, v);
    AggregateRows(rows, v);
    AggregateConserves(rows, v);
    forall u | 0 <= u < |ag| ensures AggTotal(ag[u]) >= 0.0 {
      assert ag[u] in ag;
      GroupNonNegative(rows, v, ag[u]);
    }
    forall t | 0 <= t < |ag| ensures 0.0 <= ag[t].share <= 1.0 && 0.0 <= ag[t].volume <= 1.0 {
      assert ag[t] in ag;
      SumOfAtLeast(ag, AggTotal, t);
      GroupBounded(rows, v, ag[t]);
    }
  }

  lemma GroupBounded(rows: seq<Merged>, v: View, a: Aggregated)
    requires forall i :: 0 <= i < |rows| ==> rows[i].generic >= 0.0 && rows[i].sanofi >= 0.0
    requires IsGroup(rows, v, a) && a.total <= GrandTotal(rows)
    ensures 0.0 <= a.share <= 1.0 && 0.0 <= a.volume <= 1.0
  {
    GroupNonNegative(rows, v, a);
    ShareBounded(a.generic, a.sanofi);
    VolumeBounded(a.total, GrandTotal(rows));
  }

  lemma GroupNonNegative(rows: seq<Merged>, v: View, a: Aggregated)
    requires forall i :: 0 <= i < |rows| ==> rows[i].generic >= 0.0 && rows[i].sanofi >= 0.0
    requires IsGroup(rows, v, a)
    ensures a.generic >= 0.0 && a.sanofi >= 0.0 && a.total == a.generic + a.sanofi
  {
    SumWhereNonNegative(rows, Dimension(v), GenericOf, a.key);
    SumWhereNonNegative(rows, Dimension(v), SanofiOf, a.key);
  }

  /** A term of a sum of non-negative terms is at most the sum. */
  lemma {:induction false} SumOfAtLeast<T>(s: seq<T>, f: T -> real, t: nat)
    requires t < |s| && forall i :: 0 <= i < |s| ==> f(s[i]) >= 0.0
    ensures f(s[t]) <= SumOf(s, f)
    decreases |s|
  {
    var p := s[..|s| - 1];
    if t < |s| - 1 {
      SumOfAtLeast(p, f, t);
    }
    SumOfNonNegative(p, f);
  }

  lemma {:induction false} SumOfNonNegative<T>(s: seq<T>, f: T -> real)
    requires forall i :: 0 <= i < |s| ==> f(s[i]) >= 0.0
    ensures SumOf(s, f) >= 0.0
    decreases |s|
  {
    if s != [] {
      SumOfNonNegative(s[..|s| - 1], f);
    }
  }
}
