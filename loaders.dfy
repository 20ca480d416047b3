/** `load_unified` of utils/loaders.py (and its byte-identical copy under
    pharma/utils/): read a wide brand or generic table with one column per
    prescriber specialty, coerce its numbers, resolve its labels, choose the
    product display column, drop the raw codes and rename the prescriber
    columns. The key set that keeps columns from being coerced is a parameter,
    because the variant in app_streamlit.py differs only there. */
module Loaders {
  import opened Wrappers
  import opened Cells
  import opened Lookup
  import opened Relational
  import opened Frames

  /** The lookup tables `load_maps` reads: code to label. */
  datatype Maps = Maps(
    sex: map<string, string>,
    age: map<string, string>,
    region: map<string, string>,
    presc: map<string, string>,
    cpi: map<string, string>)

  /** The returned table, the name of its product display column and the
      labels of its prescriber columns. */
  datatype Loaded = Loaded(df: Frame, display: string, prescribers: seq<string>)

  /** The columns utils/loaders.py keeps out of the prescriber coercion. */
  const KeyCols: seq<string> := ["BEN_REG", "sexe", "age", "CIP13", "GEN_NUM", "total_boites"]

  /** The raw code columns dropped at the end (absent ones are ignored). */
  const Codes: set<string> := {"BEN_REG", "sexe", "age", "CIP13", "GEN_NUM"}

  function Display(keyCol: string): string
  {
    if keyCol == "GEN_NUM" then "Generic" else "Medication"
  }

  /** The columns that keep their name: labels, display and the total. */
  function Core(keyCol: string): set<string>
  {
    {"Region", "Sex", "Age", Display(keyCol), "total_boites"}
  }

  /** The names the loader assigns are neither raw codes nor one another. */
  lemma AssignedNames()
    ensures forall n :: n in {"total_boites", "Region", "Sex", "Age", "Generic", "Medication"} ==> n !in Codes
    ensures "total_boites" !in {"Region", "Sex", "Age", "Generic", "Medication"}
    ensures "Region" !in {"Sex", "Age", "Generic", "Medication"}
    ensures "Sex" !in {"Age", "Generic", "Medication"}
    ensures "Age" !in {"Generic", "Medication"}
  {
  }

  /** The product code column the display column is built from. */
  function ProductCode(keyCol: string): string
  {
    if keyCol == "GEN_NUM" then "GEN_NUM" else "CIP13"
  }

  /** The first column the loader reads by name and does not find, in the
      order it reads them: that one raises `KeyError`. */
  function MissingColumn(cols: seq<string>, keyCol: string): Option<string>
  {
    if "total_boites" !in cols then Some("total_boites")
    else if "BEN_REG" !in cols then Some("BEN_REG")
    else if "sexe" !in cols then Some("sexe")
    else if "age" !in cols then Some("age")
    else if ProductCode(keyCol) !in cols then Some(ProductCode(keyCol))
    else None
  }

  /** The header after `df[n] = ...`. */
  function AddName(cols: seq<string>, n: string): (r: seq<string>)
    ensures forall x :: x in r <==> x in cols || x == n
  {
    if n in cols then cols else cols + [n]
  }

  /** The header once the label and display columns are assigned. */
  function Extended(cols: seq<string>, keyCol: string): seq<string>
  {
    AddName(AddName(AddName(AddName(cols, "Region"), "Sex"), "Age"), Display(keyCol))
  }

  /** The header after the raw codes are dropped, before the renaming. */
  function Pre(cols: seq<string>, keyCol: string): seq<string>
  {
    Without(Extended(cols, keyCol), Codes)
  }

  /** A column's name in the result: a prescriber column takes its label. */
  function Header(presc: map<string, string>, keyCol: string, n: string): string
  {
    if n in Core(keyCol) then n else Resolve(presc, n)
  }

  /** The cell of column `n` once the numbers are coerced: `total_boites` and
      every column outside the key set become integers, the rest stay as read. */
  function Coerced(keyCols: seq<string>, parse: Parser, f: Frame, i: nat, n: string): Cell
    requires WellFormed(f) && i < |f.rows| && n in f.columns
  {
    if n == "total_boites" || n !in keyCols then Int(CoerceInt(parse, Get(f, i, n))) else Get(f, i, n)
  }

  /** The cell of column `n` in row `i` of the result: a label resolved from
      its (coerced) code, the display column, or the coerced cell itself. */
  function LoadedCell(keyCols: seq<string>, parse: Parser, maps: Maps, f: Frame, keyCol: string, i: nat, n: string): Cell
    requires WellFormed(f) && i < |f.rows|
    requires MissingColumn(f.columns, keyCol).None?
    requires n in Extended(f.columns, keyCol)
  {
    if n == "Region" then ResolveCell(maps.region, Coerced(keyCols, parse, f, i, "BEN_REG"))
    else if n == "Sex" then ResolveCell(maps.sex, Coerced(keyCols, parse, f, i, "sexe"))
    else if n == "Age" then ResolveCell(maps.age, Coerced(keyCols, parse, f, i, "age"))
    else if n == Display(keyCol) then
      if keyCol == "GEN_NUM" then Coerced(keyCols, parse, f, i, "GEN_NUM")
      else ResolveCell(maps.cpi, Coerced(keyCols, parse, f, i, "CIP13"))
    else Coerced(keyCols, parse, f, i, n)
  }

  /** The header of the result: the kept columns under their new names. */
  function LoadedHeader(presc: map<string, string>, cols: seq<string>, keyCol: string): seq<string>
  {
    var pre := Pre(cols, keyCol);
    seq(|pre|, j requires 0 <= j < |pre| => Header(presc, keyCol, pre[j]))
  }

  /** Row `i` of the result, cell by cell. */
  function LoadedRow(keyCols: seq<string>, parse: Parser, maps: Maps, csv: Frame, keyCol: string, i: nat): seq<Cell>
    requires WellFormed(csv) && MissingColumn(csv.columns, keyCol).None? && i < |csv.rows|
  {
    var pre := Pre(csv.columns, keyCol);
    seq(|pre|, j requires 0 <= j < |pre| => LoadedCell(keyCols, parse, maps, csv, keyCol, i, pre[j]))
  }

  /** The rows of the result. */
  function LoadedRows(keyCols: seq<string>, parse: Parser, maps: Maps, csv: Frame, keyCol: string): seq<seq<Cell>>
    requires WellFormed(csv) && MissingColumn(csv.columns, keyCol).None?
  {
    seq(|csv.rows|, i requires 0 <= i < |csv.rows| => LoadedRow(keyCols, parse, maps, csv, keyCol, i))
  }

  /** The returned prescriber list: the label of every kept column outside the
      core, in column order. */
  function PrescriberLabels(presc: map<string, string>, cols: seq<string>, keyCol: string): seq<string>
  {
    Labels(presc, Without(Pre(cols, keyCol), Core(keyCol)))
  }

  /** What `load_unified` returns for the table `csv`. */
  function Expected(keyCols: seq<string>, parse: Parser, maps: Maps, csv: Frame, keyCol: string): Result<Loaded>
    requires WellFormed(csv)
  {
    match MissingColumn(csv.columns, keyCol)
    case Some(n) => KeyError(n)
    case None =>
      Success(Loaded(
        Frame(LoadedHeader(maps.presc, csv.columns, keyCol), LoadedRows(keyCols, parse, maps, csv, keyCol)),
        Display(keyCol),
        PrescriberLabels(maps.presc, csv.columns, keyCol)))
  }

  lemma ExpectedSuccess(keyCols: seq<string>, parse: Parser, maps: Maps, csv: Frame, keyCol: string)
    requires WellFormed(csv) && MissingColumn(csv.columns, keyCol).None?
    ensures Expected(keyCols, parse, maps, csv, keyCol)
         == Success(Loaded(
              Frame(LoadedHeader(maps.presc, csv.columns, keyCol), LoadedRows(keyCols, parse, maps, csv, keyCol)),
              Display(keyCol),
              PrescriberLabels(maps.presc, csv.columns, keyCol)))
  {
  }

  /** Lines 20-32: `total_boites` and every column outside the key set are
      coerced to integers in place. */
  method CoerceNumbers(keyCols: seq<string>, parse: Parser, csv: Frame) returns (df: Frame)
    requires Valid(csv) && "total_boites" in csv.columns
    ensures CoercedFrom(keyCols, parse, csv, df)
  {
    df := Assign(csv, "total_boites", IntColumn(parse, csv, "total_boites"));
    var prescriberCols := Without(df.columns, set c | c in keyCols);
    df := CoerceColumns(parse, df, prescriberCols);
  }

  predicate CoercedFrom(keyCols: seq<string>, parse: Parser, csv: Frame, df: Frame)
  {
    && Valid(csv) && Valid(df) && df.columns == csv.columns && |df.rows| == |csv.rows|
    && "total_boites" in csv.columns
    && forall i, n :: 0 <= i < |df.rows| && n in df.columns ==> Get(df, i, n) == Coerced(keyCols, parse, csv, i, n)
  }

  /** Lines 37-39: the Region, Sex and Age label columns. */
  method MapDemographics(maps: Maps, df: Frame) returns (g: Frame)
    requires Valid(df) && "BEN_REG" in df.columns && "sexe" in df.columns && "age" in df.columns
    ensures DemographicsOf(maps, df, g)
  {
    var g1 := Assign(df, "Region", ResolveColumn(maps.region, df, "BEN_REG"));
    var g2 := Assign(g1, "Sex", ResolveColumn(maps.sex, g1, "sexe"));
    g := Assign(g2, "Age", ResolveColumn(maps.age, g2, "age"));
    forall i, n | 0 <= i < |g.rows| && n in g.columns
      ensures Get(g, i, n) == if n == "Region" then ResolveCell(maps.region, Get(df, i, "BEN_REG"))
                              else if n == "Sex" then ResolveCell(maps.sex, Get(df, i, "sexe"))
                              else if n == "Age" then ResolveCell(maps.age, Get(df, i, "age"))
                              else Get(df, i, n)
    {
      assert Get(g2, i, "age") == Get(g1, i, "age") == Get(df, i, "age");
      if n != "Age" {
        assert n in g2.columns;
        if n != "Sex" {
          assert n in g1.columns;
          assert Get(g1, i, "sexe") == Get(df, i, "sexe");
        }
      }
    }
  }

  predicate DemographicsOf(maps: Maps, df: Frame, g: Frame)
  {
    && Valid(df) && "BEN_REG" in df.columns && "sexe" in df.columns && "age" in df.columns
    && Valid(g) && |g.rows| == |df.rows|
    && g.columns == AddName(AddName(AddName(df.columns, "Region"), "Sex"), "Age")
    && forall i, n :: 0 <= i < |g.rows| && n in g.columns ==>
         Get(g, i, n) == if n == "Region" then ResolveCell(maps.region, Get(df, i, "BEN_REG"))
                         else if n == "Sex" then ResolveCell(maps.sex, Get(df, i, "sexe"))
                         else if n == "Age" then ResolveCell(maps.age, Get(df, i, "age"))
                         else Get(df, i, n)
  }

  /** Lines 42-47: the display column, the raw GEN_NUM for a generic table and
      the medication label for any other key column. */
  method ProductLabel(maps: Maps, keyCol: string, df: Frame) returns (g: Frame, display: string)
    requires Valid(df) && ProductCode(keyCol) in df.columns
    ensures display == Display(keyCol)
    ensures ProductLabelOf(maps, keyCol, df, g)
  {
    if keyCol == "GEN_NUM" {
      g := Assign(df, "Generic", ColumnOf(df, "GEN_NUM"));
      display := "Generic";
    } else {
      g := Assign(df, "Medication", ResolveColumn(maps.cpi, df, "CIP13"));
      display := "Medication";
    }
  }

  predicate ProductLabelOf(maps: Maps, keyCol: string, df: Frame, g: Frame)
  {
    && Valid(df) && ProductCode(keyCol) in df.columns
    && Valid(g) && |g.rows| == |df.rows| && g.columns == AddName(df.columns, Display(keyCol))
    && forall i, n :: 0 <= i < |g.rows| && n in g.columns ==>
         Get(g, i, n) == if n != Display(keyCol) then Get(df, i, n)
                         else if keyCol == "GEN_NUM" then Get(df, i, "GEN_NUM")
                         else ResolveCell(maps.cpi, Get(df, i, "CIP13"))
  }

  /** Lines 50-56: the raw codes are dropped and every column outside the core
      takes its prescriber label; the labels are also returned in order. */
  method RenamePrescribers(presc: map<string, string>, keyCol: string, df: Frame)
    returns (g: Frame, prescribers: seq<string>)
    requires Valid(df)
    ensures RenamedFrom(presc, keyCol, df, g, prescribers)
  {
    var dropped := Drop(df, Codes);
    var raw := Without(dropped.columns, Core(keyCol));
    var labels := LabelMap(presc, raw);
    g := Rename(dropped, labels);
    prescribers := Labels(presc, raw);
    RenamedParts(presc, keyCol, df, dropped, labels, g, prescribers);
  }

  lemma RenamedParts(presc: map<string, string>, keyCol: string, df: Frame, dropped: Frame,
                     labels: map<string, string>, g: Frame, prescribers: seq<string>)
    requires Valid(df) && dropped == Drop(df, Codes)
    requires labels == LabelMap(presc, Without(dropped.columns, Core(keyCol)))
    requires g == Rename(dropped, labels)
    requires prescribers == Labels(presc, Without(dropped.columns, Core(keyCol)))
    ensures RenamedFrom(presc, keyCol, df, g, prescribers)
  {
    PrescriberNames(presc, keyCol, dropped.columns);
    DroppedCells(df, Codes);
  }

  /** The renaming map: every raw column to its prescriber label. */
  function LabelMap(presc: map<string, string>, raw: seq<string>): map<string, string>
  {
    map c | c in raw :: Resolve(presc, c)
  }

  /** The prescriber labels of the raw columns, in order. */
  function Labels(presc: map<string, string>, raw: seq<string>): seq<string>
  {
    seq(|raw|, k requires 0 <= k < |raw| => Resolve(presc, raw[k]))
  }

  /** The renaming map gives every column its `Header`. */
  lemma PrescriberNames(presc: map<string, string>, keyCol: string, cols: seq<string>)
    ensures var labels := LabelMap(presc, Without(cols, Core(keyCol)));
            forall j :: 0 <= j < |cols| ==> Resolve(labels, cols[j]) == Header(presc, keyCol, cols[j])
  {
    var labels := LabelMap(presc, Without(cols, Core(keyCol)));
    forall j | 0 <= j < |cols| ensures Resolve(labels, cols[j]) == Header(presc, keyCol, cols[j]) {
      assert cols[j] in labels <==> cols[j] !in Core(keyCol);
    }
  }

  /** The dropped frame, by position. */
  lemma DroppedCells(df: Frame, names: set<string>)
    requires Valid(df)
    ensures var dropped := Drop(df, names);
            forall i, j :: 0 <= i < |dropped.rows| && 0 <= j < |dropped.columns| ==>
              |dropped.rows[i]| == |dropped.columns| && dropped.rows[i][j] == Get(df, i, dropped.columns[j])
  {
    var dropped := Drop(df, names);
    forall i, j | 0 <= i < |dropped.rows| && 0 <= j < |dropped.columns|
      ensures |dropped.rows[i]| == |dropped.columns| && dropped.rows[i][j] == Get(df, i, dropped.columns[j])
    {
      GetAt(dropped, i, j);
    }
  }

  predicate RenamedFrom(presc: map<string, string>, keyCol: string, df: Frame, g: Frame, prescribers: seq<string>)
  {
    var pre := Without(df.columns, Codes);
    var raw := Without(pre, Core(keyCol));
    && Valid(df)
    && |g.rows| == |df.rows| && |g.columns| == |pre|
    && (forall j :: 0 <= j < |g.columns| ==> g.columns[j] == Header(presc, keyCol, pre[j]))
    && (forall i :: 0 <= i < |g.rows| ==> |g.rows[i]| == |g.columns|)
    && (forall i, j :: 0 <= i < |g.rows| && 0 <= j < |g.columns| ==> g.rows[i][j] == Get(df, i, pre[j]))
    && |prescribers| == |raw|
    && forall k :: 0 <= k < |prescribers| ==> prescribers[k] == Resolve(presc, raw[k])
  }

  /** The frame before the drop holds, under every name, the cell `LoadedCell`
      describes. */
  predicate LabelledAs(keyCols: seq<string>, parse: Parser, maps: Maps, csv: Frame, keyCol: string, shown: Frame)
  {
    && WellFormed(csv) && MissingColumn(csv.columns, keyCol).None?
    && Valid(shown) && shown.columns == Extended(csv.columns, keyCol) && |shown.rows| == |csv.rows|
    && forall i, n :: 0 <= i < |shown.rows| && n in shown.columns ==>
         Get(shown, i, n) == LoadedCell(keyCols, parse, maps, csv, keyCol, i, n)
  }

  lemma LabelledCells(keyCols: seq<string>, parse: Parser, maps: Maps, csv: Frame, keyCol: string,
                      df: Frame, labelled: Frame, shown: Frame)
    requires CoercedFrom(keyCols, parse, csv, df)
    requires DemographicsOf(maps, df, labelled)
    requires ProductLabelOf(maps, keyCol, labelled, shown)
    ensures LabelledAs(keyCols, parse, maps, csv, keyCol, shown)
  {
    assert ProductCode(keyCol) in df.columns;
    assert shown.columns == Extended(csv.columns, keyCol);
    forall i, n | 0 <= i < |shown.rows| && n in shown.columns
      ensures Get(shown, i, n) == LoadedCell(keyCols, parse, maps, csv, keyCol, i, n)
    {
      var p := ProductCode(keyCol);
      assert Get(labelled, i, p) == Get(df, i, p);
      if n == Display(keyCol) {
      } else if n == "Region" || n == "Sex" || n == "Age" {
        assert Get(shown, i, n) == Get(labelled, i, n);
      } else {
        assert Get(shown, i, n) == Get(labelled, i, n) == Get(df, i, n);
      }
    }
  }

  /** Dropping and renaming that frame gives the header and the prescriber
      list `Expected` states... */
  lemma RenamedHeader(presc: map<string, string>, cols: seq<string>, keyCol: string,
                      shown: Frame, out: Frame, prescribers: seq<string>)
    requires shown.columns == Extended(cols, keyCol)
    requires RenamedFrom(presc, keyCol, shown, out, prescribers)
    ensures LoadedHeader(presc, cols, keyCol) == out.columns
    ensures PrescriberLabels(presc, cols, keyCol) == prescribers
  {
  }

  lemma LabelledCell(keyCols: seq<string>, parse: Parser, maps: Maps, csv: Frame, keyCol: string,
                     shown: Frame, i: nat, j: nat)
    requires LabelledAs(keyCols, parse, maps, csv, keyCol, shown)
    requires i < |csv.rows| && j < |Pre(csv.columns, keyCol)|
    ensures LoadedRow(keyCols, parse, maps, csv, keyCol, i)[j] == Get(shown, i, Pre(csv.columns, keyCol)[j])
  {
    assert Pre(csv.columns, keyCol)[j] in shown.columns;
  }

  lemma LabelledRow(keyCols: seq<string>, parse: Parser, maps: Maps, csv: Frame, keyCol: string,
                    shown: Frame, i: nat)
    requires LabelledAs(keyCols, parse, maps, csv, keyCol, shown)
    requires i < |csv.rows|
    ensures LoadedRow(keyCols, parse, maps, csv, keyCol, i) == Select(shown, Pre(csv.columns, keyCol)).rows[i]
  {
    var pre := Pre(csv.columns, keyCol);
    var picked := Select(shown, pre);
    var row := LoadedRow(keyCols, parse, maps, csv, keyCol, i);
    forall j | 0 <= j < |pre| ensures row[j] == picked.rows[i][j] {
      LabelledCell(keyCols, parse, maps, csv, keyCol, shown, i, j);
    }
  }

  /** The rows of the result are the kept columns of the frame before the
      drop... */
  lemma LabelledRows(keyCols: seq<string>, parse: Parser, maps: Maps, csv: Frame, keyCol: string, shown: Frame)
    requires LabelledAs(keyCols, parse, maps, csv, keyCol, shown)
    ensures LoadedRows(keyCols, parse, maps, csv, keyCol) == Select(shown, Pre(csv.columns, keyCol)).rows
  {
    var rows := LoadedRows(keyCols, parse, maps, csv, keyCol);
    forall i | 0 <= i < |rows| ensures rows[i] == Select(shown, Pre(csv.columns, keyCol)).rows[i] {
      LabelledRow(keyCols, parse, maps, csv, keyCol, shown, i);
    }
  }

  /** ... and so are the rows of the renamed frame. */
  lemma RenamedRows(presc: map<string, string>, keyCol: string, shown: Frame, out: Frame, prescribers: seq<string>)
    requires RenamedFrom(presc, keyCol, shown, out, prescribers)
    ensures out.rows == Select(shown, Without(shown.columns, Codes)).rows
  {
    var picked := Select(shown, Without(shown.columns, Codes));
    forall i | 0 <= i < |out.rows| ensures out.rows[i] == picked.rows[i] {
    }
  }

  /** `load_unified` with key set `keyCols`: the steps above on the local frame,
      each raising `KeyError` on the first column it reads and does not find. */
  method LoadUnifiedWith(keyCols: seq<string>, parse: Parser, maps: Maps, csv: Frame, keyCol: string)
    returns (r: Result<Loaded>)
    requires Valid(csv)
    ensures r == Expected(keyCols, parse, maps, csv, keyCol)
  {
    if "total_boites" !in csv.columns {
      return KeyError("total_boites");
    }
    var df := CoerceNumbers(keyCols, parse, csv);
    if "BEN_REG" !in df.columns {
      return KeyError("BEN_REG");
    }
    if "sexe" !in df.columns {
      return KeyError("sexe");
    }
    if "age" !in df.columns {
      return KeyError("age");
    }
    var labelled := MapDemographics(maps, df);
    if ProductCode(keyCol) !in labelled.columns {
      return KeyError(ProductCode(keyCol));
    }
    var shown, display := ProductLabel(maps, keyCol, labelled);
    LabelledCells(keyCols, parse, maps, csv, keyCol, df, labelled, shown);
    var out, prescribers := RenamePrescribers(maps.presc, keyCol, shown);
    r := Success(Loaded(out, display, prescribers));
    RenamedHeader(maps.presc, csv.columns, keyCol, shown, out, prescribers);
    LabelledRows(keyCols, parse, maps, csv, keyCol, shown);
    RenamedRows(maps.presc, keyCol, shown, out, prescribers);
    assert Without(shown.columns, Codes) == Pre(csv.columns, keyCol);
  }

  /** utils/loaders.py and pharma/utils/loaders.py: the six-column key set. */
  method LoadUnified(parse: Parser, maps: Maps, csv: Frame, keyCol: string) returns (r: Result<Loaded>)
    requires Valid(csv)
    ensures r == Expected(KeyCols, parse, maps, csv, keyCol)
  {
    r := LoadUnifiedWith(KeyCols, parse, maps, csv, keyCol);
  }
}
