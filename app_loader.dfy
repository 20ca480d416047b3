/** The `load_unified` of app_streamlit.py: the same steps as the loader of
    utils/loaders.py, with a key set that leaves GEN_NUM out, so GEN_NUM is
    coerced with the prescriber columns. */
module AppLoader {
  import opened Wrappers
  import opened Cells
  import opened Frames
  import opened Loaders
  import opened LoaderFacts

  /** Line 23: the columns kept out of the prescriber coercion. */
  const AppKeyCols: seq<string> := ["BEN_REG", "sexe", "age", "CIP13", "total_boites"]

  /** Lines 11-62. */
  method LoadUnified(parse: Parser, maps: Maps, csv: Frame, keyCol: string) returns (r: Result<Loaded>)
    requires Valid(csv)
    ensures r == Expected(AppKeyCols, parse, maps, csv, keyCol)
  {
    r := LoadUnifiedWith(AppKeyCols, parse, maps, csv, keyCol);
  }

  /** Outside GEN_NUM the two key sets agree. */
  lemma SameKeys(n: string)
    requires n != "GEN_NUM"
    ensures n in AppKeyCols <==> n in KeyCols
  {
  }

  /** Any column but GEN_NUM is coerced alike by the two loaders. */
  lemma CoercedAgree(parse: Parser, csv: Frame, i: nat, n: string)
    requires WellFormed(csv) && i < |csv.rows| && n in csv.columns && n != "GEN_NUM"
    ensures Coerced(AppKeyCols, parse, csv, i, n) == Coerced(KeyCols, parse, csv, i, n)
  {
    SameKeys(n);
  }

  /** The two loaders return the same display name, header and prescriber
      list, and the same cell everywhere except in the "Generic" column of a
      generic table. */
  lemma VariantsAgree(parse: Parser, maps: Maps, csv: Frame, keyCol: string, i: nat, j: nat)
    requires WellFormed(csv) && MissingColumn(csv.columns, keyCol).None?
    requires i < |csv.rows| && j < |Pre(csv.columns, keyCol)|
    requires keyCol == "GEN_NUM" ==> Pre(csv.columns, keyCol)[j] != "Generic"
    ensures Expected(AppKeyCols, parse, maps, csv, keyCol).Success?
    ensures Expected(KeyCols, parse, maps, csv, keyCol).Success?
    ensures var app := Expected(AppKeyCols, parse, maps, csv, keyCol).value;
            var lib := Expected(KeyCols, parse, maps, csv, keyCol).value;
            && app.display == lib.display && app.prescribers == lib.prescribers
            && app.df.columns == lib.df.columns
            && Shaped(app.df, |csv.rows|, |Pre(csv.columns, keyCol)|)
            && Shaped(lib.df, |csv.rows|, |Pre(csv.columns, keyCol)|)
            && app.df.rows[i][j] == lib.df.rows[i][j]
  {
    var n := Pre(csv.columns, keyCol)[j];
    assert n in Pre(csv.columns, keyCol);
    AssignedNames();
    var cell := LoadedCell(KeyCols, parse, maps, csv, keyCol, i, n);
    assert LoadedCell(AppKeyCols, parse, maps, csv, keyCol, i, n) == cell by {
      if n == "Region" {
        CoercedAgree(parse, csv, i, "BEN_REG");
      } else if n == "Sex" {
        CoercedAgree(parse, csv, i, "sexe");
      } else if n == "Age" {
        CoercedAgree(parse, csv, i, "age");
      } else if n == Display(keyCol) {
        CoercedAgree(parse, csv, i, "CIP13");
      } else {
        CoercedAgree(parse, csv, i, n);
      }
    }
    ResultCell(AppKeyCols, parse, maps, csv, keyCol, i, j);
    ResultCell(KeyCols, parse, maps, csv, keyCol, i, j);
    ExpectedSuccess(AppKeyCols, parse, maps, csv, keyCol);
    ExpectedSuccess(KeyCols, parse, maps, csv, keyCol);
  }

  /** Lines 23-32 and 46-48: in a generic table the app's "Generic" column
      holds the integer coercion of GEN_NUM (0 when unparsable), where the
      loader of utils/loaders.py keeps GEN_NUM as read. */
  lemma GenericVariants(parse: Parser, maps: Maps, csv: Frame, i: nat)
    requires WellFormed(csv) && MissingColumn(csv.columns, "GEN_NUM").None? && i < |csv.rows|
    requires "GEN_NUM" in csv.columns
    ensures Expected(AppKeyCols, parse, maps, csv, "GEN_NUM").Success?
    ensures Expected(KeyCols, parse, maps, csv, "GEN_NUM").Success?
    ensures var app := Expected(AppKeyCols, parse, maps, csv, "GEN_NUM").value.df;
            var lib := Expected(KeyCols, parse, maps, csv, "GEN_NUM").value.df;
            var pre := Pre(csv.columns, "GEN_NUM");
            && Shaped(app, |csv.rows|, |pre|) && Shaped(lib, |csv.rows|, |pre|)
            && forall j :: 0 <= j < |pre| && pre[j] == "Generic" ==>
                 && app.rows[i][j] == Int(CoerceInt(parse, Get(csv, i, "GEN_NUM")))
                 && lib.rows[i][j] == Get(csv, i, "GEN_NUM")
  {
    assert "GEN_NUM" !in AppKeyCols && "GEN_NUM" in KeyCols;
    GenericColumn(AppKeyCols, parse, maps, csv, i);
    GenericColumn(KeyCols, parse, maps, csv, i);
  }
}
