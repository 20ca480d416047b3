/** What `load_unified` promises about its result, stated on `Expected` (which
    `Loaders.LoadUnifiedWith` computes) for any key set of the two variants:
    when it raises, which columns come out, what each column holds, which
    columns disappear and what the prescriber list is. */
module LoaderFacts {
  import opened Wrappers
  import opened Cells
  import opened Lookup
  import opened Relational
  import opened Frames
  import opened Loaders

  /** The key sets of both variants only hold raw codes and the total. */
  predicate CodeKeys(keyCols: seq<string>)
  {
    forall c :: c in keyCols ==> c in Codes || c == "total_boites"
  }

  /** The loader raises exactly when one of the columns it reads is absent,
      and the error names an absent column. */
  lemma LoadFails(keyCols: seq<string>, parse: Parser, maps: Maps, csv: Frame, keyCol: string)
    requires WellFormed(csv)
    ensures Expected(keyCols, parse, maps, csv, keyCol).Success? <==>
              && "total_boites" in csv.columns && "BEN_REG" in csv.columns && "sexe" in csv.columns
              && "age" in csv.columns && ProductCode(keyCol) in csv.columns
    ensures Expected(keyCols, parse, maps, csv, keyCol).KeyError? ==>
              Expected(keyCols, parse, maps, csv, keyCol).key !in csv.columns
  {
  }

  /** Only the product code column of the chosen kind is read: a table
      without the other one loads all the same (the drop ignores it). */
  lemma OtherCodeIgnored(keyCols: seq<string>, parse: Parser, maps: Maps, csv: Frame, keyCol: string)
    requires WellFormed(csv)
    requires "total_boites" in csv.columns && "BEN_REG" in csv.columns && "sexe" in csv.columns
    requires "age" in csv.columns
    requires keyCol == "GEN_NUM" ==> "GEN_NUM" in csv.columns && "CIP13" !in csv.columns
    requires keyCol != "GEN_NUM" ==> "CIP13" in csv.columns && "GEN_NUM" !in csv.columns
    ensures Expected(keyCols, parse, maps, csv, keyCol).Success?
  {
  }

  /** The result has a row per input row and a column per kept column. */
  predicate Shaped(out: Frame, rowCount: nat, columnCount: nat)
  {
    && |out.rows| == rowCount && |out.columns| == columnCount
    && forall i :: 0 <= i < |out.rows| ==> |out.rows[i]| == |out.columns|
  }

  /** Line 18-58: every step works column by column, so the rows keep their
      number and order, and the header is the kept columns. */
  lemma ResultShape(keyCols: seq<string>, parse: Parser, maps: Maps, csv: Frame, keyCol: string)
    requires WellFormed(csv) && MissingColumn(csv.columns, keyCol).None?
    ensures Expected(keyCols, parse, maps, csv, keyCol).Success?
    ensures Shaped(Expected(keyCols, parse, maps, csv, keyCol).value.df, |csv.rows|, |Pre(csv.columns, keyCol)|)
  {
    ExpectedSuccess(keyCols, parse, maps, csv, keyCol);
    var rows := LoadedRows(keyCols, parse, maps, csv, keyCol);
    forall i | 0 <= i < |rows| ensures |rows[i]| == |Pre(csv.columns, keyCol)| {
      assert rows[i] == LoadedRow(keyCols, parse, maps, csv, keyCol, i);
    }
  }

  /** Row `i`, column `j` of a successful load: the header is the kept column
      under its new name and the cell is `LoadedCell` of that column. */
  lemma ResultCell(keyCols: seq<string>, parse: Parser, maps: Maps, csv: Frame, keyCol: string, i: nat, j: nat)
    requires WellFormed(csv) && MissingColumn(csv.columns, keyCol).None?
    requires i < |csv.rows| && j < |Pre(csv.columns, keyCol)|
    ensures Expected(keyCols, parse, maps, csv, keyCol).Success?
    ensures var out := Expected(keyCols, parse, maps, csv, keyCol).value.df;
            && Shaped(out, |csv.rows|, |Pre(csv.columns, keyCol)|)
            && out.columns[j] == Header(maps.presc, keyCol, Pre(csv.columns, keyCol)[j])
            && out.rows[i][j] == LoadedCell(keyCols, parse, maps, csv, keyCol, i, Pre(csv.columns, keyCol)[j])
  {
    ResultShape(keyCols, parse, maps, csv, keyCol);
    ExpectedSuccess(keyCols, parse, maps, csv, keyCol);
    var rows := LoadedRows(keyCols, parse, maps, csv, keyCol);
    assert rows[i] == LoadedRow(keyCols, parse, maps, csv, keyCol, i);
  }

  /** A column of the original table that is not a raw code survives into the
      header before the renaming. */
  lemma KeptColumn(cols: seq<string>, keyCol: string, n: string)
    requires n in cols && n !in Codes
    ensures n in Pre(cols, keyCol)
  {
  }

  /** Lines 20-24: `total_boites` comes out under its own name, holding the
      integer coercion of the cell read. */
  lemma TotalBoxes(keyCols: seq<string>, parse: Parser, maps: Maps, csv: Frame, keyCol: string, i: nat)
    requires WellFormed(csv) && MissingColumn(csv.columns, keyCol).None? && i < |csv.rows|
    requires "total_boites" in csv.columns
    ensures Expected(keyCols, parse, maps, csv, keyCol).Success?
    ensures var out := Expected(keyCols, parse, maps, csv, keyCol).value.df;
            var pre := Pre(csv.columns, keyCol);
            && Shaped(out, |csv.rows|, |pre|) && "total_boites" in pre
            && forall j :: 0 <= j < |pre| && pre[j] == "total_boites" ==>
                 out.columns[j] == "total_boites" && out.rows[i][j] == Int(CoerceInt(parse, Get(csv, i, "total_boites")))
  {
    var pre := Pre(csv.columns, keyCol);
    AssignedNames();
    KeptColumn(csv.columns, keyCol, "total_boites");
    ResultShape(keyCols, parse, maps, csv, keyCol);
    var cell := Int(CoerceInt(parse, Get(csv, i, "total_boites")));
    assert LoadedCell(keyCols, parse, maps, csv, keyCol, i, "total_boites") == cell;
    forall j | 0 <= j < |pre| && pre[j] == "total_boites"
      ensures var out := Expected(keyCols, parse, maps, csv, keyCol).value.df;
              out.columns[j] == "total_boites" && out.rows[i][j] == cell
    {
      ResultCell(keyCols, parse, maps, csv, keyCol, i, j);
    }
  }

  /** Lines 37-39: Region, Sex and Age hold the label of the raw code, or the
      code itself when the lookup table lacks it. */
  lemma DemographicLabels(keyCols: seq<string>, parse: Parser, maps: Maps, csv: Frame, keyCol: string, i: nat)
    requires WellFormed(csv) && MissingColumn(csv.columns, keyCol).None? && i < |csv.rows|
    requires "BEN_REG" in keyCols && "sexe" in keyCols && "age" in keyCols
    requires "BEN_REG" in csv.columns && "sexe" in csv.columns && "age" in csv.columns
    ensures Expected(keyCols, parse, maps, csv, keyCol).Success?
    ensures var out := Expected(keyCols, parse, maps, csv, keyCol).value.df;
            var pre := Pre(csv.columns, keyCol);
            && Shaped(out, |csv.rows|, |pre|) && "Region" in pre && "Sex" in pre && "Age" in pre
            && forall j :: 0 <= j < |pre| ==>
                 && (pre[j] == "Region" ==>
                       out.columns[j] == "Region" && out.rows[i][j] == ResolveCell(maps.region, Get(csv, i, "BEN_REG")))
                 && (pre[j] == "Sex" ==>
                       out.columns[j] == "Sex" && out.rows[i][j] == ResolveCell(maps.sex, Get(csv, i, "sexe")))
                 && (pre[j] == "Age" ==>
                       out.columns[j] == "Age" && out.rows[i][j] == ResolveCell(maps.age, Get(csv, i, "age")))
  {
    var pre := Pre(csv.columns, keyCol);
    AssignedNames();
    ResultShape(keyCols, parse, maps, csv, keyCol);
    var region, sex, age :=
      ResolveCell(maps.region, Get(csv, i, "BEN_REG")), ResolveCell(maps.sex, Get(csv, i, "sexe")),
      ResolveCell(maps.age, Get(csv, i, "age"));
    assert LoadedCell(keyCols, parse, maps, csv, keyCol, i, "Region") == region by {
      assert "BEN_REG" != "total_boites";
    }
    assert LoadedCell(keyCols, parse, maps, csv, keyCol, i, "Sex") == sex by {
      assert "sexe" != "total_boites";
    }
    assert LoadedCell(keyCols, parse, maps, csv, keyCol, i, "Age") == age by {
      assert "age" != "total_boites";
    }
    forall j | 0 <= j < |pre| && pre[j] in {"Region", "Sex", "Age"}
      ensures var out := Expected(keyCols, parse, maps, csv, keyCol).value.df;
              && (pre[j] == "Region" ==> out.columns[j] == "Region" && out.rows[i][j] == region)
              && (pre[j] == "Sex" ==> out.columns[j] == "Sex" && out.rows[i][j] == sex)
              && (pre[j] == "Age" ==> out.columns[j] == "Age" && out.rows[i][j] == age)
    {
      ResultCell(keyCols, parse, maps, csv, keyCol, i, j);
    }
  }

  /** Lines 42-44: a generic table gets the display column "Generic",
      holding GEN_NUM as read, or its integer coercion when the key set leaves
      GEN_NUM out. */
  lemma GenericColumn(keyCols: seq<string>, parse: Parser, maps: Maps, csv: Frame, i: nat)
    requires WellFormed(csv) && MissingColumn(csv.columns, "GEN_NUM").None? && i < |csv.rows|
    requires "GEN_NUM" in csv.columns
    ensures Expected(keyCols, parse, maps, csv, "GEN_NUM").Success?
    ensures var e := Expected(keyCols, parse, maps, csv, "GEN_NUM").value;
            var pre := Pre(csv.columns, "GEN_NUM");
            && Shaped(e.df, |csv.rows|, |pre|)
            && e.display == "Generic" && "Generic" in pre
            && forall j :: 0 <= j < |pre| && pre[j] == "Generic" ==>
                 && e.df.columns[j] == "Generic"
                 && e.df.rows[i][j] == if "GEN_NUM" in keyCols then Get(csv, i, "GEN_NUM")
                                       else Int(CoerceInt(parse, Get(csv, i, "GEN_NUM")))
  {
    var pre := Pre(csv.columns, "GEN_NUM");
    AssignedNames();
    ResultShape(keyCols, parse, maps, csv, "GEN_NUM");
    var cell := if "GEN_NUM" in keyCols then Get(csv, i, "GEN_NUM") else Int(CoerceInt(parse, Get(csv, i, "GEN_NUM")));
    assert LoadedCell(keyCols, parse, maps, csv, "GEN_NUM", i, "Generic") == cell by {
      assert "GEN_NUM" != "total_boites";
    }
    forall j | 0 <= j < |pre| && pre[j] == "Generic"
      ensures var out := Expected(keyCols, parse, maps, csv, "GEN_NUM").value.df;
              out.columns[j] == "Generic" && out.rows[i][j] == cell
    {
      ResultCell(keyCols, parse, maps, csv, "GEN_NUM", i, j);
    }
  }

  /** Lines 45-47: any other table gets the display column "Medication",
      holding the label of the raw CIP13 code, or the code itself. */
  lemma MedicationColumn(keyCols: seq<string>, parse: Parser, maps: Maps, csv: Frame, keyCol: string, i: nat)
    requires WellFormed(csv) && MissingColumn(csv.columns, keyCol).None? && i < |csv.rows|
    requires keyCol != "GEN_NUM" && "CIP13" in keyCols && "CIP13" in csv.columns
    ensures Expected(keyCols, parse, maps, csv, keyCol).Success?
    ensures var e := Expected(keyCols, parse, maps, csv, keyCol).value;
            var pre := Pre(csv.columns, keyCol);
            && Shaped(e.df, |csv.rows|, |pre|)
            && e.display == "Medication" && "Medication" in pre
            && forall j :: 0 <= j < |pre| && pre[j] == "Medication" ==>
                 e.df.columns[j] == "Medication" && e.df.rows[i][j] == ResolveCell(maps.cpi, Get(csv, i, "CIP13"))
  {
    var pre := Pre(csv.columns, keyCol);
    AssignedNames();
    ResultShape(keyCols, parse, maps, csv, keyCol);
    var cell := ResolveCell(maps.cpi, Get(csv, i, "CIP13"));
    assert LoadedCell(keyCols, parse, maps, csv, keyCol, i, "Medication") == cell by {
      assert "CIP13" != "total_boites";
    }
    forall j | 0 <= j < |pre| && pre[j] == "Medication"
      ensures var out := Expected(keyCols, parse, maps, csv, keyCol).value.df;
              out.columns[j] == "Medication" && out.rows[i][j] == cell
    {
      ResultCell(keyCols, parse, maps, csv, keyCol, i, j);
    }
  }

  /** Lines 25-32 and 53-55: every other kept column is a prescriber column of
      the original table; it takes its label from the lookup table (or keeps
      its name) and holds the integer coercion of its cells. */
  lemma PrescriberColumn(keyCols: seq<string>, parse: Parser, maps: Maps, csv: Frame, keyCol: string, i: nat, j: nat)
    requires WellFormed(csv) && MissingColumn(csv.columns, keyCol).None? && CodeKeys(keyCols)
    requires i < |csv.rows| && j < |Pre(csv.columns, keyCol)| && Pre(csv.columns, keyCol)[j] !in Core(keyCol)
    ensures Expected(keyCols, parse, maps, csv, keyCol).Success?
    ensures var out := Expected(keyCols, parse, maps, csv, keyCol).value.df;
            var c := Pre(csv.columns, keyCol)[j];
            && Shaped(out, |csv.rows|, |Pre(csv.columns, keyCol)|)
            && c in csv.columns && c !in Codes
            && out.columns[j] == Resolve(maps.presc, c)
            && out.rows[i][j] == Int(CoerceInt(parse, Get(csv, i, c)))
  {
    var pre := Pre(csv.columns, keyCol);
    AssignedNames();
    assert pre[j] in pre;
    assert pre[j] !in keyCols;
    assert LoadedCell(keyCols, parse, maps, csv, keyCol, i, pre[j]) == Int(CoerceInt(parse, Get(csv, i, pre[j])));
    ResultCell(keyCols, parse, maps, csv, keyCol, i, j);
  }

  /** Line 50: no raw code column is kept; a result column can carry a code's
      name only as the label the prescriber table gives some column. */
  lemma CodesDropped(keyCols: seq<string>, parse: Parser, maps: Maps, csv: Frame, keyCol: string, j: nat)
    requires WellFormed(csv) && MissingColumn(csv.columns, keyCol).None?
    requires j < |Pre(csv.columns, keyCol)|
    ensures Expected(keyCols, parse, maps, csv, keyCol).Success?
    ensures var out := Expected(keyCols, parse, maps, csv, keyCol).value.df;
            && Shaped(out, |csv.rows|, |Pre(csv.columns, keyCol)|)
            && Pre(csv.columns, keyCol)[j] !in Codes
            && (out.columns[j] in Codes ==> out.columns[j] in maps.presc.Values)
  {
    var pre := Pre(csv.columns, keyCol);
    AssignedNames();
    assert pre[j] in pre;
    ResultShape(keyCols, parse, maps, csv, keyCol);
  }

  /** Lines 53-56: the returned prescriber list is the header of the result at
      the prescriber positions, in column order. */
  lemma PrescriberList(keyCols: seq<string>, parse: Parser, maps: Maps, csv: Frame, keyCol: string)
    requires WellFormed(csv) && MissingColumn(csv.columns, keyCol).None?
    ensures Expected(keyCols, parse, maps, csv, keyCol).Success?
    ensures var e := Expected(keyCols, parse, maps, csv, keyCol).value;
            var ks := KeptIndices(Pre(csv.columns, keyCol), Core(keyCol));
            && |e.prescribers| == |ks|
            && forall k :: 0 <= k < |ks| ==>
                 ks[k] < |e.df.columns| && e.prescribers[k] == e.df.columns[ks[k]]
                 && Pre(csv.columns, keyCol)[ks[k]] !in Core(keyCol)
  {
    var pre := Pre(csv.columns, keyCol);
    var ks := KeptIndices(pre, Core(keyCol));
    var w := Without(pre, Core(keyCol));
    var header := LoadedHeader(maps.presc, csv.columns, keyCol);
    var labels := PrescriberLabels(maps.presc, csv.columns, keyCol);
    ExpectedSuccess(keyCols, parse, maps, csv, keyCol);
    forall k | 0 <= k < |ks|
      ensures ks[k] < |header| && labels[k] == header[ks[k]] && pre[ks[k]] !in Core(keyCol)
    {
      assert w[k] in w;
      assert pre[ks[k]] == w[k];
    }
  }
}
