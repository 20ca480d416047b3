/** A pandas DataFrame as the dashboard uses it: an ordered header of column
    names and rows of cells aligned with it. Only the operations the core
    applies are modelled: reading a column by name, `df[name] = values`,
    coercing a set of columns, `drop(columns=..., errors="ignore")` and
    `rename(columns=...)`. */
module Frames {
  import opened Cells
  import opened Lookup
  import opened Relational

  datatype Frame = Frame(columns: seq<string>, rows: seq<seq<Cell>>)

  /** Every row is as wide as the header. */
  predicate WellFormed(f: Frame) {
    forall i :: 0 <= i < |f.rows| ==> |f.rows[i]| == |f.columns|
  }

  /** A frame as `read_csv` returns it (duplicate header names are made unique
      by the reader), and as every column assignment keeps it. */
  predicate Valid(f: Frame) {
    WellFormed(f) && Distinct(f.columns)
  }

  /** Position of the first column called `n`. */
  function IndexOf(cols: seq<string>, n: string): (k: nat)
    requires n in cols
    ensures k < |cols| && cols[k] == n && n !in cols[..k]
  {
    if cols[0] == n then 0 else
      var k := 1 + IndexOf(cols[1..], n);
      assert cols[..k] == [cols[0]] + cols[1..][..k - 1];
      k
  }

  lemma IndexOfDistinct(cols: seq<string>, k: nat)
    requires Distinct(cols) && k < |cols|
    ensures IndexOf(cols, cols[k]) == k
  {
    var j := IndexOf(cols, cols[k]);
  }

  lemma IndexOfAppend(cols: seq<string>, n: string, m: string)
    requires m in cols
    ensures IndexOf(cols + [n], m) == IndexOf(cols, m)
  {
    var j, k := IndexOf(cols + [n], m), IndexOf(cols, m);
    assert (cols + [n])[k] == m;
    assert cols + [n] == cols[..k] + cols[k..] + [n];
  }

  /** `df[n][i]`: the cell of row `i` under column `n`. */
  function Get(f: Frame, i: nat, n: string): Cell
    requires WellFormed(f) && i < |f.rows| && n in f.columns
  {
    f.rows[i][IndexOf(f.columns, n)]
  }

  /** `df[n] = vals`: an existing column is overwritten in place, a new one is
      appended at the right end; every other column keeps its cells. */
  function Assign(f: Frame, n: string, vals: seq<Cell>): (g: Frame)
    requires WellFormed(f) && |vals| == |f.rows|
    ensures WellFormed(g) && |g.rows| == |f.rows|
    ensures g.columns == if n in f.columns then f.columns else f.columns + [n]
    ensures Distinct(f.columns) ==> Distinct(g.columns)
    ensures forall i, m :: 0 <= i < |g.rows| && m in g.columns ==>
              Get(g, i, m) == if m == n then vals[i] else Get(f, i, m)
  {
    if n in f.columns then Overwrite(f, n, vals) else Append(f, n, vals)
  }

  function Overwrite(f: Frame, n: string, vals: seq<Cell>): (g: Frame)
    requires WellFormed(f) && |vals| == |f.rows| && n in f.columns
    ensures WellFormed(g) && |g.rows| == |f.rows| && g.columns == f.columns
    ensures forall i, m :: 0 <= i < |g.rows| && m in g.columns ==>
              Get(g, i, m) == if m == n then vals[i] else Get(f, i, m)
  {
    var k := IndexOf(f.columns, n);
    var g := Frame(f.columns, seq(|f.rows|, i requires 0 <= i < |f.rows| => f.rows[i][k := vals[i]]));
    assert forall i, m :: 0 <= i < |g.rows| && m in g.columns ==>
             Get(g, i, m) == if m == n then vals[i] else Get(f, i, m) by {
      forall i, m | 0 <= i < |g.rows| && m in g.columns
        ensures Get(g, i, m) == if m == n then vals[i] else Get(f, i, m)
      {
        var j := IndexOf(f.columns, m);
        if m != n {
          assert j != k;
        }
      }
    }
    g
  }

  function Append(f: Frame, n: string, vals: seq<Cell>): (g: Frame)
    requires WellFormed(f) && |vals| == |f.rows| && n !in f.columns
    ensures WellFormed(g) && |g.rows| == |f.rows| && g.columns == f.columns + [n]
    ensures Distinct(f.columns) ==> Distinct(g.columns)
    ensures forall i, m :: 0 <= i < |g.rows| && m in g.columns ==>
              Get(g, i, m) == if m == n then vals[i] else Get(f, i, m)
  {
    var g := Frame(f.columns + [n], seq(|f.rows|, i requires 0 <= i < |f.rows| => f.rows[i] + [vals[i]]));
    assert forall i, m :: 0 <= i < |g.rows| && m in g.columns ==>
             Get(g, i, m) == if m == n then vals[i] else Get(f, i, m) by {
      forall i, m | 0 <= i < |g.rows| && m in g.columns
        ensures Get(g, i, m) == if m == n then vals[i] else Get(f, i, m)
      {
        if m == n {
          assert g.columns[|f.columns|] == n;
          assert IndexOf(g.columns, n) == |f.columns|;
        } else {
          IndexOfAppend(f.columns, n, m);
        }
      }
    }
    g
  }

  /** The header without the names in `names`, in order. */
  function Without(cols: seq<string>, names: set<string>): (w: seq<string>)
    ensures forall c :: c in w <==> c in cols && c !in names
    ensures Distinct(cols) ==> Distinct(w)
  {
    if cols == [] then [] else
      var w := Without(cols[..|cols| - 1], names);
      var last := cols[|cols| - 1];
      assert forall c :: c in cols <==> c in cols[..|cols| - 1] || c == last by {
        assert cols == cols[..|cols| - 1] + [last];
      }
      if last in names then w else w + [last]
  }

  /** Positions of the columns `Without` keeps. */
  function KeptIndices(cols: seq<string>, names: set<string>): (ks: seq<nat>)
    ensures |ks| == |Without(cols, names)|
    ensures forall t :: 0 <= t < |ks| ==> ks[t] < |cols| && cols[ks[t]] == Without(cols, names)[t]
  {
    if cols == [] then [] else
      var ks := KeptIndices(cols[..|cols| - 1], names);
      if cols[|cols| - 1] in names then ks else ks + [|cols| - 1]
  }

  /** The kept positions are every position whose name is not excluded, in
      increasing order: `Without` keeps the header order. */
  lemma {:induction false} KeptIndicesOrdered(cols: seq<string>, names: set<string>)
    ensures var ks := KeptIndices(cols, names);
            && (forall t, u :: 0 <= t < u < |ks| ==> ks[t] < ks[u])
            && (forall k :: 0 <= k < |cols| && cols[k] !in names ==> k in ks)
    decreases |cols|
  {
    if cols != [] {
      var front, last := cols[..|cols| - 1], cols[|cols| - 1];
      var ks := KeptIndices(front, names);
      KeptIndicesOrdered(front, names);
      var r := KeptIndices(cols, names);
      assert r == if last in names then ks else ks + [|cols| - 1];
      forall t | 0 <= t < |ks| ensures ks[t] < |front| {
      }
      forall k | 0 <= k < |cols| && cols[k] !in names ensures k in r {
        if k == |cols| - 1 {
          assert r[|r| - 1] == k;
        } else {
          assert front[k] == cols[k];
          var t :| 0 <= t < |ks| && ks[t] == k;
          assert r[t] == k;
        }
      }
    }
  }

  /** `df.drop(columns=names, errors="ignore")`: the named columns disappear
      (absent ones are ignored), the others keep their order and cells. */
  function Drop(f: Frame, names: set<string>): (g: Frame)
    requires Valid(f)
    ensures Valid(g) && |g.rows| == |f.rows|
    ensures g.columns == Without(f.columns, names)
    ensures forall i, m :: 0 <= i < |g.rows| && m in g.columns ==> Get(g, i, m) == Get(f, i, m)
  {
    var ks := KeptIndices(f.columns, names);
    var w := Without(f.columns, names);
    var g := Frame(w, seq(|f.rows|, i requires 0 <= i < |f.rows| =>
                          seq(|ks|, t requires 0 <= t < |ks| => f.rows[i][ks[t]])));
    assert forall i, m :: 0 <= i < |g.rows| && m in g.columns ==> Get(g, i, m) == Get(f, i, m) by {
      forall i, m | 0 <= i < |g.rows| && m in g.columns
        ensures Get(g, i, m) == Get(f, i, m)
      {
        var t := IndexOf(w, m);
        IndexOfDistinct(f.columns, ks[t]);
      }
    }
    g
  }

  /** `df[cols]`: the named columns, in the order given. */
  function Select(f: Frame, cols: seq<string>): (g: Frame)
    requires WellFormed(f) && forall c :: c in cols ==> c in f.columns
    ensures WellFormed(g) && g.columns == cols && |g.rows| == |f.rows|
    ensures forall i, j :: 0 <= i < |g.rows| && 0 <= j < |cols| ==> g.rows[i][j] == Get(f, i, cols[j])
  {
    Frame(cols, seq(|f.rows|, i requires 0 <= i < |f.rows| =>
      seq(|cols|, j requires 0 <= j < |cols| => Get(f, i, cols[j]))))
  }

  /** `df.rename(columns=m)`: every column named by a key of `m` takes its
      value as new name; the cells do not move. */
  function Rename(f: Frame, m: map<string, string>): (g: Frame)
    ensures g.rows == f.rows && |g.columns| == |f.columns|
    ensures forall j :: 0 <= j < |g.columns| ==> g.columns[j] == Resolve(m, f.columns[j])
  {
    Frame(seq(|f.columns|, j requires 0 <= j < |f.columns| => Resolve(m, f.columns[j])), f.rows)
  }

  /** Renaming a frame of distinct names keeps them distinct unless two names
      clash under `m`; every new name is an old one or a value of `m`. */
  lemma RenameKeepsDistinct(f: Frame, m: map<string, string>)
    ensures forall n :: n in Rename(f, m).columns ==> n in f.columns || n in m.Values
    ensures Distinct(f.columns) && NoClash(m, f.columns) ==> Distinct(Rename(f, m).columns)
  {
    var g := Rename(f, m);
    forall n | n in g.columns ensures n in f.columns || n in m.Values {
      var j :| 0 <= j < |g.columns| && g.columns[j] == n;
    }
    if Distinct(f.columns) && NoClash(m, f.columns) {
      forall i, j | 0 <= i < j < |g.columns| ensures g.columns[i] != g.columns[j] {
        ResolveInjective(m, f.columns, f.columns[i], f.columns[j]);
      }
    }
  }

  /** `df[cols] = df[cols].apply(pd.to_numeric, errors="coerce").fillna(0).astype(int)`. */
  function CoerceColumns(parse: Parser, f: Frame, cols: seq<string>): (g: Frame)
    requires WellFormed(f)
    ensures WellFormed(g) && g.columns == f.columns && |g.rows| == |f.rows|
    ensures forall i, m :: 0 <= i < |g.rows| && m in g.columns ==>
              Get(g, i, m) == if m in cols then Int(CoerceInt(parse, Get(f, i, m))) else Get(f, i, m)
  {
    Frame(f.columns, seq(|f.rows|, i requires 0 <= i < |f.rows| =>
      seq(|f.columns|, j requires 0 <= j < |f.columns| =>
        if f.columns[j] in cols then Int(CoerceInt(parse, f.rows[i][j])) else f.rows[i][j])))
  }

  /** The cells of column `n`, top to bottom. */
  function ColumnOf(f: Frame, n: string): (vals: seq<Cell>)
    requires WellFormed(f) && n in f.columns
    ensures |vals| == |f.rows|
    ensures forall i :: 0 <= i < |vals| ==> vals[i] == Get(f, i, n)
  {
    seq(|f.rows|, i requires 0 <= i < |f.rows| => Get(f, i, n))
  }

  /** In a frame with distinct names, the cell at a position is the cell
      under that position's name. */
  lemma GetAt(f: Frame, i: nat, j: nat)
    requires Valid(f) && i < |f.rows| && j < |f.columns|
    ensures Get(f, i, f.columns[j]) == f.rows[i][j]
  {
    IndexOfDistinct(f.columns, j);
  }

  /** `pd.to_numeric(df[n], errors="coerce").fillna(0).astype(int)`. */
  function IntColumn(parse: Parser, f: Frame, n: string): (vals: seq<Cell>)
    requires WellFormed(f) && n in f.columns
    ensures |vals| == |f.rows|
    ensures forall i :: 0 <= i < |vals| ==> vals[i] == Int(CoerceInt(parse, Get(f, i, n)))
  {
    seq(|f.rows|, i requires 0 <= i < |f.rows| => Int(CoerceInt(parse, Get(f, i, n))))
  }

  /** `df[n].map(m).fillna(df[n])`. */
  function ResolveColumn(m: map<string, string>, f: Frame, n: string): (vals: seq<Cell>)
    requires WellFormed(f) && n in f.columns
    ensures |vals| == |f.rows|
    ensures forall i :: 0 <= i < |vals| ==> vals[i] == ResolveCell(m, Get(f, i, n))
  {
    seq(|f.rows|, i requires 0 <= i < |f.rows| => ResolveCell(m, Get(f, i, n)))
  }

  /** Frames with the same distinct header, the same height and the same cell
      under every name are the same frame. */
  lemma SameFrame(f: Frame, g: Frame)
    requires Valid(f) && Valid(g) && f.columns == g.columns && |f.rows| == |g.rows|
    requires forall i, n :: 0 <= i < |f.rows| && n in f.columns ==> Get(f, i, n) == Get(g, i, n)
    ensures f == g
  {
    forall i | 0 <= i < |f.rows| ensures f.rows[i] == g.rows[i] {
      forall j | 0 <= j < |f.columns| ensures f.rows[i][j] == g.rows[i][j] {
        GetAt(f, i, j);
        GetAt(g, i, j);
      }
    }
  }
}
