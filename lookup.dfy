/** The lookup resolver: a code is replaced by its label when the lookup table
    knows it, and passes through unchanged otherwise. */
module Lookup {
  import opened Cells

  /** `m.get(code, code)` and `s.map(m).fillna(s)` on a present string code. */
  function Resolve(m: map<string, string>, code: string): (r: string)
    ensures code in m ==> r == m[code]
    ensures code !in m ==> r == code
    ensures r == code || r in m.Values
  {
    if code in m then m[code] else code
  }

  /** `column.map(m).fillna(column)` on one cell: a text code is resolved, a
      missing cell stays missing (NaN maps to NaN and NaN is its own fallback),
      and a numeric cell never matches a string key, so it falls back to itself. */
  function ResolveCell(m: map<string, string>, c: Cell): (r: Cell)
    ensures c.Text? ==> r == Text(Resolve(m, c.s))
    ensures !c.Text? ==> r == c
  {
    match c
    case Text(s) => Text(Resolve(m, s))
    case _ => c
  }

  /** A cell changes exactly when it is a text code the table knows under a
      different label; its kind (text, number, missing) never changes. */
  lemma ResolveCellChanges(m: map<string, string>, c: Cell)
    ensures ResolveCell(m, c) != c <==> c.Text? && c.s in m && m[c.s] != c.s
    ensures ResolveCell(m, c).Text? <==> c.Text?
    ensures ResolveCell(m, c).Missing? <==> c.Missing?
  {
    if c.Text? && c.s in m && m[c.s] != c.s {
      assert ResolveCell(m, c).s != c.s;
    }
  }

  /** The codes of `codes` keep distinct names: no two known codes share a
      label, and no label is spelled like an unknown code of `codes`. */
  predicate NoClash(m: map<string, string>, codes: seq<string>)
  {
    && (forall a, b :: a in codes && b in codes && a in m && b in m && a != b ==> m[a] != m[b])
    && (forall a, b :: a in codes && b in codes && a in m && b !in m ==> m[a] != b)
  }

  /** Two distinct codes show the same name exactly when they clash: both
      known with one label, or one known with the other's spelling as label.
      Without a clash, resolving keeps distinct codes apart. */
  lemma ResolveInjective(m: map<string, string>, codes: seq<string>, a: string, b: string)
    requires a in codes && b in codes && a != b
    ensures NoClash(m, codes) ==> Resolve(m, a) != Resolve(m, b)
    ensures Resolve(m, a) == Resolve(m, b) <==>
              (a in m && b in m && m[a] == m[b]) || (a in m && b !in m && m[a] == b) ||
              (b in m && a !in m && m[b] == a)
  {
  }
}
