/** The whole-table operations the pipeline borrows from pandas, on sequences:
    `groupby(...).sum()`, `merge(how="outer").fillna(0)`, `sort_values` and
    `nlargest`, with the sums they conserve. */
module Relational {
  import opened Wrappers

  predicate Distinct<T(==)>(s: seq<T>) {
    forall a, b :: 0 <= a < b < |s| ==> s[a] != s[b]
  }

  function Fst<K, V>(p: (K, V)): K { p.0 }
  function Snd<K>(p: (K, real)): real { p.1 }
  function Key3<K>(t: (K, real, real)): K { t.0 }
  function Left3<K>(t: (K, real, real)): real { t.1 }
  function Right3<K>(t: (K, real, real)): real { t.2 }

  // ---------------------------------------------------------------- sums

  /** The sum of `f` over the rows of `s`. */
  function SumOf<T>(s: seq<T>, f: T -> real): real
  {
    if s == [] then 0.0 else SumOf(s[..|s| - 1], f) + f(s[|s| - 1])
  }

  lemma {:induction false} SumOfConcat<T>(a: seq<T>, b: seq<T>, f: T -> real)
    ensures SumOf(a + b, f) == SumOf(a, f) + SumOf(b, f)
    decreases |b|
  {
    if b == [] {
      assert a + b == a;
    } else {
      assert (a + b)[..|a + b| - 1] == a + b[..|b| - 1];
      SumOfConcat(a, b[..|b| - 1], f);
    }
  }

  /** Two tables whose rows agree pointwise on the summed quantity have equal sums. */
  lemma {:induction false} SumOfPointwise<T, U>(a: seq<T>, f: T -> real, b: seq<U>, g: U -> real)
    requires |a| == |b|
    requires forall i :: 0 <= i < |a| ==> f(a[i]) == g(b[i])
    ensures SumOf(a, f) == SumOf(b, g)
    decreases |a|
  {
    if a != [] {
      SumOfPointwise(a[..|a| - 1], f, b[..|b| - 1], g);
    }
  }

  /** Dividing every summand by the same positive number divides the sum. */
  lemma {:induction false} SumOfScaled<T>(s: seq<T>, f: T -> real, g: T -> real, d: real)
    requires d > 0.0
    requires forall i :: 0 <= i < |s| ==> g(s[i]) == f(s[i]) / d
    ensures SumOf(s, g) == SumOf(s, f) / d
    decreases |s|
  {
    if s != [] {
      SumOfScaled(s[..|s| - 1], f, g, d);
    }
  }

  // ---------------------------------------------------------------- keys

  /** The key of every row, in row order. */
  function Keys<T, K>(rows: seq<T>, key: T -> K): (ks: seq<K>)
    ensures |ks| == |rows|
    ensures forall i :: 0 <= i < |rows| ==> ks[i] == key(rows[i])
  {
    seq(|rows|, i requires 0 <= i < |rows| => key(rows[i]))
  }

  /** The distinct values of `ks` in order of first appearance. */
  function Dedup<K(==)>(ks: seq<K>): (d: seq<K>)
    ensures forall i :: 0 <= i < |ks| ==> ks[i] in d
    ensures forall i :: 0 <= i < |d| ==> d[i] in ks
    ensures Distinct(d)
  {
    if ks == [] then [] else
      var d := Dedup(ks[..|ks| - 1]);
      var x := ks[|ks| - 1];
      assert ks == ks[..|ks| - 1] + [x];
      if x in d then d else d + [x]
  }

  /** The sum of `val` over the rows whose key is `k` (0 when there are none). */
  function SumWhere<T, K(==)>(rows: seq<T>, key: T -> K, val: T -> real, k: K): real
  {
    if rows == [] then 0.0 else
      SumWhere(rows[..|rows| - 1], key, val, k)
      + (if key(rows[|rows| - 1]) == k then val(rows[|rows| - 1]) else 0.0)
  }

  /** The sum of `val` over the rows whose key is one of `ks`. */
  function SumIn<T, K(==)>(rows: seq<T>, key: T -> K, val: T -> real, ks: seq<K>): real
  {
    if rows == [] then 0.0 else
      SumIn(rows[..|rows| - 1], key, val, ks)
      + (if key(rows[|rows| - 1]) in ks then val(rows[|rows| - 1]) else 0.0)
  }

  /** A key that no row carries sums to 0. */
  lemma {:induction false} SumWhereAbsent<T, K>(rows: seq<T>, key: T -> K, val: T -> real, k: K)
    requires k !in Keys(rows, key)
    ensures SumWhere(rows, key, val, k) == 0.0
    decreases |rows|
  {
    if rows != [] {
      assert Keys(rows[..|rows| - 1], key) == Keys(rows, key)[..|rows| - 1];
      SumWhereAbsent(rows[..|rows| - 1], key, val, k);
    }
  }

  /** When every key is listed, `SumIn` is the whole sum. */
  lemma {:induction false} SumInAll<T, K>(rows: seq<T>, key: T -> K, val: T -> real, ks: seq<K>)
    requires forall i :: 0 <= i < |rows| ==> key(rows[i]) in ks
    ensures SumIn(rows, key, val, ks) == SumOf(rows, val)
    decreases |rows|
  {
    if rows != [] {
      SumInAll(rows[..|rows| - 1], key, val, ks);
    }
  }

  // ---------------------------------------------------------------- group by

  /** One entry per key of `ks`, holding the sum of its rows. */
  function Groups<T, K(==)>(ks: seq<K>, rows: seq<T>, key: T -> K, val: T -> real): (g: seq<(K, real)>)
    ensures |g| == |ks|
    ensures forall i :: 0 <= i < |ks| ==> g[i] == (ks[i], SumWhere(rows, key, val, ks[i]))
  {
    if ks == [] then [] else
      Groups(ks[..|ks| - 1], rows, key, val) + [(ks[|ks| - 1], SumWhere(rows, key, val, ks[|ks| - 1]))]
  }

  /** `rows.groupby(key, as_index=False).agg(sum of val)`: one entry per
      distinct key (first appearance first), holding the sum over its rows. */
  function GroupSum<T, K(==)>(rows: seq<T>, key: T -> K, val: T -> real): (g: seq<(K, real)>)
    ensures Keys(g, Fst) == Dedup(Keys(rows, key))
    ensures forall i :: 0 <= i < |g| ==> g[i].1 == SumWhere(rows, key, val, g[i].0)
  {
    Groups(Dedup(Keys(rows, key)), rows, key, val)
  }

  /** Adding one row to the input adds its value to the group of its key. */
  lemma {:induction false} GroupsSnoc<T, K>(ks: seq<K>, rows: seq<T>, r: T, key: T -> K, val: T -> real)
    requires Distinct(ks)
    ensures SumOf(Groups(ks, rows + [r], key, val), Snd)
         == SumOf(Groups(ks, rows, key, val), Snd) + (if key(r) in ks then val(r) else 0.0)
    decreases |ks|
  {
    if ks != [] {
      var q, x := ks[..|ks| - 1], ks[|ks| - 1];
      assert ks == q + [x];
      assert (rows + [r])[..|rows|] == rows;
      GroupsSnoc(q, rows, r, key, val);
      var g := Groups(ks, rows + [r], key, val);
      assert g[..|g| - 1] == Groups(q, rows + [r], key, val);
      assert SumOf(g, Snd) == SumOf(Groups(q, rows + [r], key, val), Snd) + SumWhere(rows + [r], key, val, x);
      assert SumWhere(rows + [r], key, val, x) == SumWhere(rows, key, val, x) + (if key(r) == x then val(r) else 0.0);
      var h := Groups(ks, rows, key, val);
      assert h[..|h| - 1] == Groups(q, rows, key, val);
      assert SumOf(h, Snd) == SumOf(Groups(q, rows, key, val), Snd) + SumWhere(rows, key, val, x);
      assert key(r) in ks <==> key(r) in q || key(r) == x;
      assert x !in q;
    }
  }

  /** The groups over a distinct list of keys sum to the rows carrying one of them. */
  lemma {:induction false} GroupsSum<T, K>(ks: seq<K>, rows: seq<T>, key: T -> K, val: T -> real)
    requires Distinct(ks)
    ensures SumOf(Groups(ks, rows, key, val), Snd) == SumIn(rows, key, val, ks)
    decreases |rows|
  {
    if rows == [] {
      GroupsOfNothing(ks, key, val);
    } else {
      var p, r := rows[..|rows| - 1], rows[|rows| - 1];
      assert rows == p + [r];
      GroupsSum(ks, p, key, val);
      GroupsSnoc(ks, p, r, key, val);
    }
  }

  lemma {:induction false} GroupsOfNothing<T, K>(ks: seq<K>, key: T -> K, val: T -> real)
    ensures SumOf(Groups(ks, [], key, val), Snd) == 0.0
    decreases |ks|
  {
    if ks != [] {
      var g := Groups(ks, [], key, val);
      assert g[..|g| - 1] == Groups(ks[..|ks| - 1], [], key, val);
      GroupsOfNothing(ks[..|ks| - 1], key, val);
    }
  }

  /** Grouping conserves the total: the group sums add up to the sum over all rows. */
  lemma GroupSumConserves<T, K>(rows: seq<T>, key: T -> K, val: T -> real)
    ensures SumOf(GroupSum(rows, key, val), Snd) == SumOf(rows, val)
  {
    var ks := Dedup(Keys(rows, key));
    GroupsSum(ks, rows, key, val);
    SumInAll(rows, key, val, ks);
  }

  /** Looking a key up in a grouped table gives the sum over that key's rows,
      and 0 for a key no row carries. */
  lemma GroupSumLookup<T, K>(rows: seq<T>, key: T -> K, val: T -> real, k: K)
    ensures SumWhere(GroupSum(rows, key, val), Fst, Snd, k) == SumWhere(rows, key, val, k)
  {
    var g := GroupSum(rows, key, val);
    if k in Keys(g, Fst) {
      var i :| 0 <= i < |g| && g[i].0 == k;
      SumWhereUnique(g, Fst, Snd, i);
    } else {
      SumWhereAbsent(g, Fst, Snd, k);
      SumWhereAbsent(rows, key, val, k);
    }
  }

  /** In a table with distinct keys, the sum for a present key is its one value. */
  lemma {:induction false} SumWhereUnique<T, K>(rows: seq<T>, key: T -> K, val: T -> real, i: nat)
    requires i < |rows| && Distinct(Keys(rows, key))
    ensures SumWhere(rows, key, val, key(rows[i])) == val(rows[i])
    decreases |rows|
  {
    var p := rows[..|rows| - 1];
    assert Keys(p, key) == Keys(rows, key)[..|rows| - 1];
    if i == |rows| - 1 {
      SumWhereAbsent(p, key, val, key(rows[i]));
    } else {
      SumWhereUnique(p, key, val, i);
    }
  }

  /** The identity on numbers, to sum a list of numbers with `SumOf`. */
  function Id(x: real): real { x }

  /** A key's sum is the plain sum of a column that counts the other keys' rows as 0. */
  lemma {:induction false} SumWhereMasked<T, K>(rows: seq<T>, key: T -> K, val: T -> real, k: K, masked: T -> real)
    requires forall r :: masked(r) == if key(r) == k then val(r) else 0.0
    ensures SumWhere(rows, key, val, k) == SumOf(rows, masked)
    decreases |rows|
  {
    if rows != [] {
      SumWhereMasked(rows[..|rows| - 1], key, val, k, masked);
    }
  }

  /** Summing over a composite key `(k, p)` is summing over `p` alone a column
      that counts the rows whose first key is not `k` as 0. */
  lemma {:induction false} SumWherePair<T, K, P>(rows: seq<T>, key: T -> K, part: T -> P, pair: T -> (K, P),
                                                 val: T -> real, k: K, p: P, masked: T -> real)
    requires forall r :: pair(r) == (key(r), part(r))
    requires forall r :: masked(r) == if key(r) == k then val(r) else 0.0
    ensures SumWhere(rows, pair, val, (k, p)) == SumWhere(rows, part, masked, p)
    decreases |rows|
  {
    if rows != [] {
      SumWherePair(rows[..|rows| - 1], key, part, pair, val, k, p, masked);
    }
  }

  /** Splitting a key's rows by a second key: when `ps` lists every second key
      once, the sums over `(k, p)` for `p` in `ps` add up to the sum over `k`. */
  lemma SumWherePartition<T, K, P>(rows: seq<T>, key: T -> K, part: T -> P, pair: T -> (K, P),
                                   val: T -> real, k: K, ps: seq<P>, cells: seq<real>)
    requires forall r :: pair(r) == (key(r), part(r))
    requires Distinct(ps) && forall i :: 0 <= i < |rows| ==> part(rows[i]) in ps
    requires |cells| == |ps| && forall j :: 0 <= j < |ps| ==> cells[j] == SumWhere(rows, pair, val, (k, ps[j]))
    ensures SumOf(cells, Id) == SumWhere(rows, key, val, k)
  {
    var masked := (r: T) => if key(r) == k then val(r) else 0.0;
    var g := Groups(ps, rows, part, masked);
    forall j | 0 <= j < |ps| ensures Id(cells[j]) == Snd(g[j]) {
      SumWherePair(rows, key, part, pair, val, k, ps[j], masked);
    }
    SumOfPointwise(cells, Id, g, Snd);
    GroupsSum(ps, rows, part, masked);
    SumInAll(rows, part, masked, ps);
    SumWhereMasked(rows, key, val, k, masked);
  }

  /** A column that is the sum of two others sums to the sum of their sums. */
  lemma {:induction false} SumOfAdd<T>(s: seq<T>, f: T -> real, g: T -> real, h: T -> real)
    requires forall i :: 0 <= i < |s| ==> h(s[i]) == f(s[i]) + g(s[i])
    ensures SumOf(s, h) == SumOf(s, f) + SumOf(s, g)
    decreases |s|
  {
    if s != [] {
      SumOfAdd(s[..|s| - 1], f, g, h);
    }
  }

  /** Sums of a column without negative values are not negative. */
  lemma {:induction false} SumWhereNonNegative<T, K>(rows: seq<T>, key: T -> K, val: T -> real, k: K)
    requires forall i :: 0 <= i < |rows| ==> val(rows[i]) >= 0.0
    ensures SumWhere(rows, key, val, k) >= 0.0
    decreases |rows|
  {
    if rows != [] {
      SumWhereNonNegative(rows[..|rows| - 1], key, val, k);
    }
  }

  /** A list without repetitions has as many elements as the set of its elements. */
  lemma {:induction false} DistinctCard<T>(s: seq<T>)
    requires Distinct(s)
    ensures |set x | x in s| == |s|
    decreases |s|
  {
    if s != [] {
      var p, x := s[..|s| - 1], s[|s| - 1];
      DistinctCard(p);
      assert s == p + [x];
      assert (set y | y in s) == (set y | y in p) + {x};
      assert x !in (set y | y in p);
    }
  }

  /** `groupby(key).agg(a=sum of f, b=sum of g)`: two sums per distinct key. */
  function GroupSum2<T, K(==)>(rows: seq<T>, key: T -> K, f: T -> real, g: T -> real): (r: seq<(K, real, real)>)
    ensures Keys(r, Key3) == Dedup(Keys(rows, key))
    ensures forall i :: 0 <= i < |r| ==>
              r[i].1 == SumWhere(rows, key, f, r[i].0) && r[i].2 == SumWhere(rows, key, g, r[i].0)
  {
    var ks := Dedup(Keys(rows, key));
    seq(|ks|, i requires 0 <= i < |ks| => (ks[i], SumWhere(rows, key, f, ks[i]), SumWhere(rows, key, g, ks[i])))
  }

  /** Both summed columns of a two-column grouping conserve their totals. */
  lemma GroupSum2Conserves<T, K>(rows: seq<T>, key: T -> K, f: T -> real, g: T -> real)
    ensures SumOf(GroupSum2(rows, key, f, g), Left3) == SumOf(rows, f)
    ensures SumOf(GroupSum2(rows, key, f, g), Right3) == SumOf(rows, g)
  {
    var r := GroupSum2(rows, key, f, g);
    SumOfPointwise(r, Left3, GroupSum(rows, key, f), Snd);
    GroupSumConserves(rows, key, f);
    SumOfPointwise(r, Right3, GroupSum(rows, key, g), Snd);
    GroupSumConserves(rows, key, g);
  }

  // ---------------------------------------------------------------- outer merge

  lemma DistinctConcat<T>(a: seq<T>, b: seq<T>)
    requires Distinct(a) && Distinct(b)
    requires forall v :: 0 <= v < |b| ==> b[v] !in a
    ensures Distinct(a + b)
  {
    var ab := a + b;
    forall u, v | 0 <= u < v < |ab| ensures ab[u] != ab[v] {
      if u < |a| && v >= |a| {
        assert ab[v] == b[v - |a|];
      } else if u >= |a| {
        assert ab[u] == b[u - |a|] && ab[v] == b[v - |a|];
      }
    }
  }

  lemma KeysConcat<T, K>(a: seq<T>, b: seq<T>, key: T -> K)
    ensures Keys(a + b, key) == Keys(a, key) + Keys(b, key)
  {
  }

  /** The values of the rows of `r` whose key is `k`, in row order. */
  function MatchesOf<K(==)>(r: seq<(K, real)>, k: K): (ms: seq<real>)
    ensures forall t :: 0 <= t < |ms| ==> (k, ms[t]) in r
    ensures ms == [] <==> k !in Keys(r, Fst)
  {
    if r == [] then [] else
      var p := r[..|r| - 1];
      assert Keys(r, Fst) == Keys(p, Fst) + [r[|r| - 1].0];
      MatchesOf(p, k) + (if r[|r| - 1].0 == k then [r[|r| - 1].1] else [])
  }

  /** The rows one left row yields in an outer merge: one per matching right
      row, or a single one whose right side is filled with 0. */
  function Joined<K(==)>(x: (K, real), r: seq<(K, real)>): (j: seq<(K, real, real)>)
    ensures |j| >= 1
    ensures forall t :: 0 <= t < |j| ==>
              && j[t].0 == x.0 && j[t].1 == x.1
              && ((x.0, j[t].2) in r || (j[t].2 == 0.0 && x.0 !in Keys(r, Fst)))
  {
    var ms := MatchesOf(r, x.0);
    if ms == [] then [(x.0, x.1, 0.0)] else Pairs(x.0, x.1, ms)
  }

  /** The left row (k, a) paired with each of the right values `ms`, in order. */
  function Pairs<K>(k: K, a: real, ms: seq<real>): (p: seq<(K, real, real)>)
    ensures |p| == |ms|
    ensures forall t :: 0 <= t < |ms| ==> p[t] == (k, a, ms[t])
  {
    if ms == [] then [] else Pairs(k, a, ms[..|ms| - 1]) + [(k, a, ms[|ms| - 1])]
  }

  /** The rows of an outer merge that come from the left table, in left order. */
  function LeftPart<K(==)>(l: seq<(K, real)>, r: seq<(K, real)>): (m: seq<(K, real, real)>)
    ensures forall t :: 0 <= t < |m| ==>
              && (m[t].0, m[t].1) in l
              && ((m[t].0, m[t].2) in r || (m[t].2 == 0.0 && m[t].0 !in Keys(r, Fst)))
    ensures forall i :: 0 <= i < |l| ==> l[i].0 in Keys(m, Key3)
  {
    if l == [] then [] else
      var p, x := l[..|l| - 1], l[|l| - 1];
      var a, b := LeftPart(p, r), Joined(x, r);
      KeysConcat(a, b, Key3);
      assert l == p + [x];
      assert b[0].0 == x.0;
      a + b
  }

  /** The rows of an outer merge whose key only the right table has, filled
      with 0 on the left. */
  function RightOnly<K(==)>(l: seq<(K, real)>, r: seq<(K, real)>): (m: seq<(K, real, real)>)
    ensures forall t :: 0 <= t < |m| ==>
              m[t].1 == 0.0 && m[t].0 !in Keys(l, Fst) && (m[t].0, m[t].2) in r
    ensures forall j :: 0 <= j < |r| ==> r[j].0 in Keys(l, Fst) || r[j].0 in Keys(m, Key3)
  {
    if r == [] then [] else
      var p, y := r[..|r| - 1], r[|r| - 1];
      assert r == p + [y];
      var a := RightOnly(l, p);
      var b: seq<(K, real, real)> := if y.0 in Keys(l, Fst) then [] else [(y.0, 0.0, y.1)];
      KeysConcat(a, b, Key3);
      assert forall t :: |a| <= t < |a + b| ==> (a + b)[t] == b[t - |a|];
      assert forall j :: 0 <= j < |r| ==> r[j].0 in Keys(l, Fst) || r[j].0 in Keys(a + b, Key3) by {
        forall j | 0 <= j < |r| && r[j].0 !in Keys(l, Fst)
          ensures r[j].0 in Keys(a + b, Key3)
        {
          if j < |p| {
            assert r[j] == p[j];
          } else {
            assert Keys(a + b, Key3)[|a|] == y.0;
          }
        }
      }
      a + b
  }

  /** How an outer-merge row of key `k` with values `a` and `b` arose: a left
      entry paired with a right entry, a left entry whose key the right side
      lacks (0 on the right), or a right entry whose key the left side lacks
      (0 on the left). */
  predicate MergedFrom<K(==)>(l: seq<(K, real)>, r: seq<(K, real)>, k: K, a: real, b: real)
  {
    || ((k, a) in l && (k, b) in r)
    || ((k, a) in l && b == 0.0 && k !in Keys(r, Fst))
    || (a == 0.0 && k !in Keys(l, Fst) && (k, b) in r)
  }

  /** `pd.merge(l, r, on=key, how="outer").fillna(0)`: every left row paired
      with every right row of the same key, a left row without partner filled
      with 0 on the right, then every right row whose key the left table lacks,
      filled with 0 on the left. Keys need not be unique on either side. */
  function OuterMerge<K(==)>(l: seq<(K, real)>, r: seq<(K, real)>): (m: seq<(K, real, real)>)
    ensures forall t :: 0 <= t < |m| ==> MergedFrom(l, r, m[t].0, m[t].1, m[t].2)
    ensures forall i :: 0 <= i < |l| ==> l[i].0 in Keys(m, Key3)
    ensures forall j :: 0 <= j < |r| ==> r[j].0 in Keys(m, Key3)
  {
    var a, b := LeftPart(l, r), RightOnly(l, r);
    var m := a + b;
    KeysConcat(a, b, Key3);
    forall t | 0 <= t < |m|
      ensures || ((m[t].0, m[t].1) in l && (m[t].0, m[t].2) in r)
              || ((m[t].0, m[t].1) in l && m[t].2 == 0.0 && m[t].0 !in Keys(r, Fst))
              || (m[t].1 == 0.0 && m[t].0 !in Keys(l, Fst) && (m[t].0, m[t].2) in r)
    {
      if t >= |a| {
        assert m[t] == b[t - |a|];
      }
    }
    forall j | 0 <= j < |r| && r[j].0 in Keys(l, Fst)
      ensures r[j].0 in Keys(a, Key3)
    {
      var i :| 0 <= i < |l| && Keys(l, Fst)[i] == r[j].0;
    }
    m
  }

  // ---------------------------------------------------------------- outer merge multiplicities

  lemma {:induction false} PairsCount<K>(k: K, a: real, ms: seq<real>, x: (K, real, real))
    ensures multiset(Pairs(k, a, ms))[x] == if x.0 == k && x.1 == a then multiset(ms)[x.2] else 0
    decreases |ms|
  {
    if ms != [] {
      var p := ms[..|ms| - 1];
      assert ms == p + [ms[|ms| - 1]];
      PairsCount(k, a, p, x);
    }
  }

  /** Every right row with key `k` gives one match, and nothing else does. */
  lemma {:induction false} MatchesCount<K>(r: seq<(K, real)>, k: K, b: real)
    ensures multiset(MatchesOf(r, k))[b] == multiset(r)[(k, b)]
    decreases |r|
  {
    if r != [] {
      var p := r[..|r| - 1];
      assert r == p + [r[|r| - 1]];
      MatchesCount(p, k, b);
    }
  }

  /** The factor by which a left row (k, a) turns into merged rows (k, a, b):
      the number of right rows (k, b), or one filled row when the right side
      lacks `k` and b is 0. */
  ghost function RightFactor<K>(r: seq<(K, real)>, k: K, b: real): nat
  {
    if k in Keys(r, Fst) then multiset(r)[(k, b)] else if b == 0.0 then 1 else 0
  }

  lemma JoinedCount<K>(y: (K, real), r: seq<(K, real)>, x: (K, real, real))
    ensures multiset(Joined(y, r))[x] == if (x.0, x.1) == y then RightFactor(r, x.0, x.2) else 0
  {
    var ms := MatchesOf(r, y.0);
    if ms != [] {
      PairsCount(y.0, y.1, ms, x);
      MatchesCount(r, y.0, x.2);
    }
  }

  lemma {:induction false} LeftPartCount<K>(l: seq<(K, real)>, r: seq<(K, real)>, x: (K, real, real))
    ensures multiset(LeftPart(l, r))[x] == multiset(l)[(x.0, x.1)] * RightFactor(r, x.0, x.2)
    decreases |l|
  {
    if l != [] {
      var p, y := l[..|l| - 1], l[|l| - 1];
      var c, n := RightFactor(r, x.0, x.2), multiset(p)[(x.0, x.1)];
      LeftPartCount(p, r, x);
      LeftPartSnoc(l, r);
      JoinedCount(y, r, x);
      calc {
        multiset(LeftPart(l, r))[x];
        multiset(LeftPart(p, r))[x] + multiset(Joined(y, r))[x];
        n * c + (if (x.0, x.1) == y then c else 0);
        { MulSucc(n, c); }
        (if (x.0, x.1) == y then n + 1 else n) * c;
        { CountSnoc(l, (x.0, x.1)); }
        multiset(l)[(x.0, x.1)] * c;
      }
    }
  }

  lemma KeyOfRow<K>(rows: seq<(K, real)>, x: (K, real))
    requires x in rows
    ensures x.0 in Keys(rows, Fst)
  {
    var i :| 0 <= i < |rows| && rows[i] == x;
    assert Keys(rows, Fst)[i] == x.0;
  }

  lemma MulPos(n: nat, c: nat)
    requires n >= 1 && c >= 1
    ensures n * c >= 1
  {
  }

  lemma CountSnoc<T>(s: seq<T>, z: T)
    requires s != []
    ensures multiset(s)[z] == multiset(s[..|s| - 1])[z] + (if s[|s| - 1] == z then 1 else 0)
  {
    assert s == s[..|s| - 1] + [s[|s| - 1]];
  }

  lemma MulSucc(n: nat, c: nat)
    ensures (n + 1) * c == n * c + c
  {
  }

  lemma {:induction false} RightOnlyCount<K>(l: seq<(K, real)>, r: seq<(K, real)>, x: (K, real, real))
    ensures multiset(RightOnly(l, r))[x] == if x.0 !in Keys(l, Fst) && x.1 == 0.0 then multiset(r)[(x.0, x.2)] else 0
    decreases |r|
  {
    if r != [] {
      var p, y := r[..|r| - 1], r[|r| - 1];
      assert r == p + [y];
      RightOnlyCount(l, p, x);
    }
  }

  lemma AbsentKeyCount<K>(l: seq<(K, real)>, k: K, a: real)
    requires k !in Keys(l, Fst)
    ensures multiset(l)[(k, a)] == 0
  {
  }

  /** `merge(how="outer")` row for row: a merged row (k, a, b) occurs once per
      left row (k, a) and right row (k, b) when both sides have `k`; once per
      left row (k, a) with b = 0 when only the left side has `k`; and once per
      right row (k, b) with a = 0 when only the right side has it. Nothing
      else occurs. */
  lemma OuterMergeCounts<K>(l: seq<(K, real)>, r: seq<(K, real)>, k: K, a: real, b: real)
    ensures multiset(OuterMerge(l, r))[(k, a, b)] ==
              if k in Keys(l, Fst) then multiset(l)[(k, a)] * RightFactor(r, k, b)
              else if a == 0.0 then multiset(r)[(k, b)]
              else 0
  {
    var x := (k, a, b);
    assert OuterMerge(l, r) == LeftPart(l, r) + RightOnly(l, r);
    LeftPartCount(l, r, x);
    RightOnlyCount(l, r, x);
    if k !in Keys(l, Fst) {
      AbsentKeyCount(l, k, a);
    }
  }

  lemma PairKept<K>(l: seq<(K, real)>, r: seq<(K, real)>, x: (K, real), y: (K, real))
    requires x in l && y in r && x.0 == y.0
    ensures (x.0, x.1, y.1) in OuterMerge(l, r)
  {
    var k := x.0;
    KeyOfRow(l, x);
    KeyOfRow(r, y);
    OuterMergeCounts(l, r, k, x.1, y.1);
    var n, c := multiset(l)[x], multiset(r)[y];
    assert n >= 1 && c >= 1;
    MulPos(n, c);
  }

  lemma LeftKept<K>(l: seq<(K, real)>, r: seq<(K, real)>, x: (K, real))
    requires x in l && x.0 !in Keys(r, Fst)
    ensures (x.0, x.1, 0.0) in OuterMerge(l, r)
  {
    KeyOfRow(l, x);
    OuterMergeCounts(l, r, x.0, x.1, 0.0);
    var n, c := multiset(l)[x], RightFactor(r, x.0, 0.0);
    assert c == 1;
    MulPos(n, c);
  }

  lemma RightKept<K>(l: seq<(K, real)>, r: seq<(K, real)>, y: (K, real))
    requires y in r && y.0 !in Keys(l, Fst)
    ensures (y.0, 0.0, y.1) in OuterMerge(l, r)
  {
    OuterMergeCounts(l, r, y.0, 0.0, y.1);
  }

  /** No row of either side is lost: every left and right row with the same
      key are paired, and a row without partner is kept with 0 on the other
      side. */
  lemma OuterMergeComplete<K>(l: seq<(K, real)>, r: seq<(K, real)>)
    ensures forall i, j :: 0 <= i < |l| && 0 <= j < |r| && l[i].0 == r[j].0 ==>
              (l[i].0, l[i].1, r[j].1) in OuterMerge(l, r)
    ensures forall i :: 0 <= i < |l| && l[i].0 !in Keys(r, Fst) ==> (l[i].0, l[i].1, 0.0) in OuterMerge(l, r)
    ensures forall j :: 0 <= j < |r| && r[j].0 !in Keys(l, Fst) ==> (r[j].0, 0.0, r[j].1) in OuterMerge(l, r)
  {
    forall i, j | 0 <= i < |l| && 0 <= j < |r| && l[i].0 == r[j].0
      ensures (l[i].0, l[i].1, r[j].1) in OuterMerge(l, r)
    {
      PairKept(l, r, l[i], r[j]);
    }
    forall i | 0 <= i < |l| && l[i].0 !in Keys(r, Fst)
      ensures (l[i].0, l[i].1, 0.0) in OuterMerge(l, r)
    {
      LeftKept(l, r, l[i]);
    }
    forall j | 0 <= j < |r| && r[j].0 !in Keys(l, Fst)
      ensures (r[j].0, 0.0, r[j].1) in OuterMerge(l, r)
    {
      RightKept(l, r, r[j]);
    }
  }

  /** With distinct keys on a side, a key has at most one match there, and its
      value is that side's sum for the key. */
  lemma {:induction false} MatchesDistinct<K>(r: seq<(K, real)>, k: K)
    requires Distinct(Keys(r, Fst))
    ensures MatchesOf(r, k) == if k in Keys(r, Fst) then [SumWhere(r, Fst, Snd, k)] else []
    decreases |r|
  {
    if r != [] {
      var p, y := r[..|r| - 1], r[|r| - 1];
      assert Keys(r, Fst) == Keys(p, Fst) + [y.0];
      MatchesDistinct(p, k);
      if y.0 == k {
        SumWhereAbsent(p, Fst, Snd, k);
      }
    }
  }

  lemma JoinedDistinct<K>(x: (K, real), r: seq<(K, real)>)
    requires Distinct(Keys(r, Fst))
    ensures Joined(x, r) == [(x.0, x.1, SumWhere(r, Fst, Snd, x.0))]
  {
    MatchesDistinct(r, x.0);
    if x.0 !in Keys(r, Fst) {
      SumWhereAbsent(r, Fst, Snd, x.0);
    }
  }

  lemma {:induction false} LeftPartDistinct<K>(l: seq<(K, real)>, r: seq<(K, real)>)
    requires Distinct(Keys(r, Fst))
    ensures |LeftPart(l, r)| == |l|
    ensures forall i :: 0 <= i < |l| ==>
              LeftPart(l, r)[i] == (l[i].0, l[i].1, SumWhere(r, Fst, Snd, l[i].0))
    decreases |l|
  {
    if l != [] {
      var p, x := l[..|l| - 1], l[|l| - 1];
      LeftPartDistinct(p, r);
      JoinedDistinct(x, r);
      LeftPartSnoc(l, r);
      var m := LeftPart(l, r);
      forall i | 0 <= i < |l|
        ensures m[i] == (l[i].0, l[i].1, SumWhere(r, Fst, Snd, l[i].0))
      {
        if i < |p| {
          assert l[i] == p[i];
        }
      }
    }
  }

  lemma LeftPartSnoc<K>(l: seq<(K, real)>, r: seq<(K, real)>)
    requires l != []
    ensures LeftPart(l, r) == LeftPart(l[..|l| - 1], r) + Joined(l[|l| - 1], r)
  {
  }

  lemma {:induction false} RightOnlyLeftZero<K>(l: seq<(K, real)>, r: seq<(K, real)>)
    ensures SumOf(RightOnly(l, r), Left3) == 0.0
    decreases |r|
  {
    if r != [] {
      var p, y := r[..|r| - 1], r[|r| - 1];
      RightOnlyLeftZero(l, p);
      var a := RightOnly(l, p);
      var b: seq<(K, real, real)> := if y.0 in Keys(l, Fst) then [] else [(y.0, 0.0, y.1)];
      SumOfConcat(a, b, Left3);
    }
  }

  lemma {:induction false} RightOnlyRightSum<K>(l: seq<(K, real)>, r: seq<(K, real)>)
    ensures SumOf(RightOnly(l, r), Right3) + SumIn(r, Fst, Snd, Keys(l, Fst)) == SumOf(r, Snd)
    decreases |r|
  {
    if r != [] {
      var p, y := r[..|r| - 1], r[|r| - 1];
      RightOnlyRightSum(l, p);
      var a := RightOnly(l, p);
      var b: seq<(K, real, real)> := if y.0 in Keys(l, Fst) then [] else [(y.0, 0.0, y.1)];
      SumOfConcat(a, b, Right3);
    }
  }

  lemma {:induction false} RightOnlyDistinct<K>(l: seq<(K, real)>, r: seq<(K, real)>)
    requires Distinct(Keys(r, Fst))
    ensures Distinct(Keys(RightOnly(l, r), Key3))
    ensures forall t :: 0 <= t < |RightOnly(l, r)| ==> RightOnly(l, r)[t].0 in Keys(r, Fst)
    decreases |r|
  {
    if r != [] {
      var p, y := r[..|r| - 1], r[|r| - 1];
      assert Keys(r, Fst) == Keys(p, Fst) + [y.0];
      RightOnlyDistinct(l, p);
      var a := RightOnly(l, p);
      var b: seq<(K, real, real)> := if y.0 in Keys(l, Fst) then [] else [(y.0, 0.0, y.1)];
      KeysConcat(a, b, Key3);
    }
  }

  /** When both sides have distinct keys (as grouped tables do), the outer merge
      has every key exactly once, each side's value is that side's sum for the
      key (0 when the side lacks it), and both columns keep their totals. */
  lemma OuterMergeDistinct<K>(l: seq<(K, real)>, r: seq<(K, real)>)
    requires Distinct(Keys(l, Fst)) && Distinct(Keys(r, Fst))
    ensures Distinct(Keys(OuterMerge(l, r), Key3))
    ensures forall t :: 0 <= t < |OuterMerge(l, r)| ==>
              OuterMerge(l, r)[t].1 == SumWhere(l, Fst, Snd, OuterMerge(l, r)[t].0) &&
              OuterMerge(l, r)[t].2 == SumWhere(r, Fst, Snd, OuterMerge(l, r)[t].0)
    ensures SumOf(OuterMerge(l, r), Left3) == SumOf(l, Snd)
    ensures SumOf(OuterMerge(l, r), Right3) == SumOf(r, Snd)
  {
    MergeDistinctKeys(l, r);
    MergeDistinctValues(l, r);
    MergeDistinctSums(l, r);
  }

  lemma MergeDistinctKeys<K>(l: seq<(K, real)>, r: seq<(K, real)>)
    requires Distinct(Keys(l, Fst)) && Distinct(Keys(r, Fst))
    ensures Distinct(Keys(OuterMerge(l, r), Key3))
  {
    var a, b := LeftPart(l, r), RightOnly(l, r);
    LeftPartDistinct(l, r);
    RightOnlyDistinct(l, r);
    KeysConcat(a, b, Key3);
    assert Keys(a, Key3) == Keys(l, Fst);
    DistinctConcat(Keys(a, Key3), Keys(b, Key3));
  }

  lemma MergeDistinctValues<K>(l: seq<(K, real)>, r: seq<(K, real)>)
    requires Distinct(Keys(l, Fst)) && Distinct(Keys(r, Fst))
    ensures forall t :: 0 <= t < |OuterMerge(l, r)| ==>
              OuterMerge(l, r)[t].1 == SumWhere(l, Fst, Snd, OuterMerge(l, r)[t].0) &&
              OuterMerge(l, r)[t].2 == SumWhere(r, Fst, Snd, OuterMerge(l, r)[t].0)
  {
    var a, b := LeftPart(l, r), RightOnly(l, r);
    var m := a + b;
    LeftPartDistinct(l, r);
    forall t | 0 <= t < |m|
      ensures m[t].1 == SumWhere(l, Fst, Snd, m[t].0) && m[t].2 == SumWhere(r, Fst, Snd, m[t].0)
    {
      if t < |a| {
        assert m[t] == a[t];
        SumWhereUnique(l, Fst, Snd, t);
      } else {
        assert m[t] == b[t - |a|];
        var k := m[t].0;
        SumWhereAbsent(l, Fst, Snd, k);
        var j :| 0 <= j < |r| && r[j] == (k, m[t].2);
        SumWhereUnique(r, Fst, Snd, j);
      }
    }
  }

  lemma MergeDistinctSums<K>(l: seq<(K, real)>, r: seq<(K, real)>)
    requires Distinct(Keys(l, Fst)) && Distinct(Keys(r, Fst))
    ensures SumOf(OuterMerge(l, r), Left3) == SumOf(l, Snd)
    ensures SumOf(OuterMerge(l, r), Right3) == SumOf(r, Snd)
  {
    MergeLeftSum(l, r);
    MergeRightSum(l, r);
  }

  /** The left column: the left rows once each, then zeros. */
  lemma MergeLeftSum<K>(l: seq<(K, real)>, r: seq<(K, real)>)
    requires Distinct(Keys(l, Fst)) && Distinct(Keys(r, Fst))
    ensures SumOf(OuterMerge(l, r), Left3) == SumOf(l, Snd)
  {
    var a, b := LeftPart(l, r), RightOnly(l, r);
    LeftPartDistinct(l, r);
    SumOfConcat(a, b, Left3);
    SumOfPointwise(a, Left3, l, Snd);
    RightOnlyLeftZero(l, r);
  }

  /** The right column: the right rows whose key the left has, then the others. */
  lemma MergeRightSum<K>(l: seq<(K, real)>, r: seq<(K, real)>)
    requires Distinct(Keys(l, Fst)) && Distinct(Keys(r, Fst))
    ensures SumOf(OuterMerge(l, r), Right3) == SumOf(r, Snd)
  {
    var a, b := LeftPart(l, r), RightOnly(l, r);
    assert OuterMerge(l, r) == a + b;
    SumOfConcat(a, b, Right3);
    LeftPartRightSum(l, r);
    RightOnlyRightSum(l, r);
  }

  lemma LeftPartRightSum<K>(l: seq<(K, real)>, r: seq<(K, real)>)
    requires Distinct(Keys(l, Fst)) && Distinct(Keys(r, Fst))
    ensures SumOf(LeftPart(l, r), Right3) == SumIn(r, Fst, Snd, Keys(l, Fst))
  {
    var a := LeftPart(l, r);
    LeftPartDistinct(l, r);
    var g := Groups(Keys(l, Fst), r, Fst, Snd);
    SumOfPointwise(a, Right3, g, Snd);
    GroupsSum(Keys(l, Fst), r, Fst, Snd);
  }

  lemma MatchesTwo(k: string, u: real, v: real)
    ensures MatchesOf([(k, u), (k, v)], k) == [u, v]
  {
    var r: seq<(string, real)> := [(k, u), (k, v)];
    assert r[..1] == [(k, u)];
    assert r[..1][..0] == [];
  }

  lemma JoinedTwo(k: string, x: real, u: real, v: real)
    ensures Joined((k, x), [(k, u), (k, v)]) == [(k, x, u), (k, x, v)]
  {
    MatchesTwo(k, u, v);
  }

  lemma RightOnlyCovered(k: string, l: seq<(string, real)>, u: real, v: real)
    requires l != [] && l[0].0 == k
    ensures RightOnly(l, [(k, u), (k, v)]) == []
  {
    var r: seq<(string, real)> := [(k, u), (k, v)];
    assert Keys(l, Fst)[0] == k;
    assert r[..1] == [(k, u)];
    assert r[..1][..0] == [];
    assert RightOnly(l, r[..1]) == RightOnly(l, []);
  }

  /** Duplicate keys multiply: two left and two right rows under one key give
      four merged rows, and the left column's total doubles. */
  lemma OuterMergeManyToMany(k: string)
    ensures OuterMerge([(k, 1.0), (k, 2.0)], [(k, 10.0), (k, 20.0)])
         == [(k, 1.0, 10.0), (k, 1.0, 20.0), (k, 2.0, 10.0), (k, 2.0, 20.0)]
    ensures SumOf(OuterMerge([(k, 1.0), (k, 2.0)], [(k, 10.0), (k, 20.0)]), Left3) == 6.0
  {
    var r: seq<(string, real)> := [(k, 10.0), (k, 20.0)];
    var l: seq<(string, real)> := [(k, 1.0), (k, 2.0)];
    LeftPartTwo(k);
    RightOnlyCovered(k, l, 10.0, 20.0);
    ManyToManyLeftSum(k);
  }

  lemma LeftPartTwo(k: string)
    ensures LeftPart([(k, 1.0), (k, 2.0)], [(k, 10.0), (k, 20.0)])
         == [(k, 1.0, 10.0), (k, 1.0, 20.0), (k, 2.0, 10.0), (k, 2.0, 20.0)]
  {
    var r: seq<(string, real)> := [(k, 10.0), (k, 20.0)];
    var l: seq<(string, real)> := [(k, 1.0), (k, 2.0)];
    JoinedTwo(k, 1.0, 10.0, 20.0);
    JoinedTwo(k, 2.0, 10.0, 20.0);
    LeftPartSnoc(l, r);
    LeftPartSnoc(l[..1], r);
    assert l[..1][..0] == [];
  }

  lemma ManyToManyLeftSum(k: string)
    ensures SumOf([(k, 1.0, 10.0), (k, 1.0, 20.0), (k, 2.0, 10.0), (k, 2.0, 20.0)], Left3) == 6.0
  {
    var m: seq<(string, real, real)> := [(k, 1.0, 10.0), (k, 1.0, 20.0), (k, 2.0, 10.0), (k, 2.0, 20.0)];
    assert m[..3] == [(k, 1.0, 10.0), (k, 1.0, 20.0), (k, 2.0, 10.0)];
    assert m[..3][..2] == [(k, 1.0, 10.0), (k, 1.0, 20.0)];
    assert m[..3][..2][..1] == [(k, 1.0, 10.0)];
    assert m[..3][..2][..1][..0] == [];
    assert SumOf(m[..3][..2][..1], Left3) == 1.0;
    assert SumOf(m[..3][..2], Left3) == 2.0;
    assert SumOf(m[..3], Left3) == 4.0;
  }
}
