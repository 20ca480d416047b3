/** `sort_values` and `nlargest` over rows with a numeric sort key. */
module Sorting {
  import opened Wrappers
  import opened Relational

  /** Whether a row whose key is `a` may come before one whose key is `b` in
      `sort_values`: by value, ascending or descending, and a missing value
      (NaN) last in either direction. */
  predicate Before(a: Option<real>, b: Option<real>, ascending: bool)
  {
    match (a, b)
    case (Some(x), Some(y)) => if ascending then x <= y else x >= y
    case (Some(_), None) => true
    case (None, None) => true
    case (None, Some(_)) => false
  }

  lemma BeforeTotal(a: Option<real>, b: Option<real>, ascending: bool)
    ensures Before(a, b, ascending) || Before(b, a, ascending)
  {
  }

  lemma BeforeTransitive(a: Option<real>, b: Option<real>, c: Option<real>, ascending: bool)
    requires Before(a, b, ascending) && Before(b, c, ascending)
    ensures Before(a, c, ascending)
  {
  }

  predicate SortedBy<T>(s: seq<T>, key: T -> Option<real>, ascending: bool)
  {
    forall i, j :: 0 <= i < j < |s| ==> Before(key(s[i]), key(s[j]), ascending)
  }

  /** Every row of `s` may come after a row whose key is `h`. */
  predicate AllAfter<T>(h: Option<real>, s: seq<T>, key: T -> Option<real>, ascending: bool)
  {
    forall k :: 0 <= k < |s| ==> Before(h, key(s[k]), ascending)
  }

  lemma AllAfterPermutation<T>(h: Option<real>, a: seq<T>, b: seq<T>, key: T -> Option<real>, ascending: bool)
    requires multiset(a) == multiset(b) && AllAfter(h, a, key, ascending)
    ensures AllAfter(h, b, key, ascending)
  {
    forall k | 0 <= k < |b| ensures Before(h, key(b[k]), ascending) {
      assert b[k] in multiset(a);
    }
  }

  /** A position of a permuted sequence holds an element of the original. */
  lemma PermutedAt<T>(a: seq<T>, b: seq<T>, u: nat) returns (t: nat)
    requires multiset(a) == multiset(b) && u < |a|
    ensures t < |b| && b[t] == a[u]
  {
    assert a[u] in multiset(b);
    t :| 0 <= t < |b| && b[t] == a[u];
  }

  lemma SortedCons<T>(x: T, s: seq<T>, key: T -> Option<real>, ascending: bool)
    requires AllAfter(key(x), s, key, ascending) && SortedBy(s, key, ascending)
    ensures SortedBy([x] + s, key, ascending)
  {
    var r := [x] + s;
    forall i, j | 0 <= i < j < |r| ensures Before(key(r[i]), key(r[j]), ascending) {
      assert r[j] == s[j - 1];
      if i > 0 {
        assert r[i] == s[i - 1];
      }
    }
  }

  /** `x` placed into `s` ahead of the first row it may precede. */
  function Insert<T>(x: T, s: seq<T>, key: T -> Option<real>, ascending: bool): (r: seq<T>)
    ensures multiset(r) == multiset(s) + multiset{x}
    ensures |r| == |s| + 1
  {
    if s == [] then [x]
    else if Before(key(x), key(s[0]), ascending) then [x] + s
    else
      assert s == [s[0]] + s[1..];
      [s[0]] + Insert(x, s[1..], key, ascending)
  }

  lemma {:induction false} InsertSorted<T>(x: T, s: seq<T>, key: T -> Option<real>, ascending: bool)
    requires SortedBy(s, key, ascending)
    ensures SortedBy(Insert(x, s, key, ascending), key, ascending)
    decreases |s|
  {
    if s == [] {
    } else if Before(key(x), key(s[0]), ascending) {
      forall k | 0 <= k < |s| ensures Before(key(x), key(s[k]), ascending) {
        if k > 0 {
          BeforeTransitive(key(x), key(s[0]), key(s[k]), ascending);
        }
      }
      SortedCons(x, s, key, ascending);
    } else {
      var t := Insert(x, s[1..], key, ascending);
      InsertSorted(x, s[1..], key, ascending);
      BeforeTotal(key(x), key(s[0]), ascending);
      var u := [x] + s[1..];
      assert multiset(u) == multiset(t);
      forall k | 0 <= k < |u| ensures Before(key(s[0]), key(u[k]), ascending) {
        if k > 0 {
          assert u[k] == s[k];
        }
      }
      AllAfterPermutation(key(s[0]), u, t, key, ascending);
      SortedCons(s[0], t, key, ascending);
    }
  }

  /** `sort_values(key, ascending)`: the same rows, ordered by `key`.
      `sort_values` promises no order among rows with equal keys; this model
      keeps them in input order (`SortByStable`), which `nlargest` relies on. */
  function SortBy<T>(s: seq<T>, key: T -> Option<real>, ascending: bool): (r: seq<T>)
    ensures multiset(r) == multiset(s)
    ensures |r| == |s|
    ensures SortedBy(r, key, ascending)
  {
    if s == [] then []
    else
      assert s == [s[0]] + s[1..];
      var t := SortBy(s[1..], key, ascending);
      InsertSorted(s[0], t, key, ascending);
      Insert(s[0], t, key, ascending)
  }

  /** Reordering the rows leaves a column's total unchanged. */
  lemma {:induction false} SumOfPermutation<T>(a: seq<T>, b: seq<T>, f: T -> real)
    requires multiset(a) == multiset(b)
    ensures SumOf(a, f) == SumOf(b, f)
    decreases |a|
  {
    if a == [] {
      assert |b| == |multiset(b)|;
    } else {
      var p := a[..|a| - 1];
      assert a == p + [a[|a| - 1]];
      var i := PermutedAt(a, b, |a| - 1);
      var q := b[..i] + b[i + 1..];
      RemoveAt(b, i, f);
      SumOfPermutation(p, q, f);
    }
  }

  /** Taking the element at `i` out of `b`. */
  lemma RemoveAt<T>(b: seq<T>, i: nat, f: T -> real)
    requires i < |b|
    ensures multiset(b[..i] + b[i + 1..]) == multiset(b) - multiset{b[i]}
    ensures SumOf(b, f) == SumOf(b[..i] + b[i + 1..], f) + f(b[i])
  {
    SplitAt(b, i);
    MultisetSplit(b[..i], b[i], b[i + 1..]);
    SumOfSplit(b[..i], b[i], b[i + 1..], f);
  }

  lemma SplitAt<T>(b: seq<T>, i: nat)
    requires i < |b|
    ensures b == b[..i] + [b[i]] + b[i + 1..]
  {
    assert b[..i] + [b[i]] == b[..i + 1];
  }

  lemma MultisetSplit<T>(l: seq<T>, x: T, r: seq<T>)
    ensures multiset(l + r) == multiset(l + [x] + r) - multiset{x}
  {
    assert multiset(l + [x] + r) == multiset(l) + multiset([x]) + multiset(r);
    assert multiset(l + r) == multiset(l) + multiset(r);
  }

  lemma SumOfSplit<T>(l: seq<T>, x: T, r: seq<T>, f: T -> real)
    ensures SumOf(l + [x] + r, f) == SumOf(l + r, f) + f(x)
  {
    SumOfConcat(l, r, f);
    SumOfConcat(l + [x], r, f);
    SumOfConcat(l, [x], f);
    assert SumOf([x], f) == f(x) by {
      assert [x][..0] == [];
    }
  }

  /** Sorting keeps every column's total. */
  lemma SortBySum<T>(s: seq<T>, key: T -> Option<real>, ascending: bool, f: T -> real)
    ensures SumOf(SortBy(s, key, ascending), f) == SumOf(s, f)
  {
    SumOfPermutation(SortBy(s, key, ascending), s, f);
  }

  /** The rows of `s` whose key is `v`, in the order of `s`. */
  function KeyRun<T>(s: seq<T>, key: T -> Option<real>, v: Option<real>): seq<T>
  {
    if s == [] then [] else (if key(s[0]) == v then [s[0]] else []) + KeyRun(s[1..], key, v)
  }

  /** `Insert` puts `x` ahead of the rows with its key, and moves no other row
      past one with the same key. */
  lemma {:induction false} InsertKeyRun<T>(x: T, s: seq<T>, key: T -> Option<real>, ascending: bool, v: Option<real>)
    ensures KeyRun(Insert(x, s, key, ascending), key, v) == (if key(x) == v then [x] else []) + KeyRun(s, key, v)
    decreases |s|
  {
    var r := Insert(x, s, key, ascending);
    if s == [] {
      assert r[1..] == [];
    } else if Before(key(x), key(s[0]), ascending) {
      assert r[1..] == s;
    } else {
      assert key(x) != key(s[0]);
      assert r[1..] == Insert(x, s[1..], key, ascending);
      InsertKeyRun(x, s[1..], key, ascending, v);
    }
  }

  /** Rows with equal keys leave `SortBy` in the order they came in. */
  lemma {:induction false} SortByStable<T>(s: seq<T>, key: T -> Option<real>, ascending: bool, v: Option<real>)
    ensures KeyRun(SortBy(s, key, ascending), key, v) == KeyRun(s, key, v)
    decreases |s|
  {
    if s != [] {
      SortByStable(s[1..], key, ascending, v);
      InsertKeyRun(s[0], SortBy(s[1..], key, ascending), key, ascending, v);
    }
  }

  /** A prefix keeps, for every key, a prefix of that key's rows. */
  lemma {:induction false} KeyRunPrefix<T>(t: seq<T>, m: nat, key: T -> Option<real>, v: Option<real>)
    requires m <= |t|
    ensures KeyRun(t[..m], key, v) <= KeyRun(t, key, v)
    decreases m
  {
    if m > 0 {
      assert t[..m][1..] == t[1..][..m - 1];
      KeyRunPrefix(t[1..], m - 1, key, v);
    }
  }

  /** `nlargest(n, key)` with `keep="first"`: the first `n` rows of the rows
      sorted by descending key, every one of them at least as large as every
      row left out; among rows with the same key, those kept are the earliest
      ones of `s`, in the order of `s`. */
  function NLargest<T>(s: seq<T>, n: nat, key: T -> Option<real>): (r: seq<T>)
    ensures |r| == if n < |s| then n else |s|
    ensures multiset(r) <= multiset(s)
    ensures SortedBy(r, key, false)
    ensures forall i, y :: 0 <= i < |r| && y in multiset(s) - multiset(r) ==> Before(key(r[i]), key(y), false)
    ensures forall v :: KeyRun(r, key, v) <= KeyRun(s, key, v)
  {
    var t := SortBy(s, key, false);
    var m := if n < |s| then n else |s|;
    NLargestDominates(t, m, key);
    KeepsFirst(s, m, key);
    t[..m]
  }

  lemma KeepsFirst<T>(s: seq<T>, m: nat, key: T -> Option<real>)
    requires m <= |s|
    ensures forall v :: KeyRun(SortBy(s, key, false)[..m], key, v) <= KeyRun(s, key, v)
  {
    forall v ensures KeyRun(SortBy(s, key, false)[..m], key, v) <= KeyRun(s, key, v) {
      SortByStable(s, key, false, v);
      KeyRunPrefix(SortBy(s, key, false), m, key, v);
    }
  }

  /** The first `m` rows of a descending order dominate the rest. */
  lemma NLargestDominates<T>(t: seq<T>, m: nat, key: T -> Option<real>)
    requires m <= |t| && SortedBy(t, key, false)
    ensures SortedBy(t[..m], key, false)
    ensures multiset(t[..m]) <= multiset(t)
    ensures forall i, y :: 0 <= i < m && y in multiset(t) - multiset(t[..m]) ==> Before(key(t[i]), key(y), false)
  {
    assert t == t[..m] + t[m..];
    assert multiset(t) == multiset(t[..m]) + multiset(t[m..]);
    forall i, y | 0 <= i < m && y in multiset(t[m..])
      ensures Before(key(t[i]), key(y), false)
    {
      var j :| 0 <= j < |t[m..]| && t[m..][j] == y;
      assert t[m + j] == y;
    }
  }
}
