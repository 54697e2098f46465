/** Stable sorting by a key, keys being compared lexicographically. One order
    serves code-unit strings, times, and (time, id) pairs. */
module Sorting {

  predicate LexLe(a: seq<int>, b: seq<int>) {
    a == [] || (b != [] && (a[0] < b[0] || (a[0] == b[0] && LexLe(a[1..], b[1..]))))
  }

  lemma {:induction false} LexTotal(a: seq<int>, b: seq<int>)
    ensures LexLe(a, b) || LexLe(b, a)
    ensures LexLe(a, b) && LexLe(b, a) ==> a == b
  {
    if a != [] && b != [] {
      LexTotal(a[1..], b[1..]);
      assert a == [a[0]] + a[1..] && b == [b[0]] + b[1..];
    }
  }

  lemma {:induction false} LexTransitive(a: seq<int>, b: seq<int>, c: seq<int>)
    requires LexLe(a, b) && LexLe(b, c)
    ensures LexLe(a, c)
  {
    if a != [] && b != [] && c != [] && a[0] == b[0] == c[0] {
      LexTransitive(a[1..], b[1..], c[1..]);
    }
  }

  predicate Sorted<T>(xs: seq<T>, key: T -> seq<int>) {
    forall i, j | 0 <= i < j < |xs| :: LexLe(key(xs[i]), key(xs[j]))
  }

  predicate DistinctKeys<T>(xs: seq<T>, key: T -> seq<int>) {
    forall i, j | 0 <= i < j < |xs| :: key(xs[i]) != key(xs[j])
  }

  function Insert<T>(x: T, xs: seq<T>, key: T -> seq<int>): (r: seq<T>)
    ensures |r| == |xs| + 1
    ensures multiset(r) == multiset{x} + multiset(xs)
  {
    if xs == [] then [x]
    else if LexLe(key(x), key(xs[0])) then [x] + xs
    else assert xs == [xs[0]] + xs[1..]; [xs[0]] + Insert(x, xs[1..], key)
  }

  /** Insertion from the right keeps equal keys in their original order. */
  function Sort<T>(xs: seq<T>, key: T -> seq<int>): (r: seq<T>)
    ensures |r| == |xs|
    ensures multiset(r) == multiset(xs)
  {
    if xs == [] then [] else assert xs == [xs[0]] + xs[1..]; Insert(xs[0], Sort(xs[1..], key), key)
  }

  lemma InSort<T>(xs: seq<T>, key: T -> seq<int>)
    ensures forall x :: x in Sort(xs, key) <==> x in xs
  {
    var r := Sort(xs, key);
    forall x ensures x in r <==> x in xs {
      assert x in r <==> x in multiset(r);
      assert x in xs <==> x in multiset(xs);
    }
  }

  lemma FirstBelow<T>(x: T, xs: seq<T>, key: T -> seq<int>)
    requires Sorted(xs, key) && xs != [] && LexLe(key(x), key(xs[0]))
    ensures Sorted([x] + xs, key)
  {
    var r := [x] + xs;
    forall i, j | 0 <= i < j < |r| ensures LexLe(key(r[i]), key(r[j])) {
      if i == 0 && j > 1 {
        LexTransitive(key(x), key(xs[0]), key(xs[j - 1]));
      } else if i > 0 {
        assert r[i] == xs[i - 1] && r[j] == xs[j - 1];
      }
    }
  }

  lemma TailSorted<T>(x: T, t: seq<T>, key: T -> seq<int>)
    requires Sorted([x] + t, key)
    ensures Sorted(t, key) && forall y | y in t :: LexLe(key(x), key(y))
  {
    var r := [x] + t;
    forall i, j | 0 <= i < j < |t| ensures LexLe(key(t[i]), key(t[j])) {
      assert r[i + 1] == t[i] && r[j + 1] == t[j];
    }
    forall y | y in t ensures LexLe(key(x), key(y)) {
      var k :| 0 <= k < |t| && t[k] == y;
      assert r[0] == x && r[k + 1] == y;
    }
  }

  lemma BelowAll<T>(x: T, t: seq<T>, key: T -> seq<int>)
    requires Sorted(t, key) && forall y | y in t :: LexLe(key(x), key(y))
    ensures Sorted([x] + t, key)
  {
    var r := [x] + t;
    forall i, j | 0 <= i < j < |r| ensures LexLe(key(r[i]), key(r[j])) {
      assert r[j] == t[j - 1] && t[j - 1] in t;
      if i > 0 { assert r[i] == t[i - 1]; }
    }
  }

  lemma InInsert<T>(x: T, xs: seq<T>, r: seq<T>, y: T)
    requires multiset(r) == multiset{x} + multiset(xs)
    ensures y in r <==> y == x || y in xs
  {
    assert y in r <==> y in multiset(r);
    assert y in xs <==> y in multiset(xs);
  }

  lemma {:induction false} InsertSorted<T>(x: T, xs: seq<T>, key: T -> seq<int>)
    requires Sorted(xs, key)
    ensures Sorted(Insert(x, xs, key), key)
  {
    if xs != [] {
      LexTotal(key(x), key(xs[0]));
      if LexLe(key(x), key(xs[0])) {
        FirstBelow(x, xs, key);
      } else {
        var head, tail := xs[0], xs[1..];
        assert xs == [head] + tail;
        TailSorted(head, tail, key);
        InsertSorted(x, tail, key);
        var t := Insert(x, tail, key);
        forall y | y in t ensures LexLe(key(head), key(y)) {
          InInsert(x, tail, t, y);
        }
        BelowAll(head, t, key);
      }
    }
  }

  lemma {:induction false} SortSorted<T>(xs: seq<T>, key: T -> seq<int>)
    ensures Sorted(Sort(xs, key), key)
  {
    if xs != [] {
      SortSorted(xs[1..], key);
      InsertSorted(xs[0], Sort(xs[1..], key), key);
    }
  }

  /** Two sorted arrangements of the same elements are the same list, provided
      an element is determined by its key. */
  lemma {:induction false} SortedUnique<T>(xs: seq<T>, ys: seq<T>, key: T -> seq<int>)
    requires Sorted(xs, key) && Sorted(ys, key)
    requires multiset(xs) == multiset(ys)
    requires forall x, y | x in xs && y in xs && key(x) == key(y) :: x == y
    ensures xs == ys
    decreases |xs|
  {
    assert |xs| == |multiset(xs)| == |multiset(ys)| == |ys|;
    if xs != [] {
      var x, y := xs[0], ys[0];
      assert key(x) == key(y) && x == y by {
        assert y in multiset(xs) && x in multiset(ys);
        var i :| 0 <= i < |xs| && xs[i] == y;
        var j :| 0 <= j < |ys| && ys[j] == x;
        assert i > 0 ==> LexLe(key(x), key(y));
        assert j > 0 ==> LexLe(key(y), key(x));
        LexTotal(key(x), key(y));
      }
      TailMultiset(xs);
      TailMultiset(ys);
      SortedUnique(xs[1..], ys[1..], key);
    }
  }

  lemma TailMultiset<T>(xs: seq<T>)
    requires xs != []
    ensures multiset(xs[1..]) == multiset(xs) - multiset{xs[0]}
  {
    assert xs == [xs[0]] + xs[1..];
  }

  /** The order in which the elements arrive does not matter. */
  lemma SortOrderIrrelevant<T>(xs: seq<T>, ys: seq<T>, key: T -> seq<int>)
    requires multiset(xs) == multiset(ys)
    requires forall x, y | x in xs && y in xs && key(x) == key(y) :: x == y
    ensures Sort(xs, key) == Sort(ys, key)
  {
    var a, b := Sort(xs, key), Sort(ys, key);
    SortSorted(xs, key);
    SortSorted(ys, key);
    forall x, y | x in a && y in a && key(x) == key(y) ensures x == y {
      assert x in multiset(a) && y in multiset(a);
      assert x in multiset(xs) && y in multiset(xs);
    }
    SortedUnique(a, b, key);
  }

  lemma {:induction false} DistinctCount<T>(xs: seq<T>, key: T -> seq<int>, x: T)
    requires DistinctKeys(xs, key)
    ensures multiset(xs)[x] == if x in xs then 1 else 0
  {
    if xs != [] {
      assert xs == [xs[0]] + xs[1..];
      DistinctCount(xs[1..], key, x);
    }
  }

  /** Lists with distinct keys and the same elements are permutations. */
  lemma DistinctPermutation<T>(xs: seq<T>, ys: seq<T>, key: T -> seq<int>)
    requires DistinctKeys(xs, key) && DistinctKeys(ys, key)
    requires forall x :: x in xs <==> x in ys
    ensures multiset(xs) == multiset(ys)
  {
    forall x ensures multiset(xs)[x] == multiset(ys)[x] {
      DistinctCount(xs, key, x);
      DistinctCount(ys, key, x);
    }
  }

  lemma DistinctDetermines<T>(xs: seq<T>, key: T -> seq<int>)
    requires DistinctKeys(xs, key)
    ensures forall x, y | x in xs && y in xs && key(x) == key(y) :: x == y
  {
  }

  lemma {:induction false} DistinctAfterPermutation<T>(xs: seq<T>, ys: seq<T>, key: T -> seq<int>)
    requires DistinctKeys(xs, key) && multiset(xs) == multiset(ys)
    ensures DistinctKeys(ys, key)
  {
    forall i, j | 0 <= i < j < |ys| ensures key(ys[i]) != key(ys[j]) {
      var a, b := ys[i], ys[j];
      assert a in multiset(ys) && b in multiset(ys);
      if key(a) == key(b) {
        assert a in multiset(xs) && b in multiset(xs);
        DistinctDetermines(xs, key);
        assert ys == ys[..j] + [ys[j]] + ys[j + 1..];
        assert multiset(ys) == multiset(ys[..j]) + multiset{b} + multiset(ys[j + 1..]);
        assert ys[..j][i] == a && a in multiset(ys[..j]);
        DistinctCount(xs, key, a);
      }
    }
  }

  function Map<T, U>(xs: seq<T>, f: T -> U): (r: seq<U>)
    ensures |r| == |xs|
    ensures forall i | 0 <= i < |xs| :: r[i] == f(xs[i])
  {
    seq(|xs|, i requires 0 <= i < |xs| => f(xs[i]))
  }

  lemma MapCons<T, U>(x: T, xs: seq<T>, f: T -> U)
    ensures Map([x] + xs, f) == [f(x)] + Map(xs, f)
  {
  }

  lemma {:induction false} InsertMap<T, U>(x: T, xs: seq<T>, f: T -> U, key: T -> seq<int>, key': U -> seq<int>)
    requires key'(f(x)) == key(x) && forall y | y in xs :: key'(f(y)) == key(y)
    ensures Insert(f(x), Map(xs, f), key') == Map(Insert(x, xs, key), f)
  {
    var ys := Map(xs, f);
    if xs == [] {
    } else if LexLe(key(x), key(xs[0])) {
      MapCons(x, xs, f);
    } else {
      var tail := xs[1..];
      assert ys[0] == f(xs[0]) && ys[1..] == Map(tail, f);
      assert key'(f(xs[0])) == key(xs[0]) && forall y | y in tail :: y in xs;
      InsertMap(x, tail, f, key, key');
      MapCons(xs[0], Insert(x, tail, key), f);
    }
  }

  /** Sorting commutes with a change of the elements that keeps their keys. */
  lemma {:induction false} SortMap<T, U>(xs: seq<T>, f: T -> U, key: T -> seq<int>, key': U -> seq<int>)
    requires forall y | y in xs :: key'(f(y)) == key(y)
    ensures Sort(Map(xs, f), key') == Map(Sort(xs, key), f)
  {
    if xs != [] {
      var tail := xs[1..];
      var sorted := Sort(tail, key);
      forall y | y in tail ensures key'(f(y)) == key(y) {
        assert y in xs;
      }
      SortMap(tail, f, key, key');
      forall y | y in sorted ensures key'(f(y)) == key(y) {
        assert y in multiset(sorted) && y in multiset(tail);
      }
      InsertMap(xs[0], sorted, f, key, key');
      var ms := Map(xs, f);
      assert ms[0] == f(xs[0]) && ms[1..] == Map(tail, f);
      assert Sort(ms, key') == Insert(ms[0], Sort(ms[1..], key'), key');
    } else {
      assert Map(xs, f) == [];
    }
  }

  // ----- the order and its ties -----

  /** a comes strictly before b: it is a proper prefix, or smaller where they first
      differ. */
  predicate Before(a: seq<int>, b: seq<int>) {
    exists k :: 0 <= k <= |a| && k <= |b| && a[..k] == b[..k]
             && ((k == |a| && k < |b|) || (k < |a| && k < |b| && a[k] < b[k]))
  }

  lemma BeforeAt(a: seq<int>, b: seq<int>, k: nat)
    requires k <= |a| && k <= |b| && a[..k] == b[..k]
    requires (k == |a| && k < |b|) || (k < |a| && k < |b| && a[k] < b[k])
    ensures Before(a, b)
  {
  }

  lemma BeforeConses(a: seq<int>, b: seq<int>)
    requires a != [] && b != [] && a[0] == b[0] && Before(a[1..], b[1..])
    ensures Before(a, b)
  {
    var x, y := a[1..], b[1..];
    var k: nat :| k <= |x| && k <= |y| && x[..k] == y[..k] && ((k == |x| && k < |y|) || (k < |x| && k < |y| && x[k] < y[k]));
    assert a[..k + 1] == [a[0]] + x[..k] && b[..k + 1] == [b[0]] + y[..k];
    BeforeAt(a, b, k + 1);
  }

  lemma BeforeTails(a: seq<int>, b: seq<int>)
    requires a != [] && b != [] && Before(a, b)
    ensures a[0] < b[0] || (a[0] == b[0] && Before(a[1..], b[1..]))
  {
    var k: nat :| k <= |a| && k <= |b| && a[..k] == b[..k] && ((k == |a| && k < |b|) || (k < |a| && k < |b| && a[k] < b[k]));
    if k > 0 {
      assert a[0] == a[..k][0] == b[..k][0] == b[0];
      assert a[1..][..k - 1] == a[..k][1..] && b[1..][..k - 1] == b[..k][1..];
      BeforeAt(a[1..], b[1..], k - 1);
    }
  }

  lemma {:induction false} LexIsBefore(a: seq<int>, b: seq<int>)
    ensures LexLe(a, b) <==> a == b || Before(a, b)
  {
    if a == [] {
      if b != [] { BeforeAt(a, b, 0); }
    } else if b != [] {
      assert a == [a[0]] + a[1..] && b == [b[0]] + b[1..];
      LexIsBefore(a[1..], b[1..]);
      if a[0] < b[0] { BeforeAt(a, b, 0); }
      if a[0] == b[0] && Before(a[1..], b[1..]) { BeforeConses(a, b); }
      if Before(a, b) { BeforeTails(a, b); }
    }
  }

  /** The elements with this key, in the order they have. */
  function Among<T>(xs: seq<T>, key: T -> seq<int>, k: seq<int>): seq<T> {
    if xs == [] then [] else (if key(xs[0]) == k then [xs[0]] else []) + Among(xs[1..], key, k)
  }

  lemma AmongCons<T>(x: T, xs: seq<T>, r: seq<T>, key: T -> seq<int>, k: seq<int>)
    requires r == [x] + xs
    ensures Among(r, key, k) == (if key(x) == k then [x] else []) + Among(xs, key, k)
  {
    assert r[0] == x && r[1..] == xs;
  }

  lemma SwapApart<T>(x: T, y: T, kx: seq<int>, ky: seq<int>, k: seq<int>, rest: seq<T>)
    requires kx != ky
    ensures (if ky == k then [y] else []) + ((if kx == k then [x] else []) + rest)
         == (if kx == k then [x] else []) + ((if ky == k then [y] else []) + rest)
  {
  }

  lemma {:induction false} InsertStable<T>(x: T, xs: seq<T>, key: T -> seq<int>, k: seq<int>)
    ensures Among(Insert(x, xs, key), key, k) == (if key(x) == k then [x] else []) + Among(xs, key, k)
  {
    var r := Insert(x, xs, key);
    if xs == [] || LexLe(key(x), key(xs[0])) {
      AmongCons(x, xs, r, key, k);
    } else {
      var head, tail := xs[0], xs[1..];
      InsertStable(x, tail, key, k);
      LexTotal(key(x), key(head));
      AmongCons(head, Insert(x, tail, key), r, key, k);
      SwapApart(x, head, key(x), key(head), k, Among(tail, key, k));
    }
  }

  /** Elements of equal key stay in the order in which they came. */
  lemma {:induction false} SortStable<T>(xs: seq<T>, key: T -> seq<int>, k: seq<int>)
    ensures Among(Sort(xs, key), key, k) == Among(xs, key, k)
  {
    if xs != [] {
      SortStable(xs[1..], key, k);
      InsertStable(xs[0], Sort(xs[1..], key), key, k);
    }
  }
}
