/** The order of the catalog listing: products are sorted by their
    out-of-stock flag (in-stock first) and then by name, and the sort is
    stable, so products with equal keys keep their relative order. */
module Ordering {
  import opened Text
  import opened Products

  /** The composite key of the sort: the out-of-stock flag, where false
      sorts before true, then the name. */
  datatype SortKey = SortKey(outOfStock: bool, name: string)

  function KeyOf(p: Product): SortKey
  {
    SortKey(IsOutOfStock(p), p.name)
  }

  /** The key order: lexicographic on (flag, name). */
  predicate KeyLe(a: SortKey, b: SortKey)
  {
    || (!a.outOfStock && b.outOfStock)
    || (a.outOfStock == b.outOfStock && OrdinalLe(a.name, b.name))
  }

  /** `p` may come before `q` in a sorted listing. */
  predicate Precedes(p: Product, q: Product)
  {
    KeyLe(KeyOf(p), KeyOf(q))
  }

  lemma KeyLeReflexive(a: SortKey)
    ensures KeyLe(a, a)
  {
    OrdinalLeReflexive(a.name);
  }

  lemma KeyLeTransitive(a: SortKey, b: SortKey, c: SortKey)
    requires KeyLe(a, b) && KeyLe(b, c)
    ensures KeyLe(a, c)
  {
    if a.outOfStock == b.outOfStock == c.outOfStock {
      OrdinalLeTransitive(a.name, b.name, c.name);
    }
  }

  lemma KeyLeTotal(a: SortKey, b: SortKey)
    ensures KeyLe(a, b) || KeyLe(b, a)
  {
    OrdinalLeTotal(a.name, b.name);
  }

  /** Keys that precede each other both ways are the same key. */
  lemma KeyLeAntisymmetric(a: SortKey, b: SortKey)
    requires KeyLe(a, b) && KeyLe(b, a)
    ensures a == b
  {
    OrdinalLeAntisymmetric(a.name, b.name);
  }

  /** Every product precedes every later one. */
  ghost predicate Sorted(s: seq<Product>)
  {
    forall i, j :: 0 <= i < j < |s| ==> Precedes(s[i], s[j])
  }

  /** The products of `s` whose key is `k`, in their order in `s`. */
  function WithKey(s: seq<Product>, k: SortKey): seq<Product>
  {
    if s == [] then []
    else (if KeyOf(s[0]) == k then [s[0]] else []) + WithKey(s[1..], k)
  }

  /** `r` is a stable sort of `s`: sorted, a permutation of `s`, and for every
      key the products with that key appear in `r` in the order they have
      in `s`. */
  ghost predicate IsStableSortOf(r: seq<Product>, s: seq<Product>)
  {
    && Sorted(r)
    && multiset(r) == multiset(s)
    && forall k :: WithKey(r, k) == WithKey(s, k)
  }

  /** Places `x` before the first product it may precede. */
  function Insert(x: Product, t: seq<Product>): seq<Product>
  {
    if t == [] || Precedes(x, t[0]) then [x] + t
    else [t[0]] + Insert(x, t[1..])
  }

  /** Inserting adds `x` and loses nothing. */
  lemma {:induction false} InsertPermutes(x: Product, t: seq<Product>)
    ensures multiset(Insert(x, t)) == multiset{x} + multiset(t)
  {
    if t != [] && !Precedes(x, t[0]) {
      InsertPermutes(x, t[1..]);
      assert t == [t[0]] + t[1..];
    }
  }

  /** Prepending a product that precedes everything keeps a sequence sorted. */
  lemma SortedCons(x: Product, t: seq<Product>)
    requires Sorted(t)
    requires forall y :: y in t ==> Precedes(x, y)
    ensures Sorted([x] + t)
  {
    var s := [x] + t;
    forall i, j | 0 <= i < j < |s| ensures Precedes(s[i], s[j]) {
      if i == 0 {
        assert s[j] == t[j - 1];
      } else {
        assert s[i] == t[i - 1] && s[j] == t[j - 1];
      }
    }
  }

  lemma {:induction false} InsertKeepsSorted(x: Product, t: seq<Product>)
    requires Sorted(t)
    ensures Sorted(Insert(x, t))
  {
    if t == [] {
      SortedCons(x, t);
    } else if Precedes(x, t[0]) {
      forall y | y in t ensures Precedes(x, y) {
        var j :| 0 <= j < |t| && t[j] == y;
        if j > 0 {
          KeyLeTransitive(KeyOf(x), KeyOf(t[0]), KeyOf(y));
        }
      }
      SortedCons(x, t);
    } else {
      KeyLeTotal(KeyOf(x), KeyOf(t[0]));
      var rest := Insert(x, t[1..]);
      InsertKeepsSorted(x, t[1..]);
      InsertPermutes(x, t[1..]);
      forall y | y in rest ensures Precedes(t[0], y) {
        assert y in multiset(rest);
        if y != x {
          assert y in t[1..];
          var j :| 0 <= j < |t[1..]| && t[1..][j] == y;
          assert t[j + 1] == y;
        }
      }
      SortedCons(t[0], rest);
    }
  }

  /** The products with `x`'s key keep their order, with `x` first among
      them; the products with any other key are untouched. */
  lemma {:induction false} InsertWithKey(x: Product, t: seq<Product>, k: SortKey)
    ensures WithKey(Insert(x, t), k) == (if k == KeyOf(x) then [x] else []) + WithKey(t, k)
  {
    var r := Insert(x, t);
    if t == [] || Precedes(x, t[0]) {
      assert r[0] == x && r[1..] == t;
    } else {
      KeyLeReflexive(KeyOf(x));
      assert KeyOf(t[0]) != KeyOf(x);
      InsertWithKey(x, t[1..], k);
      assert r[0] == t[0] && r[1..] == Insert(x, t[1..]);
    }
  }

  /** Insertion sort, inserting each product in front of the already sorted
      later ones, which keeps equal keys in their original order. */
  function StableSort(s: seq<Product>): seq<Product>
  {
    if s == [] then [] else Insert(s[0], StableSort(s[1..]))
  }

  /** The insertion sort is a stable sort. */
  lemma {:induction false} StableSortIsStable(s: seq<Product>)
    ensures IsStableSortOf(StableSort(s), s)
  {
    if s != [] {
      var t := StableSort(s[1..]);
      StableSortIsStable(s[1..]);
      InsertKeepsSorted(s[0], t);
      InsertPermutes(s[0], t);
      forall k ensures WithKey(Insert(s[0], t), k) == WithKey(s, k) {
        InsertWithKey(s[0], t, k);
      }
      assert s == [s[0]] + s[1..];
    }
  }

  /** Two stable sorts of the same products start with the same product:
      both heads precede each other, so they share a key, and each is the
      first product with that key. */
  lemma StableSortsShareHead(r1: seq<Product>, r2: seq<Product>)
    requires r1 != [] && r2 != []
    requires Sorted(r1) && Sorted(r2)
    requires multiset(r1) == multiset(r2)
    requires forall k :: WithKey(r1, k) == WithKey(r2, k)
    ensures r1[0] == r2[0]
  {
    var x, y := r1[0], r2[0];
    assert x in multiset(r2) && y in multiset(r1);
    var i :| 0 <= i < |r2| && r2[i] == x;
    var j :| 0 <= j < |r1| && r1[j] == y;
    if i > 0 { assert Precedes(y, x); } else { KeyLeReflexive(KeyOf(x)); }
    if j > 0 { assert Precedes(x, y); } else { KeyLeReflexive(KeyOf(y)); }
    KeyLeAntisymmetric(KeyOf(x), KeyOf(y));
    assert WithKey(r1, KeyOf(x))[0] == x;
    assert WithKey(r2, KeyOf(x))[0] == y;
  }

  /** Removing the same head from two sequences keeps their subsequences
      for key `k` equal. */
  lemma WithKeyTail(r1: seq<Product>, r2: seq<Product>, k: SortKey)
    requires r1 != [] && r2 != [] && r1[0] == r2[0]
    requires WithKey(r1, k) == WithKey(r2, k)
    ensures WithKey(r1[1..], k) == WithKey(r2[1..], k)
  {
    if KeyOf(r1[0]) == k {
      assert WithKey(r1[1..], k) == WithKey(r1, k)[1..];
      assert WithKey(r2[1..], k) == WithKey(r2, k)[1..];
    } else {
      assert WithKey(r1, k) == [] + WithKey(r1[1..], k) == WithKey(r1[1..], k);
      assert WithKey(r2, k) == [] + WithKey(r2[1..], k) == WithKey(r2[1..], k);
    }
  }

  /** A stable sort is unique: two stable sorts of the same products are the
      same sequence, so any stable sort with this key order produces exactly
      what `StableSort` produces. */
  lemma {:induction false} StableSortIsUnique(r1: seq<Product>, r2: seq<Product>)
    requires Sorted(r1) && Sorted(r2)
    requires multiset(r1) == multiset(r2)
    requires forall k :: WithKey(r1, k) == WithKey(r2, k)
    ensures r1 == r2
  {
    if r1 == [] {
      assert |multiset(r2)| == 0;
    } else {
      assert |multiset(r2)| == |r1|;
      StableSortsShareHead(r1, r2);
      forall k ensures WithKey(r1[1..], k) == WithKey(r2[1..], k) {
        WithKeyTail(r1, r2, k);
      }
      assert r1 == [r1[0]] + r1[1..] && r2 == [r2[0]] + r2[1..];
      assert multiset(r1) == multiset{r1[0]} + multiset(r1[1..]);
      assert multiset(r2) == multiset{r2[0]} + multiset(r2[1..]);
      assert multiset(r1[1..]) == multiset(r1) - multiset{r1[0]};
      StableSortIsUnique(r1[1..], r2[1..]);
    }
  }
}
