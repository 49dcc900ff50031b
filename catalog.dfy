/** The catalog query: an optional case-insensitive search over name and
    description, an optional filter that hides out-of-stock products, and a
    stable sort that lists in-stock products first and orders by name. */
module Catalog {
  import opened Options
  import opened Text
  import opened Products
  import opened Ordering

  /** The sequence filter: the products that `keep` accepts, in order. */
  function Where(s: seq<Product>, keep: Product -> bool): (r: seq<Product>)
    ensures |r| <= |s|
  {
    if s == [] then []
    else (if keep(s[0]) then [s[0]] else []) + Where(s[1..], keep)
  }

  /** The filter keeps every accepted product as often as it occurs, and
      nothing else. */
  lemma {:induction false} WhereCounts(s: seq<Product>, keep: Product -> bool)
    ensures forall p :: multiset(Where(s, keep))[p] == if keep(p) then multiset(s)[p] else 0
  {
    if s != [] {
      WhereCounts(s[1..], keep);
      assert s == [s[0]] + s[1..];
    }
  }

  /** Filters that accept the same products select the same subsequence. */
  lemma {:induction false} WhereExtensional(s: seq<Product>, f: Product -> bool, g: Product -> bool)
    requires forall p :: f(p) == g(p)
    ensures Where(s, f) == Where(s, g)
  {
    if s != [] {
      WhereExtensional(s[1..], f, g);
    }
  }

  /** Filtering twice is filtering once by the conjunction. */
  lemma {:induction false} WhereWhere(s: seq<Product>, f: Product -> bool, g: Product -> bool, h: Product -> bool)
    requires forall p :: h(p) == (f(p) && g(p))
    ensures Where(Where(s, f), g) == Where(s, h)
  {
    if s != [] {
      var rest := Where(s[1..], f);
      WhereWhere(s[1..], f, g, h);
      if f(s[0]) {
        var w := [s[0]] + rest;
        assert Where(s, f) == w;
        assert w[0] == s[0] && w[1..] == rest;
        assert Where(w, g) == (if g(s[0]) then [s[0]] else []) + Where(rest, g);
      } else {
        assert Where(s, f) == rest;
      }
      assert Where(s, h) == (if h(s[0]) then [s[0]] else []) + Where(s[1..], h);
    }
  }

  /** A filter that accepts everything keeps the sequence as it is. */
  lemma {:induction false} WhereAll(s: seq<Product>, f: Product -> bool)
    requires forall p :: f(p)
    ensures Where(s, f) == s
  {
    if s != [] {
      WhereAll(s[1..], f);
    }
  }

  /** A filter that accepts fewer products selects no more of them. */
  lemma {:induction false} WhereMonotone(s: seq<Product>, f: Product -> bool, g: Product -> bool)
    requires forall p :: f(p) ==> g(p)
    ensures |Where(s, f)| <= |Where(s, g)|
  {
    if s != [] {
      WhereMonotone(s[1..], f, g);
    }
  }

  /** The search predicate: the term occurs in the name or in the
      description, ignoring case. */
  predicate MatchesSearch(p: Product, term: string)
  {
    ContainsIgnoreCase(p.name, term) || ContainsIgnoreCase(p.description, term)
  }

  /** The products a query keeps: those passing the search filter when the
      term is not blank, and the stock filter when out-of-stock products
      are hidden. */
  predicate Selected(p: Product, searchTerm: Option<string>, hideOutOfStock: bool)
  {
    && (IsNullOrWhiteSpace(searchTerm) || MatchesSearch(p, searchTerm.value))
    && (hideOutOfStock ==> !IsOutOfStock(p))
  }

  /** The filter stage of the query: the search filter, skipped for a blank
      term, then the stock filter, applied only when asked for. Each branch
      carries the proof that its filters together keep exactly the selected
      products, in catalog order. */
  function Filtered(catalog: seq<Product>, searchTerm: Option<string>, hideOutOfStock: bool): (r: seq<Product>)
    ensures r == Where(catalog, p => Selected(p, searchTerm, hideOutOfStock))
  {
    var selected := p => Selected(p, searchTerm, hideOutOfStock);
    var inStock := p => !IsOutOfStock(p);
    if IsNullOrWhiteSpace(searchTerm) then
      if hideOutOfStock then
        WhereExtensional(catalog, inStock, selected);
        Where(catalog, inStock)
      else
        WhereAll(catalog, selected);
        catalog
    else
      var term := searchTerm.value;
      var search := p => MatchesSearch(p, term);
      if hideOutOfStock then
        WhereWhere(catalog, search, inStock, selected);
        Where(Where(catalog, search), inStock)
      else
        WhereExtensional(catalog, search, selected);
        Where(catalog, search)
  }

  /** The catalog query: filter, then sort in-stock products first and by
      name, stably, and return the result as a new list. */
  function GetProducts(catalog: seq<Product>, searchTerm: Option<string>, hideOutOfStock: bool): (r: seq<Product>)
    ensures IsStableSortOf(r, Where(catalog, p => Selected(p, searchTerm, hideOutOfStock)))
  {
    StableSortIsStable(Filtered(catalog, searchTerm, hideOutOfStock));
    StableSort(Filtered(catalog, searchTerm, hideOutOfStock))
  }

  /** Every product returned comes from the catalog, and no more often than
      the catalog holds it, so the list is never longer than the catalog. */
  lemma ResultComesFromCatalog(catalog: seq<Product>, searchTerm: Option<string>, hideOutOfStock: bool)
    ensures forall p :: multiset(GetProducts(catalog, searchTerm, hideOutOfStock))[p] <= multiset(catalog)[p]
    ensures forall p :: p in GetProducts(catalog, searchTerm, hideOutOfStock) ==> p in catalog
    ensures |GetProducts(catalog, searchTerm, hideOutOfStock)| <= |catalog|
  {
    var r := GetProducts(catalog, searchTerm, hideOutOfStock);
    var w := Where(catalog, p => Selected(p, searchTerm, hideOutOfStock));
    WhereCounts(catalog, p => Selected(p, searchTerm, hideOutOfStock));
    assert |r| == |multiset(r)| == |multiset(w)| == |w|;
    forall p | p in r ensures p in catalog {
      assert multiset(r)[p] > 0;
    }
  }

  /** Soundness and completeness of the filters: a product is returned
      exactly when it is in the catalog and passes both active filters, and
      it is returned as often as the catalog holds it. */
  lemma ResultIsExactlyTheSelection(catalog: seq<Product>, searchTerm: Option<string>, hideOutOfStock: bool)
    ensures forall p :: multiset(GetProducts(catalog, searchTerm, hideOutOfStock))[p]
                     == if Selected(p, searchTerm, hideOutOfStock) then multiset(catalog)[p] else 0
    ensures forall p :: p in GetProducts(catalog, searchTerm, hideOutOfStock)
                     <==> p in catalog && Selected(p, searchTerm, hideOutOfStock)
  {
    var r := GetProducts(catalog, searchTerm, hideOutOfStock);
    WhereCounts(catalog, p => Selected(p, searchTerm, hideOutOfStock));
    forall p ensures p in r <==> p in catalog && Selected(p, searchTerm, hideOutOfStock) {
      assert p in r <==> multiset(r)[p] > 0;
      assert p in catalog <==> multiset(catalog)[p] > 0;
    }
  }

  /** A missing, empty or all-white-space term filters nothing: without the
      stock filter the result is a reordering of the whole catalog. */
  lemma BlankTermListsWholeCatalog(catalog: seq<Product>, searchTerm: Option<string>)
    requires IsNullOrWhiteSpace(searchTerm)
    ensures multiset(GetProducts(catalog, searchTerm, false)) == multiset(catalog)
  {
    WhereAll(catalog, p => Selected(p, searchTerm, false));
  }

  /** Every blank term gives the same listing as no term at all. */
  lemma BlankTermsAreNoTerm(catalog: seq<Product>, searchTerm: Option<string>, hideOutOfStock: bool)
    requires IsNullOrWhiteSpace(searchTerm)
    ensures GetProducts(catalog, searchTerm, hideOutOfStock) == GetProducts(catalog, None, hideOutOfStock)
  {
  }

  /** With a term that is not blank, every product returned contains the
      term, ignoring case, in its name or in its description. */
  lemma SearchResultsContainTerm(catalog: seq<Product>, term: string, hideOutOfStock: bool)
    requires !IsNullOrWhiteSpace(Some(term))
    ensures forall p :: p in GetProducts(catalog, Some(term), hideOutOfStock) ==>
      OccursIgnoreCase(p.name, term) || OccursIgnoreCase(p.description, term)
  {
    ResultIsExactlyTheSelection(catalog, Some(term), hideOutOfStock);
  }

  /** When out-of-stock products are hidden, none is returned. */
  lemma HiddenOutOfStockIsExcluded(catalog: seq<Product>, searchTerm: Option<string>)
    ensures forall p :: p in GetProducts(catalog, searchTerm, true) ==> !IsOutOfStock(p)
  {
    ResultIsExactlyTheSelection(catalog, searchTerm, true);
  }

  /** Hiding out-of-stock products never lengthens the result for the same
      term. */
  lemma HidingNeverLengthens(catalog: seq<Product>, searchTerm: Option<string>)
    ensures |GetProducts(catalog, searchTerm, true)| <= |GetProducts(catalog, searchTerm, false)|
  {
    var hidden, shown := GetProducts(catalog, searchTerm, true), GetProducts(catalog, searchTerm, false);
    var f, g := p => Selected(p, searchTerm, true), p => Selected(p, searchTerm, false);
    WhereMonotone(catalog, f, g);
    assert |hidden| == |multiset(hidden)| == |multiset(Where(catalog, f))| == |Where(catalog, f)|;
    assert |shown| == |multiset(shown)| == |multiset(Where(catalog, g))| == |Where(catalog, g)|;
  }

  /** Every in-stock product is listed before every out-of-stock product. */
  lemma InStockListedFirst(catalog: seq<Product>, searchTerm: Option<string>, hideOutOfStock: bool)
    ensures var r := GetProducts(catalog, searchTerm, hideOutOfStock);
      forall i, j :: 0 <= i < j < |r| && IsOutOfStock(r[i]) ==> IsOutOfStock(r[j])
  {
  }

  /** Within the in-stock group and within the out-of-stock group, names
      never decrease. */
  lemma NamesAscendWithinStockGroup(catalog: seq<Product>, searchTerm: Option<string>, hideOutOfStock: bool)
    ensures var r := GetProducts(catalog, searchTerm, hideOutOfStock);
      forall i, j :: 0 <= i < j < |r| && IsOutOfStock(r[i]) == IsOutOfStock(r[j]) ==>
        OrdinalLe(r[i].name, r[j].name)
  {
  }

  lemma WithKeyCons(x: Product, t: seq<Product>, k: SortKey)
    ensures WithKey([x] + t, k) == (if KeyOf(x) == k then [x] else []) + WithKey(t, k)
  {
    assert ([x] + t)[1..] == t;
  }

  lemma WhereCons(x: Product, t: seq<Product>, f: Product -> bool)
    ensures Where([x] + t, f) == (if f(x) then [x] else []) + Where(t, f)
  {
    assert ([x] + t)[1..] == t;
  }

  /** Selecting commutes with picking out one key. */
  lemma {:induction false} WithKeyOfWhere(s: seq<Product>, f: Product -> bool, k: SortKey)
    ensures WithKey(Where(s, f), k) == Where(WithKey(s, k), f)
  {
    if s != [] {
      var x, t := s[0], s[1..];
      assert s == [x] + t;
      WithKeyOfWhere(t, f, k);
      WhereCons(x, t, f);
      WithKeyCons(x, t, k);
      if f(x) {
        WithKeyCons(x, Where(t, f), k);
      } else {
        assert Where(s, f) == Where(t, f);
      }
      if KeyOf(x) == k {
        WhereCons(x, WithKey(t, k), f);
      } else {
        assert WithKey(s, k) == WithKey(t, k);
      }
    }
  }

  /** The sort is stable: products with the same stock flag and the same
      name are listed in catalog order, and they are exactly the selected
      catalog products with that flag and name. */
  lemma EqualKeysKeepCatalogOrder(catalog: seq<Product>, searchTerm: Option<string>, hideOutOfStock: bool, k: SortKey)
    ensures WithKey(GetProducts(catalog, searchTerm, hideOutOfStock), k)
         == Where(WithKey(catalog, k), p => Selected(p, searchTerm, hideOutOfStock))
  {
    WithKeyOfWhere(catalog, p => Selected(p, searchTerm, hideOutOfStock), k);
  }

  /** Any stable sort of the selected products by the same keys yields
      exactly the list the query returns. */
  lemma AnyStableSortGivesTheResult(catalog: seq<Product>, searchTerm: Option<string>, hideOutOfStock: bool, r: seq<Product>)
    requires IsStableSortOf(r, Where(catalog, p => Selected(p, searchTerm, hideOutOfStock)))
    ensures r == GetProducts(catalog, searchTerm, hideOutOfStock)
  {
    StableSortIsUnique(r, GetProducts(catalog, searchTerm, hideOutOfStock));
  }
}
