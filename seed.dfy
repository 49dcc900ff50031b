/** The controller's in-memory seed catalog and the listings the query
    produces on it. The scenario proofs go one step at a time over products
    given as parameters, which keeps each proof obligation small. */
module Seed {
  import opened Options
  import opened Text
  import opened Products
  import opened Ordering
  import opened Catalog

  /** The in-memory catalog the controller serves; it is never written. */
  const SeedProducts: seq<Product> := [Seed1, Seed2, Seed3, Seed4, Seed5]

  const Seed1 := Product(1, "Product 1", "Description 1", 10.99, 5, "/images/product1.jpg")
  const Seed2 := Product(2, "Product 2", "Description 2", 20.99, 0, "/images/product2.jpg")
  const Seed3 := Product(3, "Product 3", "Description 3", 30.99, 10, "/images/product3.jpg")
  const Seed4 := Product(4, "Product 4", "Description 4", 40.99, 0, "/images/product4.jpg")
  const Seed5 := Product(5, "Product 5", "Description 5", 50.99, 3, "/images/product5.jpg")

  /** The ids of a list of products, in order. */
  function Ids(s: seq<Product>): (r: seq<int>)
    ensures |r| == |s| && forall i :: 0 <= i < |s| ==> r[i] == s[i].id
  {
    seq(|s|, i requires 0 <= i < |s| => s[i].id)
  }

  /** On the seed catalog the default query lists the in-stock products 1, 3
      and 5 by name, then the out-of-stock products 2 and 4. */
  lemma DefaultQueryOnSeed()
    ensures Ids(GetProducts(SeedProducts, Some(""), false)) == [1, 3, 5, 2, 4]
  {
    DefaultListing();
    DefaultIds();
  }

  /** With out-of-stock products hidden, the seed query lists only 1, 3 and
      5, by name. */
  lemma HideOutOfStockOnSeed()
    ensures Ids(GetProducts(SeedProducts, Some(""), true)) == [1, 3, 5]
  {
    HiddenListing();
    HiddenIds();
  }

  /** Searching the seed catalog for "Product 1" returns exactly product 1. */
  lemma SearchOnSeed()
    ensures Ids(GetProducts(SeedProducts, Some("Product 1"), false)) == [1]
  {
    SearchListing();
    assert Ids([Seed1]) == [1];
  }

  // The default query.

  lemma DefaultIds()
    ensures Ids([Seed1, Seed3, Seed5, Seed2, Seed4]) == [1, 3, 5, 2, 4]
  {
  }

  lemma DefaultListing()
    ensures GetProducts(SeedProducts, Some(""), false) == [Seed1, Seed3, Seed5, Seed2, Seed4]
  {
    assert Filtered(SeedProducts, Some(""), false) == SeedProducts;
    FirstNameBeforeThird();
    ThirdNameBeforeFifth();
    SecondNameBeforeFourth();
    SortLastTwo(Seed4, Seed5);
    SortLastThree(Seed3, Seed4, Seed5);
    SortLastFour(Seed2, Seed3, Seed4, Seed5);
    SortAllFive(Seed1, Seed2, Seed3, Seed4, Seed5);
  }

  /* The seed names in the order the listings need them. */

  lemma FirstNameBeforeThird()
    ensures OrdinalLe(Seed1.name, Seed3.name)
  {
    NumberedNamesOrdered(Seed1, Seed3, '1', '3');
  }

  lemma ThirdNameBeforeFifth()
    ensures OrdinalLe(Seed3.name, Seed5.name)
  {
    NumberedNamesOrdered(Seed3, Seed5, '3', '5');
  }

  lemma SecondNameBeforeFourth()
    ensures OrdinalLe(Seed2.name, Seed4.name)
  {
    NumberedNamesOrdered(Seed2, Seed4, '2', '4');
  }

  /** Names "Product d" are ordered by their digit. */
  lemma NumberedNamesOrdered(p: Product, q: Product, a: char, b: char)
    requires a <= b
    requires p.name == "Product " + [a] && q.name == "Product " + [b]
    ensures OrdinalLe(p.name, q.name)
  {
    assert OrdinalLe([a], [b]);
    OrdinalLeCommonPrefix("Product ", [a], [b]);
  }

  /** One step of the insertion sort. */
  lemma StableSortCons(x: Product, t: seq<Product>)
    ensures StableSort([x] + t) == Insert(x, StableSort(t))
  {
    assert ([x] + t)[1..] == t;
  }

  /** One step of an insertion that goes past the first product. */
  lemma InsertPast(x: Product, y: Product, t: seq<Product>)
    requires !Precedes(x, y)
    ensures Insert(x, [y] + t) == [y] + Insert(x, t)
  {
    assert ([y] + t)[1..] == t;
  }

  lemma SortLastTwo(p4: Product, p5: Product)
    requires IsOutOfStock(p4) && !IsOutOfStock(p5)
    ensures StableSort([p4, p5]) == [p5, p4]
  {
    StableSortCons(p5, []);
    StableSortCons(p4, [p5]);
    InsertPast(p4, p5, []);
  }

  lemma SortLastThree(p3: Product, p4: Product, p5: Product)
    requires !IsOutOfStock(p3) && IsOutOfStock(p4) && !IsOutOfStock(p5)
    requires OrdinalLe(p3.name, p5.name)
    requires StableSort([p4, p5]) == [p5, p4]
    ensures StableSort([p3, p4, p5]) == [p3, p5, p4]
  {
    StableSortCons(p3, [p4, p5]);
    assert Insert(p3, [p5, p4]) == [p3, p5, p4];
  }

  lemma SortLastFour(p2: Product, p3: Product, p4: Product, p5: Product)
    requires IsOutOfStock(p2) && !IsOutOfStock(p3) && IsOutOfStock(p4) && !IsOutOfStock(p5)
    requires OrdinalLe(p2.name, p4.name)
    requires StableSort([p3, p4, p5]) == [p3, p5, p4]
    ensures StableSort([p2, p3, p4, p5]) == [p3, p5, p2, p4]
  {
    StableSortCons(p2, [p3, p4, p5]);
    assert Insert(p2, [p4]) == [p2, p4];
    InsertPast(p2, p5, [p4]);
    InsertPast(p2, p3, [p5, p4]);
  }

  lemma SortAllFive(p1: Product, p2: Product, p3: Product, p4: Product, p5: Product)
    requires !IsOutOfStock(p1) && !IsOutOfStock(p3)
    requires OrdinalLe(p1.name, p3.name)
    requires StableSort([p2, p3, p4, p5]) == [p3, p5, p2, p4]
    ensures StableSort([p1, p2, p3, p4, p5]) == [p1, p3, p5, p2, p4]
  {
    StableSortCons(p1, [p2, p3, p4, p5]);
    assert Insert(p1, [p3, p5, p2, p4]) == [p1, p3, p5, p2, p4];
  }

  // The query that hides out-of-stock products.

  lemma HiddenIds()
    ensures Ids([Seed1, Seed3, Seed5]) == [1, 3, 5]
  {
  }

  lemma HiddenListing()
    ensures GetProducts(SeedProducts, Some(""), true) == [Seed1, Seed3, Seed5]
  {
    HiddenFilter();
    FirstNameBeforeThird();
    ThirdNameBeforeFifth();
    SortInStockThree(Seed1, Seed3, Seed5);
  }

  lemma HiddenFilter()
    ensures Filtered(SeedProducts, Some(""), true) == [Seed1, Seed3, Seed5]
  {
    var inStock := p => !IsOutOfStock(p);
    WhereCons(Seed5, [], inStock);
    WhereCons(Seed4, [Seed5], inStock);
    WhereCons(Seed3, [Seed4, Seed5], inStock);
    WhereCons(Seed2, [Seed3, Seed4, Seed5], inStock);
    WhereCons(Seed1, [Seed2, Seed3, Seed4, Seed5], inStock);
  }

  lemma SortInStockThree(p1: Product, p3: Product, p5: Product)
    requires !IsOutOfStock(p1) && !IsOutOfStock(p3) && !IsOutOfStock(p5)
    requires OrdinalLe(p1.name, p3.name) && OrdinalLe(p3.name, p5.name)
    ensures StableSort([p1, p3, p5]) == [p1, p3, p5]
  {
    StableSortCons(p5, []);
    StableSortCons(p3, [p5]);
    assert Insert(p3, [p5]) == [p3, p5];
    StableSortCons(p1, [p3, p5]);
    assert Insert(p1, [p3, p5]) == [p1, p3, p5];
  }

  // The search for "Product 1".

  lemma SearchListing()
    ensures GetProducts(SeedProducts, Some("Product 1"), false) == [Seed1]
  {
    SearchFilter();
    StableSortCons(Seed1, []);
  }

  lemma SearchFilter()
    ensures Filtered(SeedProducts, Some("Product 1"), false) == [Seed1]
  {
    TermIsNotBlank();
    FirstSeedMatches();
    SecondSeedDoesNotMatch();
    ThirdSeedDoesNotMatch();
    FourthSeedDoesNotMatch();
    FifthSeedDoesNotMatch();
    SearchKeepsOnlyFirst(Seed1, Seed2, Seed3, Seed4, Seed5, "Product 1");
  }

  lemma SearchKeepsOnlyFirst(p1: Product, p2: Product, p3: Product, p4: Product, p5: Product, term: string)
    requires !IsNullOrWhiteSpace(Some(term))
    requires MatchesSearch(p1, term)
    requires !MatchesSearch(p2, term) && !MatchesSearch(p3, term)
    requires !MatchesSearch(p4, term) && !MatchesSearch(p5, term)
    ensures Filtered([p1, p2, p3, p4, p5], Some(term), false) == [p1]
  {
    var search := p => MatchesSearch(p, term);
    WhereCons(p5, [], search);
    WhereCons(p4, [p5], search);
    WhereCons(p3, [p4, p5], search);
    WhereCons(p2, [p3, p4, p5], search);
    WhereCons(p1, [p2, p3, p4, p5], search);
  }

  lemma TermIsNotBlank()
    ensures !IsNullOrWhiteSpace(Some("Product 1"))
  {
    assert !IsWhiteSpace("Product 1"[0]);
  }

  /** A seed product other than the first contains "Product 1" neither in
      its name nor in its description. */
  lemma OtherSeedDoesNotMatch(p: Product, d: char)
    requires d != '1'
    requires p.name == "Product " + [d] && p.description == "Description " + [d]
    ensures !MatchesSearch(p, "Product 1")
  {
    SameLengthMismatch(p.name, "Product 1", 8);
    assert p.description[..5] == "Descr";
    FirstCharNowhere(p.description, "Product 1");
  }

  lemma FirstSeedMatches()
    ensures MatchesSearch(Seed1, "Product 1")
  {
    SelfFound(Seed1.name);
  }

  lemma SecondSeedDoesNotMatch()
    ensures !MatchesSearch(Seed2, "Product 1")
  {
    OtherSeedDoesNotMatch(Seed2, '2');
  }

  lemma ThirdSeedDoesNotMatch()
    ensures !MatchesSearch(Seed3, "Product 1")
  {
    OtherSeedDoesNotMatch(Seed3, '3');
  }

  lemma FourthSeedDoesNotMatch()
    ensures !MatchesSearch(Seed4, "Product 1")
  {
    OtherSeedDoesNotMatch(Seed4, '4');
  }

  lemma FifthSeedDoesNotMatch()
    ensures !MatchesSearch(Seed5, "Product 1")
  {
    OtherSeedDoesNotMatch(Seed5, '5');
  }
}
