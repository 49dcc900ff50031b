# Catalog query of the mslearn-devops e-commerce sample, in Dafny

This project models the product catalog query of the mslearn-devops
e-commerce sample (an ASP.NET MVC application): `CatalogController.GetProducts` and the derived
`Product.IsOutOfStock` flag. The query reads an in-memory list of products,
applies two optional filters, sorts the products that remain, and returns them
as a new list:

1. **Search filter.** When the search term is not null, empty or white space
   only, a product is kept if the term occurs in its name or its description.
   The comparison is ordinal and ignores case.
2. **Stock filter.** When `hideOutOfStock` is set, out-of-stock products
   (stock at most zero) are dropped.
3. **Sort.** Products are sorted in-stock first, then by name. The sort is
   stable, so products with the same flag and name keep their catalog order.

Everything here is pure. The code is written as datatypes, functions and
lemmas:

- `options.dfy`: `Option`, which models a C# string that may be null (the search term).
- `products.dfy`: the `Product` record and `IsOutOfStock`.
- `text.dfy`: these string operations:
  - the null-or-white-space test, using the platform's set of white-space characters;
  - the ordinal ignore-case substring test, with an independent definition that the function is proved equal to;
  - ordinal string order, proved to be a total order.
- `ordering.dfy`: the composite sort key and a stable insertion sort. It also proves that a stable sort is unique: any stable sort by this key order produces the same list (`Catalog.AnyStableSortGivesTheResult`). LINQ's name comparison is culture-sensitive, so the model agrees with LINQ's `OrderBy(...).ThenBy(...)` only where the two orders agree (see `Ordering.KeyLe` under Left out).
- `catalog.dfy`: these parts of the query:
  - the LINQ `Where` filter;
  - the reference predicate `Selected`, which says which products a query keeps;
  - the filter stage `Filtered`;
  - `GetProducts` and the properties of its result.
- `seed.dfy`: the five-product seed catalog and the listings the query gives on it.

The catalog is a Dafny value, so `GetProducts` cannot change it. The list it
returns is a new value. Calling it twice with the same arguments gives the same
result, because it is a function.

## Model

| member | source | states |
|---|---|---|
| Products.OutOfStockIffNoStock | src/Models/Product.cs:12 | A product is out of stock exactly when its stock is at most zero. Negative stock also counts as out of stock. |
| Products.ZeroStockIsOutOfStock | src/Models/Product.cs:12 | A product with stock 0 is out of stock. The test at Tests/CatalogControllerTests.cs:128-136 checks the same case. |
| Products.PositiveStockIsInStock | src/Models/Product.cs:12 | A product with positive stock is not out of stock. The test at Tests/CatalogControllerTests.cs:138-146 checks the same case. |
| Products.OutOfStockDependsOnlyOnStock | src/Models/Product.cs:5-12 | Two products with the same stock agree on the flag, whatever their id, name, description, price or image. |
| Text.AllWhiteSpace | src/Controllers/CatalogController.cs:47 | True exactly when every character of the string is white space. |
| Text.IsNullOrWhiteSpace | src/Controllers/CatalogController.cs:47 | A term is not blank exactly when it is present and has at least one character that is not white space. |
| Text.NonBlankIsNonEmpty | src/Controllers/CatalogController.cs:47 | A term that passes the blank test is present and non-empty. |
| Text.StartsWithIgnoreCase | src/Controllers/CatalogController.cs:50-51 | True exactly when the prefix matches the start of the text, character by character, after case folding. |
| Text.ContainsIgnoreCase | src/Controllers/CatalogController.cs:50-51 | True exactly when the term matches the text at some position after case folding of both (`OccursIgnoreCase`). |
| Text.LiteralOccurrenceIsFound | src/Controllers/CatalogController.cs:50-51 | A term that appears literally inside a text is found in it. |
| Text.CaseOfArgumentsIsIgnored | src/Controllers/CatalogController.cs:50-51 | Upper-casing the text or the term first does not change the answer. |
| Text.LongerTermIsNotFound | src/Controllers/CatalogController.cs:50-51 | A term longer than the text is never found. |
| Text.ToUpperAsciiFacts | src/Controllers/CatalogController.cs:50-51 | Case folding yields no lower-case ASCII letter. It is idempotent. It changes exactly the lower-case ASCII letters. |
| Text.OrdinalLeReflexive | src/Controllers/CatalogController.cs:61 | The name order is reflexive. |
| Text.OrdinalLeAntisymmetric | src/Controllers/CatalogController.cs:61 | Two names ordered both ways are equal. |
| Text.OrdinalLeTransitive | src/Controllers/CatalogController.cs:61 | The name order is transitive. |
| Text.OrdinalLeTotal | src/Controllers/CatalogController.cs:61 | Any two names are ordered one way or the other. |
| Ordering.KeyLeTransitive | src/Controllers/CatalogController.cs:61 | The (out-of-stock, name) key order is transitive. |
| Ordering.KeyLeTotal | src/Controllers/CatalogController.cs:61 | The key order is total. |
| Ordering.KeyLeAntisymmetric | src/Controllers/CatalogController.cs:61 | Keys ordered both ways are the same key. |
| Ordering.InsertPermutes | src/Controllers/CatalogController.cs:61 | Inserting a product adds exactly that product to the multiset. |
| Ordering.InsertKeepsSorted | src/Controllers/CatalogController.cs:61 | Inserting into a sorted list keeps it sorted. |
| Ordering.InsertWithKey | src/Controllers/CatalogController.cs:61 | Insertion leaves the products of every other key as they were. Among products with its own key, the inserted product goes first. |
| Ordering.StableSortIsStable | src/Controllers/CatalogController.cs:61 | The sort's output is sorted by key and is a permutation of its input. Products with equal keys keep their input order. |
| Ordering.StableSortIsUnique | src/Controllers/CatalogController.cs:61 | Two stable sorts of the same products are the same list. |
| Catalog.Where | src/Controllers/CatalogController.cs:49-57 | The filtered list is never longer than its input. |
| Catalog.WhereCounts | src/Controllers/CatalogController.cs:49-57 | The filter keeps each accepted product as often as it occurs and drops every other product. |
| Catalog.WhereWhere | src/Controllers/CatalogController.cs:49-57 | Two filters applied in turn equal one filter by their conjunction. |
| Catalog.WhereMonotone | src/Controllers/CatalogController.cs:55-58 | A filter that accepts fewer products never selects more of them. |
| Catalog.WithKeyOfWhere | src/Controllers/CatalogController.cs:49-61 | Filtering commutes with picking out the products of one sort key. |
| Catalog.Filtered | src/Controllers/CatalogController.cs:44-58 | The search filter, skipped for a blank term, followed by the optional stock filter, keeps exactly the catalog products `Selected` accepts, in catalog order. |
| Catalog.GetProducts | src/Controllers/CatalogController.cs:42-64 | The result is a stable sort, by (out-of-stock, name), of the catalog products that pass both active filters. |
| Catalog.ResultComesFromCatalog | src/Controllers/CatalogController.cs:44-63 | Every returned product is in the catalog, and never more often than the catalog holds it. The result is never longer than the catalog. |
| Catalog.ResultIsExactlyTheSelection | src/Controllers/CatalogController.cs:44-63 | A product is returned exactly when it is in the catalog and passes both active filters. It is returned as often as it occurs in the catalog. |
| Catalog.BlankTermListsWholeCatalog | src/Controllers/CatalogController.cs:47-63 | With a null, empty or white-space term and no stock filter, the result is a permutation of the whole catalog. |
| Catalog.BlankTermsAreNoTerm | src/Controllers/CatalogController.cs:47 | Every blank term gives the same listing as a null term. |
| Catalog.SearchResultsContainTerm | src/Controllers/CatalogController.cs:47-52 | With a non-blank term, every returned product contains the term, ignoring case, in its name or its description. |
| Catalog.HiddenOutOfStockIsExcluded | src/Controllers/CatalogController.cs:55-58 | With `hideOutOfStock`, no returned product is out of stock. |
| Catalog.HidingNeverLengthens | src/Controllers/CatalogController.cs:55-58 | For the same term, the result with `hideOutOfStock` is never longer than the result without it. |
| Catalog.InStockListedFirst | src/Controllers/CatalogController.cs:61 | Every in-stock product is listed before every out-of-stock product. |
| Catalog.NamesAscendWithinStockGroup | src/Controllers/CatalogController.cs:61 | Within each stock group, names never decrease. |
| Catalog.EqualKeysKeepCatalogOrder | src/Controllers/CatalogController.cs:61 | The returned products with a given flag and name are the selected catalog products with that flag and name, in catalog order. |
| Catalog.AnyStableSortGivesTheResult | src/Controllers/CatalogController.cs:61-63 | Any stable sort of the selected products by the same key equals the returned list. |
| Seed.DefaultQueryOnSeed | src/Controllers/CatalogController.cs:12-63 | On the seed catalog (stocks 5, 0, 10, 0, 3), the default query returns ids 1, 3, 5, 2, 4. |
| Seed.HideOutOfStockOnSeed | src/Controllers/CatalogController.cs:12-63 | On the seed catalog, hiding out-of-stock products returns ids 1, 3, 5. |
| Seed.SearchOnSeed | src/Controllers/CatalogController.cs:12-63 | On the seed catalog, the term "Product 1" returns exactly id 1. |

## Left out

- Ordering.KeyLe: the name order is ordinal (character codes compared left to right). .NET's `ThenBy(p => p.Name)` uses the default comparer, which is culture-sensitive. Those culture rules are not reproduced.
- Text.ToUpperAscii: case folding for the ignore-case comparison covers ASCII letters only. .NET also folds letters outside ASCII.
- Dafny `char` is a Unicode scalar value, while .NET strings are UTF-16 code units. Surrogate pairs are not modelled.
- A product's name and description are always present strings, so the model has no null case. In the source, a null name throws whenever a non-blank term is given. Because the `||` short-circuits, a null description throws only when the name does not contain the term. The ordering rules for null names do not arise.
- `Price` is a `real`. It plays no part in filtering or sorting, so decimal rounding is not modelled.
- LINQ evaluates lazily and `ToList` allocates a new list. The model is a pure function on values, so it does not capture object identity or sharing.
- `OrderBy`/`ThenBy` is modelled by an insertion sort. `Catalog.AnyStableSortGivesTheResult` shows that any stable sort with this key gives the same list.
- Concurrent requests are not modelled. The static list has no writer, and the model's catalog is an immutable value.
- `CatalogController.Index` only builds a view model and renders a view, so it is not modelled. The view model (`CatalogSearchViewModel`), the external-login controller and its startup wiring (`AccountController`, `Startup`) and the menu script (`site.js`) are not part of this model.
