/**
 * The listing filters (apps/products/filters.py, `ProductFilter`) and the
 * free-text search configured on the product view: each is an
 * order-preserving selection over the rows of a queryset.
 */
module Filters {
  import opened Wrappers
  import opened Text
  import opened Selection
  import opened Catalog

  /** The query parameters `ProductFilter` reads, parsed; prices are in cents. */
  datatype FilterParams = FilterParams(
    category: Option<string>,
    minPrice: Option<int>,
    maxPrice: Option<int>,
    inStock: Option<bool>)

  /** `category__slug__iexact`: a product without a category never matches. */
  predicate InCategoryIgnoreCase(p: Product, c: string) {
    p.category.Some? && EqualsIgnoreCase(p.category.value, c)
  }

  function CategoryPredicate(c: string): Product -> bool {
    (p: Product) => InCategoryIgnoreCase(p, c)
  }

  function MinPricePredicate(m: int): Product -> bool {
    (p: Product) => p.priceCents >= m
  }

  function MaxPricePredicate(m: int): Product -> bool {
    (p: Product) => p.priceCents <= m
  }

  /** `filter_in_stock`: true keeps a positive stock, false keeps a stock of exactly zero. */
  function InStockPredicate(value: bool): Product -> bool {
    if value then (p: Product) => p.stockQuantity > 0 else (p: Product) => p.stockQuantity == 0
  }

  /** `category=c` */
  function FilterCategory(rows: seq<Product>, c: string): (r: seq<Product>)
    ensures IsSubsequence(r, rows)
    ensures forall p :: p in r ==> p in rows && p.category.Some? && Lower(p.category.value) == Lower(c)
    ensures forall p :: p in rows && p.category.Some? && Lower(p.category.value) == Lower(c) ==> p in r
  {
    SelectIsSubsequence(rows, CategoryPredicate(c));
    Select(rows, CategoryPredicate(c))
  }

  /** `min_price=m` */
  function FilterMinPrice(rows: seq<Product>, m: int): (r: seq<Product>)
    ensures IsSubsequence(r, rows)
    ensures forall p :: p in r ==> p in rows && p.priceCents >= m
    ensures forall p :: p in rows && p.priceCents >= m ==> p in r
  {
    SelectIsSubsequence(rows, MinPricePredicate(m));
    Select(rows, MinPricePredicate(m))
  }

  /** `max_price=m` */
  function FilterMaxPrice(rows: seq<Product>, m: int): (r: seq<Product>)
    ensures IsSubsequence(r, rows)
    ensures forall p :: p in r ==> p in rows && p.priceCents <= m
    ensures forall p :: p in rows && p.priceCents <= m ==> p in r
  {
    SelectIsSubsequence(rows, MaxPricePredicate(m));
    Select(rows, MaxPricePredicate(m))
  }

  /** `in_stock=true` / `in_stock=false` */
  function FilterInStock(rows: seq<Product>, value: bool): (r: seq<Product>)
    ensures IsSubsequence(r, rows)
    ensures value ==> forall p :: p in r <==> p in rows && p.stockQuantity > 0
    ensures !value ==> forall p :: p in r <==> p in rows && p.stockQuantity == 0
  {
    SelectIsSubsequence(rows, InStockPredicate(value));
    Select(rows, InStockPredicate(value))
  }

  /** The `category` value as the filter's form field cleans it: stripped, and "" when absent. */
  function CategoryParam(ps: FilterParams): string {
    if ps.category.Some? then Strip(ps.category.value) else ""
  }

  /** django-filter leaves a filter out when its cleaned value is empty: absent, blank or all whitespace. */
  predicate CategoryGiven(ps: FilterParams) {
    CategoryParam(ps) != ""
  }

  /**
   * The filter set: the declared filters chained in order, each only when
   * its parameter is given. What it keeps are rows of the input, in order,
   * that match every given parameter.
   */
  function ApplyFilters(rows: seq<Product>, ps: FilterParams): (r: seq<Product>)
    ensures |r| <= |rows|
    ensures forall p :: p in r ==> p in rows && Matches(ps, p)
  {
    var byCategory := if CategoryGiven(ps) then FilterCategory(rows, CategoryParam(ps)) else rows;
    var byMin := if ps.minPrice.Some? then FilterMinPrice(byCategory, ps.minPrice.value) else byCategory;
    var byMax := if ps.maxPrice.Some? then FilterMaxPrice(byMin, ps.maxPrice.value) else byMin;
    if ps.inStock.Some? then FilterInStock(byMax, ps.inStock.value) else byMax
  }

  /** A `category` value that is blank or all whitespace is cleaned to "" and filters nothing out. */
  lemma BlankCategoryIgnored(rows: seq<Product>, ps: FilterParams)
    requires ps.category.Some? && AllSpace(ps.category.value)
    ensures ApplyFilters(rows, ps) == ApplyFilters(rows, ps.(category := None))
  {
  }

  /** What one product must satisfy to pass the filter set: the conjunction of the given parameters. */
  predicate Matches(ps: FilterParams, p: Product) {
    && (CategoryGiven(ps) ==> InCategoryIgnoreCase(p, CategoryParam(ps)))
    && (ps.minPrice.Some? ==> p.priceCents >= ps.minPrice.value)
    && (ps.maxPrice.Some? ==> p.priceCents <= ps.maxPrice.value)
    && (ps.inStock.Some? ==> (if ps.inStock.value then p.stockQuantity > 0 else p.stockQuantity == 0))
  }

  function MatchesPredicate(ps: FilterParams): Product -> bool {
    (p: Product) => Matches(ps, p)
  }

  /** One optional step of the chain, as a selection that keeps everything when the parameter is absent. */
  lemma StepIsSelect(s: seq<Product>, given: bool, f: Product -> bool, step: seq<Product>, g: Product -> bool)
    requires step == (if given then Select(s, f) else s)
    requires forall p :: g(p) == (given ==> f(p))
    ensures step == Select(s, g)
  {
    if given {
      SelectExt(s, f, g);
    } else {
      SelectAll(s, g);
    }
  }

  /** Each parameter as a condition on one product; an absent parameter accepts everything. */
  function CategoryStep(ps: FilterParams): Product -> bool {
    (p: Product) => CategoryGiven(ps) ==> InCategoryIgnoreCase(p, CategoryParam(ps))
  }

  function MinPriceStep(ps: FilterParams): Product -> bool {
    (p: Product) => ps.minPrice.Some? ==> p.priceCents >= ps.minPrice.value
  }

  function MaxPriceStep(ps: FilterParams): Product -> bool {
    (p: Product) => ps.maxPrice.Some? ==> p.priceCents <= ps.maxPrice.value
  }

  function InStockStep(ps: FilterParams): Product -> bool {
    (p: Product) => ps.inStock.Some? ==> InStockPredicate(ps.inStock.value)(p)
  }

  /** The chain of filters is a chain of four selections. */
  lemma ApplyFiltersIsChain(rows: seq<Product>, ps: FilterParams)
    ensures ApplyFilters(rows, ps)
         == Select(Select(Select(Select(rows, CategoryStep(ps)), MinPriceStep(ps)), MaxPriceStep(ps)), InStockStep(ps))
  {
    var s1 := if CategoryGiven(ps) then FilterCategory(rows, CategoryParam(ps)) else rows;
    StepIsSelect(rows, CategoryGiven(ps), CategoryPredicate(CategoryParam(ps)), s1, CategoryStep(ps));
    var s2 := if ps.minPrice.Some? then FilterMinPrice(s1, ps.minPrice.value) else s1;
    StepIsSelect(s1, ps.minPrice.Some?, MinPricePredicate(ps.minPrice.GetOr(0)), s2, MinPriceStep(ps));
    var s3 := if ps.maxPrice.Some? then FilterMaxPrice(s2, ps.maxPrice.value) else s2;
    StepIsSelect(s2, ps.maxPrice.Some?, MaxPricePredicate(ps.maxPrice.GetOr(0)), s3, MaxPriceStep(ps));
    var s4 := if ps.inStock.Some? then FilterInStock(s3, ps.inStock.value) else s3;
    StepIsSelect(s3, ps.inStock.Some?, InStockPredicate(ps.inStock.GetOr(false)), s4, InStockStep(ps));
  }

  /** The chained filters keep exactly the rows that match every given parameter, in order. */
  lemma ApplyFiltersIsConjunction(rows: seq<Product>, ps: FilterParams)
    ensures ApplyFilters(rows, ps) == Select(rows, MatchesPredicate(ps))
  {
    ApplyFiltersIsChain(rows, ps);
    var g12 := (p: Product) => CategoryStep(ps)(p) && MinPriceStep(ps)(p);
    var g123 := (p: Product) => g12(p) && MaxPriceStep(ps)(p);
    SelectSelect(rows, CategoryStep(ps), MinPriceStep(ps), g12);
    SelectSelect(rows, g12, MaxPriceStep(ps), g123);
    SelectSelect(rows, g123, InStockStep(ps), MatchesPredicate(ps));
  }

  /** Every result row is an input row that matches all given parameters, and every such row is kept, in order. */
  lemma ApplyFiltersExact(rows: seq<Product>, ps: FilterParams)
    ensures IsSubsequence(ApplyFilters(rows, ps), rows)
    ensures forall p :: p in ApplyFilters(rows, ps) <==> p in rows && Matches(ps, p)
  {
    ApplyFiltersIsConjunction(rows, ps);
    SelectIsSubsequence(rows, MatchesPredicate(ps));
  }

  /** Filtering a filtered listing again by the same parameters changes nothing. */
  lemma ApplyFiltersIdempotent(rows: seq<Product>, ps: FilterParams)
    ensures ApplyFilters(ApplyFilters(rows, ps), ps) == ApplyFilters(rows, ps)
  {
    ApplyFiltersIsConjunction(rows, ps);
    ApplyFiltersIsConjunction(ApplyFilters(rows, ps), ps);
    SelectIdempotent(rows, MatchesPredicate(ps));
  }

  /** A price range with its minimum above its maximum selects nothing. */
  lemma InvertedPriceRangeIsEmpty(rows: seq<Product>, m: int, n: int)
    requires m > n
    ensures FilterMaxPrice(FilterMinPrice(rows, m), n) == []
  {
    SelectNone(FilterMinPrice(rows, m), MaxPricePredicate(n));
  }

  /** A row with a negative stock is in neither the `in_stock=true` nor the `in_stock=false` result. */
  lemma NegativeStockInNeither(rows: seq<Product>, p: Product)
    requires p.stockQuantity < 0
    ensures p !in FilterInStock(rows, true) && p !in FilterInStock(rows, false)
  {
  }

  /** When no stock is negative, `in_stock=true` and `in_stock=false` together return every row exactly once. */
  lemma InStockSplitsNonNegativeStock(rows: seq<Product>)
    requires forall p :: p in rows ==> p.stockQuantity >= 0
    ensures multiset(FilterInStock(rows, true)) + multiset(FilterInStock(rows, false)) == multiset(rows)
  {
    SelectPartition(rows, InStockPredicate(true), InStockPredicate(false));
  }

  /** SearchFilter over `search_fields = ['name', 'description']`: every term occurs, ignoring case, in one of the two. */
  predicate MatchesSearch(terms: seq<string>, p: Product) {
    forall i :: 0 <= i < |terms| ==> ContainsIgnoreCase(p.name, terms[i]) || ContainsIgnoreCase(p.description, terms[i])
  }

  function SearchPredicate(terms: seq<string>): Product -> bool {
    (p: Product) => MatchesSearch(terms, p)
  }

  /** `search=...`, already split into terms; no terms leaves the rows as they are. */
  function Search(rows: seq<Product>, terms: seq<string>): (r: seq<Product>)
    ensures IsSubsequence(r, rows)
    ensures forall p :: p in r ==> p in rows && MatchesSearch(terms, p)
    ensures forall p :: p in rows && MatchesSearch(terms, p) ==> p in r
    ensures terms == [] ==> r == rows
  {
    SelectIsSubsequence(rows, SearchPredicate(terms));
    if terms == [] then
      SelectAll(rows, SearchPredicate(terms));
      rows
    else
      Select(rows, SearchPredicate(terms))
  }
}
