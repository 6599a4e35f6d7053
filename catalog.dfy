/**
 * The product catalogue's records (apps/products/models.py): categories and
 * products, their derived stock attributes, the slug default applied on
 * save, and a category's count of active products.
 */
module Catalog {
  import opened Wrappers
  import opened Principals
  import opened Selection
  import opened Tables

  datatype Category = Category(
    id: nat,
    name: string,
    slug: string,
    description: string,
    createdAt: int,
    updatedAt: int)

  /**
   * A product row. `category` is the slug of the referenced category (the
   * foreign key is nullable), `createdBy` the id of the creating user (also
   * nullable: the reference is cleared when that user is deleted).
   */
  datatype Product = Product(
    id: nat,
    name: string,
    slug: string,
    description: string,
    priceCents: int,
    category: Option<string>,
    stockQuantity: int,
    image: Option<string>,
    isActive: bool,
    createdBy: Option<UserId>,
    createdAt: int,
    updatedAt: int)

  function ProductKey(p: Product): nat { p.id }
  function ProductSlug(p: Product): string { p.slug }
  function CategoryKey(c: Category): nat { c.id }
  function CategoryName(c: Category): string { c.name }
  function CategorySlug(c: Category): string { c.slug }

  /** What the database guarantees of the products table: one row per id, and slugs unique. */
  predicate ProductsValid(rows: seq<Product>) {
    KeysUnique(rows, ProductKey) && ColumnUnique(rows, ProductSlug)
  }

  /** What the database guarantees of the categories table: one row per id, names and slugs unique. */
  predicate CategoriesValid(rows: seq<Category>) {
    KeysUnique(rows, CategoryKey) && ColumnUnique(rows, CategoryName) && ColumnUnique(rows, CategorySlug)
  }

  /**
   * `Product.in_stock`: a positive stock. A product in stock is never
   * labelled "Out of Stock", and a non-negative stock not so labelled is in
   * stock; a negative stock is never in stock.
   */
  predicate InStock(p: Product): (r: bool)
    ensures r ==> AvailabilityStatus(p) != OutOfStock
    ensures p.stockQuantity >= 0 && AvailabilityStatus(p) != OutOfStock ==> r
    ensures p.stockQuantity < 0 ==> !r
  {
    p.stockQuantity > 0
  }

  const OutOfStock: string := "Out of Stock"
  const LowStock: string := "Low Stock"
  const InStockLabel: string := "In Stock"

  /** `Product.availability_status`: a three-way classification of the stock quantity. */
  function AvailabilityStatus(p: Product): (r: string)
    ensures r == OutOfStock <==> p.stockQuantity == 0
    ensures r == LowStock <==> p.stockQuantity != 0 && p.stockQuantity < 10
    ensures r == InStockLabel <==> p.stockQuantity >= 10
  {
    if p.stockQuantity == 0 then OutOfStock
    else if p.stockQuantity < 10 then LowStock
    else InStockLabel
  }

  /** For a non-negative stock, the two derived attributes agree. */
  lemma InStockAgreesWithStatus(p: Product)
    requires p.stockQuantity >= 0
    ensures !InStock(p) <==> AvailabilityStatus(p) == OutOfStock
    ensures InStock(p) <==> AvailabilityStatus(p) in {LowStock, InStockLabel}
  {
  }

  /** The model field admits a negative stock, which is then not in stock and yet reported as "Low Stock". */
  lemma NegativeStockIsLowStock(p: Product)
    requires p.stockQuantity < 0
    ensures !InStock(p) && AvailabilityStatus(p) == LowStock
  {
  }

  /** `save()`'s slug rule: a blank slug is replaced by the slugified name; a non-blank one is kept. */
  function SlugOnSave(slug: string, name: string, slugify: string -> string): string {
    if slug == "" then slugify(name) else slug
  }

  /**
   * The fields of a product after `save()`: the slug rule, `updated_at`
   * (auto_now) set to the clock, and `created_at` (auto_now_add) set only
   * when the instance is being added.
   */
  function SavedProduct(p: Product, adding: bool, slugify: string -> string, now: int): Product {
    p.(slug := SlugOnSave(p.slug, p.name, slugify),
       createdAt := if adding then now else p.createdAt,
       updatedAt := now)
  }

  /** The database write behind `save()`: refused when the slug is taken by another row. */
  function PersistProduct(rows: seq<Product>, p: Product): (r: Result<seq<Product>, IntegrityError>)
    ensures r.Failure? <==> Clashes(rows, p, ProductKey, ProductSlug)
    ensures r.Failure? ==> r.error == UniqueViolation("slug")
  {
    if Clashes(rows, p, ProductKey, ProductSlug) then Failure(UniqueViolation("slug"))
    else Success(Upsert(rows, p, ProductKey))
  }

  /** A successful write keeps the table valid, stores `p`, and keeps every other row. */
  lemma PersistKeepsProductsValid(rows: seq<Product>, p: Product)
    requires ProductsValid(rows)
    requires PersistProduct(rows, p).Success?
    ensures ProductsValid(PersistProduct(rows, p).value)
    ensures p in PersistProduct(rows, p).value
    ensures forall q :: q in rows && q.id != p.id ==> q in PersistProduct(rows, p).value
    ensures forall q :: q in PersistProduct(rows, p).value ==> q == p || (q in rows && q.id != p.id)
  {
    UpsertKeepsKeysUnique(rows, p, ProductKey);
    UpsertKeepsColumnUnique(rows, p, ProductKey, ProductSlug);
  }

  /** A Django model instance of `Product`, whose fields `save()` updates in place. */
  class ProductInstance {
    var fields: Product
    /** `_state.adding`: the instance has not been written to the database yet. */
    var adding: bool

    constructor (p: Product, adding: bool)
      ensures fields == p && this.adding == adding
    {
      fields := p;
      this.adding := adding;
    }

    /** `Product.save()`: default the slug, then write the row. */
    method Save(rows: seq<Product>, slugify: string -> string, now: int)
      returns (r: Result<seq<Product>, IntegrityError>)
      modifies this
      ensures old(fields).slug != "" ==> fields.slug == old(fields).slug
      ensures old(fields).slug == "" ==> fields.slug == slugify(old(fields).name)
      ensures fields == SavedProduct(old(fields), old(adding), slugify, now)
      ensures r == PersistProduct(rows, fields)
      ensures adding == (old(adding) && r.Failure?)
    {
      if fields.slug == "" {
        fields := fields.(slug := slugify(fields.name));
      }
      if adding {
        fields := fields.(createdAt := now);
      }
      fields := fields.(updatedAt := now);
      r := PersistProduct(rows, fields);
      if r.Success? {
        adding := false;
      }
    }
  }

  /** Saving again leaves the slug as the first save set it. */
  lemma SaveTwiceKeepsSlug(p: Product, adding1: bool, adding2: bool, slugify: string -> string, t1: int, t2: int)
    ensures SavedProduct(SavedProduct(p, adding1, slugify, t1), adding2, slugify, t2).slug
         == SavedProduct(p, adding1, slugify, t1).slug
  {
  }

  /**
   * There is no collision suffix: two new products with the same name and a
   * blank slug get the same slug, so once the first is stored the second
   * save is refused by the unique constraint.
   */
  lemma NoSlugSuffix(rows: seq<Product>, p: Product, q: Product, slugify: string -> string, t1: int, t2: int)
    requires p.slug == "" && q.slug == "" && p.name == q.name && p.id != q.id
    requires PersistProduct(rows, SavedProduct(p, true, slugify, t1)).Success?
    ensures PersistProduct(PersistProduct(rows, SavedProduct(p, true, slugify, t1)).value,
                           SavedProduct(q, true, slugify, t2))
         == Failure(UniqueViolation("slug"))
  {
    var sp := SavedProduct(p, true, slugify, t1);
    var sq := SavedProduct(q, true, slugify, t2);
    var stored := PersistProduct(rows, sp).value;
    assert sp in stored;
    var i :| 0 <= i < |stored| && stored[i] == sp;
    assert ProductKey(stored[i]) != ProductKey(sq) && ProductSlug(stored[i]) == ProductSlug(sq);
  }

  /** The fields of a category after `save()`. */
  function SavedCategory(c: Category, adding: bool, slugify: string -> string, now: int): Category {
    c.(slug := SlugOnSave(c.slug, c.name, slugify),
       createdAt := if adding then now else c.createdAt,
       updatedAt := now)
  }

  /** The database write behind `Category.save()`: names and slugs are both unique columns. */
  function PersistCategory(rows: seq<Category>, c: Category): (r: Result<seq<Category>, IntegrityError>)
    ensures r.Failure? <==> Clashes(rows, c, CategoryKey, CategoryName) || Clashes(rows, c, CategoryKey, CategorySlug)
  {
    if Clashes(rows, c, CategoryKey, CategoryName) then Failure(UniqueViolation("name"))
    else if Clashes(rows, c, CategoryKey, CategorySlug) then Failure(UniqueViolation("slug"))
    else Success(Upsert(rows, c, CategoryKey))
  }

  lemma PersistKeepsCategoriesValid(rows: seq<Category>, c: Category)
    requires CategoriesValid(rows)
    requires PersistCategory(rows, c).Success?
    ensures CategoriesValid(PersistCategory(rows, c).value)
    ensures c in PersistCategory(rows, c).value
    ensures forall d :: d in rows && d.id != c.id ==> d in PersistCategory(rows, c).value
    ensures forall d :: d in PersistCategory(rows, c).value ==> d == c || (d in rows && d.id != c.id)
  {
    UpsertKeepsKeysUnique(rows, c, CategoryKey);
    UpsertKeepsColumnUnique(rows, c, CategoryKey, CategoryName);
    UpsertKeepsColumnUnique(rows, c, CategoryKey, CategorySlug);
  }

  /** A Django model instance of `Category`. */
  class CategoryInstance {
    var fields: Category
    var adding: bool

    constructor (c: Category, adding: bool)
      ensures fields == c && this.adding == adding
    {
      fields := c;
      this.adding := adding;
    }

    /** `Category.save()`: default the slug, then write the row. */
    method Save(rows: seq<Category>, slugify: string -> string, now: int)
      returns (r: Result<seq<Category>, IntegrityError>)
      modifies this
      ensures old(fields).slug != "" ==> fields.slug == old(fields).slug
      ensures old(fields).slug == "" ==> fields.slug == slugify(old(fields).name)
      ensures fields == SavedCategory(old(fields), old(adding), slugify, now)
      ensures r == PersistCategory(rows, fields)
      ensures adding == (old(adding) && r.Failure?)
    {
      if fields.slug == "" {
        fields := fields.(slug := slugify(fields.name));
      }
      if adding {
        fields := fields.(createdAt := now);
      }
      fields := fields.(updatedAt := now);
      r := PersistCategory(rows, fields);
      if r.Success? {
        adding := false;
      }
    }
  }

  /** The products a category counts: those referencing it that are active. */
  function CountedIn(c: Category): Product -> bool {
    (p: Product) => p.category == Some(c.slug) && p.isActive
  }

  /** `Category.product_count` */
  function ProductCount(c: Category, rows: seq<Product>): (r: nat)
    ensures r <= |rows|
  {
    |Select(rows, CountedIn(c))|
  }

  /** Adding a product raises the count by one exactly when it is active and in the category. */
  lemma ProductCountAppend(c: Category, rows: seq<Product>, p: Product)
    ensures ProductCount(c, rows + [p])
         == ProductCount(c, rows) + (if p.category == Some(c.slug) && p.isActive then 1 else 0)
  {
    SelectAppend(rows, p, CountedIn(c));
  }

  /** Inactive products never count: the count over the active rows is the count over all rows. */
  lemma ProductCountIgnoresInactive(c: Category, rows: seq<Product>)
    ensures ProductCount(c, Select(rows, (p: Product) => p.isActive)) == ProductCount(c, rows)
  {
    SelectSelect(rows, (p: Product) => p.isActive, CountedIn(c), CountedIn(c));
  }
}
