/**
 * The product and category endpoints (apps/products/views.py): which
 * permissions and serializer each action uses, which rows a requester can
 * see, and what each product action returns or stores. The order of the
 * checks is Django REST framework's: view permissions, then the object
 * lookup, then object permissions, then validation, then the write.
 */
module ProductViews {
  import opened Wrappers
  import opened Text
  import opened Principals
  import opened Selection
  import opened Tables
  import opened Catalog
  import opened Filters
  import opened Ordering
  import opened ProductSerializers
  import opened Permissions

  /** The router's `self.action`. */
  datatype Action = List | Retrieve | Create | Update | PartialUpdate | Destroy | ByCategory | Other(name: string)

  predicate IsRead(a: Action) {
    a == List || a == Retrieve
  }

  /** `CategoryViewSet.get_permissions` */
  function CategoryPermissions(a: Action): (r: seq<Permission>)
    ensures IsRead(a) ==> r == [AllowAny]
    ensures !IsRead(a) ==> r == [IsAdminUser]
  {
    if IsRead(a) then [AllowAny] else [IsAdminUser]
  }

  /** Anyone may list and read categories; every other category action is for staff only. */
  lemma CategoryAccess(a: Action, user: Requester)
    ensures IsRead(a) ==> CheckPermissions(CategoryPermissions(a), user).None?
    ensures !IsRead(a) ==> (CheckPermissions(CategoryPermissions(a), user).None? <==> user.IsStaff())
    ensures !IsRead(a) && user.Anonymous? ==> CheckPermissions(CategoryPermissions(a), user) == Some(NotAuthenticated)
  {
  }

  predicate IsWrite(a: Action) {
    a == Update || a == PartialUpdate || a == Destroy
  }

  /** `ProductViewSet.get_permissions` */
  function ProductPermissions(a: Action): (r: seq<Permission>)
    ensures IsRead(a) ==> r == [AllowAny]
    ensures IsWrite(a) ==> r == [IsAuthenticated, IsOwnerOrReadOnly]
    ensures !IsRead(a) && !IsWrite(a) ==> r == [IsAuthenticated]
  {
    if IsRead(a) then [AllowAny]
    else if IsWrite(a) then [IsAuthenticated, IsOwnerOrReadOnly]
    else [IsAuthenticated]
  }

  /** Reads are open; every other product action, `create` and `by_category` included, needs a signed-in user. */
  lemma ProductAccess(a: Action, user: Requester)
    ensures IsRead(a) ==> CheckPermissions(ProductPermissions(a), user).None?
    ensures !IsRead(a) ==> (CheckPermissions(ProductPermissions(a), user).None? <==> user.IsAuthenticated())
    ensures !IsRead(a) && user.Anonymous? ==> CheckPermissions(ProductPermissions(a), user) == Some(NotAuthenticated)
  {
  }

  /** Only the write actions check the owner rule on the object. */
  lemma ProductObjectAccess(a: Action, m: HttpMethod, user: Requester, owner: Option<UserId>)
    ensures !IsWrite(a) ==> CheckObjectPermissions(ProductPermissions(a), m, user, owner).None?
    ensures IsWrite(a) ==> (CheckObjectPermissions(ProductPermissions(a), m, user, owner).None? <==> OwnerOrReadOnly(m, user, owner))
  {
  }

  datatype SerializerClass = ListSerializer | CreateUpdateSerializer | DetailSerializer

  /** `ProductViewSet.get_serializer_class` */
  function SerializerFor(a: Action): (r: SerializerClass)
    ensures r == ListSerializer <==> a == List
    ensures r == CreateUpdateSerializer <==> a in {Create, Update, PartialUpdate}
    ensures r == DetailSerializer <==> a != List && a !in {Create, Update, PartialUpdate}
  {
    if a == List then ListSerializer
    else if a in {Create, Update, PartialUpdate} then CreateUpdateSerializer
    else DetailSerializer
  }

  /** Whoever gets past the view permissions of an action that writes through the serializer is signed in. */
  lemma WriteSerializerNeedsLogin(a: Action, user: Requester)
    requires SerializerFor(a) == CreateUpdateSerializer
    requires CheckPermissions(ProductPermissions(a), user).None?
    ensures user.IsAuthenticated()
  {
  }

  /** Who sees a row: staff see every product, everyone else only the active ones. */
  function VisibleTo(user: Requester): Product -> bool {
    (p: Product) => user.IsStaff() || p.isActive
  }

  /** `ProductViewSet.get_queryset` */
  function GetQueryset(rows: seq<Product>, user: Requester): (r: seq<Product>)
    ensures IsSubsequence(r, rows)
    ensures forall p :: p in r ==> p in rows && (user.IsStaff() || p.isActive)
    ensures forall p :: p in rows && (user.IsStaff() || p.isActive) ==> p in r
    ensures user.IsStaff() ==> r == rows
  {
    SelectIsSubsequence(rows, VisibleTo(user));
    if user.IsStaff() then
      SelectAll(rows, VisibleTo(user));
      rows
    else Select(rows, VisibleTo(user))
  }

  /** The query string the filter backends read: the filter set's parameters, the search terms and `ordering`. */
  datatype Query = Query(filters: FilterParams, search: seq<string>, ordering: string)

  /** `filter_queryset`: DjangoFilterBackend, then SearchFilter, then OrderingFilter. */
  function FilterQueryset(rows: seq<Product>, q: Query): seq<Product> {
    Sort(Search(ApplyFilters(rows, q.filters), q.search), ResolveOrdering(OrderingTerms(q.ordering)))
  }

  /** The backends keep exactly the rows matching the filters and the search, ordered by the resolved ordering. */
  lemma FilterQuerysetExact(rows: seq<Product>, q: Query)
    ensures forall p :: p in FilterQueryset(rows, q) <==> p in rows && Matches(q.filters, p) && MatchesSearch(q.search, p)
    ensures SortedBy(FilterQueryset(rows, q), ResolveOrdering(OrderingTerms(q.ordering)))
    ensures multiset(FilterQueryset(rows, q)) == multiset(Search(ApplyFilters(rows, q.filters), q.search))
  {
    ApplyFiltersExact(rows, q.filters);
    var searched := Search(ApplyFilters(rows, q.filters), q.search);
    forall p ensures p in FilterQueryset(rows, q) <==> p in searched {
      assert p in FilterQueryset(rows, q) <==> p in multiset(FilterQueryset(rows, q));
      assert p in searched <==> p in multiset(searched);
    }
  }

  /** The backends never add rows. */
  lemma FilterQuerysetShrinks(rows: seq<Product>, q: Query)
    ensures |FilterQueryset(rows, q)| <= |rows|
  {
    var filtered := ApplyFilters(rows, q.filters);
    var searched := Search(filtered, q.search);
    ApplyFiltersIsConjunction(rows, q.filters);
    assert |FilterQueryset(rows, q)| == |multiset(searched)| == |searched|;
  }

  /**
   * `list`: the visible rows through the filter backends. A listing holds
   * exactly the rows the requester may see that match the filters and the
   * search terms, never more rows than the table, in the requested (or
   * default newest-first) order.
   */
  function ListProducts(rows: seq<Product>, user: Requester, q: Query): (r: seq<Product>)
    ensures forall p :: p in r <==>
      p in rows && (user.IsStaff() || p.isActive) && Matches(q.filters, p) && MatchesSearch(q.search, p)
    ensures SortedBy(r, ResolveOrdering(OrderingTerms(q.ordering)))
    ensures |r| <= |rows|
  {
    var visible := GetQueryset(rows, user);
    FilterQuerysetExact(visible, q);
    FilterQuerysetShrinks(visible, q);
    FilterQueryset(visible, q)
  }

  /** No `ordering` parameter lists the newest products first. */
  lemma ListDefaultsToNewestFirst(rows: seq<Product>, user: Requester, q: Query)
    requires q.ordering == ""
    ensures SortedBy(ListProducts(rows, user, q), DefaultOrdering)
  {
    EmptyParamGivesDefault();
  }

  /** `category__slug=s`: exact, case-sensitive equality. */
  function ExactCategory(slug: string): Product -> bool {
    (p: Product) => p.category == Some(slug)
  }

  /** `by_category`: the visible rows in the category, in the model's default order (newest first). */
  function ProductsByCategory(rows: seq<Product>, user: Requester, slug: string): (r: seq<Product>)
    ensures forall p :: p in r <==> p in rows && (user.IsStaff() || p.isActive) && p.category == Some(slug)
    ensures SortedBy(r, DefaultOrdering)
  {
    var selected := Select(GetQueryset(rows, user), ExactCategory(slug));
    var r := Sort(selected, DefaultOrdering);
    assert forall p :: p in r <==> p in multiset(selected);
    r
  }

  /** What `by_category` returns is within what the case-insensitive `category` filter returns. */
  lemma ByCategoryWithinFilter(rows: seq<Product>, user: Requester, slug: string)
    ensures forall p :: p in ProductsByCategory(rows, user, slug) ==> p in FilterCategory(GetQueryset(rows, user), slug)
  {
  }

  /** The two differ on case: a product filed under "Shoes" is found by `category=shoes` but not by `by-category/shoes`. */
  lemma ByCategoryIsCaseSensitive(p: Product, user: Requester)
    requires p.category == Some("Shoes") && p.isActive
    ensures p in FilterCategory(GetQueryset([p], user), "shoes")
    ensures p !in ProductsByCategory([p], user, "shoes")
  {
    assert Lower("Shoes") == Lower("shoes");
    assert p in GetQueryset([p], user);
  }

  /** For a requester who is not staff, `by_category` lists as many products as the category's `product_count`. */
  lemma ByCategoryCountsLikeProductCount(rows: seq<Product>, user: Requester, c: Category)
    requires !user.IsStaff()
    ensures |ProductsByCategory(rows, user, c.slug)| == ProductCount(c, rows)
  {
    var selected := Select(GetQueryset(rows, user), ExactCategory(c.slug));
    SelectSelect(rows, VisibleTo(user), ExactCategory(c.slug), CountedIn(c));
    assert |Sort(selected, DefaultOrdering)| == |multiset(Sort(selected, DefaultOrdering))| == |multiset(selected)| == |selected|;
  }

  /** The row a slug names, if any. */
  function Lookup(rows: seq<Product>, slug: string): (r: Option<Product>)
    ensures r.Some? ==> r.value in rows && r.value.slug == slug
    ensures r.None? ==> forall p :: p in rows ==> p.slug != slug
  {
    if rows == [] then None
    else if rows[0].slug == slug then Some(rows[0])
    else Lookup(rows[1..], slug)
  }

  /** With unique slugs, the lookup finds the one row with that slug. */
  lemma LookupUnique(rows: seq<Product>, among: seq<Product>, p: Product)
    requires ColumnUnique(rows, ProductSlug)
    requires forall x :: x in among ==> x in rows
    requires p in among
    ensures Lookup(among, p.slug) == Some(p)
  {
    var q := Lookup(among, p.slug).value;
    var i :| 0 <= i < |rows| && rows[i] == p;
    var j :| 0 <= j < |rows| && rows[j] == q;
    assert ProductSlug(rows[i]) == ProductSlug(rows[j]);
  }

  /** What a view refuses a request with. */
  datatype ApiError = Refused(refusal: Refusal) | NotFound | Invalid(errors: map<InputField, Message>) | ServerError(cause: SaveError)

  /** A request to the product endpoints. */
  datatype Request = Request(user: Requester, query: Query, data: ProductInput)

  /**
   * `initial()` then `get_object()`: the view permissions, the lookup by
   * slug in `listed` (the filtered queryset, `ListProducts`; 404 when
   * absent), then the object permissions for the request's method.
   */
  function ObjectFor(listed: seq<Product>, user: Requester, a: Action, m: HttpMethod, slug: string): (r: Result<Product, ApiError>)
    ensures r.Success? ==> r.value in listed && r.value.slug == slug
  {
    var perms := ProductPermissions(a);
    match CheckPermissions(perms, user)
    case Some(refusal) => Failure(Refused(refusal))
    case None =>
      match Lookup(listed, slug)
      case None => Failure(NotFound)
      case Some(p) =>
        match CheckObjectPermissions(perms, m, user, p.createdBy)
        case Some(refusal) => Failure(Refused(refusal))
        case None => Success(p)
  }

  /** Getting an object for a write succeeds only for a signed-in user who is staff or owns it. */
  lemma ObjectForWriteNeedsOwnerOrStaff(listed: seq<Product>, user: Requester, a: Action, m: HttpMethod, slug: string)
    requires IsWrite(a) && !IsSafe(m)
    requires ObjectFor(listed, user, a, m, slug).Success?
    ensures user.SignedIn?
    ensures user.IsStaff() || ObjectFor(listed, user, a, m, slug).value.createdBy == Some(user.id)
  {
    ProductAccess(a, user);
    var p := Lookup(listed, slug).value;
    ProductObjectAccess(a, m, user, p.createdBy);
  }

  /** For a read action no permission refuses, so getting the object is the lookup, with 404 when it finds nothing. */
  lemma ObjectForRead(listed: seq<Product>, user: Requester, a: Action, m: HttpMethod, slug: string)
    requires IsRead(a)
    ensures ObjectFor(listed, user, a, m, slug)
         == if Lookup(listed, slug).Some? then Success(Lookup(listed, slug).value) else Failure(NotFound)
  {
    ProductAccess(a, user);
    match Lookup(listed, slug)
    case None =>
    case Some(x) => ProductObjectAccess(a, m, user, x.createdBy);
  }

  /**
   * `retrieve`: open to everyone, so the only refusal is 404; what it
   * returns is a row with the slug that the requester may see.
   */
  function RetrieveProduct(rows: seq<Product>, req: Request, slug: string): (r: Result<Product, ApiError>)
    ensures r.Success? ==> r.value in rows && r.value.slug == slug && (req.user.IsStaff() || r.value.isActive)
    ensures r.Failure? ==> r.error == NotFound
  {
    var listed := ListProducts(rows, req.user, req.query);
    ObjectForRead(listed, req.user, Retrieve, GET, slug);
    ObjectFor(listed, req.user, Retrieve, GET, slug)
  }

  /**
   * With unique slugs, `retrieve` returns a product exactly when it has the
   * slug, the requester may see it, and it passes the query's filters and
   * search; otherwise the answer is 404.
   */
  lemma RetrieveExact(rows: seq<Product>, req: Request, p: Product)
    requires ProductsValid(rows)
    ensures RetrieveProduct(rows, req, p.slug) == Success(p) <==>
      p in rows && (req.user.IsStaff() || p.isActive) && Matches(req.query.filters, p) && MatchesSearch(req.query.search, p)
  {
    var listed := ListProducts(rows, req.user, req.query);
    ObjectForRead(listed, req.user, Retrieve, GET, p.slug);
    assert RetrieveProduct(rows, req, p.slug) == Success(p) <==> Lookup(listed, p.slug) == Some(p);
    if p in listed {
      LookupUnique(rows, listed, p);
    }
  }

  /** The object to update and the validated data: the object lookup, then `is_valid()` on the request data. */
  function UpdateTarget(listed: seq<Product>, categories: set<string>, user: Requester, data: ProductInput, a: Action, m: HttpMethod,
                        slug: string, partial: bool): (r: Result<(Product, ProductInput), ApiError>)
    ensures r.Success? ==> ObjectFor(listed, user, a, m, slug) == Success(r.value.0)
    ensures r.Success? ==> Validate(data, partial, categories) == Success(r.value.1)
  {
    match ObjectFor(listed, user, a, m, slug)
    case Failure(e) => Failure(e)
    case Success(p) =>
      match Validate(data, partial, categories)
      case Failure(errors) => Failure(Invalid(errors))
      case Success(d) => Success((p, d))
  }

  /**
   * What `update` and `partial_update` return for the object found in
   * `listed`: the stored table and the saved product, which keeps the
   * object's id. An anonymous requester is refused as unauthenticated, and
   * the only server error is a slug clash.
   */
  function UpdateOutcome(rows: seq<Product>, categories: set<string>, listed: seq<Product>, user: Requester, data: ProductInput, a: Action, m: HttpMethod,
                         slug: string, partial: bool, slugify: string -> string, now: int)
    : (r: Result<(seq<Product>, Product), ApiError>)
    ensures (a == Update || a == PartialUpdate) && user.Anonymous? ==> r == Failure(Refused(NotAuthenticated))
    ensures r.Success? ==> UpdateTarget(listed, categories, user, data, a, m, slug, partial).Success?
    ensures r.Success? ==> r.value.1 in r.value.0 && r.value.1.id == UpdateTarget(listed, categories, user, data, a, m, slug, partial).value.0.id
    ensures r.Failure? && r.error.ServerError? ==> r.error.cause == Integrity(UniqueViolation("slug"))
  {
    ProductAccess(a, user);
    match UpdateTarget(listed, categories, user, data, a, m, slug, partial)
    case Failure(e) => Failure(e)
    case Success((p, d)) =>
      match UpdateResult(p, d, rows, slugify, now)
      case Failure(e) => Failure(ServerError(e))
      case Success(written) => Success(written)
  }

  /** `kwargs.pop('partial', False)` */
  function PartialFlag(kwargs: map<string, bool>): bool {
    if "partial" in kwargs then kwargs["partial"] else false
  }

  /** `kwargs.pop('partial', False)` as a statement: the flag, and the keyword flags without it. */
  method PopPartial(kwargs: map<string, bool>) returns (partial: bool, rest: map<string, bool>)
    ensures partial == PartialFlag(kwargs)
    ensures rest == kwargs - {"partial"}
  {
    rest := kwargs;
    partial := false;
    if "partial" in rest {
      partial := rest["partial"];
      rest := rest - {"partial"};
    }
  }

  /**
   * `ProductViewSet.update`, reached for `update` (PUT) and for
   * `partial_update` (PATCH); `kwargs` are the handler's keyword flags.
   */
  method UpdateView(rows: seq<Product>, categories: set<string>, req: Request, a: Action, m: HttpMethod, slug: string, kwargs: map<string, bool>,
                    slugify: string -> string, now: int) returns (r: Result<(seq<Product>, Product), ApiError>)
    requires (a == Update && m == PUT) || (a == PartialUpdate && m == PATCH)
    ensures r == UpdateOutcome(rows, categories, ListProducts(rows, req.user, req.query), req.user, req.data, a, m, slug,
                               PartialFlag(kwargs), slugify, now)
  {
    var partial, kw := PopPartial(kwargs);
    var listed := ListProducts(rows, req.user, req.query);
    var target := UpdateTarget(listed, categories, req.user, req.data, a, m, slug, partial);
    if target.Failure? {
      return Failure(target.error);
    }
    var instance := new ProductInstance(target.value.0, false);
    var saved := ProductSerializers.Update(instance, target.value.1, rows, slugify, now);
    match saved
    case Failure(e) => r := Failure(ServerError(e));
    case Success(written) => r := Success(written);
  }

  /** `partial_update`: sets the `partial` flag, then hands over to `update`. */
  method PartialUpdateView(rows: seq<Product>, categories: set<string>, req: Request, slug: string, kwargs: map<string, bool>,
                           slugify: string -> string, now: int) returns (r: Result<(seq<Product>, Product), ApiError>)
    ensures r == UpdateOutcome(rows, categories, ListProducts(rows, req.user, req.query), req.user, req.data, PartialUpdate, PATCH, slug,
                               true, slugify, now)
  {
    var kw := kwargs["partial" := true];
    assert PartialFlag(kw);
    r := UpdateView(rows, categories, req, PartialUpdate, PATCH, slug, kw, slugify, now);
  }

  /** A PUT without flags is a full update: it succeeds only when every required field is sent. */
  lemma PutIsFullUpdate(rows: seq<Product>, categories: set<string>, listed: seq<Product>, user: Requester, data: ProductInput, slug: string,
                        slugify: string -> string, now: int)
    requires UpdateOutcome(rows, categories, listed, user, data, Update, PUT, slug, PartialFlag(map[]), slugify, now).Success?
    ensures Complete(data)
  {
    assert Validate(data, false, categories).Success?;
  }

  /** An update (full or partial) succeeds only for a signed-in user who is staff or owns the product. */
  lemma UpdateNeedsOwnerOrStaff(rows: seq<Product>, categories: set<string>, listed: seq<Product>, user: Requester, data: ProductInput, a: Action,
                                m: HttpMethod, slug: string, partial: bool, slugify: string -> string, now: int)
    requires a == Update || a == PartialUpdate
    requires !IsSafe(m)
    requires UpdateOutcome(rows, categories, listed, user, data, a, m, slug, partial, slugify, now).Success?
    ensures user.SignedIn?
    ensures var p := ObjectFor(listed, user, a, m, slug).value;
      user.IsStaff() || p.createdBy == Some(user.id)
  {
    ObjectForWriteNeedsOwnerOrStaff(listed, user, a, m, slug);
  }

  /**
   * Conversely, the owner (or staff) updating a product they can see with
   * valid data whose slug clashes with no other row succeeds.
   */
  lemma OwnerUpdateSucceeds(rows: seq<Product>, categories: set<string>, req: Request, a: Action, m: HttpMethod, p: Product, partial: bool,
                            slugify: string -> string, now: int)
    requires a == Update || a == PartialUpdate
    requires ProductsValid(rows)
    requires req.user.SignedIn? && (req.user.IsStaff() || p.createdBy == Some(req.user.id))
    requires p in ListProducts(rows, req.user, req.query)
    requires Validate(req.data, partial, categories).Success?
    requires !Clashes(rows, SavedProduct(Updated(p, Validate(req.data, partial, categories).value), false, slugify, now), ProductKey, ProductSlug)
    ensures UpdateOutcome(rows, categories, ListProducts(rows, req.user, req.query), req.user, req.data, a, m, p.slug, partial, slugify, now).Success?
  {
    var listed := ListProducts(rows, req.user, req.query);
    ProductAccess(a, req.user);
    LookupUnique(rows, listed, p);
    ProductObjectAccess(a, m, req.user, p.createdBy);
  }

  /** A successful update keeps the table valid and keeps the product's id, owner, creation time and slug. */
  lemma UpdateKeepsTableAndIdentity(rows: seq<Product>, categories: set<string>, listed: seq<Product>, user: Requester, data: ProductInput, a: Action,
                                    m: HttpMethod, slug: string, partial: bool, slugify: string -> string, now: int)
    requires ProductsValid(rows)
    requires forall x :: x in listed ==> x in rows
    requires UpdateOutcome(rows, categories, listed, user, data, a, m, slug, partial, slugify, now).Success?
    ensures var (stored, q) := UpdateOutcome(rows, categories, listed, user, data, a, m, slug, partial, slugify, now).value;
      var p := ObjectFor(listed, user, a, m, slug).value;
      && ProductsValid(stored) && q in stored
      && q.id == p.id && q.createdBy == p.createdBy && q.createdAt == p.createdAt
      && (slug != "" ==> q.slug == slug)
      && (forall x :: x in rows && x.id != p.id ==> x in stored)
  {
    var p := ObjectFor(listed, user, a, m, slug).value;
    var d := Validate(data, partial, categories).value;
    UpdateKeepsProtectedFields(p, d, rows, slugify, now);
    PersistKeepsProductsValid(rows, SavedProduct(Updated(p, d), false, slugify, now));
  }

  /**
   * What `create` returns: the new table and the created product, stored
   * under the given id and owned by the requester. An anonymous request is
   * refused as unauthenticated, whatever it carries.
   */
  function CreateOutcome(rows: seq<Product>, categories: set<string>, req: Request, id: nat, slugify: string -> string, now: int)
    : (r: Result<(seq<Product>, Product), ApiError>)
    ensures req.user.Anonymous? ==> r == Failure(Refused(NotAuthenticated))
    ensures r.Success? ==> r.value.1 in r.value.0 && r.value.1.id == id && r.value.1.createdBy == Some(req.user.id)
  {
    ProductAccess(Create, req.user);
    match CheckPermissions(ProductPermissions(Create), req.user)
    case Some(refusal) => Failure(Refused(refusal))
    case None =>
      match Validate(req.data, false, categories)
      case Failure(errors) => Failure(Invalid(errors))
      case Success(d) =>
        match CreateResult(WithRequest(req.user), d, rows, id, slugify, now)
        case Failure(e) => Failure(ServerError(e))
        case Success(written) =>
          CreateSetsOwnerAndSlug(WithRequest(req.user), d, rows, id, slugify, now);
          Success(written)
  }

  /** `ProductViewSet.create`: the serializer gets the request in its context. */
  method CreateView(rows: seq<Product>, categories: set<string>, req: Request, id: nat, slugify: string -> string, now: int)
    returns (r: Result<(seq<Product>, Product), ApiError>)
    ensures r == CreateOutcome(rows, categories, req, id, slugify, now)
  {
    var refusal := CheckPermissions(ProductPermissions(Create), req.user);
    if refusal.Some? {
      return Failure(Refused(refusal.value));
    }
    var validated := Validate(req.data, false, categories);
    if validated.Failure? {
      return Failure(Invalid(validated.error));
    }
    var saved := ProductSerializers.Create(WithRequest(req.user), validated.value, rows, id, slugify, now);
    match saved
    case Failure(e) => r := Failure(ServerError(e));
    case Success(written) => r := Success(written);
  }

  /**
   * A created product is owned by the signed-in requester (the anonymous
   * case is refused before the serializer runs), and with a fresh id it is
   * appended to the table.
   */
  lemma CreateOwnedByRequester(rows: seq<Product>, categories: set<string>, req: Request, id: nat, slugify: string -> string, now: int)
    requires CreateOutcome(rows, categories, req, id, slugify, now).Success?
    ensures req.user.SignedIn?
    ensures CreateOutcome(rows, categories, req, id, slugify, now).value.1.createdBy == Some(req.user.id)
    ensures !HasKey(rows, id, ProductKey) ==>
      CreateOutcome(rows, categories, req, id, slugify, now).value.0 == rows + [CreateOutcome(rows, categories, req, id, slugify, now).value.1]
  {
    ProductAccess(Create, req.user);
    var d := Validate(req.data, false, categories).value;
    var ctx := WithRequest(req.user);
    CreateSetsOwnerAndSlug(ctx, d, rows, id, slugify, now);
    var saved := SavedProduct(NewRow(d, id, Some(req.user.id)), true, slugify, now);
    assert CreateOutcome(rows, categories, req, id, slugify, now).value == (Upsert(rows, saved, ProductKey), saved) by {
      assert CreateOutcome(rows, categories, req, id, slugify, now).value == CreateResult(ctx, d, rows, id, slugify, now).value;
    }
  }

  /** A created product refers to no category or to a stored one. */
  lemma CreatedCategoryIsStored(rows: seq<Product>, categories: set<string>, req: Request, id: nat,
                                slugify: string -> string, now: int)
    requires CreateOutcome(rows, categories, req, id, slugify, now).Success?
    ensures var p := CreateOutcome(rows, categories, req, id, slugify, now).value.1;
      p.category.Some? ==> p.category.value in categories
  {
    ProductAccess(Create, req.user);
    var d := Validate(req.data, false, categories).value;
    CreateSetsOwnerAndSlug(WithRequest(req.user), d, rows, id, slugify, now);
  }

  /**
   * An update keeps a product's reference to a stored category: a sent
   * category must be stored, and one not sent is kept.
   */
  lemma UpdatedCategoryIsStored(rows: seq<Product>, categories: set<string>, listed: seq<Product>, user: Requester,
                                data: ProductInput, a: Action, m: HttpMethod, slug: string, partial: bool,
                                slugify: string -> string, now: int)
    requires UpdateOutcome(rows, categories, listed, user, data, a, m, slug, partial, slugify, now).Success?
    requires var p := ObjectFor(listed, user, a, m, slug).value; p.category.Some? ==> p.category.value in categories
    ensures var q := UpdateOutcome(rows, categories, listed, user, data, a, m, slug, partial, slugify, now).value.1;
      q.category.Some? ==> q.category.value in categories
  {
    var p := ObjectFor(listed, user, a, m, slug).value;
    var d := Validate(data, partial, categories).value;
    UpdateSetsCarriedFields(p, d, rows, slugify, now);
  }

  /**
   * Conversely, a signed-in requester whose data is valid and whose
   * product's slugified name no other row holds creates the product.
   */
  lemma SignedInCreateSucceeds(rows: seq<Product>, categories: set<string>, req: Request, id: nat,
                               slugify: string -> string, now: int)
    requires req.user.SignedIn?
    requires Validate(req.data, false, categories).Success?
    requires !SlugTaken(rows, id, slugify(Validate(req.data, false, categories).value.name.value))
    ensures CreateOutcome(rows, categories, req, id, slugify, now).Success?
  {
    ProductAccess(Create, req.user);
  }

  /** `destroy`: the row found in `listed` is deleted; an anonymous requester is refused as unauthenticated. */
  function DestroyOutcome(rows: seq<Product>, listed: seq<Product>, user: Requester, slug: string): (r: Result<seq<Product>, ApiError>)
    ensures user.Anonymous? ==> r == Failure(Refused(NotAuthenticated))
    ensures r.Success? ==> ObjectFor(listed, user, Destroy, DELETE, slug).Success?
    ensures r.Success? ==> forall x :: x in r.value ==> x in rows
  {
    ProductAccess(Destroy, user);
    match ObjectFor(listed, user, Destroy, DELETE, slug)
    case Failure(e) => Failure(e)
    case Success(p) => Success(Delete(rows, p.id, ProductKey))
  }

  /** A delete succeeds only for staff or the owner, removes that product, and keeps every other row. */
  lemma DestroyNeedsOwnerOrStaff(rows: seq<Product>, listed: seq<Product>, user: Requester, slug: string)
    requires DestroyOutcome(rows, listed, user, slug).Success?
    ensures var p := ObjectFor(listed, user, Destroy, DELETE, slug).value;
      && user.SignedIn? && (user.IsStaff() || p.createdBy == Some(user.id))
      && (forall x :: x in DestroyOutcome(rows, listed, user, slug).value ==> x in rows && x.id != p.id)
      && (forall x :: x in rows && x.id != p.id ==> x in DestroyOutcome(rows, listed, user, slug).value)
  {
    ObjectForWriteNeedsOwnerOrStaff(listed, user, Destroy, DELETE, slug);
  }

  /**
   * Conversely, the owner (or staff) deleting a product they can see
   * succeeds, and the table loses exactly that row.
   */
  lemma OwnerDestroySucceeds(rows: seq<Product>, req: Request, p: Product)
    requires ProductsValid(rows)
    requires req.user.SignedIn? && (req.user.IsStaff() || p.createdBy == Some(req.user.id))
    requires p in ListProducts(rows, req.user, req.query)
    ensures DestroyOutcome(rows, ListProducts(rows, req.user, req.query), req.user, p.slug) == Success(Delete(rows, p.id, ProductKey))
  {
    var listed := ListProducts(rows, req.user, req.query);
    assert forall x :: x in listed ==> x in rows;
    OwnerDestroyFinds(rows, listed, req.user, p);
  }

  /** The lookup half of `OwnerDestroySucceeds`, for any listing drawn from a table with unique slugs. */
  lemma OwnerDestroyFinds(rows: seq<Product>, listed: seq<Product>, user: Requester, p: Product)
    requires ColumnUnique(rows, ProductSlug)
    requires forall x :: x in listed ==> x in rows
    requires user.SignedIn? && (user.IsStaff() || p.createdBy == Some(user.id))
    requires p in listed
    ensures DestroyOutcome(rows, listed, user, p.slug) == Success(Delete(rows, p.id, ProductKey))
  {
    ProductAccess(Destroy, user);
    LookupUnique(rows, listed, p);
    ProductObjectAccess(Destroy, DELETE, user, p.createdBy);
  }

  /** `list`: open to everyone, so every request is answered with the listing. */
  function ListOutcome(rows: seq<Product>, req: Request): (r: Result<seq<Product>, ApiError>)
    ensures r == Success(ListProducts(rows, req.user, req.query))
  {
    ProductAccess(List, req.user);
    match CheckPermissions(ProductPermissions(List), req.user)
    case Some(refusal) => Failure(Refused(refusal))
    case None => Success(ListProducts(rows, req.user, req.query))
  }

  /**
   * `by_category`: an extra action, so it falls under `IsAuthenticated`: a
   * signed-in requester gets the category's listing, an anonymous one is
   * refused as unauthenticated.
   */
  function ByCategoryOutcome(rows: seq<Product>, req: Request, slug: string): (r: Result<seq<Product>, ApiError>)
    ensures req.user.Anonymous? ==> r == Failure(Refused(NotAuthenticated))
    ensures req.user.SignedIn? ==> r == Success(ProductsByCategory(rows, req.user, slug))
  {
    ProductAccess(ByCategory, req.user);
    match CheckPermissions(ProductPermissions(ByCategory), req.user)
    case Some(refusal) => Failure(Refused(refusal))
    case None => Success(ProductsByCategory(rows, req.user, slug))
  }
}
