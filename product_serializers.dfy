/**
 * Write validation for products (apps/products/serializers.py,
 * `ProductCreateUpdateSerializer`): the field validators, the fields a
 * client may write, and what `create` and `update` store.
 */
module ProductSerializers {
  import opened Wrappers
  import opened Text
  import opened Principals
  import opened Tables
  import opened Catalog

  /** The validation messages a client can receive. */
  datatype Message = FieldRequired | FieldBlank | NameEmpty | PriceNotPositive | StockNegative | CategoryDoesNotExist

  /** `validate_price`: a price must be strictly positive; an accepted price is returned unchanged. */
  function ValidatePrice(value: int): (r: Result<int, Message>)
    ensures r.Success? <==> value > 0
    ensures r.Success? ==> r.value == value
    ensures r.Failure? ==> r.error == PriceNotPositive
  {
    if value <= 0 then Failure(PriceNotPositive) else Success(value)
  }

  /** `validate_stock_quantity`: a stock must not be negative (zero is accepted); an accepted value is returned unchanged. */
  function ValidateStockQuantity(value: int): (r: Result<int, Message>)
    ensures r.Success? <==> value >= 0
    ensures r.Success? ==> r.value == value
    ensures r.Failure? ==> r.error == StockNegative
  {
    if value < 0 then Failure(StockNegative) else Success(value)
  }

  /** `validate_name`: a whitespace-only name is refused; otherwise the stripped name is returned. */
  function ValidateName(value: string): (r: Result<string, Message>)
    ensures r.Failure? <==> AllSpace(value)
    ensures r.Failure? ==> r.error == NameEmpty
    ensures r.Success? ==> r.value == Strip(value) && r.value != []
    ensures r.Success? ==> !IsSpace(r.value[0]) && !IsSpace(r.value[|r.value| - 1])
  {
    if Strip(value) == [] then Failure(NameEmpty) else Success(Strip(value))
  }

  /** Validating the name `validate_name` returned gives the same name back. */
  lemma ValidateNameIdempotent(value: string)
    requires ValidateName(value).Success?
    ensures ValidateName(ValidateName(value).value) == ValidateName(value)
  {
    StripIdempotent(value);
  }

  /**
   * DRF's `CharField` (the serializer field for `name` and `description`),
   * which runs before `validate_name`: it strips the value and refuses one
   * that is then empty.
   */
  function CharFieldValue(raw: string): (r: Result<string, Message>)
    ensures r.Failure? <==> AllSpace(raw)
    ensures r.Failure? ==> r.error == FieldBlank
    ensures r.Success? ==> r.value == Strip(raw)
  {
    if Strip(raw) == [] then Failure(FieldBlank) else Success(Strip(raw))
  }

  /** The `name` field: the CharField step, then `validate_name`. */
  function NameFieldValue(raw: string): Result<string, Message> {
    match CharFieldValue(raw)
    case Failure(e) => Failure(e)
    case Success(v) => ValidateName(v)
  }

  /**
   * Because the CharField step has already stripped and refused blank
   * names, `validate_name` never refuses and never changes what reaches it.
   */
  lemma NameFieldBlankIsCaughtFirst(raw: string)
    ensures AllSpace(raw) ==> NameFieldValue(raw) == Failure(FieldBlank)
    ensures !AllSpace(raw) ==> NameFieldValue(raw) == Success(Strip(raw))
  {
    if !AllSpace(raw) {
      StripIdempotent(raw);
    }
  }

  /**
   * The data a client may send: exactly the serializer's `Meta.fields`.
   * An absent field is `None`; `category` and `image` may also be sent as null.
   */
  datatype ProductInput = ProductInput(
    name: Option<string>,
    description: Option<string>,
    priceCents: Option<int>,
    category: Option<Option<string>>,
    stockQuantity: Option<int>,
    image: Option<Option<string>>,
    isActive: Option<bool>)

  /** A field of `ProductCreateUpdateSerializer.Meta.fields`; `WireName` is its key in requests and error responses. */
  datatype InputField = NameField | DescriptionField | PriceField | CategoryField | StockQuantityField | ImageField | IsActiveField

  function WireName(f: InputField): string {
    match f
    case NameField => "name"
    case DescriptionField => "description"
    case PriceField => "price"
    case CategoryField => "category"
    case StockQuantityField => "stock_quantity"
    case ImageField => "image"
    case IsActiveField => "is_active"
  }

  /**
   * The error each validated field reports, if any: a missing required
   * field (the model fields `name`, `description` and `price` have no
   * default, so they are required unless the update is partial), or its
   * validator's message.
   */
  function NameError(d: ProductInput, partial: bool): Option<Message> {
    match d.name
    case None => if partial then None else Some(FieldRequired)
    case Some(raw) => match NameFieldValue(raw) case Failure(e) => Some(e) case Success(_) => None
  }

  function DescriptionError(d: ProductInput, partial: bool): Option<Message> {
    match d.description
    case None => if partial then None else Some(FieldRequired)
    case Some(raw) => match CharFieldValue(raw) case Failure(e) => Some(e) case Success(_) => None
  }

  function PriceError(d: ProductInput, partial: bool): Option<Message> {
    match d.priceCents
    case None => if partial then None else Some(FieldRequired)
    case Some(v) => match ValidatePrice(v) case Failure(e) => Some(e) case Success(_) => None
  }

  function StockQuantityError(d: ProductInput): Option<Message> {
    match d.stockQuantity
    case None => None
    case Some(v) => match ValidateStockQuantity(v) case Failure(e) => Some(e) case Success(_) => None
  }

  /**
   * The `category` field (a primary-key related field over every stored
   * category): a sent reference must name a stored category; null is
   * allowed, and the field is optional. `categories` holds the slugs of
   * the stored categories.
   */
  function CategoryError(d: ProductInput, categories: set<string>): (r: Option<Message>)
    ensures r.Some? <==> d.category.Some? && d.category.value.Some? && d.category.value.value !in categories
    ensures r.Some? ==> r.value == CategoryDoesNotExist
  {
    match d.category
    case Some(Some(slug)) => if slug in categories then None else Some(CategoryDoesNotExist)
    case _ => None
  }

  /** Field errors are collected over all fields (none stops the others), keyed by field. */
  function ValidationErrors(d: ProductInput, partial: bool, categories: set<string>): (r: map<InputField, Message>)
    ensures NameField in r <==> NameError(d, partial).Some?
    ensures DescriptionField in r <==> DescriptionError(d, partial).Some?
    ensures PriceField in r <==> PriceError(d, partial).Some?
    ensures StockQuantityField in r <==> StockQuantityError(d).Some?
    ensures CategoryField in r <==> CategoryError(d, categories).Some?
    ensures NameField in r ==> r[NameField] == NameError(d, partial).value
    ensures DescriptionField in r ==> r[DescriptionField] == DescriptionError(d, partial).value
    ensures PriceField in r ==> r[PriceField] == PriceError(d, partial).value
    ensures StockQuantityField in r ==> r[StockQuantityField] == StockQuantityError(d).value
    ensures CategoryField in r ==> r[CategoryField] == CategoryDoesNotExist
    /** the fields without a check of their own report nothing */
    ensures ImageField !in r && IsActiveField !in r
  {
    var name, description, price, stock := NameError(d, partial), DescriptionError(d, partial), PriceError(d, partial), StockQuantityError(d);
    var category := CategoryError(d, categories);
    var m0: map<InputField, Message> := if name.Some? then map[NameField := name.value] else map[];
    var m1 := if description.Some? then m0[DescriptionField := description.value] else m0;
    var m2 := if price.Some? then m1[PriceField := price.value] else m1;
    var m3 := if category.Some? then m2[CategoryField := category.value] else m2;
    if stock.Some? then m3[StockQuantityField := stock.value] else m3
  }

  /** Every field's check accepted the input. */
  predicate Accepted(d: ProductInput, partial: bool, categories: set<string>) {
    NameError(d, partial).None? && DescriptionError(d, partial).None?
    && PriceError(d, partial).None? && StockQuantityError(d).None?
    && CategoryError(d, categories).None?
  }

  /** What acceptance means for each field. */
  lemma AcceptedFields(d: ProductInput, partial: bool, categories: set<string>)
    requires Accepted(d, partial, categories)
    ensures d.name.Some? ==> Strip(d.name.value) != []
    ensures d.description.Some? ==> Strip(d.description.value) != []
    ensures d.priceCents.Some? ==> d.priceCents.value > 0
    ensures d.stockQuantity.Some? ==> d.stockQuantity.value >= 0
    ensures d.category.Some? && d.category.value.Some? ==> d.category.value.value in categories
    ensures !partial ==> Complete(d)
  {
    if d.name.Some? {
      assert CharFieldValue(d.name.value).Success?;
    }
  }

  /** The validated data: what was sent, with `name` and `description` stripped by their CharFields. */
  function Cleaned(d: ProductInput): (r: ProductInput)
    ensures r.name.Some? == d.name.Some? && r.description.Some? == d.description.Some?
    ensures r.name.Some? ==> r.name.value == Strip(d.name.value)
    ensures r.description.Some? ==> r.description.value == Strip(d.description.value)
    ensures r.priceCents == d.priceCents && r.stockQuantity == d.stockQuantity
    ensures r.category == d.category && r.image == d.image && r.isActive == d.isActive
  {
    d.(name := if d.name.Some? then Some(Strip(d.name.value)) else None,
       description := if d.description.Some? then Some(Strip(d.description.value)) else None)
  }

  /** `is_valid()`: the validated data, or every field's error. */
  function Validate(d: ProductInput, partial: bool, categories: set<string>): (r: Result<ProductInput, map<InputField, Message>>)
    ensures r.Failure? <==> !Accepted(d, partial, categories)
    ensures r.Failure? ==> r.error != map[] && r.error == ValidationErrors(d, partial, categories)
    ensures r.Success? ==> r.value == Cleaned(d)
    ensures r.Success? && r.value.priceCents.Some? ==> r.value.priceCents.value > 0
    ensures r.Success? && r.value.stockQuantity.Some? ==> r.value.stockQuantity.value >= 0
    ensures r.Success? && r.value.category.Some? && r.value.category.value.Some? ==> r.value.category.value.value in categories
    ensures r.Success? && r.value.name.Some? ==> r.value.name.value != [] && r.value.name.value == Strip(d.name.value)
    ensures r.Success? && r.value.description.Some? ==> r.value.description.value != []
    ensures r.Success? && !partial ==> Complete(r.value)
  {
    if !Accepted(d, partial, categories) then
      Failure(ValidationErrors(d, partial, categories))
    else
      AcceptedFields(d, partial, categories);
      Success(Cleaned(d))
  }

  /** A price of zero or below is refused with an error on the `price` field, whatever else is sent. */
  lemma NonPositivePriceRejected(d: ProductInput, partial: bool, categories: set<string>)
    requires d.priceCents.Some? && d.priceCents.value <= 0
    ensures Validate(d, partial, categories).Failure?
    ensures PriceField in Validate(d, partial, categories).error
         && Validate(d, partial, categories).error[PriceField] == PriceNotPositive
  {
    assert PriceError(d, partial) == Some(PriceNotPositive);
  }

  /** A negative stock is refused with an error on the `stock_quantity` field. */
  lemma NegativeStockRejected(d: ProductInput, partial: bool, categories: set<string>)
    requires d.stockQuantity.Some? && d.stockQuantity.value < 0
    ensures Validate(d, partial, categories).Failure?
    ensures StockQuantityField in Validate(d, partial, categories).error
         && Validate(d, partial, categories).error[StockQuantityField] == StockNegative
  {
    assert StockQuantityError(d) == Some(StockNegative);
  }

  /** A reference to a category that is not stored is refused with an error on the `category` field. */
  lemma UnknownCategoryRejected(d: ProductInput, partial: bool, categories: set<string>)
    requires d.category.Some? && d.category.value.Some? && d.category.value.value !in categories
    ensures Validate(d, partial, categories).Failure?
    ensures CategoryField in Validate(d, partial, categories).error
         && Validate(d, partial, categories).error[CategoryField] == CategoryDoesNotExist
  {
    assert CategoryError(d, categories) == Some(CategoryDoesNotExist);
  }

  /** The serializer context: no request, or a request whose `user` is the requester. */
  datatype Context = NoRequest | WithRequest(user: Requester)

  /** Errors raised while saving, which the view does not catch (the client sees a server error). */
  datatype SaveError = AnonymousCreator | Integrity(cause: IntegrityError)

  /** A fully validated input: every required field is present. */
  predicate Complete(d: ProductInput) {
    d.name.Some? && d.description.Some? && d.priceCents.Some?
  }

  /** `Product(**validated_data)`: the given fields, the model defaults for the rest, and a blank slug. */
  function NewRow(d: ProductInput, id: nat, createdBy: Option<UserId>): Product
    requires Complete(d)
  {
    Product(id, d.name.value, "", d.description.value, d.priceCents.value,
            d.category.GetOr(None), d.stockQuantity.GetOr(0), d.image.GetOr(None),
            d.isActive.GetOr(true), createdBy, 0, 0)
  }

  /** Some row other than the one with primary key `id` already has `slug`. */
  predicate SlugTaken(rows: seq<Product>, id: nat, slug: string) {
    exists i :: 0 <= i < |rows| && rows[i].id != id && rows[i].slug == slug
  }

  /**
   * What `create` stores: `created_by` is the request's user when there is
   * a request (assigning the anonymous user to the foreign key fails), and
   * is left unset otherwise; the new row is then saved.
   */
  function CreateResult(ctx: Context, d: ProductInput, rows: seq<Product>, id: nat,
                        slugify: string -> string, now: int): (r: Result<(seq<Product>, Product), SaveError>)
    requires Complete(d)
    ensures r == Failure(AnonymousCreator) <==> ctx.WithRequest? && ctx.user.Anonymous?
    ensures r.Failure? && r.error.Integrity? ==> r.error.cause == UniqueViolation("slug")
    ensures r.Failure? && r.error.Integrity? <==>
      !(ctx.WithRequest? && ctx.user.Anonymous?) && SlugTaken(rows, id, slugify(d.name.value))
    ensures r.Success? <==> !(ctx.WithRequest? && ctx.user.Anonymous?) && !SlugTaken(rows, id, slugify(d.name.value))
    ensures r.Success? ==> r.value.1 in r.value.0 && r.value.1.id == id
  {
    if ctx.WithRequest? && ctx.user.Anonymous? then Failure(AnonymousCreator)
    else
      var createdBy := if ctx.WithRequest? then Some(ctx.user.id) else None;
      var saved := SavedProduct(NewRow(d, id, createdBy), true, slugify, now);
      match PersistProduct(rows, saved)
      case Failure(e) => Failure(Integrity(e))
      case Success(stored) => Success((stored, saved))
  }

  /** `ProductCreateUpdateSerializer.create` */
  method Create(ctx: Context, d: ProductInput, rows: seq<Product>, id: nat, slugify: string -> string, now: int)
    returns (r: Result<(seq<Product>, Product), SaveError>)
    requires Complete(d)
    ensures r == CreateResult(ctx, d, rows, id, slugify, now)
  {
    var createdBy: Option<UserId> := None;
    if ctx.WithRequest? {
      if ctx.user.Anonymous? {
        return Failure(AnonymousCreator);
      }
      createdBy := Some(ctx.user.id);
    }
    var instance := new ProductInstance(NewRow(d, id, createdBy), true);
    var written := instance.Save(rows, slugify, now);
    match written
    case Failure(e) => r := Failure(Integrity(e));
    case Success(stored) => r := Success((stored, instance.fields));
  }

  /** A created product belongs to the requesting user, takes the slugified name, and is active unless told otherwise. */
  lemma CreateSetsOwnerAndSlug(ctx: Context, d: ProductInput, rows: seq<Product>, id: nat, slugify: string -> string, now: int)
    requires Complete(d)
    requires CreateResult(ctx, d, rows, id, slugify, now).Success?
    ensures var p := CreateResult(ctx, d, rows, id, slugify, now).value.1;
      && p.createdBy == (if ctx.WithRequest? then Some(ctx.user.id) else None)
      && p.slug == slugify(d.name.value)
      && p.id == id && p.createdAt == now && p.updatedAt == now
      && p.isActive == d.isActive.GetOr(true)
      && p.stockQuantity == d.stockQuantity.GetOr(0)
      && p.category == d.category.GetOr(None)
  {
  }

  /** A created product is stored and the table stays valid. */
  lemma CreateKeepsProductsValid(ctx: Context, d: ProductInput, rows: seq<Product>, id: nat, slugify: string -> string, now: int)
    requires Complete(d) && ProductsValid(rows)
    requires CreateResult(ctx, d, rows, id, slugify, now).Success?
    ensures ProductsValid(CreateResult(ctx, d, rows, id, slugify, now).value.0)
    ensures CreateResult(ctx, d, rows, id, slugify, now).value.1 in CreateResult(ctx, d, rows, id, slugify, now).value.0
    ensures forall q :: q in rows && q.id != id ==> q in CreateResult(ctx, d, rows, id, slugify, now).value.0
  {
    var createdBy := if ctx.WithRequest? then Some(ctx.user.id) else None;
    PersistKeepsProductsValid(rows, SavedProduct(NewRow(d, id, createdBy), true, slugify, now));
  }

  /**
   * `setattr(instance, attr, value)` for every validated field: only the
   * writable fields can change, so the id, slug, owner and timestamps are
   * kept.
   */
  function Updated(p: Product, d: ProductInput): (r: Product)
    ensures r.id == p.id && r.slug == p.slug && r.createdBy == p.createdBy
    ensures r.createdAt == p.createdAt && r.updatedAt == p.updatedAt
  {
    p.(name := d.name.GetOr(p.name),
       description := d.description.GetOr(p.description),
       priceCents := d.priceCents.GetOr(p.priceCents),
       category := d.category.GetOr(p.category),
       stockQuantity := d.stockQuantity.GetOr(p.stockQuantity),
       image := d.image.GetOr(p.image),
       isActive := d.isActive.GetOr(p.isActive))
  }

  /**
   * What `update` stores: the fields set, then the instance saved. The only
   * way it fails is a slug clash; on success the saved row, with the
   * instance's id, is in the table.
   */
  function UpdateResult(p: Product, d: ProductInput, rows: seq<Product>, slugify: string -> string, now: int)
    : (r: Result<(seq<Product>, Product), SaveError>)
    ensures r.Failure? ==> r.error == Integrity(UniqueViolation("slug"))
    ensures r.Success? ==> r.value.1 in r.value.0 && r.value.1.id == p.id
  {
    var saved := SavedProduct(Updated(p, d), false, slugify, now);
    match PersistProduct(rows, saved)
    case Failure(e) => Failure(Integrity(e))
    case Success(stored) => Success((stored, saved))
  }

  /** `ModelSerializer.update`: set each validated attribute on the instance, then save it. */
  method Update(instance: ProductInstance, d: ProductInput, rows: seq<Product>, slugify: string -> string, now: int)
    returns (r: Result<(seq<Product>, Product), SaveError>)
    requires !instance.adding
    modifies instance
    ensures r == UpdateResult(old(instance.fields), d, rows, slugify, now)
    ensures instance.fields == SavedProduct(Updated(old(instance.fields), d), false, slugify, now)
    ensures !instance.adding
  {
    instance.fields := Updated(instance.fields, d);
    var written := instance.Save(rows, slugify, now);
    match written
    case Failure(e) => r := Failure(Integrity(e));
    case Success(stored) => r := Success((stored, instance.fields));
  }

  /**
   * A client cannot change the id, the owner, the creation time, or a
   * slug that is already set: an update keeps them whatever it carries.
   */
  lemma UpdateKeepsProtectedFields(p: Product, d: ProductInput, rows: seq<Product>, slugify: string -> string, now: int)
    requires UpdateResult(p, d, rows, slugify, now).Success?
    ensures var q := UpdateResult(p, d, rows, slugify, now).value.1;
      && q.id == p.id && q.createdBy == p.createdBy && q.createdAt == p.createdAt
      && q.updatedAt == now
      && (p.slug != "" ==> q.slug == p.slug)
  {
  }

  /** An update changes exactly the fields it carries. */
  lemma UpdateSetsCarriedFields(p: Product, d: ProductInput, rows: seq<Product>, slugify: string -> string, now: int)
    requires UpdateResult(p, d, rows, slugify, now).Success?
    ensures var q := UpdateResult(p, d, rows, slugify, now).value.1;
      && q.name == d.name.GetOr(p.name)
      && q.description == d.description.GetOr(p.description)
      && q.priceCents == d.priceCents.GetOr(p.priceCents)
      && q.stockQuantity == d.stockQuantity.GetOr(p.stockQuantity)
      && q.category == d.category.GetOr(p.category)
      && q.isActive == d.isActive.GetOr(p.isActive)
      && q.image == d.image.GetOr(p.image)
  {
  }

  /** Setting the same validated fields twice is setting them once. */
  lemma UpdatedIdempotent(p: Product, d: ProductInput)
    ensures Updated(Updated(p, d), d) == Updated(p, d)
  {
  }

  /** Input carrying no fields leaves the instance as it was. */
  lemma UpdatedWithNothing(p: Product)
    ensures Updated(p, ProductInput(None, None, None, None, None, None, None)) == p
  {
  }
}
