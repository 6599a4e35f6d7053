# E-commerce catalogue and accounts: a Dafny model

This project models the decision rules of a Django REST Framework
e-commerce backend and proves properties of them. It covers two apps.

- **Products**: the `Product` and `Category` records, with their derived
  stock attributes, the slug default applied on save, and a category's
  count of active products. It also covers the listing filters
  (category, price range, stock), search, the whitelisted ordering, who
  sees which rows, the write validators, the owner-or-staff permission,
  and how each viewset action picks its permissions and serializer. The
  `create`, `update`, `partial_update`, `destroy`, `retrieve` and
  `by_category` pipelines are modelled end to end.
- **Accounts**: the `User` record's `full_name` and display string.
  Registration is modelled with its field checks, the password match,
  the lower-cased and unique email, and the defaults `create` stores.
  Login covers every branch of `validate`. The profile update's email
  check skips the current user. The password change covers the old
  password check, the new password match, and the hashed password
  `save` stores.

The database is a sequence of rows (`seq<Product>`, `seq<User>`).
`save()` inserts or updates a row by primary key, and is refused when it
would break a `unique=True` column. Model instances whose fields
`save()` or `set_password()` change in place are classes. These are
`Catalog.ProductInstance`, `Catalog.CategoryInstance` and
`Accounts.UserInstance`. Everything else is a function over values.
Prices are whole cents. A product's category is the slug of the
referenced category, or none. An owner is a user id, or none.

Framework code is passed in as function-typed parameters:

- `slugify`;
- the password validators (`validate_password`);
- `make_password` (the hash `set_password` stores);
- `check_password`;
- `authenticate`.

The clock (`now`) and the fresh primary key of a new row are parameters
too. So is the set of stored category slugs, which the `category` field
checks a sent reference against.

Modules, one per concern:

| module | file | what it holds |
|---|---|---|
| Wrappers | wrappers.dfy | `Option`, `Result` |
| Text | text.dfy | Python's `strip()` and (ASCII) `lower()`; `iexact` and `icontains` |
| Selection | selection.dfy | order-preserving selection, the meaning of `.filter()` |
| Tables | tables.dfy | insert-or-update by key, unique columns, `IntegrityError` |
| Principals | principals.dfy | `request.user`: anonymous, or signed in with `is_staff` |
| Catalog | catalog.dfy | apps/products/models.py |
| Filters | filters.dfy | `ProductFilter` and the `SearchFilter` match |
| Ordering | ordering.dfy | `OrderingFilter`: parse, whitelist, default, sort |
| ProductSerializers | product_serializers.dfy | apps/products/serializers.py |
| Permissions | permissions.dfy | `IsOwnerOrReadOnly` and DRF's permission checks |
| ProductViews | product_views.dfy | apps/products/views.py |
| Accounts | accounts.dfy | apps/authentication/models.py |
| AccountSerializers | account_serializers.dfy | apps/authentication/serializers.py |

Behaviour of the code that a reader might not expect:

- Slugs get no collision suffix. Two products with the same name get the
  same slug, and the second save is refused by the unique constraint
  (apps/products/models.py:89-92). `Catalog.NoSlugSuffix` proves this.
- `get_queryset` shows inactive products to staff only, not to their
  owner (apps/products/views.py:141-142).
- `by_category` is not in the `list`/`retrieve` branch of
  `get_permissions`, so it requires a signed-in user
  (apps/products/views.py:126-131). It also uses the detail serializer
  (apps/products/views.py:116-122).

Points about the framework that the model makes explicit:

- DRF's `CharField` strips the value and refuses a blank one before
  `validate_name` runs. So in the pipeline `validate_name` never refuses
  and never changes its input (`ProductSerializers.NameFieldBlankIsCaughtFirst`).
- The login fields are required and may not be blank. So `validate`'s
  "Must include" branch cannot be reached through `is_valid()`
  (`AccountSerializers.LoginOutcomes`).
- Passwords are stripped by their `CharField`s before they are compared.

## Model

| member | source | states |
|---|---|---|
| Text.Strip | apps/products/serializers.py:75-77 | Python's `strip()`: a contiguous slice of the input with only whitespace before and after it; empty exactly when the input is all whitespace, otherwise no whitespace at either end |
| Text.StripIsMiddleSlice | apps/products/serializers.py:75-77 | the stripped value is `s[i..j]` for some bounds with only whitespace outside them |
| Text.StripIdempotent | apps/products/serializers.py:77 | stripping a stripped string changes nothing |
| Text.StripAppendSpace | apps/authentication/models.py:30 | trailing whitespace does not change the strip |
| Text.StripPrependSpace | apps/authentication/models.py:30 | leading whitespace does not change the strip |
| Text.AllSpaceConcat | apps/authentication/models.py:30 | a concatenation is all whitespace exactly when both parts are |
| Text.Lower | apps/authentication/serializers.py:44-46 | `lower()` changes each ASCII capital to its small letter and keeps every other character |
| Text.LowerIdempotent | apps/authentication/serializers.py:46 | lower-casing twice is lower-casing once |
| Text.Contains | apps/products/views.py:111 | substring search: true exactly when the term occurs at some position |
| Selection.Select | apps/products/filters.py:22-23 | `.filter()`: keeps exactly the elements satisfying the condition, never more elements |
| Selection.SelectIsSubsequence | apps/products/filters.py:22-23 | a selection keeps the input's relative order |
| Selection.SelectSelect | apps/products/filters.py:10-12 | chaining two filters is one filter by the conjunction |
| Selection.SelectIdempotent | apps/products/filters.py:22-23 | filtering twice by the same condition is filtering once |
| Selection.SelectCommutes | apps/products/filters.py:10-12 | the order in which two filters are chained does not matter |
| Selection.SelectAppend | apps/products/models.py:36 | filtering a table with one more row adds that row exactly when it passes |
| Selection.SelectPartition | apps/products/filters.py:19-23 | a condition and its negation split a table into two parts holding every row once |
| Tables.Upsert | apps/products/models.py:92 | `save()` writes the row, keeps every row with another key, replaces the row with the same key or appends a new one |
| Tables.UpsertKeepsKeysUnique | apps/products/models.py:92 | after a save there is still one row per primary key, and the saved row is the only one with its key |
| Tables.UpsertKeepsColumnUnique | apps/products/models.py:45 | a save that does not clash keeps a unique column unique |
| Tables.Delete | apps/products/views.py:224-225 | `delete()` keeps exactly the rows with another key |
| Catalog.AvailabilityStatus | apps/products/models.py:99-106 | "Out of Stock" iff the stock is 0, "Low Stock" iff it is nonzero and below 10, "In Stock" iff it is 10 or more |
| Catalog.InStock | apps/products/models.py:94-97 | `in_stock` never holds for an "Out of Stock" product, holds for every non-negative stock not so labelled, and never for a negative stock |
| Catalog.InStockAgreesWithStatus | apps/products/models.py:94-106 | for a non-negative stock, `in_stock` is false exactly when the status is "Out of Stock" |
| Catalog.NegativeStockIsLowStock | apps/products/models.py:94-106 | a negative stock is not in stock and yet reported as "Low Stock" |
| Catalog.PersistProduct | apps/products/models.py:45 | the write is refused, naming the slug column, exactly when another row has the same slug |
| Catalog.PersistKeepsProductsValid | apps/products/models.py:43-45 | a successful write keeps ids and slugs unique, stores the product and keeps every other row |
| Catalog.ProductInstance.Save | apps/products/models.py:89-92 | a blank slug becomes `slugify(name)` and a set one is kept; the timestamps are set; the row is written; the instance stops being new once written |
| Catalog.SaveTwiceKeepsSlug | apps/products/models.py:89-92 | saving a second time leaves the slug the first save set |
| Catalog.NoSlugSuffix | apps/products/models.py:89-92 | two new products with the same name and a blank slug clash: the second write is refused |
| Catalog.PersistCategory | apps/products/models.py:13-14 | a category write is refused exactly when another row has its name or its slug |
| Catalog.PersistKeepsCategoriesValid | apps/products/models.py:12-14 | a successful write keeps ids, names and slugs unique, stores the category, keeps every other row and adds nothing else |
| Catalog.CategoryInstance.Save | apps/products/models.py:28-31 | the same slug rule as for products, then the write |
| Catalog.ProductCount | apps/products/models.py:33-36 | `product_count` never exceeds the number of rows |
| Catalog.ProductCountAppend | apps/products/models.py:33-36 | a new product raises the count by one exactly when it is active and in the category |
| Catalog.ProductCountIgnoresInactive | apps/products/models.py:36 | inactive products never count |
| Filters.FilterCategory | apps/products/filters.py:10 | keeps, in order, exactly the products whose category slug equals the value ignoring case; uncategorised products are dropped |
| Filters.FilterMinPrice | apps/products/filters.py:11 | keeps, in order, exactly the products priced at or above the value |
| Filters.FilterMaxPrice | apps/products/filters.py:12 | keeps, in order, exactly the products priced at or below the value |
| Filters.FilterInStock | apps/products/filters.py:19-23 | `true` keeps exactly the positive stocks, `false` exactly the zero stocks, in order |
| Filters.ApplyFilters | apps/products/filters.py:10-23 | the filter set never adds rows: every row kept is a stored row matching every given parameter |
| Filters.BlankCategoryIgnored | apps/products/filters.py:10 | a whitespace-only `category` value filters nothing, as if it were absent |
| Filters.ApplyFiltersIsConjunction | apps/products/filters.py:10-17 | the chained filter set is one selection by the conjunction of the given parameters |
| Filters.ApplyFiltersExact | apps/products/filters.py:10-17 | the filter set keeps, in order, exactly the rows matching every given parameter |
| Filters.ApplyFiltersIdempotent | apps/products/filters.py:10-23 | filtering the result again by the same parameters changes nothing |
| Filters.InvertedPriceRangeIsEmpty | apps/products/filters.py:11-12 | a minimum above the maximum selects nothing |
| Filters.NegativeStockInNeither | apps/products/filters.py:21-23 | a negative-stock row is in neither `in_stock` result |
| Filters.InStockSplitsNonNegativeStock | apps/products/filters.py:19-23 | with no negative stock, the two `in_stock` results hold every row exactly once |
| Filters.Search | apps/products/views.py:109-111 | keeps, in order, exactly the rows where every search term occurs in the name or the description ignoring case; no terms keeps all |
| Ordering.FieldNamed | apps/products/views.py:112 | exactly name, price, created_at and stock_quantity are orderable |
| Ordering.ParseTerm | apps/products/views.py:112 | a term is a whitelisted field, ascending, or the same after "-", descending; anything else is ignored |
| Ordering.ValidKeys | apps/products/views.py:112 | the honoured keys are exactly the valid terms requested; none exactly when no term is valid |
| Ordering.ValidKeysConcat | apps/products/views.py:112 | the keys of two term lists joined are the keys of each, in that order |
| Ordering.ValidKeysAppend | apps/products/views.py:112 | one more term adds its key at the end exactly when it is valid |
| Ordering.ResolveOrdering | apps/products/views.py:112-113 | the valid keys in the order requested, repeats kept, when there is one; `-created_at` when none is valid |
| Ordering.EmptyParamGivesDefault | apps/products/views.py:113 | an empty `ordering=` gives newest first |
| Ordering.SplitOnComma | apps/products/views.py:112 | one piece more than there are commas, no piece holds a comma, and joining the pieces with commas gives the parameter back |
| Ordering.SplitJoin | apps/products/views.py:112 | splitting pieces joined with commas gives the pieces back |
| Ordering.OrderingTermsOfFields | apps/products/views.py:112 | a parameter made of comma-free fields gives one term per field, each the stripped field |
| Ordering.TextCmp | apps/products/views.py:112 | comparing two texts gives -1, 0 or 1, and 0 exactly when they are equal |
| Ordering.LeTotal | apps/products/views.py:112-113 | any two rows are comparable under any ordering |
| Ordering.LeTrans | apps/products/views.py:112-113 | the ordering is transitive |
| Ordering.Sort | apps/products/views.py:109-113 | the result is sorted by the keys and is a permutation of the input |
| Ordering.SortByPrice | apps/products/views.py:112 | `price` lists non-decreasing prices, `-price` non-increasing ones |
| Ordering.DefaultOrderingIsNewestFirst | apps/products/views.py:113 | a listing in the default ordering has non-increasing creation times |
| ProductSerializers.ValidatePrice | apps/products/serializers.py:61-65 | refuses exactly the prices at or below zero; an accepted price is unchanged |
| ProductSerializers.ValidateStockQuantity | apps/products/serializers.py:67-71 | refuses exactly the negative stocks; zero is accepted; an accepted value is unchanged |
| ProductSerializers.ValidateName | apps/products/serializers.py:73-77 | refuses exactly the whitespace-only names; otherwise returns the stripped, non-empty name |
| ProductSerializers.ValidateNameIdempotent | apps/products/serializers.py:77 | validating the returned name returns it again |
| ProductSerializers.CharFieldValue | apps/products/serializers.py:58 | the `CharField` for `name` and `description`: refuses exactly the whitespace-only values, otherwise gives the stripped value |
| ProductSerializers.NameFieldBlankIsCaughtFirst | apps/products/serializers.py:73-77 | blank names are refused by the field before `validate_name`, which then never refuses |
| ProductSerializers.ValidationErrors | apps/products/serializers.py:56-77 | one error per failing field, under that field's key, including a `category` that names no stored category; image and is_active report none |
| ProductSerializers.AcceptedFields | apps/products/serializers.py:58-77 | data passing every field check has non-blank texts, a positive price, a non-negative stock and, unless partial, every required field |
| ProductSerializers.Cleaned | apps/products/serializers.py:73-77 | the validated data: texts stripped, every other field as sent |
| ProductSerializers.Validate | apps/products/serializers.py:56-77 | refused exactly when a field check fails, with every field's error; accepted data has a positive price, a non-negative stock, stripped non-empty texts, a stored category or none, and every required field unless partial |
| ProductSerializers.NonPositivePriceRejected | apps/products/serializers.py:61-65 | a price at or below zero is always refused on the `price` key |
| ProductSerializers.NegativeStockRejected | apps/products/serializers.py:67-71 | a negative stock is always refused on the `stock_quantity` key |
| ProductSerializers.UnknownCategoryRejected | apps/products/serializers.py:56-59 | a category that is not stored is always refused on the `category` key |
| ProductSerializers.Create | apps/products/serializers.py:79-84 | stores the row `create` builds: owner from the request's user, or none without a request |
| ProductSerializers.CreateSetsOwnerAndSlug | apps/products/serializers.py:79-84 | a created product belongs to the requester, takes the slugified name and the sent category, and gets the model defaults |
| ProductSerializers.CreateKeepsProductsValid | apps/products/serializers.py:84 | a created product is stored and the table stays valid |
| ProductSerializers.CreateResult | apps/products/serializers.py:79-84 | an anonymous requester is refused exactly when there is a request; otherwise the database refuses, naming the slug, exactly when another row has the slugified name, and the create succeeds exactly when none has; a success stores the row under the given id |
| ProductSerializers.Update | apps/products/serializers.py:56-59 | the instance gets the validated fields, then is saved |
| ProductSerializers.Updated | apps/products/serializers.py:56-59 | setting the validated fields keeps the id, slug, owner and both timestamps |
| ProductSerializers.UpdatedIdempotent | apps/products/serializers.py:56-59 | setting the same validated data twice is setting it once |
| ProductSerializers.UpdatedWithNothing | apps/products/serializers.py:56-59 | validated data carrying no field leaves the product unchanged |
| ProductSerializers.UpdateResult | apps/products/serializers.py:56-59 | a refused update names the slug column; a successful one stores a row with the product's id |
| ProductSerializers.UpdateKeepsProtectedFields | apps/products/serializers.py:49-59 | an update keeps the id, owner, creation time and a set slug |
| ProductSerializers.UpdateSetsCarriedFields | apps/products/serializers.py:58-59 | an update sets each carried field (name, description, price, category, stock, image, is_active) and keeps each field it does not carry |
| Permissions.OrphanWritableOnlyByStaff | apps/products/permissions.py:20 | an object without an owner is writable only by staff |
| Permissions.AnonymousNeverWrites | apps/products/permissions.py:20 | an anonymous user never writes |
| Permissions.CheckPermissions | apps/products/views.py:124-132 | no refusal iff every class allows; a refusal is "not authenticated" for an anonymous user, "denied" otherwise |
| Permissions.CheckObjectPermissions | apps/products/permissions.py:10-20 | no refusal iff every class allows the object |
| Permissions.OwnerOrReadOnly | apps/products/permissions.py:10-20 | safe methods and staff are always allowed; any other write is allowed exactly for the signed-in owner |
| ProductViews.CategoryPermissions | apps/products/views.py:33-39 | list and retrieve allow anyone; every other action is staff only |
| ProductViews.CategoryAccess | apps/products/views.py:33-39 | reads pass for everyone; other category actions pass exactly for staff |
| ProductViews.ProductPermissions | apps/products/views.py:124-132 | reads allow anyone; update, partial_update and destroy need login and the owner rule; any other action needs login |
| ProductViews.ProductAccess | apps/products/views.py:124-132 | reads pass for everyone; every other action passes exactly for a signed-in user |
| ProductViews.ProductObjectAccess | apps/products/views.py:128-129 | only the write actions apply the owner rule to the object |
| ProductViews.SerializerFor | apps/products/views.py:116-122 | list takes the list serializer; create, update and partial_update the write serializer; anything else the detail serializer |
| ProductViews.WriteSerializerNeedsLogin | apps/products/views.py:116-132 | an action using the write serializer is only reached by a signed-in user |
| ProductViews.GetQueryset | apps/products/views.py:134-144 | staff see every row; others see exactly the active rows, in order |
| ProductViews.FilterQuerysetExact | apps/products/views.py:109-113 | the backends keep exactly the rows matching filters and search, sorted by the resolved ordering |
| ProductViews.ListProducts | apps/products/views.py:108-144 | a listing holds exactly the visible rows matching filters and search, sorted by the resolved ordering, never more than the table |
| ProductViews.ListDefaultsToNewestFirst | apps/products/views.py:113 | without `ordering`, a listing is sorted newest first |
| ProductViews.ProductsByCategory | apps/products/views.py:231-234 | exactly the visible rows whose category slug equals the path value, case-sensitively |
| ProductViews.ByCategoryWithinFilter | apps/products/views.py:234 | `by_category`'s rows are among those the case-insensitive `category` filter keeps |
| ProductViews.ByCategoryIsCaseSensitive | apps/products/views.py:234 | a row filed under "Shoes" is found by the filter `shoes` but not by `by-category/shoes` |
| ProductViews.ByCategoryCountsLikeProductCount | apps/products/views.py:234 | for non-staff, `by_category` lists as many rows as the category's `product_count` |
| ProductViews.Lookup | apps/products/views.py:114 | finds a row with the slug, or there is none |
| ProductViews.LookupUnique | apps/products/views.py:114 | with unique slugs the lookup finds the one row with that slug |
| ProductViews.ObjectFor | apps/products/views.py:114 | `get_object` returns a listed row with the slug |
| ProductViews.ObjectForRead | apps/products/views.py:114 | for a read, `get_object` is the lookup in the filtered queryset, and not found without one |
| ProductViews.RetrieveProduct | apps/products/views.py:181-182 | a retrieved product is stored, has the slug and is visible; the only failure is not found |
| ProductViews.ObjectForWriteNeedsOwnerOrStaff | apps/products/views.py:128-129 | getting an object for a write needs a signed-in owner or staff |
| ProductViews.RetrieveExact | apps/products/views.py:181-182 | with unique slugs, a product is retrieved exactly when it is stored, the requester can see it, and it passes the query's filters and search |
| ProductViews.UpdateTarget | apps/products/views.py:205-207 | the object and the validated data come from the lookup and from `is_valid()` |
| ProductViews.PopPartial | apps/products/views.py:204 | the flag is `partial` if given, else false; the key is removed |
| ProductViews.UpdateView | apps/products/views.py:203-209 | `update`, reached by PUT: permission checks, lookup, validation, then save, as one outcome |
| ProductViews.PartialUpdateView | apps/products/views.py:216-218 | `partial_update` is `update` with partial set |
| ProductViews.UpdateOutcome | apps/products/views.py:203-209 | an anonymous update is refused as unauthenticated; a success has a target and stores a row with its id; a server error is the slug clash |
| ProductViews.PutIsFullUpdate | apps/products/views.py:204-207 | a PUT without flags succeeds only with every required field sent |
| ProductViews.UpdateNeedsOwnerOrStaff | apps/products/views.py:203-209 | an update succeeds only for a signed-in owner or staff |
| ProductViews.OwnerUpdateSucceeds | apps/products/views.py:203-209 | an owner's or staff's valid, non-clashing update of a visible row succeeds |
| ProductViews.UpdateKeepsTableAndIdentity | apps/products/views.py:208 | a successful update keeps the table valid and the product's identity |
| ProductViews.CreateView | apps/products/views.py:189-196 | `create` passes the request to the serializer and saves |
| ProductViews.CreateOutcome | apps/products/views.py:189-196 | an anonymous create is refused as unauthenticated; a success stores a row under the fresh id owned by the requester |
| ProductViews.CreateOwnedByRequester | apps/products/views.py:189-196 | a created product belongs to the signed-in requester and, with a fresh id, is appended to the table |
| ProductViews.SignedInCreateSucceeds | apps/products/views.py:189-196 | a signed-in requester with valid data whose slugified name no other row holds creates the product |
| ProductViews.CreatedCategoryIsStored | apps/products/views.py:189-192 | a created product refers to no category or to a stored one |
| ProductViews.UpdatedCategoryIsStored | apps/products/views.py:203-208 | an update of a product that refers to a stored category (or none) leaves it referring to a stored category (or none) |
| ProductViews.DestroyNeedsOwnerOrStaff | apps/products/views.py:224-225 | a delete succeeds only for owner or staff, removes that product and keeps the rest |
| ProductViews.OwnerDestroySucceeds | apps/products/views.py:224-225 | with unique slugs, the owner or staff deleting a product they can see succeeds, and exactly that row is removed |
| ProductViews.DestroyOutcome | apps/products/views.py:224-225 | an anonymous delete is refused as unauthenticated; a success had an object and leaves only stored rows |
| ProductViews.ListOutcome | apps/products/views.py:174-175 | `list` answers everyone with the listing |
| ProductViews.ByCategoryOutcome | apps/products/views.py:231-240 | `by_category` refuses anonymous users and answers signed-in ones with the rows of the category |
| Accounts.FullName | apps/authentication/models.py:27-30 | both names blank gives the username; otherwise the stripped joined name, non-empty and unpadded; non-empty whenever the username is |
| Accounts.FullNameFirstNameOnly | apps/authentication/models.py:30 | with no last name, the full name is the stripped first name |
| Accounts.FullNameLastNameOnly | apps/authentication/models.py:30 | with no first name, the full name is the stripped last name |
| Accounts.DisplayIdentifiesUser | apps/authentication/models.py:24-25 | with unique usernames, two stored users with the same display string are the same user |
| Accounts.PersistUser | apps/authentication/models.py:12 | a user write is refused exactly when another row has its username or email |
| Accounts.PersistKeepsUsersValid | apps/authentication/models.py:11-12 | a successful write keeps ids, usernames and emails unique and stores the user |
| Accounts.RewriteDoesNotClash | apps/authentication/serializers.py:173-178 | re-saving a stored user with the same username and email is never refused |
| Accounts.UserInstance.SetPassword | apps/authentication/serializers.py:176 | only the stored hash changes, to the hash of the raw password |
| Accounts.UserInstance.Save | apps/authentication/models.py:15-16 | the timestamps are set and the row written |
| AccountSerializers.TextField | apps/authentication/serializers.py:12-22 | a required text field: absent is "required", blank is refused unless allowed, the value is stripped |
| AccountSerializers.ValidateEmail | apps/authentication/serializers.py:42-46 | refused exactly when a user has the lower-cased email; otherwise returns it lower-cased |
| AccountSerializers.ValidateEmailExcluding | apps/authentication/serializers.py:129-134 | refused exactly when a user other than the requester has the lower-cased email |
| AccountSerializers.ValidateEmailIgnoresCase | apps/authentication/serializers.py:42-46 | emails differing only in case are judged alike |
| AccountSerializers.ValidateEmailIdempotent | apps/authentication/serializers.py:46 | an accepted email is accepted again unchanged |
| AccountSerializers.OwnEmailAccepted | apps/authentication/serializers.py:129-134 | the requester's own email, in any case, is accepted |
| AccountSerializers.OtherUsersEmailRejected | apps/authentication/serializers.py:129-134 | another user's email, in any case, is refused |
| AccountSerializers.ExcludingIsWeaker | apps/authentication/serializers.py:129-134 | the update check refuses only what registration refuses; for an anonymous requester they coincide |
| AccountSerializers.ErrorMap | apps/authentication/serializers.py:12-32 | one error per failing registration field, under its key; phone and address never fail |
| AccountSerializers.ValidateRegistration | apps/authentication/serializers.py:34-40 | refused exactly when the passwords differ, with the error under `password` |
| AccountSerializers.RegistrationIsValid | apps/authentication/serializers.py:12-46 | field errors first, and then `validate` does not run; otherwise `validate`'s verdict on the cleaned data |
| AccountSerializers.RegistrationAcceptedFields | apps/authentication/serializers.py:34-46 | accepted data has a free username, a free lower-cased email, two equal passwords passing the validators, and both names |
| AccountSerializers.PasswordMismatchRejected | apps/authentication/serializers.py:34-40 | different passwords never register; with valid fields the error is under `password` |
| AccountSerializers.TakenEmailRejected | apps/authentication/serializers.py:42-46 | an email some user has, in any case, never registers; the error is under `email` |
| AccountSerializers.Create | apps/authentication/serializers.py:48-60 | stores the user `create_user` builds and saves |
| AccountSerializers.CreateIgnoresConfirmation | apps/authentication/serializers.py:50 | `password_confirm` has no influence on what is stored |
| AccountSerializers.CreateSetsDefaults | apps/authentication/serializers.py:51-59 | the sent fields, "" for a missing first or last name, phone or address, the hashed password, active and not staff |
| AccountSerializers.CreateKeepsUsersValid | apps/authentication/serializers.py:51-60 | a created user is stored and the table stays valid |
| AccountSerializers.CreateResult | apps/authentication/serializers.py:48-60 | a refusal names the username or email column; a success stores an active, non-staff user under the fresh id with the hashed password |
| AccountSerializers.AcceptedRegistrationIsStored | apps/authentication/serializers.py:34-60 | an accepted registration with a fresh id is never refused by the database |
| AccountSerializers.FreeUserIsStored | apps/authentication/serializers.py:51-60 | validated data whose username and email are free, under a fresh id, is never refused by the database |
| AccountSerializers.LoginValidate | apps/authentication/serializers.py:75-103 | missing or empty credentials, failed authentication and an inactive user each fail with their message; only success sets `user`, to an active user |
| AccountSerializers.LoginErrors | apps/authentication/serializers.py:68-73 | the login field errors, under their keys, never under `non_field_errors` |
| AccountSerializers.Login | apps/authentication/serializers.py:68-103 | a refused login always reports at least one error |
| AccountSerializers.LoginOutcomes | apps/authentication/serializers.py:68-103 | a login succeeds iff both credentials are non-blank and authenticate as an active user; blank ones fail on their fields, so "Must include" is unreachable |
| AccountSerializers.ValidateOldPassword | apps/authentication/serializers.py:158-163 | refused exactly when the value does not check against the stored hash |
| AccountSerializers.PasswordChangeErrors | apps/authentication/serializers.py:141-163 | one error per failing password-change field, under its key |
| AccountSerializers.PasswordChangeIsValid | apps/authentication/serializers.py:141-171 | accepted exactly when every field passes and the stripped new passwords are equal; then the old password checks and the new one passes the validators; field errors are reported as they are, and otherwise the only error is the mismatch under `new_password` |
| AccountSerializers.WrongOldPasswordRejected | apps/authentication/serializers.py:158-163 | a wrong old password always fails under `old_password` |
| AccountSerializers.NewPasswordMismatchRejected | apps/authentication/serializers.py:165-171 | different new passwords always fail; with valid fields the error is under `new_password` |
| AccountSerializers.SavePasswordChange | apps/authentication/serializers.py:173-178 | the requester's hash becomes the new password's, then the user is saved |
| AccountSerializers.PasswordChangeStored | apps/authentication/serializers.py:173-178 | only the hash and `updated_at` change, the write succeeds, and the new password checks when hash and check agree |

## Left out

- Pagination: the page size and paginator live in settings that are not part of this model.
- JWT issuance and blacklisting, HTTP responses, URL routing, the admin and apps/core: I/O and framework wiring.
- The internals of `slugify`, `validate_password`, `make_password`, `check_password` and `authenticate`: they are parameters.
- Framework field validators other than required, blank, the unique columns and the category reference: `max_length`, the e-mail format, the username characters, decimal digits and the image check.
- ProductSerializers.ValidateStockQuantity: the model's `IntegerField` gives the serializer field the database's integer range (for example up to 2147483647 on PostgreSQL), and that bound is not modelled, because it depends on the database backend, which is not part of this model. Stocks are unbounded integers.
- Null sent for a non-nullable field ("This field may not be null."): the inputs do not represent it.
- Filters.Search takes the search terms already split: SearchFilter's tokenisation of the `search` parameter is not modelled.
- Query parameters that do not parse (a non-numeric price, an unknown boolean): the filters receive parsed values.
- Text.Lower: lower-cases ASCII letters only. This is weaker than Python's `str.lower()` in `validate_email` (apps/authentication/serializers.py:44-46 and 131-134) and than the database's `iexact` and `icontains` matching, which also fold non-ASCII letters; that Unicode case mapping is not modelled.
- Database collation: string equality and ordering are by code point.
- Prices are whole cents, so sub-cent input is not represented.
- Primary keys are natural numbers and the fresh id of a new row is a parameter, not a UUID.
- ProductSerializers.CreateResult: a new row whose id is already stored replaces that row, because the write is an insert-or-update by key. Django forces an INSERT for a new instance whose UUID key has a default, and that would be refused on the primary key. The model treats the id as fresh, as `uuid4` makes it in practice, but does not require it.
- AccountSerializers.CreateResult: the same holds for a new user whose id is already stored.
- Foreign keys and cascades: a product's category is the category's slug; SET_NULL on delete is not modelled.
- The category create, update and delete pipelines: of `CategoryViewSet`, only `get_permissions` is modelled.
- `get_object` returning several rows: unique slugs rule it out.
- `normalize_email` and `normalize_username` in `create_user`: the model stores the validated username and email as given.
- `date_joined`, `is_superuser`, `last_login` and the other `AbstractUser` fields the serializers do not touch.
- The profile serializers besides `validate_email` (field checks and saving the profile), since only the email check is application code.
- A framework permission refusal for the password change: the requester is a signed-in `User`, as the view's `IsAuthenticated` ensures.
- The wording of validation messages: each message is a constructor of a `Message` datatype, and its text is not modelled.
