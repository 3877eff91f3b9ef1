# Buyzi storefront backend — a Dafny model

This project models the Django REST backend of the Buyzi shoe storefront as an
in-memory relational store and proves properties of it. The store has six
tables: users, products, cart items, favourites, orders and order items.
Each table is a sequence of rows in primary-key order, together with the next
key it hands out (module `Store`). `Store.Valid` collects what the database
keeps true:

- keys are strictly increasing and below the next key;
- user emails are unique;
- a user holds at most one cart row per (product, colour, size);
- a user holds at most one favourite per product;
- every foreign key refers to an existing row;
- every product, cart line, order and order item respects its declared field bounds (the length limits of a user's email and name are not constrained: `create_user` does not check them either).

The store is wrapped by the class `Store.Database`, whose fields the
operations reassign in place. Each view is modelled twice. A specification
function on the `Tables` value gives the response and the new tables, and the
lemmas about the view are stated against it. A method on `Database` performs
the same steps imperatively, and its `ensures` ties the response and the new
state to that function.

The operations:

- Cart:
  - adding a line, which checks stock, merges into a matching line or creates a new one;
  - listing, retrieving, updating (with its own stock check) and deleting the caller's own lines;
  - the serializer's colour and size rules, which differ between create and update.
- Favourites: the toggle, and the list of favourite products.
- Checkout:
  - the order is saved;
  - every cart line is copied into an order item with a price snapshot;
  - the caller's cart is cleared;
  - then the phone number is checked and normalised;
  - then the confirmation is sent.
- Products: the admin-only write permission, the GET exemption, the category
  filter of the list, and the `is_favourite` flag.
- Accounts:
  - the user manager's `create_user` and `create_superuser`, and the permission methods of `User`;
  - the registration, change-password, send-reset-email and password-reset serializers;
  - the base64url uid that carries a user id through the reset link (section 5 of RFC 4648, without padding).

The model follows the code as written wherever the code and its evident
intent differ:

- A cart POST without `quantity` reaches `validated_data['quantity']` and
  raises `KeyError`, so the answer is 500.
- A product whose stock is null makes `stock < quantity` raise `TypeError`,
  which is also a 500.
- Checkout with a missing phone answers 400 only after the order is saved and
  the cart is cleared.
- Checkout with a phone given as a JSON number fails on `startswith`, which is
  a 500 after the commit.
- Registration checks email uniqueness on the raw address, but the manager
  stores the normalised one. "a@B" therefore passes validation next to a
  stored "a@b", and the insert then fails on the unique index.
- Registration with `tc` false passes the serializer, and `create_user` then
  raises `ValueError`.
- The update stock check reads the stock of the line's current product, even
  when the request changes the product.

## Model

| member | source | states |
|---|---|---|
| QuerySet.Filter | djangoauthapi1/cart/views.py:12-13 | the filtered rows are exactly the rows of the table that satisfy the condition, and there are never more of them |
| QuerySet.First | djangoauthapi1/cart/views.py:26-31 | `.first()`: the index of the earliest row that satisfies the condition, or none exactly when no row does |
| QuerySet.FilterKeepsKeys | djangoauthapi1/cart/views.py:12-13 | a filtered table keeps its rows in increasing primary-key order |
| QuerySet.FilterKeepsPairwise | djangoauthapi1/cart/models.py:31 | removing rows never breaks a uniqueness constraint |
| QuerySet.KeyIdentifiesRow | djangoauthapi1/favourite/views.py:16 | in a keyed table two rows with the same primary key are the same row |
| Store.UserById | djangoauthapi1/favourite/views.py:16 | looking up a user id gives a stored user with that id, and gives nothing exactly when no such user exists |
| Store.ProductById | djangoauthapi1/favourite/views.py:16 | `get_object_or_404(Product, id=…)`: a stored product with that id, or nothing exactly when none exists |
| Store.UserByEmail | djangoauthapi1/account/serializers.py:59-61 | a stored user with exactly that email, or nothing exactly when no user has it |
| Store.Authenticate | djangoauthapi1/cart/views.py:10 | a bearer resolves to a stored user with its id only when that user is active; anonymous callers and unknown ids resolve to nobody |
| Store.CartWithoutUser | djangoauthapi1/order/views.py:38-39 | the remaining cart is exactly the lines of other users |
| Store.UserDeleted | djangoauthapi1/cart/models.py:8-12 | deleting a user cascades: the user, their cart lines, favourites and orders, and the items of those orders are gone; every other user and every other row stays, and the products and key counters are unchanged |
| Store.ProductDeleted | djangoauthapi1/cart/models.py:15-18 | deleting a product removes exactly that product and the cart lines, favourites and order items that refer to it; users, orders and key counters are unchanged |
| Store.OrderDeleted | djangoauthapi1/order/models.py:17 | deleting an order removes exactly that order and its items; every other table and the key counters are unchanged |
| Store.UserDeletedKeepsValid | djangoauthapi1/favourite/models.py:6-10 | after a user cascade no row refers to a missing user, and keys and uniqueness still hold |
| Store.ProductDeletedKeepsValid | djangoauthapi1/favourite/models.py:11-15 | after a product cascade no row refers to a missing product |
| Store.OrderDeletedKeepsValid | djangoauthapi1/order/models.py:17 | after an order cascade no item refers to a missing order |
| Text.Strip | djangoauthapi1/account/serializers.py:39-40 | the stripped text is the input without its leading and trailing whitespace, and it neither starts nor ends with whitespace |
| Text.LeadingDigits | djangoauthapi1/cart/models.py:34 | the longest prefix made only of digits |
| Text.DecimalRoundTrip | djangoauthapi1/account/serializers.py:86-87 | parsing the decimal text of a number gives the number back |
| Text.DecimalDigits | djangoauthapi1/product/models.py:16 | a number below 10^k is written with at most k digits |
| Text.UpperIdempotent | djangoauthapi1/product/views.py:19 | upper-casing twice is the same as upper-casing once |
| Base64Url.EncodeLength | djangoauthapi1/account/serializers.py:62 | the unpadded encoding has four characters per three bytes, plus two or three for a trailing group |
| Base64Url.DecodeRejectsStrayChar | djangoauthapi1/account/serializers.py:86 | a text of length 1 mod 4 never decodes |
| Base64Url.SextetCharInverse | djangoauthapi1/account/serializers.py:86 | every character of the URL-safe alphabet decodes back to its six-bit value |
| Base64Url.GroupRoundTrip | djangoauthapi1/account/serializers.py:62 | three bytes packed into four characters unpack to the same three bytes |
| Base64Url.GroupThenRest | djangoauthapi1/account/serializers.py:86 | decoding proceeds group by group: a full group decodes to its three bytes in front of the decoding of the rest |
| Base64Url.DecodeEncode | djangoauthapi1/account/serializers.py:86 | decoding the encoding of any byte string gives that byte string back |
| Http.CharFieldErrors | djangoauthapi1/account/serializers.py:39-40 | a `CharField` reports no error exactly when the value is given and, once trimmed, is non-blank, within the maximum length and free of NUL characters; every error is reported under the field's key, and two errors come only from a text that is both too long and holds a NUL |
| CartModel.StrLeadsWithQuantity | djangoauthapi1/cart/models.py:33-34 | the text of a cart line begins with its quantity, which reads back as that number |
| OrderModel.StrNamesOrder | djangoauthapi1/order/models.py:13-14 | an order's text is "Order " followed by its id, which reads back as that id |
| OrderModel.ItemStrLeadsWithQuantity | djangoauthapi1/order/models.py:24-25 | an order item's text begins with its quantity, which reads back as that number |
| FavouriteModel.StrSplitsBack | djangoauthapi1/favourite/models.py:22-23 | when the email holds no space, the first " - " of a favourite's text is the one after the email, so splitting there gives back the email and the product name |
| ProductModel.PriceHasTenDigits | djangoauthapi1/product/models.py:16 | a price that fits `max_digits=10, decimal_places=2` has at most ten digits when written out in cents |
| AccountModel.SetPassword | djangoauthapi1/account/models.py:18 | `set_password(None)` leaves an unusable password; any given password is stored hashed |
| AccountModel.CheckNewUser | djangoauthapi1/account/models.py:6-11 | a new user is refused exactly when the email is empty, the name is empty or tc is false; the checks come in that order, each with its own message |
| AccountModel.LastAt | djangoauthapi1/account/models.py:14 | finds the last '@' of an address, or reports that there is none |
| AccountModel.NormalizeEmail | djangoauthapi1/account/models.py:14 | an address without '@' is left exactly as given |
| AccountModel.NewUser | djangoauthapi1/account/models.py:13-19 | a new user is active and not an admin, and has the normalised email, the given name and tc, and the password as `set_password` leaves it |
| AccountModel.PermissionsFollowAdmin | djangoauthapi1/account/models.py:50-58 | `has_perm` holds exactly for admins whatever the permission, `is_staff` agrees with `has_perm`, and `has_module_perms` always holds |
| AccountManager.SaveUser | djangoauthapi1/account/models.py:19 | saving a stored user replaces its row with the updated one, stamps `updated_at`, keeps every other row and key, and leaves the other tables alone |
| AccountManager.CreateUserEffect | djangoauthapi1/account/models.py:5-20 | refused exactly when the field checks fail, with their error; otherwise a unique-index failure exactly when the normalised email is taken; otherwise the new user is appended under the next id; a failure changes nothing |
| AccountManager.CreateUserSavesIff | djangoauthapi1/account/models.py:5-20 | a user is saved exactly when email and name are non-empty, tc holds and the normalised email is free |
| AccountManager.CreatedUserIsStored | djangoauthapi1/account/models.py:13-19 | the saved user can be found by its id, authenticates as itself, and has no permissions |
| AccountManager.SuperuserIsAdminUser | djangoauthapi1/account/models.py:22-31 | `create_superuser` fails exactly as `create_user` would; on success it stores the same user with `is_admin` set, who then has every permission and is staff |
| AccountManager.CreateUserKeepsValid | djangoauthapi1/account/models.py:34 | creating a user keeps the store valid, so emails stay unique |
| AccountManager.CreateSuperuserKeepsValid | djangoauthapi1/account/models.py:22-31 | creating a superuser keeps the store valid |
| AccountManager.SaveUserKeepsValid | djangoauthapi1/account/models.py:19 | re-saving a user with an unchanged email keeps the store valid |
| AccountManager.Save | djangoauthapi1/account/models.py:19 | the method leaves the database exactly as `SaveUser` describes |
| AccountManager.UserManager.constructor | djangoauthapi1/account/models.py:42 | the manager works on the given database |
| AccountManager.UserManager.CreateUser | djangoauthapi1/account/models.py:5-20 | the outcome and the new database are those of `CreateUserEffect` |
| AccountManager.UserManager.CreateSuperuser | djangoauthapi1/account/models.py:22-31 | the outcome and the new database are those of `create_superuser` |
| AccountSerializers.ValidateRegistration | djangoauthapi1/account/serializers.py:16-21 | accepted exactly when the email as given is unused and both passwords agree; the email error comes first, then the password2 error; accepted data is returned unchanged |
| AccountSerializers.RegisterDropsConfirmation | djangoauthapi1/account/serializers.py:23-25 | the confirmation has no influence on what is created, and a created user's password is the first password |
| AccountSerializers.RegistrationStoresUser | djangoauthapi1/account/serializers.py:23-25 | valid registration data with a free normalised email creates a user who can then be found by that email, and keeps the store valid |
| AccountSerializers.RegistrationCollidesAfterNormalising | djangoauthapi1/account/serializers.py:16-25 | "a@B" passes validation next to a stored "a@b", and the creation then fails on the unique index |
| AccountSerializers.RegistrationCreate | djangoauthapi1/account/serializers.py:23-25 | the method's outcome and new database are those of the registration's `create` |
| AccountSerializers.WithPassword | djangoauthapi1/account/serializers.py:50 | only the password changes, and it becomes the hash of the given one |
| AccountSerializers.ChangePassword | djangoauthapi1/account/serializers.py:38-52 | field errors come first, then the mismatch, then a missing user; it succeeds exactly when the passwords agree and a user is present |
| AccountSerializers.ChangePasswordSetsOwnRowOnly | djangoauthapi1/account/serializers.py:50-51 | a successful change gives the caller's row the new password, leaves every other user and table as it was, and keeps the store valid |
| AccountSerializers.NewPasswordSaved | djangoauthapi1/account/serializers.py:92-93 | saving a new password changes only that user's row and keeps the store valid |
| AccountSerializers.StoredUserIsFoundById | djangoauthapi1/account/serializers.py:87 | in a keyed table every stored user is the one found under its id |
| AccountSerializers.SavedUserIsFoundById | djangoauthapi1/account/serializers.py:93 | after a save the user found under that id is the saved one |
| AccountSerializers.ValidateChangePassword | djangoauthapi1/account/serializers.py:42-52 | the method returns the errors of `ChangePassword` and leaves the database unchanged, or returns no error and leaves the database as `ChangePassword` describes |
| AccountSerializers.DigitBytes | djangoauthapi1/account/serializers.py:62 | `force_bytes` of a decimal text gives one byte per digit, with the digit's character code |
| AccountSerializers.AsciiText | djangoauthapi1/account/serializers.py:86 | bytes decode to text exactly when all are below 128, and then character by character |
| AccountSerializers.DigitBytesRoundTrip | djangoauthapi1/account/serializers.py:62-86 | decoding the bytes of a decimal text gives that text back |
| AccountSerializers.SendResetEmail | djangoauthapi1/account/serializers.py:55-72 | the email field's errors come first (required, not null, not blank, at most 255 characters after trimming, no NUL); then an unknown trimmed email fails with "You are not registered."; for a known one the reset mail goes to that user and addresses that email, and a failed send fails with its own message |
| AccountSerializers.ResetUser | djangoauthapi1/account/serializers.py:85-89 | a uid resolves only to a stored user |
| AccountSerializers.UidRoundTrip | djangoauthapi1/account/serializers.py:62 | the uid put in a reset link resolves to exactly the user with that id, or to nobody when no such user exists |
| AccountSerializers.PasswordReset | djangoauthapi1/account/serializers.py:74-94 | field errors, then the mismatch under "password", then a bad uid under "user", then a bad token under "token"; it succeeds exactly when all checks pass, and then the new tables are those of saving the user the uid names with the new password |
| AccountSerializers.ResetLinkResetsItsUser | djangoauthapi1/account/serializers.py:57-94 | for a stored user whose address passes the email field unchanged, the reset mail is sent, and following its uid and token with agreeing passwords sets exactly that user's password |
| AccountSerializers.StoredUserIsFoundByEmail | djangoauthapi1/account/serializers.py:61 | with unique emails every stored user is the one found by its email |
| AccountSerializers.ResetSavesNamedUser | djangoauthapi1/account/serializers.py:83-93 | for any uid, a successful reset gives the user the uid names the new password and changes no other user and no other table |
| AccountSerializers.LeadingZeroUidNamesSameUser | djangoauthapi1/account/serializers.py:86-87 | a uid other than the link's one can name a user: "MDc" (the digits "07") names user 7, whose link carries "Nw" |
| AccountSerializers.ResetWithUidOf | djangoauthapi1/account/serializers.py:83-93 | with agreeing passwords and an accepted token, the reset through a user's own uid saves that user with the new password |
| AccountSerializers.PasswordResetKeepsValid | djangoauthapi1/account/serializers.py:92-93 | a successful reset keeps the store valid |
| AccountSerializers.ValidatePasswordReset | djangoauthapi1/account/serializers.py:78-94 | the method returns the reset's errors and changes nothing, or returns no error and leaves the database as `PasswordReset` describes |
| CartSerializers.ToInternal | djangoauthapi1/cart/serializers.py:10-13 | field validation fails exactly when some field error exists; accepted data names an existing product (required on create), a non-negative quantity, and colour and size within 50 and 10 characters and free of NUL characters |
| CartSerializers.Validate | djangoauthapi1/cart/serializers.py:15-30 | on create, colour then size must be truthy; on update, a present colour or size must be truthy; each failure has its own message; accepted data is returned unchanged |
| CartViews.UserCart | djangoauthapi1/cart/views.py:12-13 | the caller's queryset is exactly the cart lines that belong to the caller |
| CartViews.OwnLine | djangoauthapi1/cart/views.py:64-65 | finds the line with that key among the caller's own lines, or reports that the caller has none |
| CartViews.MatchingLine | djangoauthapi1/cart/views.py:26-31 | finds the caller's line with the same product, colour and size, or reports that there is none |
| CartViews.ClashingLine | djangoauthapi1/cart/models.py:31 | finds another line that would break `unique_together`, or reports that there is none |
| CartViews.AcceptedIsValidForCreate | djangoauthapi1/cart/views.py:16-19 | data that passed both serializer steps has the product, colour and size that `perform_create` reads |
| CartViews.CreateOutcome | djangoauthapi1/cart/views.py:15-44 | a completed `perform_create` has set the instance and status; a raised error leaves the tables unchanged |
| CartViews.AddFailureChangesNothing | djangoauthapi1/cart/views.py:46-58 | an add answers 200, 201, 400, 401 or 500, and anything but 200 and 201 leaves every table unchanged |
| CartViews.AddNeedsUser | djangoauthapi1/cart/views.py:10 | an unauthenticated add answers 401 and changes nothing |
| CartViews.AddInvalidIsBadRequest | djangoauthapi1/cart/views.py:47-48 | serializer errors answer 400 with those errors and change nothing |
| CartViews.AddOverStockRejected | djangoauthapi1/cart/views.py:22-23 | a quantity above the product's stock answers 400 "Insufficient stock" and changes nothing |
| CartViews.AddCrashes | djangoauthapi1/cart/views.py:17-22 | a missing quantity or a product without stock answers 500 and changes nothing |
| CartViews.AddMerges | djangoauthapi1/cart/views.py:33-40 | with a matching line its quantity becomes old plus new and the answer is 200 when the sum is within stock; otherwise 400 with the old quantity kept |
| CartViews.AddCreates | djangoauthapi1/cart/views.py:41-44 | without a matching line exactly one new line, owned by the caller and under the next key, is appended, and the answer is 201 |
| CartViews.AddResult | djangoauthapi1/cart/views.py:33-44 | an add that changes the tables either raises the quantity of one stored line of the caller's or appends one new line of theirs under the next key, matching no stored line |
| CartViews.AddLeavesOthersAlone | djangoauthapi1/cart/views.py:25-44 | an add never changes another user's lines or any other table |
| CartViews.AddKeepsValid | djangoauthapi1/cart/models.py:31 | after any add the store is still valid, so each user still has at most one line per (product, colour, size) |
| CartViews.CartItemListCreateView.constructor | djangoauthapi1/cart/views.py:8-10 | a fresh view has neither an updated instance nor a response status |
| CartViews.CartItemListCreateView.PerformCreate | djangoauthapi1/cart/views.py:15-44 | the method raises, updates the tables and sets the view's fields as `CreateOutcome` says, and keeps the fields when it raises |
| CartViews.CartItemListCreateView.Create | djangoauthapi1/cart/views.py:46-58 | the response and the new database are those of the add |
| CartViews.ListIsOwnLines | djangoauthapi1/cart/views.py:12-13 | listing answers 200 with exactly the caller's lines, in key order |
| CartViews.List | djangoauthapi1/cart/views.py:12-13 | the method answers as the list view does and changes nothing |
| CartViews.RetrieveItem | djangoauthapi1/cart/views.py:64-65 | a line is returned only to its owner; for a signed-in caller the answer is 200 exactly when they own a line with that key |
| CartViews.Updated | djangoauthapi1/cart/views.py:72 | `serializer.save()` on update overwrites exactly the fields given and keeps the key, the owner and the time added |
| CartViews.UpdateOfOthersLineNotFound | djangoauthapi1/cart/views.py:64-65 | updating a key the caller does not own answers 404 and changes nothing |
| CartViews.UpdateChecksStock | djangoauthapi1/cart/views.py:67-72 | the new quantity, or the current one when none is given, is checked against the stock of the line's current product: 400 and no change above it, otherwise the line is replaced and the answer is 200 |
| CartViews.UpdateResult | djangoauthapi1/cart/views.py:64-72 | an update that changes the tables replaces one line of the caller's, keeping its key and owner, by a line of an existing product that clashes with no other line |
| CartViews.UpdateLeavesOthersAlone | djangoauthapi1/cart/views.py:64-72 | an update never changes another user's lines or any other table |
| CartViews.UpdateKeepsValid | djangoauthapi1/cart/models.py:31 | an update keeps the store valid |
| CartViews.Update | djangoauthapi1/cart/views.py:60-72 | the response and the new database are those of the update |
| CartViews.DeleteRemovesOwnLine | djangoauthapi1/cart/views.py:60-65 | deleting an own line answers 204 and removes exactly that line, leaving every other table and the key counters unchanged; any other key answers 404 and changes nothing |
| CartViews.DeleteKeepsValid | djangoauthapi1/cart/views.py:60-65 | a delete keeps the store valid |
| CartViews.CartFilteredKeepsValid | djangoauthapi1/order/views.py:39 | removing any set of cart lines keeps the store valid |
| CartViews.Destroy | djangoauthapi1/cart/views.py:60-65 | the response and the new database are those of the delete |
| FavouriteViews.FavouriteOf | djangoauthapi1/favourite/views.py:17 | finds the caller's favourite for that product, or reports that there is none |
| FavouriteViews.WithoutFavourite | djangoauthapi1/favourite/views.py:20 | `fav.delete()` removes exactly the row with that key |
| FavouriteViews.ToggleUnknownProduct | djangoauthapi1/favourite/views.py:16 | toggling a product that does not exist answers 404 and changes nothing |
| FavouriteViews.ToggleAdds | djangoauthapi1/favourite/views.py:17-23 | without a favourite, exactly one (caller, product) row is appended under the next key, and the answer is 201 with `is_favourite` true |
| FavouriteViews.ToggleRemoves | djangoauthapi1/favourite/views.py:17-21 | with a favourite, exactly that row is removed and nothing else changes, and the answer is 200 with `is_favourite` false |
| FavouriteViews.FavouriteUnique | djangoauthapi1/favourite/models.py:18 | two favourites of the same user for the same product are the same row |
| FavouriteViews.ToggleFlipsFlag | djangoauthapi1/product/serializers.py:15 | after a toggle the product's `is_favourite` for the caller is the negation of what it was, and the answer reports the new value |
| FavouriteViews.TogglePairs | djangoauthapi1/favourite/views.py:17-23 | the set of (user, product) pairs gains or loses exactly the caller's pair |
| FavouriteViews.ToggleTwiceRestores | djangoauthapi1/favourite/views.py:15-23 | toggling the same product twice restores the set of favourites |
| FavouriteViews.ToggleOnlyOwnRow | djangoauthapi1/favourite/views.py:17 | a toggle changes no table but favourites, and no favourite other than the caller's pair |
| FavouriteViews.ToggleKeepsValid | djangoauthapi1/favourite/models.py:18 | a toggle keeps the store valid, so the (user, product) pair stays unique |
| FavouriteViews.Toggle | djangoauthapi1/favourite/views.py:15-23 | the response and the new database are those of the toggle |
| FavouriteViews.FavouriteProducts | djangoauthapi1/favourite/views.py:29-30 | exactly the products the user has favourited |
| FavouriteViews.ListedAreFavourites | djangoauthapi1/favourite/views.py:25-30 | the list answers 200; every product in it is flagged favourite, and a product is listed exactly when the caller favourited it |
| FavouriteViews.List | djangoauthapi1/favourite/views.py:25-30 | the method answers as the list view does and changes nothing |
| ProductSerializers.IsFavourite | djangoauthapi1/product/serializers.py:12-16 | false for an anonymous caller; for a signed-in one, true exactly when their (user, product) favourite exists |
| ProductSerializers.IsFavouriteReadsOwnRows | djangoauthapi1/product/serializers.py:15 | the flag depends only on the caller's own favourites |
| ProductSerializers.Serialize | djangoauthapi1/product/serializers.py:5-10 | the serialised product carries the id, name, price, description, image, stock and category of the row, and `is_favourite` for the caller |
| ProductSerializers.SerializeAll | djangoauthapi1/product/serializers.py:10 | one serialised entry per product, in the same order |
| ProductViews.Identify | djangoauthapi1/product/views.py:8 | a caller is anonymous, signed in as the user their token authenticates, or carries a token that authenticates nobody |
| ProductViews.AdminPermissionExactly | djangoauthapi1/product/views.py:6-8 | `IsAdminUserOnly` grants exactly a signed-in user who is staff, that is an admin |
| ProductViews.GetPermissions | djangoauthapi1/product/views.py:22-25 | `AllowAny` exactly for GET, the admin permission otherwise |
| ProductViews.Refusal | djangoauthapi1/product/views.py:36-39 | a request goes through exactly when it is a GET without a bad token, or comes from an admin; a refusal is 401 or 403 |
| ProductViews.GetIsOpen | djangoauthapi1/product/views.py:23-24 | an anonymous GET is always allowed |
| ProductViews.WritesNeedAdmin | djangoauthapi1/product/views.py:25 | any other method goes through exactly for an authenticated admin |
| ProductViews.NormalizeCategory | djangoauthapi1/product/views.py:19 | the normalised query has the same length and contains no space and no lower-case letter |
| ProductViews.NormalizeIdempotent | djangoauthapi1/product/views.py:19 | normalising a query twice is the same as normalising it once |
| ProductViews.ProductList | djangoauthapi1/product/views.py:14-20 | without a category, or with an empty one, all products; otherwise exactly the products whose category matches the normalised query ignoring case |
| ProductViews.ChoiceQueryFindsChoice | djangoauthapi1/product/models.py:5-11 | a query that equals a product's category choice ignoring case finds that product |
| ProductViews.ListProducts | djangoauthapi1/product/views.py:10-28 | the list answers 200 unless the token is bad, with the serialised products of the category filter |
| ProductViews.AnonymousSeesNoFavourites | djangoauthapi1/product/serializers.py:13-16 | an anonymous caller sees no product flagged favourite |
| ProductViews.RetrieveProduct | djangoauthapi1/product/views.py:30-39 | a detail GET answers 200 exactly when the token is not bad and the product exists, and then returns that product |
| OrderViews.NewOrder | djangoauthapi1/order/views.py:25 | the saved order gets the next id, belongs to the caller and respects its field bounds |
| OrderViews.PriceOf | djangoauthapi1/order/views.py:35 | the snapshot price is the product's current price, and it exists exactly when the product does |
| OrderViews.CopiedLines | djangoauthapi1/order/views.py:28-36 | one order item per cart line, in order, under consecutive keys |
| OrderViews.CopiedLinesMatchCart | djangoauthapi1/order/views.py:28-36 | each order item belongs to the order and has its cart line's product, quantity, colour and size, with the product's current price |
| OrderViews.NormalisePhone | djangoauthapi1/order/views.py:47-48 | the result starts with '+'; a number starting with '+' is kept, any other gets '+' in front |
| OrderViews.NormalisePhoneIdempotent | djangoauthapi1/order/views.py:47-48 | normalising a phone number twice is the same as normalising it once |
| OrderViews.WithOrder | djangoauthapi1/order/views.py:25 | saving the order appends it, advances the order key, and leaves the cart, products and order items alone |
| OrderViews.WithItems | djangoauthapi1/order/views.py:28-36 | the copied items are appended under the next keys, and orders, cart and products stay as they were |
| OrderViews.Committed | djangoauthapi1/order/views.py:24-39 | the commit adds the order and the copies of the caller's lines and removes exactly the caller's cart; users, products and favourites stay |
| OrderViews.CheckoutEmptyCart | djangoauthapi1/order/views.py:16-19 | with no lines of the caller the answer is 400 "Cart is empty" and nothing changes |
| OrderViews.NoLinesOfUser | djangoauthapi1/order/views.py:16-18 | a user with no cart rows has an empty queryset |
| OrderViews.CheckoutInvalidFields | djangoauthapi1/order/views.py:21-22 | invalid order fields answer 400 with the field errors and change nothing |
| OrderViews.CheckoutCommitsBeforePhone | djangoauthapi1/order/views.py:25-44 | the commit does not depend on the phone: the order is saved and the cart cleared even when the missing phone then answers 400 |
| OrderViews.CheckoutSucceeds | djangoauthapi1/order/views.py:46-57 | with a phone the answer is 201, with the new order, the copied items and the status of the confirmation sent to the normalised number |
| OrderViews.CheckoutEmptiesOnlyOwnCart | djangoauthapi1/order/views.py:38-39 | after checkout the caller's cart is empty, every other user's cart is unchanged, and users, products (stock included) and favourites stay |
| OrderViews.NothingLeftOfUser | djangoauthapi1/order/views.py:39 | after the delete no line of the caller is left |
| OrderViews.UserCartOfRemainder | djangoauthapi1/order/views.py:39 | the delete does not touch the lines of any other user |
| OrderViews.CheckoutKeepsValid | djangoauthapi1/order/models.py:5-22 | every outcome of checkout leaves a valid store |
| OrderViews.CommittedKeepsValid | djangoauthapi1/order/views.py:24-39 | the commit of a valid order for a stored user keeps the store valid |
| OrderViews.CartEmptiedKeepsValid | djangoauthapi1/order/views.py:39 | clearing one user's cart keeps the store valid |
| OrderViews.OrderAddedKeepsValid | djangoauthapi1/order/models.py:5-9 | appending a valid order of a stored user under the next key keeps the store valid |
| OrderViews.ItemsAddedKeepsValid | djangoauthapi1/order/models.py:17-22 | appending copies of existing cart lines to an existing order keeps the store valid |
| OrderViews.CreateItems | djangoauthapi1/order/views.py:28-36 | the loop creates exactly the copied items and leaves the database as `WithItems` describes |
| OrderViews.SaveOrder | djangoauthapi1/order/views.py:24-39 | the writes of an accepted checkout leave the database as `Committed` describes: the order saved under the next key, the copied items, and the caller's cart deleted |
| OrderViews.Create | djangoauthapi1/order/views.py:14-57 | the response and the new database are those of checkout |

## Left out

- The TensorFlow shoe classifier (`modelapi`) and voice search (`voicesearch`) are not part of this model: they are numerics and calls to outside services.
- The WhatsApp confirmation client is not part of this model. Checkout takes the sending function as a parameter `(phone, order id) -> status`.
- The account views are not part of this model. They only map a serializer's validity to 200, 201 or 400, and they mint JWTs with a library that is not shown. The serializers themselves are modelled.
- Login (`UserLoginSerializer`, `authenticate`) and the profile serializer are field lists over those views and are not modelled.
- Password hashing is abstract: a stored password is `Hashed(raw)`, and no hash function is modelled.
- Reset tokens are made and checked by functions passed as parameters. Token expiry and its clock are not modelled.
- Sending mail is a parameter `Mail -> bool` that says whether the send succeeded. The printed error message is not modelled.
- Time stamps (`created_at`, `added_at`, `updated_at`) come from a parameter `now` given once per request. There is no clock.
- Admin configuration, URL routing and the order serializers are not modelled. They are declarative. The checkout answer is modelled as the order, its items and the confirmation status.
- Concurrency is not modelled. Every request is atomic and runs after the previous one, so the race between the stock check and the save cannot happen.
- Text operations are ASCII only: upper case, case-insensitive comparison, whitespace stripping and email normalisation. Unicode case mapping is not modelled.
- Base64url decoding is strict: only the unpadded URL-safe alphabet decodes. The library decoder also accepts padding and some malformed input.
- Decimal parsing accepts only an optional sign and ASCII digits. Python's `int()` also accepts surrounding whitespace, underscores and other digit scripts.
- AccountSerializers.ResetUser: a decoded uid whose bytes are not ASCII is treated as an invalid user. Python decodes them as UTF-8, and `int()` accepts the digits of other scripts, so the answers differ: the uid "2aM" (the bytes D9 A3, the Arabic-Indic digit three) names user 3 in the source and no user here.
- AccountSerializers.ValidateRegistration: checks only the email's uniqueness and the password confirmation. The email format check, the field lengths and the trimming of the registration fields are not modelled.
- AccountSerializers.SendResetEmail: the email format check (`EmailValidator`) of the reset serializer's email field is not modelled; the field's other checks are.
- `print` calls are not modelled.
- Request values are typed: a text field holds nothing, a null or a text (`Http.Entry`), the cart's product and quantity hold numbers, and the phone holds a text or a JSON integer (`OrderViews.Phone`). The REST framework's refusals of other JSON types ("Not a valid string." for a boolean, list or object in a text field; "A valid integer is required." for non-numeric input to an integer field) are not modelled, and neither is the server error a truthy boolean, list, object or float phone raises in `startswith`.
- A 404 carries the text "No CartItem matches the given query." or "No Product matches the given query.", which the REST framework forwards from 3.15 on; earlier releases answer "Not found." instead. No version is pinned.
- A 401 for a well-formed token whose user is gone or inactive carries the JWT library's "User not found" or "User is inactive"; tokens that are malformed, expired or badly signed are not modelled.
- The text fields' refusal of surrogate characters is not modelled: a Dafny `char` is a Unicode scalar value and cannot be a surrogate.
- The upper bound of `PositiveIntegerField` is not modelled. Quantities are unbounded natural numbers.
- The cart quantity default of 1 is not modelled. The serializer accepts a POST without `quantity`, and the view then fails on it before any default could apply.
- The product create, update and delete endpoints are modelled only as far as their permission gate. What they write is a declarative model form.
- Image uploads and the image URL are opaque strings.
- Query sets are returned in primary-key order. That is the table order here; the source declares no ordering.
- ProductModel.Str: has no contract of its own, since the text of a product is just its name.
- AccountModel.Str: has no contract of its own, since the text of a user is just their email.
