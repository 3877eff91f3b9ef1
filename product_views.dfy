/**
 * The catalogue endpoints (product/views.py): anyone may read products,
 * only an administrator may write them, and a category query string is
 * normalised before it is matched.
 */
module ProductViews {
  import opened Wrappers
  import opened Http
  import opened QuerySet
  import opened ProductSerializers
  import P = ProductModel
  import A = AccountModel
  import Store
  import Text

  // ---------------------------------------------------------------------------
  // Who may do what

  /** Who the request is from, once its credentials are checked. */
  datatype Caller = AnonymousCaller | SignedIn(user: A.User) | BadToken

  /**
   * Token authentication runs on every request: no token gives an anonymous
   * caller, a token of a missing or inactive user is refused (401) even
   * where anyone may read.
   */
  function Identify(t: Store.Tables, requester: Store.Requester): (c: Caller)
    ensures requester.Anonymous? <==> c.AnonymousCaller?
    ensures c.SignedIn? <==> Store.Authenticate(t, requester).Some?
    ensures c.SignedIn? ==> Store.Authenticate(t, requester) == Some(c.user)
  {
    match requester
    case Anonymous => AnonymousCaller
    case Bearer(_) =>
      match Store.Authenticate(t, requester)
      case None => BadToken
      case Some(u) => SignedIn(u)
  }

  /** `IsAdminUserOnly.has_permission`: a signed-in user whose admin flag is set. */
  predicate IsAdminUserOnly(c: Caller)
  {
    c.SignedIn? && c.user.isAdmin
  }

  lemma AdminPermissionExactly(c: Caller)
    ensures IsAdminUserOnly(c) <==> c.SignedIn? && A.IsStaff(c.user)
  {
  }

  datatype Permission = AllowAny | AdminOnly

  /** `get_permissions` of both product views: GET is open, every other method is for administrators. */
  function GetPermissions(verb: string): (p: Permission)
    ensures p == AllowAny <==> verb == "GET"
  {
    if verb == "GET" then AllowAny else AdminOnly
  }

  /**
   * The gate in front of a product view: a bad token is refused with 401;
   * under AdminOnly an anonymous caller gets 401 and a signed-in user who
   * is not an administrator 403. None lets the request through.
   */
  function Refusal(t: Store.Tables, requester: Store.Requester, verb: string): (r: Option<nat>)
    ensures r.None? <==> (verb == "GET" && !Identify(t, requester).BadToken?) || IsAdminUserOnly(Identify(t, requester))
    ensures r.Some? ==> r.value in {UNAUTHORIZED, FORBIDDEN}
  {
    var c := Identify(t, requester);
    if c.BadToken? then Some(UNAUTHORIZED)
    else match GetPermissions(verb)
      case AllowAny => None
      case AdminOnly =>
        if IsAdminUserOnly(c) then None
        else if c.AnonymousCaller? then Some(UNAUTHORIZED)
        else Some(FORBIDDEN)
  }

  /** Reading is open to anonymous callers. */
  lemma GetIsOpen(t: Store.Tables)
    ensures Refusal(t, Store.Anonymous, "GET").None?
  {
  }

  /** Any other method than GET goes through only for an administrator. */
  lemma WritesNeedAdmin(t: Store.Tables, requester: Store.Requester, verb: string)
    requires verb != "GET"
    ensures Refusal(t, requester, verb).None? <==>
              Store.Authenticate(t, requester).Some? && Store.Authenticate(t, requester).value.isAdmin
  {
  }

  // ---------------------------------------------------------------------------
  // The category filter

  /** `category.upper().replace(' ', '_')`. */
  function NormalizeCategory(q: string): (r: string)
    ensures |r| == |q|
    ensures forall i :: 0 <= i < |r| ==> r[i] != ' ' && !('a' <= r[i] <= 'z')
  {
    Text.ReplaceChar(Text.Upper(q), ' ', '_')
  }

  /** Normalising a normalised query changes nothing. */
  lemma NormalizeIdempotent(q: string)
    ensures NormalizeCategory(NormalizeCategory(q)) == NormalizeCategory(q)
  {
  }

  /** Whether a product's category matches the query (`category__iexact`); a NULL category never does. */
  predicate InCategory(p: P.Product, q: string)
  {
    p.category.Some? && Text.EqualsIgnoreCase(p.category.value, NormalizeCategory(q))
  }

  /**
   * `ProductListCreateView.get_queryset`: every product when the query
   * parameter is absent or empty, otherwise the products whose category
   * matches the normalised query without regard to case.
   */
  function ProductList(products: seq<P.Product>, category: Option<string>): (r: seq<P.Product>)
    ensures category.None? || category.value == "" ==> r == products
    ensures category.Some? && category.value != "" ==>
              (forall i :: 0 <= i < |r| ==> r[i] in products && InCategory(r[i], category.value))
              && (forall i :: 0 <= i < |products| && InCategory(products[i], category.value) ==> products[i] in r)
  {
    if category.None? || category.value == "" then products
    else Filter(products, (p: P.Product) => InCategory(p, category.value))
  }

  /** A query spelled as a stored choice, in any case, finds the products filed under that choice. */
  lemma ChoiceQueryFindsChoice(p: P.Product, q: string)
    requires p.category.Some? && p.category.value in P.CategoryChoices
    requires Text.EqualsIgnoreCase(q, p.category.value)
    ensures InCategory(p, q)
  {
    var c := p.category.value;
    forall i | 0 <= i < |c| ensures c[i] != ' ' {
    }
    assert Text.Upper(c) == NormalizeCategory(q);
  }

  /** GET on the product list: the filtered products, serialized for the caller. */
  function ListProducts(t: Store.Tables, requester: Store.Requester, category: Option<string>)
    : (r: Response<seq<ProductView>>)
    ensures r.status == OK <==> !Identify(t, requester).BadToken?
    ensures r.status == OK ==> r.body == Data(SerializeAll(t, CallerId(Identify(t, requester)), ProductList(t.products, category)))
  {
    match Identify(t, requester)
    case BadToken => Unauthorized(t, requester)
    case c => Response(OK, Data(SerializeAll(t, CallerId(c), ProductList(t.products, category))))
  }

  function CallerId(c: Caller): Option<nat>
  {
    if c.SignedIn? then Some(c.user.id) else None
  }

  /** An anonymous caller sees every listed product as not favourite. */
  lemma AnonymousSeesNoFavourites(t: Store.Tables, category: Option<string>)
    ensures var r := ListProducts(t, Store.Anonymous, category);
            r.status == OK && forall i :: 0 <= i < |r.body.value| ==> !r.body.value[i].isFavourite
  {
  }

  /** GET on one product: the product with that id, or 404. */
  function RetrieveProduct(t: Store.Tables, requester: Store.Requester, id: nat): (r: Response<ProductView>)
    ensures r.status == OK <==> !Identify(t, requester).BadToken? && Store.HasProduct(t, id)
    ensures r.status == OK ==> r.body.Data? && r.body.value.id == id
  {
    match Identify(t, requester)
    case BadToken => Unauthorized(t, requester)
    case c =>
      match Store.ProductById(t, id)
      case None => NotFound("Product")
      case Some(p) => Response(OK, Data(Serialize(t, CallerId(c), p)))
  }
}
