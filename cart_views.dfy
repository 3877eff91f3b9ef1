/**
 * The cart endpoints (cart/views.py). Adding a line checks the product's
 * stock and merges into the user's existing line with the same product,
 * colour and size; updating a line checks the stock again; every endpoint
 * sees only the requesting user's lines.
 */
module CartViews {
  import opened Wrappers
  import opened Http
  import opened QuerySet
  import opened CartSerializers
  import C = CartModel
  import Store

  const InsufficientStock := FieldError("error", "Insufficient stock")
  const StockIsNull := "TypeError: '<' not supported between instances of 'NoneType' and 'int'"
  const QuantityMissing := "KeyError: 'quantity'"
  const ProductMissing := "Product.DoesNotExist"
  const DuplicateLine := "IntegrityError: UNIQUE constraint failed"

  // ---------------------------------------------------------------------------
  // Queries

  /** `CartItem.objects.filter(user=user)`: the user's lines in table order. */
  function UserCart(cart: seq<C.CartItem>, user: nat): (r: seq<C.CartItem>)
    ensures forall i :: 0 <= i < |r| ==> r[i] in cart && r[i].user == user
    ensures forall i :: 0 <= i < |cart| && cart[i].user == user ==> cart[i] in r
  {
    Filter(cart, (c: C.CartItem) => c.user == user)
  }

  /** `get_object()` on the user's lines: the position of line `pk` if the user owns it. */
  function OwnLine(cart: seq<C.CartItem>, user: nat, pk: nat): (r: Option<nat>)
    ensures r.Some? ==> r.value < |cart| && cart[r.value].id == pk && cart[r.value].user == user
    ensures r.None? <==> forall k :: 0 <= k < |cart| ==> !(cart[k].id == pk && cart[k].user == user)
  {
    First(cart, (c: C.CartItem) => c.id == pk && c.user == user)
  }

  /**
   * The line an add merges into: the first of the user's lines with the same
   * product, colour and size. A NULL colour or size is looked up with
   * `IS NULL`, so it matches a NULL.
   */
  function MatchingLine(cart: seq<C.CartItem>, user: nat, product: nat, color: Option<string>, size: Option<string>)
    : (r: Option<nat>)
    ensures r.Some? ==> r.value < |cart| && cart[r.value].user == user && cart[r.value].product == product
                        && cart[r.value].color == color && cart[r.value].size == size
    ensures r.None? <==> forall k :: 0 <= k < |cart| ==>
                           !(cart[k].user == user && cart[k].product == product
                             && cart[k].color == color && cart[k].size == size)
  {
    First(cart, (c: C.CartItem) => c.user == user && c.product == product && c.color == color && c.size == size)
  }

  /** The position of a line other than `row` itself that `row` would clash with. */
  function ClashingLine(cart: seq<C.CartItem>, row: C.CartItem): (r: Option<nat>)
    ensures r.Some? ==> r.value < |cart| && cart[r.value].id != row.id && C.Clash(cart[r.value], row)
    ensures r.None? <==> forall k :: 0 <= k < |cart| ==> !(cart[k].id != row.id && C.Clash(cart[k], row))
  {
    First(cart, (c: C.CartItem) => c.id != row.id && C.Clash(c, row))
  }

  // ---------------------------------------------------------------------------
  // Adding a line: perform_create and create

  /** How `perform_create` ended: normally, or by raising. */
  datatype Raised = Completed | Invalid(error: FieldError) | Crashed(exception: string)

  /** The outcome of `perform_create`, with the instance and status it records on the view. */
  datatype Performed = Performed(raised: Raised, instance: Option<C.CartItem>, status: Option<nat>, tables: Store.Tables)

  /** What the field checks and `validate` guarantee about the data of an add. */
  predicate ValidForCreate(t: Store.Tables, d: CartData)
  {
    && d.product.Some? && Store.HasProduct(t, d.product.value)
    && (d.quantity.Some? ==> d.quantity.value >= 0)
    && Truthy(d.color) && Truthy(d.size)
    && |d.color.text| <= C.ColorMaxLength && |d.size.text| <= C.SizeMaxLength
  }

  /** Data accepted by the serializer on create is what `perform_create` expects. */
  lemma AcceptedIsValidForCreate(t: Store.Tables, data: CartData, clean: CartData)
    requires ToInternal(data, t, false) == Ok(clean)
    requires Validate(clean, false).Ok?
    ensures ValidForCreate(t, clean)
  {
  }

  function Raise(t: Store.Tables, raised: Raised): Performed
  {
    Performed(raised, None, None, t)
  }

  /**
   * `perform_create`: the quantity is read from the validated data (a
   * KeyError when the request left it out), checked against the stock (a
   * TypeError when the stock is NULL), then either added to the matching
   * line, checked against the stock once more, or stored as a new line.
   */
  function CreateOutcome(t: Store.Tables, user: nat, data: CartData, now: int): (r: Performed)
    requires ValidForCreate(t, data)
    ensures r.raised.Completed? ==> r.instance.Some? && r.status.Some?
    ensures !r.raised.Completed? ==> r.tables == t
    ensures r.raised.Completed? ==> r.status == Some(OK) || r.status == Some(CREATED)
  {
    var product := Store.ProductById(t, data.product.value).value;
    if data.quantity.None? then Raise(t, Crashed(QuantityMissing))
    else
      var quantity: nat := data.quantity.value;
      if product.stock.None? then Raise(t, Crashed(StockIsNull))
      else if product.stock.value < quantity then Raise(t, Invalid(InsufficientStock))
      else
        var color, size := Some(data.color.text), Some(data.size.text);
        match MatchingLine(t.cart, user, product.id, color, size)
        case Some(k) =>
          var newQuantity := t.cart[k].quantity + quantity;
          if product.stock.value < newQuantity then Raise(t, Invalid(InsufficientStock))
          else
            var line := t.cart[k].(quantity := newQuantity);
            Performed(Completed, Some(line), Some(OK), t.(cart := t.cart[k := line]))
        case None =>
          var line := C.CartItem(t.nextCartItemId, user, product.id, quantity, color, size, now);
          Performed(Completed, Some(line), Some(CREATED), t.(cart := t.cart + [line], nextCartItemId := t.nextCartItemId + 1))
  }

  /**
   * POST to the cart: authentication, the serializer's checks, then
   * `perform_create`. A ValidationError it raises is answered with 400 and
   * its detail; any other exception escapes as a server error.
   */
  function AddItem(t: Store.Tables, requester: Store.Requester, data: CartData, now: int): Reply<C.CartItem>
  {
    match Store.Authenticate(t, requester)
    case None => Reply(Unauthorized(t, requester), t)
    case Some(user) =>
      match ToInternal(data, t, false)
      case Err(errors) => Reply(Response(BAD_REQUEST, Errors(errors)), t)
      case Ok(clean) =>
        match Validate(clean, false)
        case Err(e) => Reply(Response(BAD_REQUEST, Errors([e])), t)
        case Ok(valid) =>
          AcceptedIsValidForCreate(t, data, clean);
          var p := CreateOutcome(t, user.id, valid, now);
          match p.raised
          case Invalid(e) => Reply(Response(BAD_REQUEST, Errors([e])), t)
          case Crashed(x) => Reply(Response(SERVER_ERROR, Raised(x)), t)
          case Completed => Reply(Response(p.status.value, Data(p.instance.value)), p.tables)
  }

  /** The serializer accepted the data of an add from this user. */
  predicate AddAccepted(t: Store.Tables, requester: Store.Requester, data: CartData, user: nat, clean: CartData)
  {
    && requester == Store.Bearer(user) && Store.Authenticate(t, requester).Some?
    && ToInternal(data, t, false) == Ok(clean) && Validate(clean, false).Ok?
  }

  /** Every add that does not succeed leaves every table as it was. */
  lemma AddFailureChangesNothing(t: Store.Tables, requester: Store.Requester, data: CartData, now: int)
    ensures var r := AddItem(t, requester, data, now);
            r.response.status in {OK, CREATED, BAD_REQUEST, UNAUTHORIZED, SERVER_ERROR}
            && (r.response.status !in {OK, CREATED} ==> r.tables == t)
  {
    match Store.Authenticate(t, requester)
    case None =>
    case Some(user) =>
      match ToInternal(data, t, false)
      case Err(_) =>
      case Ok(clean) =>
        match Validate(clean, false)
        case Err(_) =>
        case Ok(valid) =>
          AcceptedIsValidForCreate(t, data, clean);
          var p := CreateOutcome(t, user.id, valid, now);
  }

  /** An add that changes the tables was accepted, names a quantity and has the stock for it. */
  lemma AddChanged(t: Store.Tables, requester: Store.Requester, data: CartData, now: int)
    returns (user: nat, clean: CartData)
    requires AddItem(t, requester, data, now).tables != t
    ensures requester == Store.Bearer(user) && AddAccepted(t, requester, data, user, clean)
    ensures ValidForCreate(t, clean) && clean.quantity.Some?
    ensures Store.ProductById(t, clean.product.value).value.stock.Some?
    ensures clean.quantity.value <= Store.ProductById(t, clean.product.value).value.stock.value
  {
    user := Store.Authenticate(t, requester).value.id;
    clean := ToInternal(data, t, false).value;
    AcceptedIsValidForCreate(t, data, clean);
  }

  /**
   * The tables after an add that changed them: either one line of the
   * caller's with its quantity raised, or one new line under the next key.
   */
  lemma AddResult(t: Store.Tables, requester: Store.Requester, data: CartData, now: int)
    returns (k: Option<nat>, line: C.CartItem)
    requires AddItem(t, requester, data, now).tables != t
    ensures requester == Store.Bearer(line.user) && Store.HasUser(t, line.user) && Store.HasProduct(t, line.product)
    ensures k.Some? ==> k.value < |t.cart| && line == t.cart[k.value].(quantity := line.quantity)
                        && AddItem(t, requester, data, now).tables == t.(cart := t.cart[k.value := line])
    ensures k.None? ==> line.id == t.nextCartItemId && C.Valid(line)
                        && MatchingLine(t.cart, line.user, line.product, line.color, line.size).None?
                        && AddItem(t, requester, data, now).tables
                           == t.(cart := t.cart + [line], nextCartItemId := t.nextCartItemId + 1)
  {
    var user, clean := AddChanged(t, requester, data, now);
    var p := Store.ProductById(t, clean.product.value).value;
    var q := clean.quantity.value;
    var color, size := Some(clean.color.text), Some(clean.size.text);
    match MatchingLine(t.cart, user, p.id, color, size)
    case Some(j) =>
      AddMerges(t, data, now, user, clean, p.stock.value, j);
      k, line := Some(j), t.cart[j].(quantity := t.cart[j].quantity + q);
    case None =>
      AddCreates(t, data, now, user, clean, p.stock.value);
      k, line := None, C.CartItem(t.nextCartItemId, user, p.id, q, color, size, now);
  }

  /** Without an active user behind the token the add is refused with 401. */
  lemma AddNeedsUser(t: Store.Tables, requester: Store.Requester, data: CartData, now: int)
    requires Store.Authenticate(t, requester).None?
    ensures AddItem(t, requester, data, now) == Reply(Unauthorized(t, requester), t)
  {
  }

  /** A rejected field or a failed `validate` is a 400 carrying the error detail. */
  lemma AddInvalidIsBadRequest(t: Store.Tables, requester: Store.Requester, data: CartData, now: int)
    requires Store.Authenticate(t, requester).Some?
    ensures ToInternal(data, t, false).Err? ==>
              AddItem(t, requester, data, now) == Reply(Response(BAD_REQUEST, Errors(FieldErrors(data, t, false))), t)
    ensures ToInternal(data, t, false).Ok? && Validate(ToInternal(data, t, false).value, false).Err? ==>
              AddItem(t, requester, data, now)
              == Reply(Response(BAD_REQUEST, Errors([Validate(ToInternal(data, t, false).value, false).error])), t)
  {
  }

  /** More than the stock holds is refused with "Insufficient stock" and the cart is unchanged. */
  lemma AddOverStockRejected(t: Store.Tables, data: CartData, now: int, user: nat, clean: CartData, stock: int)
    requires AddAccepted(t, Store.Bearer(user), data, user, clean)
    requires clean.quantity.Some? && Store.ProductById(t, clean.product.value).value.stock == Some(stock)
    requires stock < clean.quantity.value
    ensures AddItem(t, Store.Bearer(user), data, now) == Reply(Response(BAD_REQUEST, Errors([InsufficientStock])), t)
  {
  }

  /** An add with no quantity, or of a product whose stock is NULL, escapes as a server error. */
  lemma AddCrashes(t: Store.Tables, data: CartData, now: int, user: nat, clean: CartData)
    requires AddAccepted(t, Store.Bearer(user), data, user, clean)
    requires clean.quantity.None? || Store.ProductById(t, clean.product.value).value.stock.None?
    ensures AddItem(t, Store.Bearer(user), data, now).response.status == SERVER_ERROR
    ensures AddItem(t, Store.Bearer(user), data, now).tables == t
  {
  }

  /**
   * With a matching line of the user's, the add raises its quantity to the
   * sum and answers 200 when the stock covers the sum; otherwise it is
   * refused and the line keeps its quantity.
   */
  lemma AddMerges(t: Store.Tables, data: CartData, now: int, user: nat, clean: CartData, stock: int, k: nat)
    requires AddAccepted(t, Store.Bearer(user), data, user, clean)
    requires clean.quantity.Some? && Store.ProductById(t, clean.product.value).value.stock == Some(stock)
    requires clean.quantity.value <= stock
    requires MatchingLine(t.cart, user, clean.product.value, Some(clean.color.text), Some(clean.size.text)) == Some(k)
    ensures var sum := t.cart[k].quantity + clean.quantity.value;
            var r := AddItem(t, Store.Bearer(user), data, now);
            if sum <= stock then
              r.response == Response(OK, Data(t.cart[k].(quantity := sum)))
              && r.tables == t.(cart := t.cart[k := t.cart[k].(quantity := sum)])
            else
              r == Reply(Response(BAD_REQUEST, Errors([InsufficientStock])), t)
  {
  }

  /** Without a matching line the add stores exactly one new line of the user's and answers 201. */
  lemma AddCreates(t: Store.Tables, data: CartData, now: int, user: nat, clean: CartData, stock: int)
    requires AddAccepted(t, Store.Bearer(user), data, user, clean)
    requires clean.quantity.Some? && Store.ProductById(t, clean.product.value).value.stock == Some(stock)
    requires clean.quantity.value <= stock
    requires MatchingLine(t.cart, user, clean.product.value, Some(clean.color.text), Some(clean.size.text)).None?
    ensures var line := C.CartItem(t.nextCartItemId, user, clean.product.value, clean.quantity.value,
                                   Some(clean.color.text), Some(clean.size.text), now);
            AddItem(t, Store.Bearer(user), data, now)
            == Reply(Response(CREATED, Data(line)), t.(cart := t.cart + [line], nextCartItemId := t.nextCartItemId + 1))
  {
  }

  /** An add changes only the cart and the cart's key counter, and no other user's lines. */
  lemma AddLeavesOthersAlone(t: Store.Tables, requester: Store.Requester, data: CartData, now: int, other: nat)
    requires requester.Bearer? ==> other != requester.userId
    ensures var r := AddItem(t, requester, data, now).tables;
            && r.users == t.users && r.products == t.products && r.favourites == t.favourites
            && r.orders == t.orders && r.orderItems == t.orderItems
            && UserCart(r.cart, other) == UserCart(t.cart, other)
  {
    var r := AddItem(t, requester, data, now).tables;
    if r != t {
      var k, line := AddResult(t, requester, data, now);
      if k.Some? {
        OtherUsersUnchangedByReplace(t.cart, k.value, line, other);
      } else {
        OtherUsersUnchangedByAppend(t.cart, line, other);
      }
    }
  }

  lemma {:induction false} OtherUsersUnchangedByReplace(cart: seq<C.CartItem>, k: nat, line: C.CartItem, other: nat)
    requires k < |cart| && line.user == cart[k].user != other
    ensures UserCart(cart[k := line], other) == UserCart(cart, other)
  {
    if k > 0 {
      assert cart[k := line][1..] == cart[1..][k - 1 := line];
      OtherUsersUnchangedByReplace(cart[1..], k - 1, line, other);
    } else {
      assert cart[k := line][1..] == cart[1..];
    }
  }

  lemma {:induction false} OtherUsersUnchangedByAppend(cart: seq<C.CartItem>, line: C.CartItem, other: nat)
    requires line.user != other
    ensures UserCart(cart + [line], other) == UserCart(cart, other)
  {
    if cart == [] {
      assert [line][1..] == [];
    } else {
      assert (cart + [line])[1..] == cart[1..] + [line];
      OtherUsersUnchangedByAppend(cart[1..], line, other);
    }
  }

  /** A successful add keeps every integrity rule of the store, the uniqueness of cart lines included. */
  lemma AddKeepsValid(t: Store.Tables, requester: Store.Requester, data: CartData, now: int)
    requires Store.Valid(t)
    ensures Store.Valid(AddItem(t, requester, data, now).tables)
  {
    var r := AddItem(t, requester, data, now).tables;
    if r != t {
      var k, line := AddResult(t, requester, data, now);
      if k.Some? {
        MergedLineKeepsValid(t, k.value, line.quantity);
      } else {
        NewLineKeepsValid(t, line);
      }
    }
  }

  /** Raising the quantity of a stored line keeps every integrity rule. */
  lemma MergedLineKeepsValid(t: Store.Tables, k: nat, quantity: nat)
    requires Store.Valid(t) && k < |t.cart|
    ensures Store.Valid(t.(cart := t.cart[k := t.cart[k].(quantity := quantity)]))
  {
    var line := t.cart[k].(quantity := quantity);
    ReplaceKeepsKeys(t.cart, k, line, Store.CartItemKey, t.nextCartItemId);
    RekeyedLineKeepsUnique(t.cart, k, line);
    assert t.cart[k] in t.cart;
    ReplacedLineKeepsValid(t, k, line);
  }

  /** Storing a line that matches no stored line, under the next key, keeps every integrity rule. */
  lemma NewLineKeepsValid(t: Store.Tables, line: C.CartItem)
    requires Store.Valid(t)
    requires line.id == t.nextCartItemId && C.Valid(line)
    requires Store.HasUser(t, line.user) && Store.HasProduct(t, line.product)
    requires MatchingLine(t.cart, line.user, line.product, line.color, line.size).None?
    ensures Store.Valid(t.(cart := t.cart + [line], nextCartItemId := t.nextCartItemId + 1))
  {
    AppendKeepsKeys(t.cart, line, Store.CartItemKey, t.nextCartItemId, t.nextCartItemId + 1);
    NewLineKeepsUnique(t.cart, line);
    AppendedLineKeepsValid(t, line);
  }

  /** Changing a line in ways that keep its uniqueness key keeps the cart free of clashes. */
  lemma RekeyedLineKeepsUnique(cart: seq<C.CartItem>, k: nat, line: C.CartItem)
    requires Pairwise(cart, Store.CartRowsCompatible)
    requires k < |cart|
    requires line.user == cart[k].user && line.product == cart[k].product
    requires line.color == cart[k].color && line.size == cart[k].size
    ensures Pairwise(cart[k := line], Store.CartRowsCompatible)
  {
    var r := cart[k := line];
    forall i, j | 0 <= i < j < |r| ensures Store.CartRowsCompatible(r[i], r[j]) {
      assert Store.CartRowsCompatible(cart[i], cart[j]);
    }
  }

  /** A new line that matches none of the lines stored has nothing to clash with. */
  lemma NewLineKeepsUnique(cart: seq<C.CartItem>, line: C.CartItem)
    requires Pairwise(cart, Store.CartRowsCompatible)
    requires MatchingLine(cart, line.user, line.product, line.color, line.size).None?
    ensures Pairwise(cart + [line], Store.CartRowsCompatible)
  {
    var r := cart + [line];
    forall i, j | 0 <= i < j < |r| ensures Store.CartRowsCompatible(r[i], r[j]) {
      if j < |cart| {
        assert Store.CartRowsCompatible(cart[i], cart[j]);
      }
    }
  }

  /** A stored line replaced by one naming an existing user and product, within its bounds. */
  lemma ReplacedLineKeepsValid(t: Store.Tables, k: nat, line: C.CartItem)
    requires Store.ReferencesValid(t) && Store.FieldsValid(t)
    requires k < |t.cart|
    requires Store.HasUser(t, line.user) && Store.HasProduct(t, line.product) && C.Valid(line)
    ensures var r := t.(cart := t.cart[k := line]);
            Store.ReferencesValid(r) && Store.FieldsValid(r)
  {
    var r := t.(cart := t.cart[k := line]);
    forall c | c in r.cart ensures Store.HasUser(r, c.user) && Store.HasProduct(r, c.product) && C.Valid(c) {
      var i :| 0 <= i < |r.cart| && r.cart[i] == c;
      if i != k {
        assert c in t.cart;
      }
    }
    assert forall id :: Store.HasOrder(t, id) ==> Store.HasOrder(r, id);
  }

  lemma AppendedLineKeepsValid(t: Store.Tables, line: C.CartItem)
    requires Store.ReferencesValid(t) && Store.FieldsValid(t)
    requires Store.HasUser(t, line.user) && Store.HasProduct(t, line.product) && C.Valid(line)
    ensures var r := t.(cart := t.cart + [line], nextCartItemId := t.nextCartItemId + 1);
            Store.ReferencesValid(r) && Store.FieldsValid(r)
  {
    var r := t.(cart := t.cart + [line], nextCartItemId := t.nextCartItemId + 1);
    forall c | c in r.cart ensures Store.HasUser(r, c.user) && Store.HasProduct(r, c.product) && C.Valid(c) {
      if c != line {
        assert c in t.cart;
      }
    }
    assert forall id :: Store.HasOrder(t, id) ==> Store.HasOrder(r, id);
  }

  /**
   * The list-and-create view. A successful `perform_create` records on the
   * view the line it saved and the status to answer with; `create` reads
   * them back.
   */
  class CartItemListCreateView {
    var updatedInstance: Option<C.CartItem>
    var responseStatus: Option<nat>

    constructor ()
      ensures updatedInstance.None? && responseStatus.None?
    {
      updatedInstance, responseStatus := None, None;
    }

    method PerformCreate(db: Store.Database, user: nat, data: CartData, now: int) returns (raised: Raised)
      requires ValidForCreate(db.State(), data)
      modifies this, db
      ensures var p := CreateOutcome(old(db.State()), user, data, now);
              raised == p.raised && db.State() == p.tables
              && (raised.Completed? ==> updatedInstance == p.instance && responseStatus == p.status)
      ensures !raised.Completed? ==> updatedInstance == old(updatedInstance) && responseStatus == old(responseStatus)
    {
      ghost var t := db.State();
      var product := Store.ProductById(db.State(), data.product.value).value;
      if data.quantity.None? {
        return Crashed(QuantityMissing);
      }
      var quantity: nat := data.quantity.value;
      if product.stock.None? {
        return Crashed(StockIsNull);
      }
      if product.stock.value < quantity {
        return Invalid(InsufficientStock);
      }
      var color, size := Some(data.color.text), Some(data.size.text);
      var existing := MatchingLine(db.cartItems, user, product.id, color, size);
      if existing.Some? {
        var k := existing.value;
        var newQuantity := db.cartItems[k].quantity + quantity;
        if product.stock.value < newQuantity {
          return Invalid(InsufficientStock);
        }
        var line := db.cartItems[k].(quantity := newQuantity);
        db.cartItems := db.cartItems[k := line];
        updatedInstance, responseStatus := Some(line), Some(OK);
        assert db.State() == t.(cart := t.cart[k := line]);
        assert CreateOutcome(t, user, data, now) == Performed(Completed, Some(line), Some(OK), db.State());
      } else {
        var line := C.CartItem(db.nextCartItemId, user, product.id, quantity, color, size, now);
        db.cartItems := db.cartItems + [line];
        db.nextCartItemId := db.nextCartItemId + 1;
        updatedInstance, responseStatus := Some(line), Some(CREATED);
        assert db.State() == t.(cart := t.cart + [line], nextCartItemId := t.nextCartItemId + 1);
        assert CreateOutcome(t, user, data, now) == Performed(Completed, Some(line), Some(CREATED), db.State());
      }
      return Completed;
    }

    method Create(db: Store.Database, requester: Store.Requester, data: CartData, now: int)
      returns (response: Response<C.CartItem>)
      modifies this, db
      ensures Reply(response, db.State()) == AddItem(old(db.State()), requester, data, now)
    {
      var user := Store.Authenticate(db.State(), requester);
      if user.None? {
        return Unauthorized(db.State(), requester);
      }
      var clean := ToInternal(data, db.State(), false);
      if clean.Err? {
        return Response(BAD_REQUEST, Errors(clean.error));
      }
      var valid := Validate(clean.value, false);
      if valid.Err? {
        return Response(BAD_REQUEST, Errors([valid.error]));
      }
      AcceptedIsValidForCreate(db.State(), data, clean.value);
      var raised := PerformCreate(db, user.value.id, valid.value, now);
      match raised {
        case Invalid(e) =>
          response := Response(BAD_REQUEST, Errors([e]));
        case Crashed(x) =>
          response := Response(SERVER_ERROR, Raised(x));
        case Completed =>
          response := Response(responseStatus.value, Data(updatedInstance.value));
      }
    }
  }

  /** GET on the cart: the requesting user's lines. */
  function ListCart(t: Store.Tables, requester: Store.Requester): Response<seq<C.CartItem>>
  {
    match Store.Authenticate(t, requester)
    case None => Unauthorized(t, requester)
    case Some(user) => Response(OK, Data(UserCart(t.cart, user.id)))
  }

  /** The list holds exactly the requester's lines, each once, in table order. */
  lemma ListIsOwnLines(t: Store.Tables, user: nat)
    requires Store.Authenticate(t, Store.Bearer(user)).Some?
    requires Store.KeysValid(t)
    ensures var r := ListCart(t, Store.Bearer(user));
            r.status == OK
            && (forall c :: c in r.body.value <==> c in t.cart && c.user == user)
            && KeysIncreasing(r.body.value, Store.CartItemKey, t.nextCartItemId)
  {
    FilterKeepsKeys(t.cart, (c: C.CartItem) => c.user == user, Store.CartItemKey, t.nextCartItemId);
  }

  method List(db: Store.Database, requester: Store.Requester) returns (response: Response<seq<C.CartItem>>)
    ensures response == ListCart(db.State(), requester)
  {
    var user := Store.Authenticate(db.State(), requester);
    if user.None? {
      return Unauthorized(db.State(), requester);
    }
    response := Response(OK, Data(UserCart(db.cartItems, user.value.id)));
  }

  // ---------------------------------------------------------------------------
  // Reading, updating and deleting one line

  /** GET on one line: found only among the requester's own lines. */
  function RetrieveItem(t: Store.Tables, requester: Store.Requester, pk: nat): (r: Response<C.CartItem>)
    ensures r.status == OK ==> r.body.Data? && r.body.value in t.cart && r.body.value.id == pk
                               && requester.Bearer? && r.body.value.user == requester.userId
    ensures requester.Bearer? && Store.Authenticate(t, requester).Some? ==>
              (r.status == OK <==> exists c :: c in t.cart && c.id == pk && c.user == requester.userId)
  {
    match Store.Authenticate(t, requester)
    case None => Unauthorized(t, requester)
    case Some(user) =>
      match OwnLine(t.cart, user.id, pk)
      case None => NotFound("CartItem")
      case Some(k) => Response(OK, Data(t.cart[k]))
  }

  /** The line after `serializer.save()`: given fields replace the stored ones. */
  function Updated(line: C.CartItem, data: CartData): (r: C.CartItem)
    requires data.quantity.Some? ==> data.quantity.value >= 0
    ensures r.id == line.id && r.user == line.user && r.addedAt == line.addedAt
    ensures r.product == data.product.GetOr(line.product) && r.quantity == data.quantity.GetOr(line.quantity)
    ensures data.color.Missing? ==> r.color == line.color
    ensures data.color.Given? ==> r.color == Some(data.color.text)
    ensures data.size.Missing? ==> r.size == line.size
    ensures data.size.Given? ==> r.size == Some(data.size.text)
  {
    line.(product := data.product.GetOr(line.product),
          quantity := if data.quantity.Some? then data.quantity.value else line.quantity,
          color := match data.color case Missing => line.color case Null => None case Given(s) => Some(s),
          size := match data.size case Missing => line.size case Null => None case Given(s) => Some(s))
  }

  /**
   * PUT or PATCH on one line: the line must be the requester's (404
   * otherwise), the data must pass the serializer, and the quantity — the
   * new one, or the stored one when none is given — must not exceed the
   * stock of the product the line named before the update. A change that
   * makes the line clash with another is refused by the database.
   */
  function UpdateItem(t: Store.Tables, requester: Store.Requester, pk: nat, data: CartData, partial: bool)
    : Reply<C.CartItem>
  {
    match Store.Authenticate(t, requester)
    case None => Reply(Unauthorized(t, requester), t)
    case Some(user) =>
      match OwnLine(t.cart, user.id, pk)
      case None => Reply(NotFound("CartItem"), t)
      case Some(k) =>
        match ToInternal(data, t, partial)
        case Err(errors) => Reply(Response(BAD_REQUEST, Errors(errors)), t)
        case Ok(clean) =>
          match Validate(clean, true)
          case Err(e) => Reply(Response(BAD_REQUEST, Errors([e])), t)
          case Ok(valid) =>
            var instance := t.cart[k];
            var quantity: int := valid.quantity.GetOr(instance.quantity);
            match Store.ProductById(t, instance.product)
            case None => Reply(Response(SERVER_ERROR, Raised(ProductMissing)), t)
            case Some(product) =>
              if product.stock.None? then Reply(Response(SERVER_ERROR, Raised(StockIsNull)), t)
              else if product.stock.value < quantity then Reply(Response(BAD_REQUEST, Errors([InsufficientStock])), t)
              else
                var line := Updated(instance, valid);
                if ClashingLine(t.cart, line).Some? then Reply(Response(SERVER_ERROR, Raised(DuplicateLine)), t)
                else Reply(Response(OK, Data(line)), t.(cart := t.cart[k := line]))
  }

  /** Another user's line, or a missing one, is not found, and nothing changes. */
  lemma UpdateOfOthersLineNotFound(t: Store.Tables, user: nat, pk: nat, data: CartData, partial: bool)
    requires Store.Authenticate(t, Store.Bearer(user)).Some?
    requires forall c :: c in t.cart && c.id == pk ==> c.user != user
    ensures UpdateItem(t, Store.Bearer(user), pk, data, partial) == Reply(NotFound("CartItem"), t)
  {
  }

  /**
   * An update the serializer accepts is checked against the stock of the
   * line's product: the given quantity, or the stored one when none is
   * given, above the stock is refused with "Insufficient stock"; within it,
   * the line becomes the updated line unless that clashes with another.
   */
  lemma UpdateChecksStock(t: Store.Tables, user: nat, pk: nat, data: CartData, partial: bool,
                          k: nat, clean: CartData, stock: int)
    requires Store.Authenticate(t, Store.Bearer(user)).Some?
    requires OwnLine(t.cart, user, pk) == Some(k)
    requires ToInternal(data, t, partial) == Ok(clean) && Validate(clean, true).Ok?
    requires Store.ProductById(t, t.cart[k].product).Some?
    requires Store.ProductById(t, t.cart[k].product).value.stock == Some(stock)
    ensures var quantity: int := clean.quantity.GetOr(t.cart[k].quantity);
            var r := UpdateItem(t, Store.Bearer(user), pk, data, partial);
            var line := Updated(t.cart[k], clean);
            && (stock < quantity ==> r == Reply(Response(BAD_REQUEST, Errors([InsufficientStock])), t))
            && (quantity <= stock && ClashingLine(t.cart, line).None? ==>
                  r == Reply(Response(OK, Data(line)), t.(cart := t.cart[k := line])))
            && (quantity <= stock && ClashingLine(t.cart, line).Some? ==>
                  r.response.status == SERVER_ERROR && r.tables == t)
  {
  }

  /** An update changes at most the requester's own line and leaves every other table alone. */
  lemma UpdateLeavesOthersAlone(t: Store.Tables, requester: Store.Requester, pk: nat, data: CartData, partial: bool, other: nat)
    requires requester.Bearer? ==> other != requester.userId
    ensures var r := UpdateItem(t, requester, pk, data, partial).tables;
            && r.users == t.users && r.products == t.products && r.favourites == t.favourites
            && r.orders == t.orders && r.orderItems == t.orderItems && r.nextCartItemId == t.nextCartItemId
            && UserCart(r.cart, other) == UserCart(t.cart, other)
  {
    var r := UpdateItem(t, requester, pk, data, partial);
    if r.tables != t {
      var k, line := UpdateResult(t, requester, pk, data, partial);
      OtherUsersUnchangedByReplace(t.cart, k, line, other);
    }
  }

  /** The tables after an update that changed them: one line of the caller's replaced by a line that clashes with none. */
  lemma UpdateResult(t: Store.Tables, requester: Store.Requester, pk: nat, data: CartData, partial: bool)
    returns (k: nat, line: C.CartItem)
    requires UpdateItem(t, requester, pk, data, partial).tables != t
    ensures requester.Bearer? && k < |t.cart| && t.cart[k].user == requester.userId
    ensures line.id == t.cart[k].id && line.user == t.cart[k].user
    ensures Store.HasProduct(t, line.product) && (C.Valid(t.cart[k]) ==> C.Valid(line))
    ensures ClashingLine(t.cart, line).None?
    ensures UpdateItem(t, requester, pk, data, partial).tables == t.(cart := t.cart[k := line])
  {
    var user := Store.Authenticate(t, requester).value;
    k := OwnLine(t.cart, user.id, pk).value;
    var clean := ToInternal(data, t, partial).value;
    line := Updated(t.cart[k], clean);
  }

  /** A successful update keeps every integrity rule of the store. */
  lemma UpdateKeepsValid(t: Store.Tables, requester: Store.Requester, pk: nat, data: CartData, partial: bool)
    requires Store.Valid(t)
    ensures Store.Valid(UpdateItem(t, requester, pk, data, partial).tables)
  {
    var r := UpdateItem(t, requester, pk, data, partial).tables;
    if r != t {
      var k, line := UpdateResult(t, requester, pk, data, partial);
      ReplaceKeepsKeys(t.cart, k, line, Store.CartItemKey, t.nextCartItemId);
      UnclashingLineKeepsUnique(t, k, line);
      assert t.cart[k] in t.cart;
      ReplacedLineKeepsValid(t, k, line);
    }
  }

  /** A line that clashes with no other line can take the place of the line with its key. */
  lemma UnclashingLineKeepsUnique(t: Store.Tables, k: nat, line: C.CartItem)
    requires Store.KeysValid(t) && Pairwise(t.cart, Store.CartRowsCompatible)
    requires k < |t.cart| && line.id == t.cart[k].id
    requires ClashingLine(t.cart, line).None?
    ensures Pairwise(t.cart[k := line], Store.CartRowsCompatible)
  {
    var r := t.cart[k := line];
    forall i, j | 0 <= i < j < |r| ensures Store.CartRowsCompatible(r[i], r[j]) {
      if i == k {
        assert t.cart[j].id != line.id;
        assert !C.Clash(t.cart[j], line);
      } else if j == k {
        assert t.cart[i].id != line.id;
        assert !C.Clash(t.cart[i], line);
      } else {
        assert Store.CartRowsCompatible(t.cart[i], t.cart[j]);
      }
    }
  }

  method Update(db: Store.Database, requester: Store.Requester, pk: nat, data: CartData, partial: bool)
    returns (response: Response<C.CartItem>)
    modifies db
    ensures Reply(response, db.State()) == UpdateItem(old(db.State()), requester, pk, data, partial)
  {
    var user := Store.Authenticate(db.State(), requester);
    if user.None? {
      return Unauthorized(db.State(), requester);
    }
    var found := OwnLine(db.cartItems, user.value.id, pk);
    if found.None? {
      return NotFound("CartItem");
    }
    var k := found.value;
    var clean := ToInternal(data, db.State(), partial);
    if clean.Err? {
      return Response(BAD_REQUEST, Errors(clean.error));
    }
    var valid := Validate(clean.value, true);
    if valid.Err? {
      return Response(BAD_REQUEST, Errors([valid.error]));
    }
    var instance := db.cartItems[k];
    var quantity: int := valid.value.quantity.GetOr(instance.quantity);
    var product := Store.ProductById(db.State(), instance.product);
    if product.None? {
      return Response(SERVER_ERROR, Raised(ProductMissing));
    }
    if product.value.stock.None? {
      return Response(SERVER_ERROR, Raised(StockIsNull));
    }
    if product.value.stock.value < quantity {
      return Response(BAD_REQUEST, Errors([InsufficientStock]));
    }
    var line := Updated(instance, valid.value);
    if ClashingLine(db.cartItems, line).Some? {
      return Response(SERVER_ERROR, Raised(DuplicateLine));
    }
    db.cartItems := db.cartItems[k := line];
    response := Response(OK, Data(line));
  }

  /** DELETE on one line: only the requester's own line, answered with 204. */
  function DeleteItem(t: Store.Tables, requester: Store.Requester, pk: nat): Reply<C.CartItem>
  {
    match Store.Authenticate(t, requester)
    case None => Reply(Unauthorized(t, requester), t)
    case Some(user) =>
      match OwnLine(t.cart, user.id, pk)
      case None => Reply(NotFound("CartItem"), t)
      case Some(k) => Reply(Response(NO_CONTENT, Empty), t.(cart := Filter(t.cart, (c: C.CartItem) => c.id != pk)))
  }

  /**
   * Deleting removes exactly the requester's line with that key, or nothing
   * (404) when the requester has no such line; no other line changes.
   */
  lemma DeleteRemovesOwnLine(t: Store.Tables, user: nat, pk: nat)
    requires Store.Authenticate(t, Store.Bearer(user)).Some?
    ensures var r := DeleteItem(t, Store.Bearer(user), pk);
            if exists c :: c in t.cart && c.id == pk && c.user == user then
              r.response.status == NO_CONTENT
              && (forall c :: c in r.tables.cart <==> c in t.cart && c.id != pk)
              && r.tables == t.(cart := r.tables.cart)
            else
              r == Reply(NotFound("CartItem"), t)
  {
    var r := DeleteItem(t, Store.Bearer(user), pk);
    if exists c :: c in t.cart && c.id == pk && c.user == user {
      var c :| c in t.cart && c.id == pk && c.user == user;
      var i :| 0 <= i < |t.cart| && t.cart[i] == c;
      assert OwnLine(t.cart, user, pk).Some?;
      forall c | c in r.tables.cart ensures c in t.cart && c.id != pk {
        var j :| 0 <= j < |r.tables.cart| && r.tables.cart[j] == c;
      }
    }
  }

  /** A delete keeps every integrity rule of the store. */
  lemma DeleteKeepsValid(t: Store.Tables, requester: Store.Requester, pk: nat)
    requires Store.Valid(t)
    ensures Store.Valid(DeleteItem(t, requester, pk).tables)
  {
    CartFilteredKeepsValid(t, (c: C.CartItem) => c.id != pk);
  }

  /** Removing any cart lines keeps every integrity rule: nothing refers to a cart line. */
  lemma CartFilteredKeepsValid(t: Store.Tables, keep: C.CartItem -> bool)
    requires Store.Valid(t)
    ensures Store.Valid(t.(cart := Filter(t.cart, keep)))
  {
    var r := t.(cart := Filter(t.cart, keep));
    FilterKeepsKeys(t.cart, keep, Store.CartItemKey, t.nextCartItemId);
    FilterKeepsPairwise(t.cart, keep, Store.CartRowsCompatible);
    assert forall id :: Store.HasUser(t, id) ==> Store.HasUser(r, id);
    assert forall id :: Store.HasProduct(t, id) ==> Store.HasProduct(r, id);
    assert forall id :: Store.HasOrder(t, id) ==> Store.HasOrder(r, id);
  }

  method Destroy(db: Store.Database, requester: Store.Requester, pk: nat) returns (response: Response<C.CartItem>)
    modifies db
    ensures Reply(response, db.State()) == DeleteItem(old(db.State()), requester, pk)
  {
    var user := Store.Authenticate(db.State(), requester);
    if user.None? {
      return Unauthorized(db.State(), requester);
    }
    var found := OwnLine(db.cartItems, user.value.id, pk);
    if found.None? {
      return NotFound("CartItem");
    }
    db.cartItems := Filter(db.cartItems, (c: C.CartItem) => c.id != pk);
    response := Response(NO_CONTENT, Empty);
  }
}
