/**
 * Checkout (order/views.py): the requesting user's cart lines become the
 * items of a new order, each with the product's current price, the cart is
 * emptied, and a confirmation is sent to the phone number of the request.
 * The order is stored before the phone number is looked at, so a request
 * without one is refused only after the order exists and the cart is empty.
 */
module OrderViews {
  import opened Wrappers
  import opened Http
  import opened QuerySet
  import C = CartModel
  import O = OrderModel
  import P = ProductModel
  import Store
  import Text
  import CartViews

  /** What the request holds under "phone": JSON may give a number where a text is expected. */
  datatype Phone = NoPhone | NullPhone | PhoneText(text: string) | PhoneNumber(number: int)

  /** The fields of the checkout form. */
  datatype OrderData = OrderData(shippingAddress: Entry, city: Entry, postalCode: Entry, country: Entry, phone: Phone)

  /** What the messaging client reports: a message id, or the error it met. */
  datatype Confirmation = Sent(sid: string) | Failed(error: string)

  /** The body of a successful checkout: the order, its items and the messaging outcome. */
  datatype Placed = Placed(order: O.Order, items: seq<O.OrderItem>, whatsappStatus: Confirmation)

  const CartEmpty := FieldError("error", "Cart is empty")
  const PhoneRequired := FieldError("error", "Phone number is required for confirmation message")
  const PhoneNotText := "AttributeError: 'int' object has no attribute 'startswith'"

  // ---------------------------------------------------------------------------
  // The order serializer's field checks

  /** The errors of the four address fields, in field order. */
  function OrderErrors(d: OrderData): seq<FieldError>
  {
    CharFieldErrors("shipping_address", d.shippingAddress, O.ShippingAddressMaxLength)
    + CharFieldErrors("city", d.city, O.CityMaxLength)
    + CharFieldErrors("postal_code", d.postalCode, O.PostalCodeMaxLength)
    + CharFieldErrors("country", d.country, O.CountryMaxLength)
  }

  /** The order `serializer.save(user=user)` stores: the next key, the user, the stripped fields. */
  function NewOrder(id: nat, user: nat, d: OrderData, now: int): (o: O.Order)
    requires OrderErrors(d) == []
    ensures o.id == id && o.user == user && O.ValidOrder(o)
  {
    assert CharFieldErrors("shipping_address", d.shippingAddress, O.ShippingAddressMaxLength) == [];
    assert CharFieldErrors("city", d.city, O.CityMaxLength) == [];
    assert CharFieldErrors("postal_code", d.postalCode, O.PostalCodeMaxLength) == [];
    O.Order(id, user, Cleaned(d.shippingAddress), Cleaned(d.city), Cleaned(d.postalCode), Cleaned(d.country), now, now)
  }

  // ---------------------------------------------------------------------------
  // Copying the cart

  /** The price of a product at checkout, None if no product has that id. */
  function PriceOf(products: seq<P.Product>, id: nat): (r: Option<int>)
    ensures r.Some? <==> Store.ProductIn(products, id).Some?
    ensures r.Some? ==> r.value == Store.ProductIn(products, id).value.priceCents
  {
    match Store.ProductIn(products, id)
    case None => None
    case Some(p) => Some(p.priceCents)
  }

  /** The OrderItem created for one cart line. */
  function CopiedLine(line: C.CartItem, order: nat, id: nat, products: seq<P.Product>): O.OrderItem
  {
    O.OrderItem(id, order, line.product, line.quantity, line.color, line.size, PriceOf(products, line.product))
  }

  /** The items created for the cart lines, in order, under consecutive keys from `first`. */
  function CopiedLines(lines: seq<C.CartItem>, order: nat, first: nat, products: seq<P.Product>): (r: seq<O.OrderItem>)
    ensures |r| == |lines|
    ensures forall i :: 0 <= i < |r| ==> r[i] == CopiedLine(lines[i], order, first + i, products)
  {
    seq(|lines|, i requires 0 <= i < |lines| => CopiedLine(lines[i], order, first + i, products))
  }

  /**
   * Each cart line gives exactly one item, at the same position, for the
   * new order, with the line's product, quantity, colour and size and the
   * product's price at the time of checkout.
   */
  lemma CopiedLinesMatchCart(t: Store.Tables, lines: seq<C.CartItem>, order: nat, first: nat)
    requires forall i :: 0 <= i < |lines| ==> Store.HasProduct(t, lines[i].product)
    ensures var items := CopiedLines(lines, order, first, t.products);
            |items| == |lines|
            && forall i :: 0 <= i < |items| ==>
                 && items[i].id == first + i && items[i].order == order
                 && items[i].product == lines[i].product && items[i].quantity == lines[i].quantity
                 && items[i].color == lines[i].color && items[i].size == lines[i].size
                 && items[i].priceCents == Some(Store.ProductById(t, lines[i].product).value.priceCents)
  {
  }

  // ---------------------------------------------------------------------------
  // The phone number

  /** A number that does not start with '+' gets one in front. */
  function NormalisePhone(s: string): (r: string)
    ensures Text.StartsWith(r, "+")
    ensures Text.StartsWith(s, "+") ==> r == s
    ensures !Text.StartsWith(s, "+") ==> r == "+" + s
  {
    if Text.StartsWith(s, "+") then s else "+" + s
  }

  lemma NormalisePhoneIdempotent(s: string)
    ensures NormalisePhone(NormalisePhone(s)) == NormalisePhone(s)
  {
  }

  /** Python truthiness of the phone value. */
  predicate PhoneGiven(p: Phone)
  {
    (p.PhoneText? && p.text != "") || (p.PhoneNumber? && p.number != 0)
  }

  // ---------------------------------------------------------------------------
  // OrderCreateView.create

  /** The tables once the order row is stored under the next key. */
  function WithOrder(t: Store.Tables, order: O.Order): (r: Store.Tables)
    ensures r.orders == t.orders + [order] && r.nextOrderId == t.nextOrderId + 1
    ensures r.orderItems == t.orderItems && r.cart == t.cart && r.products == t.products
  {
    t.(orders := t.orders + [order], nextOrderId := t.nextOrderId + 1)
  }

  /** The tables once one item per cart line is stored for the order, under consecutive keys. */
  function WithItems(t: Store.Tables, lines: seq<C.CartItem>, order: nat): (r: Store.Tables)
    ensures r.orderItems == t.orderItems + CopiedLines(lines, order, t.nextOrderItemId, t.products)
    ensures r.nextOrderItemId == t.nextOrderItemId + |lines|
    ensures r.orders == t.orders && r.cart == t.cart && r.products == t.products
  {
    t.(orderItems := t.orderItems + CopiedLines(lines, order, t.nextOrderItemId, t.products),
       nextOrderItemId := t.nextOrderItemId + |lines|)
  }

  /** The tables once the order is stored, the items are created and the user's cart is emptied. */
  function Committed(t: Store.Tables, user: nat, order: O.Order): (r: Store.Tables)
    ensures r.users == t.users && r.products == t.products && r.favourites == t.favourites
    ensures r.orders == t.orders + [order]
    ensures r.orderItems == t.orderItems + CopiedLines(CartViews.UserCart(t.cart, user), order.id, t.nextOrderItemId, t.products)
    ensures r.cart == Store.CartWithoutUser(t.cart, user)
  {
    var t2 := WithItems(WithOrder(t, order), CartViews.UserCart(t.cart, user), order.id);
    t2.(cart := Store.CartWithoutUser(t2.cart, user))
  }

  /**
   * POST to the orders: 400 for an empty cart, 400 for invalid address
   * fields, and otherwise the order is committed. Only then is the phone
   * number read: a missing one is a 400, a number where text is expected a
   * server error, and a text is normalised and handed to `send` with the
   * order's id; the answer is 201.
   */
  function Checkout(t: Store.Tables, requester: Store.Requester, data: OrderData, now: int,
                    send: (string, nat) -> Confirmation): Reply<Placed>
  {
    match Store.Authenticate(t, requester)
    case None => Reply(Unauthorized(t, requester), t)
    case Some(user) =>
      var lines := CartViews.UserCart(t.cart, user.id);
      if lines == [] then Reply(Response(BAD_REQUEST, Errors([CartEmpty])), t)
      else if OrderErrors(data) != [] then Reply(Response(BAD_REQUEST, Errors(OrderErrors(data))), t)
      else
        var order := NewOrder(t.nextOrderId, user.id, data, now);
        var committed := Committed(t, user.id, order);
        if !PhoneGiven(data.phone) then Reply(Response(BAD_REQUEST, Errors([PhoneRequired])), committed)
        else if data.phone.PhoneNumber? then Reply(Response(SERVER_ERROR, Raised(PhoneNotText)), committed)
        else
          var items := CopiedLines(lines, order.id, t.nextOrderItemId, t.products);
          var status := send(NormalisePhone(data.phone.text), order.id);
          Reply(Response(CREATED, Data(Placed(order, items, status))), committed)
  }

  /** The user has lines in the cart and the address fields pass. */
  predicate CheckoutAccepted(t: Store.Tables, user: nat, data: OrderData)
  {
    Store.Authenticate(t, Store.Bearer(user)).Some? && CartViews.UserCart(t.cart, user) != [] && OrderErrors(data) == []
  }

  /** An empty cart is refused with "Cart is empty" and no order is created. */
  lemma CheckoutEmptyCart(t: Store.Tables, user: nat, data: OrderData, now: int, send: (string, nat) -> Confirmation)
    requires Store.Authenticate(t, Store.Bearer(user)).Some?
    requires forall c :: c in t.cart ==> c.user != user
    ensures Checkout(t, Store.Bearer(user), data, now, send) == Reply(Response(BAD_REQUEST, Errors([CartEmpty])), t)
  {
    NoLinesOfUser(t.cart, user);
  }

  lemma {:induction false} NoLinesOfUser(cart: seq<C.CartItem>, user: nat)
    requires forall c :: c in cart ==> c.user != user
    ensures CartViews.UserCart(cart, user) == []
  {
    if cart != [] {
      assert cart[0] in cart;
      NoLinesOfUser(cart[1..], user);
    }
  }

  /** Invalid address fields are refused with their errors and nothing changes. */
  lemma CheckoutInvalidFields(t: Store.Tables, user: nat, data: OrderData, now: int, send: (string, nat) -> Confirmation)
    requires Store.Authenticate(t, Store.Bearer(user)).Some? && CartViews.UserCart(t.cart, user) != []
    requires OrderErrors(data) != []
    ensures Checkout(t, Store.Bearer(user), data, now, send) == Reply(Response(BAD_REQUEST, Errors(OrderErrors(data))), t)
  {
  }

  /**
   * An accepted checkout stores one new order of the user's, and the phone
   * number has no say in that: whatever it holds, the tables end the same.
   */
  lemma CheckoutCommitsBeforePhone(t: Store.Tables, user: nat, data: OrderData, phone: Phone, now: int,
                                   send: (string, nat) -> Confirmation)
    requires CheckoutAccepted(t, user, data)
    ensures var r := Checkout(t, Store.Bearer(user), data, now, send);
            && r.tables == Checkout(t, Store.Bearer(user), data.(phone := phone), now, send).tables
            && r.tables.orders == t.orders + [NewOrder(t.nextOrderId, user, data, now)]
            && (!PhoneGiven(data.phone) ==> r.response == Response(BAD_REQUEST, Errors([PhoneRequired])))
  {
    assert OrderErrors(data.(phone := phone)) == OrderErrors(data);
    assert NewOrder(t.nextOrderId, user, data.(phone := phone), now) == NewOrder(t.nextOrderId, user, data, now);
  }

  /**
   * A successful checkout answers 201, sends the confirmation to the
   * normalised number with the new order's id, and reports what the
   * messaging client returned.
   */
  lemma CheckoutSucceeds(t: Store.Tables, user: nat, data: OrderData, now: int, send: (string, nat) -> Confirmation)
    requires CheckoutAccepted(t, user, data)
    requires data.phone.PhoneText? && data.phone.text != ""
    ensures var r := Checkout(t, Store.Bearer(user), data, now, send);
            && r.response.status == CREATED
            && r.response.body.value.order == NewOrder(t.nextOrderId, user, data, now)
            && r.response.body.value.whatsappStatus == send(NormalisePhone(data.phone.text), t.nextOrderId)
            && r.response.body.value.items
               == CopiedLines(CartViews.UserCart(t.cart, user), t.nextOrderId, t.nextOrderItemId, t.products)
  {
  }

  /**
   * After checkout the user's cart is empty, every other user's cart is as
   * it was, and the users, the products (their stock included) and the
   * favourites are untouched.
   */
  lemma CheckoutEmptiesOnlyOwnCart(t: Store.Tables, user: nat, order: O.Order, other: nat)
    requires other != user
    ensures var r := Committed(t, user, order);
            && CartViews.UserCart(r.cart, user) == []
            && CartViews.UserCart(r.cart, other) == CartViews.UserCart(t.cart, other)
            && r.users == t.users && r.products == t.products && r.favourites == t.favourites
  {
    UserCartOfRemainder(t.cart, user, other);
    NothingLeftOfUser(t.cart, user);
  }

  lemma {:induction false} NothingLeftOfUser(cart: seq<C.CartItem>, user: nat)
    ensures CartViews.UserCart(Store.CartWithoutUser(cart, user), user) == []
  {
    if cart != [] {
      NothingLeftOfUser(cart[1..], user);
      if cart[0].user != user {
        assert Store.CartWithoutUser(cart, user) == [cart[0]] + Store.CartWithoutUser(cart[1..], user);
        assert ([cart[0]] + Store.CartWithoutUser(cart[1..], user))[1..] == Store.CartWithoutUser(cart[1..], user);
      }
    }
  }

  lemma {:induction false} UserCartOfRemainder(cart: seq<C.CartItem>, user: nat, other: nat)
    requires other != user
    ensures CartViews.UserCart(Store.CartWithoutUser(cart, user), other) == CartViews.UserCart(cart, other)
  {
    if cart != [] {
      UserCartOfRemainder(cart[1..], user, other);
      if cart[0].user != user {
        assert Store.CartWithoutUser(cart, user) == [cart[0]] + Store.CartWithoutUser(cart[1..], user);
        assert ([cart[0]] + Store.CartWithoutUser(cart[1..], user))[1..] == Store.CartWithoutUser(cart[1..], user);
      }
    }
  }

  // ---------------------------------------------------------------------------
  // Integrity

  /** A checkout keeps every integrity rule of the store. */
  lemma CheckoutKeepsValid(t: Store.Tables, requester: Store.Requester, data: OrderData, now: int,
                           send: (string, nat) -> Confirmation)
    requires Store.Valid(t)
    ensures Store.Valid(Checkout(t, requester, data, now, send).tables)
  {
    var r := Checkout(t, requester, data, now, send).tables;
    if r != t {
      var user := Store.Authenticate(t, requester).value;
      var order := NewOrder(t.nextOrderId, user.id, data, now);
      assert r == Committed(t, user.id, order);
      CommittedKeepsValid(t, user.id, order);
    }
  }

  lemma CommittedKeepsValid(t: Store.Tables, user: nat, order: O.Order)
    requires Store.Valid(t)
    requires order.id == t.nextOrderId && order.user == user && O.ValidOrder(order) && Store.HasUser(t, user)
    ensures Store.Valid(Committed(t, user, order))
  {
    var t1 := WithOrder(t, order);
    OrderAddedKeepsValid(t, order);
    assert Store.HasOrder(t1, order.id) by {
      assert order in t1.orders;
    }
    ItemsAddedKeepsValid(t1, CartViews.UserCart(t.cart, user), order.id);
    CartEmptiedKeepsValid(WithItems(t1, CartViews.UserCart(t.cart, user), order.id), user);
  }

  lemma CartEmptiedKeepsValid(t: Store.Tables, user: nat)
    requires Store.Valid(t)
    ensures Store.Valid(t.(cart := Store.CartWithoutUser(t.cart, user)))
  {
    CartViews.CartFilteredKeepsValid(t, (c: C.CartItem) => c.user != user);
  }

  lemma OrderAddedKeepsValid(t: Store.Tables, order: O.Order)
    requires Store.Valid(t)
    requires order.id == t.nextOrderId && O.ValidOrder(order) && Store.HasUser(t, order.user)
    ensures Store.Valid(WithOrder(t, order))
  {
    var r := WithOrder(t, order);
    AppendKeepsKeys(t.orders, order, Store.OrderKey, t.nextOrderId, t.nextOrderId + 1);
    forall i | i in r.orderItems ensures Store.HasOrder(r, i.order) && Store.HasProduct(r, i.product) {
      var o :| o in t.orders && o.id == i.order;
      assert o in r.orders;
    }
    forall o | o in r.orders ensures Store.HasUser(r, o.user) && O.ValidOrder(o) {
      if o != order {
        assert o in t.orders;
      }
    }
  }

  /** Appending the copied lines of cart lines stored in the tables keeps every integrity rule. */
  lemma ItemsAddedKeepsValid(t: Store.Tables, lines: seq<C.CartItem>, order: nat)
    requires Store.Valid(t) && Store.HasOrder(t, order)
    requires forall i :: 0 <= i < |lines| ==> lines[i] in t.cart
    ensures Store.Valid(WithItems(t, lines, order))
  {
    var items := CopiedLines(lines, order, t.nextOrderItemId, t.products);
    AppendRunKeepsKeys(t.orderItems, items, t.nextOrderItemId);
    ItemsAddedKeepsReferences(t, lines, order);
  }

  lemma ItemsAddedKeepsReferences(t: Store.Tables, lines: seq<C.CartItem>, order: nat)
    requires Store.ReferencesValid(t) && Store.FieldsValid(t) && Store.HasOrder(t, order)
    requires forall i :: 0 <= i < |lines| ==> lines[i] in t.cart
    ensures Store.ReferencesValid(WithItems(t, lines, order)) && Store.FieldsValid(WithItems(t, lines, order))
  {
    var items := CopiedLines(lines, order, t.nextOrderItemId, t.products);
    var r := WithItems(t, lines, order);
    forall i | i in r.orderItems ensures Store.HasOrder(r, i.order) && Store.HasProduct(r, i.product) && O.ValidItem(i) {
      if i !in t.orderItems {
        var j :| 0 <= j < |items| && items[j] == i;
        assert lines[j] in t.cart;
      }
    }
  }

  /** Appending rows whose keys run on from the next key keeps the keys in order. */
  lemma AppendRunKeepsKeys(s: seq<O.OrderItem>, run: seq<O.OrderItem>, next: nat)
    requires KeysIncreasing(s, Store.OrderItemKey, next)
    requires forall i :: 0 <= i < |run| ==> run[i].id == next + i
    ensures KeysIncreasing(s + run, Store.OrderItemKey, next + |run|)
  {
  }

  /** Copying one more line appends its item under the next key. */
  lemma CopiedLinesStep(lines: seq<C.CartItem>, i: nat, order: nat, first: nat, products: seq<P.Product>)
    requires i < |lines|
    ensures CopiedLines(lines[..i + 1], order, first, products)
            == CopiedLines(lines[..i], order, first, products) + [CopiedLine(lines[i], order, first + i, products)]
  {
  }

  // ---------------------------------------------------------------------------
  // The view

  /** One `OrderItem.objects.create` per cart line, in cart order. */
  method CreateItems(db: Store.Database, lines: seq<C.CartItem>, order: nat) returns (items: seq<O.OrderItem>)
    modifies db
    ensures items == CopiedLines(lines, order, old(db.nextOrderItemId), old(db.products))
    ensures db.State() == WithItems(old(db.State()), lines, order)
  {
    ghost var saved := db.State();
    var first := db.nextOrderItemId;
    items := [];
    var i := 0;
    while i < |lines|
      invariant 0 <= i <= |lines|
      invariant items == CopiedLines(lines[..i], order, first, saved.products)
      invariant db.State() == saved.(orderItems := saved.orderItems + items, nextOrderItemId := first + i)
    {
      var item := CopiedLine(lines[i], order, db.nextOrderItemId, db.products);
      CopiedLinesStep(lines, i, order, first, saved.products);
      db.orderItems := db.orderItems + [item];
      db.nextOrderItemId := db.nextOrderItemId + 1;
      items := items + [item];
      i := i + 1;
    }
    assert lines[..i] == lines;
  }

  /**
   * The writes of an accepted checkout: the order saved under the next key,
   * one item per cart line, then the caller's cart lines deleted.
   */
  method SaveOrder(db: Store.Database, user: nat, lines: seq<C.CartItem>, data: OrderData, now: int)
    returns (order: O.Order, items: seq<O.OrderItem>)
    requires lines == CartViews.UserCart(db.cartItems, user) && OrderErrors(data) == []
    modifies db
    ensures order == NewOrder(old(db.nextOrderId), user, data, now)
    ensures items == CopiedLines(lines, order.id, old(db.nextOrderItemId), old(db.products))
    ensures db.State() == Committed(old(db.State()), user, order)
  {
    ghost var before := db.State();
    order := NewOrder(db.nextOrderId, user, data, now);
    db.orders := db.orders + [order];
    db.nextOrderId := db.nextOrderId + 1;
    assert db.State() == WithOrder(before, order);
    items := CreateItems(db, lines, order.id);
    db.cartItems := Store.CartWithoutUser(db.cartItems, user);
  }

  method Create(db: Store.Database, requester: Store.Requester, data: OrderData, now: int,
                send: (string, nat) -> Confirmation) returns (response: Response<Placed>)
    modifies db
    ensures Reply(response, db.State()) == Checkout(old(db.State()), requester, data, now, send)
  {
    var user := Store.Authenticate(db.State(), requester);
    if user.None? {
      return Unauthorized(db.State(), requester);
    }
    var lines := CartViews.UserCart(db.cartItems, user.value.id);
    if lines == [] {
      return Response(BAD_REQUEST, Errors([CartEmpty]));
    }
    var errors := OrderErrors(data);
    if errors != [] {
      return Response(BAD_REQUEST, Errors(errors));
    }
    var order, items := SaveOrder(db, user.value.id, lines, data, now);

    if !PhoneGiven(data.phone) {
      return Response(BAD_REQUEST, Errors([PhoneRequired]));
    }
    if data.phone.PhoneNumber? {
      return Response(SERVER_ERROR, Raised(PhoneNotText));
    }
    var phone := NormalisePhone(data.phone.text);
    var status := send(phone, order.id);
    response := Response(CREATED, Data(Placed(order, items, status)));
  }
}
