/**
 * The relational store behind the views: one table per model, each a
 * sequence of rows in primary-key order, with the next key each table hands
 * out. `Valid` is what the database keeps true: keys, the uniqueness
 * constraints of the models, foreign keys, and the declared field bounds.
 * Deleting a user, product or order cascades to the rows that refer to it.
 */
module Store {
  import opened Wrappers
  import opened QuerySet
  import P = ProductModel
  import A = AccountModel
  import C = CartModel
  import F = FavouriteModel
  import O = OrderModel

  datatype Tables = Tables(
    users: seq<A.User>,
    products: seq<P.Product>,
    cart: seq<C.CartItem>,
    favourites: seq<F.Favourite>,
    orders: seq<O.Order>,
    orderItems: seq<O.OrderItem>,
    nextUserId: nat,
    nextProductId: nat,
    nextCartItemId: nat,
    nextFavouriteId: nat,
    nextOrderId: nat,
    nextOrderItemId: nat)

  // ---------------------------------------------------------------------------
  // Keys and relations between rows

  function UserKey(u: A.User): nat { u.id }
  function ProductKey(p: P.Product): nat { p.id }
  function CartItemKey(c: C.CartItem): nat { c.id }
  function FavouriteKey(f: F.Favourite): nat { f.id }
  function OrderKey(o: O.Order): nat { o.id }
  function OrderItemKey(i: O.OrderItem): nat { i.id }

  function DistinctEmails(a: A.User, b: A.User): bool { a.email != b.email }
  function CartRowsCompatible(a: C.CartItem, b: C.CartItem): bool { !C.Clash(a, b) }
  function FavouritesCompatible(a: F.Favourite, b: F.Favourite): bool { !F.Clash(a, b) }

  predicate HasUser(t: Tables, id: nat) { exists u :: u in t.users && u.id == id }
  predicate HasProduct(t: Tables, id: nat) { exists p :: p in t.products && p.id == id }
  predicate HasOrder(t: Tables, id: nat) { exists o :: o in t.orders && o.id == id }

  // ---------------------------------------------------------------------------
  // Integrity

  ghost predicate KeysValid(t: Tables)
  {
    && KeysIncreasing(t.users, UserKey, t.nextUserId)
    && KeysIncreasing(t.products, ProductKey, t.nextProductId)
    && KeysIncreasing(t.cart, CartItemKey, t.nextCartItemId)
    && KeysIncreasing(t.favourites, FavouriteKey, t.nextFavouriteId)
    && KeysIncreasing(t.orders, OrderKey, t.nextOrderId)
    && KeysIncreasing(t.orderItems, OrderItemKey, t.nextOrderItemId)
  }

  /** `email` is unique; `unique_together` on cart lines and on favourites. */
  ghost predicate UniqueValid(t: Tables)
  {
    && Pairwise(t.users, DistinctEmails)
    && Pairwise(t.cart, CartRowsCompatible)
    && Pairwise(t.favourites, FavouritesCompatible)
  }

  /** Every foreign key names an existing row. */
  ghost predicate ReferencesValid(t: Tables)
  {
    && (forall c :: c in t.cart ==> HasUser(t, c.user) && HasProduct(t, c.product))
    && (forall f :: f in t.favourites ==> HasUser(t, f.user) && HasProduct(t, f.product))
    && (forall o :: o in t.orders ==> HasUser(t, o.user))
    && (forall i :: i in t.orderItems ==> HasOrder(t, i.order) && HasProduct(t, i.product))
  }

  /** The bounds declared on the fields of stored rows. */
  ghost predicate FieldsValid(t: Tables)
  {
    && (forall p :: p in t.products ==> P.Valid(p))
    && (forall c :: c in t.cart ==> C.Valid(c))
    && (forall o :: o in t.orders ==> O.ValidOrder(o))
    && (forall i :: i in t.orderItems ==> O.ValidItem(i))
  }

  ghost predicate Valid(t: Tables)
  {
    KeysValid(t) && UniqueValid(t) && ReferencesValid(t) && FieldsValid(t)
  }

  // ---------------------------------------------------------------------------
  // Lookups

  /** `User.objects.get(id=id)`, None when it raises DoesNotExist. */
  function UserById(t: Tables, id: nat): (r: Option<A.User>)
    ensures r.Some? ==> r.value in t.users && r.value.id == id
    ensures r.None? <==> !HasUser(t, id)
  {
    match First(t.users, (u: A.User) => u.id == id)
    case None => None
    case Some(k) => Some(t.users[k])
  }

  /** `Product.objects.get(id=id)`, None when it raises DoesNotExist. */
  function ProductById(t: Tables, id: nat): (r: Option<P.Product>)
    ensures r.Some? ==> r.value in t.products && r.value.id == id
    ensures r.None? <==> !HasProduct(t, id)
  {
    ProductIn(t.products, id)
  }

  /** The first product with the given id in a product table. */
  function ProductIn(products: seq<P.Product>, id: nat): (r: Option<P.Product>)
    ensures r.Some? ==> r.value in products && r.value.id == id
    ensures r.None? <==> forall p :: p in products ==> p.id != id
  {
    match First(products, (p: P.Product) => p.id == id)
    case None => None
    case Some(k) => Some(products[k])
  }

  /** `User.objects.filter(email=email).first()`. */
  function UserByEmail(t: Tables, email: string): (r: Option<A.User>)
    ensures r.Some? ==> r.value in t.users && r.value.email == email
    ensures r.None? <==> forall u :: u in t.users ==> u.email != email
  {
    match First(t.users, (u: A.User) => u.email == email)
    case None => None
    case Some(k) => Some(t.users[k])
  }

  /** The position of the user row with a given id. */
  function UserIndex(t: Tables, id: nat): (r: Option<nat>)
    ensures r.Some? ==> r.value < |t.users| && t.users[r.value].id == id
    ensures r.None? <==> !HasUser(t, id)
  {
    First(t.users, (u: A.User) => u.id == id)
  }

  // ---------------------------------------------------------------------------
  // Who is asking

  /** What a request carries: no credentials, or a bearer token naming a user id. */
  datatype Requester = Anonymous | Bearer(userId: nat)

  /**
   * The request's user after token authentication: the token's user if that
   * user exists and is active. A token whose user is missing or inactive is
   * refused, like no token at all where authentication is required.
   */
  function Authenticate(t: Tables, r: Requester): (u: Option<A.User>)
    ensures u.Some? ==> r.Bearer? && u.value in t.users && u.value.id == r.userId && u.value.isActive
    ensures r.Anonymous? || !HasUser(t, r.userId) ==> u.None?
    ensures r.Bearer? && UserById(t, r.userId).Some? ==> (u.Some? <==> UserById(t, r.userId).value.isActive)
  {
    match r
    case Anonymous => None
    case Bearer(id) =>
      match UserById(t, id)
      case None => None
      case Some(u) => if u.isActive then Some(u) else None
  }

  // ---------------------------------------------------------------------------
  // Cascading deletes

  function CartWithoutUser(cart: seq<C.CartItem>, user: nat): (r: seq<C.CartItem>)
    ensures forall i :: 0 <= i < |r| ==> r[i] in cart && r[i].user != user
    ensures forall i :: 0 <= i < |cart| && cart[i].user != user ==> cart[i] in r
  {
    Filter(cart, (c: C.CartItem) => c.user != user)
  }

  predicate OrderOwnedBy(t: Tables, order: nat, user: nat)
  {
    exists o :: o in t.orders && o.id == order && o.user == user
  }

  /**
   * Deleting a user deletes, through `on_delete=CASCADE`, their cart lines,
   * their favourites, their orders and the items of those orders.
   */
  function UserDeleted(t: Tables, user: nat): (r: Tables)
    ensures !HasUser(r, user)
    ensures forall c :: c in r.cart <==> c in t.cart && c.user != user
    ensures forall f :: f in r.favourites <==> f in t.favourites && f.user != user
    ensures forall o :: o in r.orders <==> o in t.orders && o.user != user
    ensures forall i :: i in r.orderItems <==> i in t.orderItems && !OrderOwnedBy(t, i.order, user)
    ensures forall u :: u in r.users <==> u in t.users && u.id != user
    ensures r.(users := t.users, cart := t.cart, favourites := t.favourites, orders := t.orders,
               orderItems := t.orderItems) == t
  {
    t.(users := Filter(t.users, (u: A.User) => u.id != user),
       cart := CartWithoutUser(t.cart, user),
       favourites := Filter(t.favourites, (f: F.Favourite) => f.user != user),
       orders := Filter(t.orders, (o: O.Order) => o.user != user),
       orderItems := Filter(t.orderItems, (i: O.OrderItem) => !OrderOwnedBy(t, i.order, user)))
  }

  /** Deleting a product deletes the cart lines, favourites and order items that name it. */
  function ProductDeleted(t: Tables, product: nat): (r: Tables)
    ensures !HasProduct(r, product)
    ensures forall c :: c in r.cart <==> c in t.cart && c.product != product
    ensures forall f :: f in r.favourites <==> f in t.favourites && f.product != product
    ensures forall i :: i in r.orderItems <==> i in t.orderItems && i.product != product
    ensures forall p :: p in r.products <==> p in t.products && p.id != product
    ensures r.(products := t.products, cart := t.cart, favourites := t.favourites, orderItems := t.orderItems) == t
  {
    t.(products := Filter(t.products, (p: P.Product) => p.id != product),
       cart := Filter(t.cart, (c: C.CartItem) => c.product != product),
       favourites := Filter(t.favourites, (f: F.Favourite) => f.product != product),
       orderItems := Filter(t.orderItems, (i: O.OrderItem) => i.product != product))
  }

  /** Deleting an order deletes its items. */
  function OrderDeleted(t: Tables, order: nat): (r: Tables)
    ensures !HasOrder(r, order)
    ensures forall i :: i in r.orderItems <==> i in t.orderItems && i.order != order
    ensures forall o :: o in r.orders <==> o in t.orders && o.id != order
    ensures r.(orders := t.orders, orderItems := t.orderItems) == t
  {
    t.(orders := Filter(t.orders, (o: O.Order) => o.id != order),
       orderItems := Filter(t.orderItems, (i: O.OrderItem) => i.order != order))
  }

  lemma UserDeletedKeepsValid(t: Tables, user: nat)
    requires Valid(t)
    ensures Valid(UserDeleted(t, user))
  {
    var r := UserDeleted(t, user);
    UserDeletedKeepsKeys(t, user);
    UserDeletedKeepsUnique(t, user);
    UserDeletedKeepsReferences(t, user);
    assert FieldsValid(r);
  }

  lemma UserDeletedKeepsKeys(t: Tables, user: nat)
    requires KeysValid(t)
    ensures KeysValid(UserDeleted(t, user))
  {
    FilterKeepsKeys(t.users, (u: A.User) => u.id != user, UserKey, t.nextUserId);
    FilterKeepsKeys(t.cart, (c: C.CartItem) => c.user != user, CartItemKey, t.nextCartItemId);
    FilterKeepsKeys(t.favourites, (f: F.Favourite) => f.user != user, FavouriteKey, t.nextFavouriteId);
    FilterKeepsKeys(t.orders, (o: O.Order) => o.user != user, OrderKey, t.nextOrderId);
    FilterKeepsKeys(t.orderItems, (i: O.OrderItem) => !OrderOwnedBy(t, i.order, user), OrderItemKey, t.nextOrderItemId);
  }

  lemma UserDeletedKeepsUnique(t: Tables, user: nat)
    requires UniqueValid(t)
    ensures UniqueValid(UserDeleted(t, user))
  {
    FilterKeepsPairwise(t.users, (u: A.User) => u.id != user, DistinctEmails);
    FilterKeepsPairwise(t.cart, (c: C.CartItem) => c.user != user, CartRowsCompatible);
    FilterKeepsPairwise(t.favourites, (f: F.Favourite) => f.user != user, FavouritesCompatible);
  }

  lemma UserDeletedKeepsReferences(t: Tables, user: nat)
    requires ReferencesValid(t)
    ensures ReferencesValid(UserDeleted(t, user))
  {
    var r := UserDeleted(t, user);
    assert forall id :: HasUser(t, id) && id != user ==> HasUser(r, id) by {
      forall id | HasUser(t, id) && id != user ensures HasUser(r, id) {
        var u :| u in t.users && u.id == id;
        assert u in r.users;
      }
    }
    assert forall id :: HasProduct(t, id) ==> HasProduct(r, id);
    forall c | c in r.cart ensures HasUser(r, c.user) && HasProduct(r, c.product) {
      assert c in t.cart;
    }
    forall f | f in r.favourites ensures HasUser(r, f.user) && HasProduct(r, f.product) {
      assert f in t.favourites;
    }
    forall o | o in r.orders ensures HasUser(r, o.user) {
      assert o in t.orders;
    }
    forall i | i in r.orderItems ensures HasOrder(r, i.order) && HasProduct(r, i.product) {
      assert i in t.orderItems && !OrderOwnedBy(t, i.order, user);
      var o :| o in t.orders && o.id == i.order;
      assert o in r.orders;
    }
  }

  lemma ProductDeletedKeepsValid(t: Tables, product: nat)
    requires Valid(t)
    ensures Valid(ProductDeleted(t, product))
  {
    var r := ProductDeleted(t, product);
    ProductDeletedKeepsKeys(t, product);
    FilterKeepsPairwise(t.cart, (c: C.CartItem) => c.product != product, CartRowsCompatible);
    FilterKeepsPairwise(t.favourites, (f: F.Favourite) => f.product != product, FavouritesCompatible);
    ProductDeletedKeepsReferences(t, product);
  }

  lemma ProductDeletedKeepsKeys(t: Tables, product: nat)
    requires KeysValid(t)
    ensures KeysValid(ProductDeleted(t, product))
  {
    FilterKeepsKeys(t.products, (p: P.Product) => p.id != product, ProductKey, t.nextProductId);
    FilterKeepsKeys(t.cart, (c: C.CartItem) => c.product != product, CartItemKey, t.nextCartItemId);
    FilterKeepsKeys(t.favourites, (f: F.Favourite) => f.product != product, FavouriteKey, t.nextFavouriteId);
    FilterKeepsKeys(t.orderItems, (i: O.OrderItem) => i.product != product, OrderItemKey, t.nextOrderItemId);
  }

  lemma ProductDeletedKeepsReferences(t: Tables, product: nat)
    requires ReferencesValid(t)
    ensures ReferencesValid(ProductDeleted(t, product))
  {
    var r := ProductDeleted(t, product);
    forall id | HasProduct(t, id) && id != product ensures HasProduct(r, id) {
      var p :| p in t.products && p.id == id;
      assert p in r.products;
    }
  }

  lemma OrderDeletedKeepsValid(t: Tables, order: nat)
    requires Valid(t)
    ensures Valid(OrderDeleted(t, order))
  {
    var r := OrderDeleted(t, order);
    FilterKeepsKeys(t.orders, (o: O.Order) => o.id != order, OrderKey, t.nextOrderId);
    FilterKeepsKeys(t.orderItems, (i: O.OrderItem) => i.order != order, OrderItemKey, t.nextOrderItemId);
    forall id | HasOrder(t, id) && id != order ensures HasOrder(r, id) {
      var o :| o in t.orders && o.id == id;
      assert o in r.orders;
    }
  }

  // ---------------------------------------------------------------------------
  // The database object the views update in place

  class Database {
    var users: seq<A.User>
    var products: seq<P.Product>
    var cartItems: seq<C.CartItem>
    var favourites: seq<F.Favourite>
    var orders: seq<O.Order>
    var orderItems: seq<O.OrderItem>
    var nextUserId: nat
    var nextProductId: nat
    var nextCartItemId: nat
    var nextFavouriteId: nat
    var nextOrderId: nat
    var nextOrderItemId: nat

    /** All tables as one value. */
    function State(): Tables
      reads this
    {
      Tables(users, products, cartItems, favourites, orders, orderItems,
             nextUserId, nextProductId, nextCartItemId, nextFavouriteId, nextOrderId, nextOrderItemId)
    }

    constructor (t: Tables)
      ensures State() == t
    {
      users, products, cartItems, favourites, orders, orderItems := t.users, t.products, t.cart, t.favourites, t.orders, t.orderItems;
      nextUserId, nextProductId, nextCartItemId := t.nextUserId, t.nextProductId, t.nextCartItemId;
      nextFavouriteId, nextOrderId, nextOrderItemId := t.nextFavouriteId, t.nextOrderId, t.nextOrderItemId;
    }
  }
}
