/**
 * The favourite endpoints (favourite/views.py): a toggle that marks a
 * product for the requesting user when it is not marked and unmarks it
 * when it is, and the list of the products the user has marked.
 */
module FavouriteViews {
  import opened Wrappers
  import opened Http
  import opened QuerySet
  import opened ProductSerializers
  import F = FavouriteModel
  import P = ProductModel
  import Store

  /** The body of a toggle's answer. */
  datatype Toggled = Toggled(status: string, isFavourite: bool)

  const Added := Toggled("added to favourites", true)
  const Removed := Toggled("removed from favourites", false)

  /** `Favourite.objects.get(user=user, product=product)`: the position of the row, if any. */
  function FavouriteOf(favourites: seq<F.Favourite>, user: nat, product: nat): (r: Option<nat>)
    ensures r.Some? ==> r.value < |favourites| && favourites[r.value].user == user && favourites[r.value].product == product
    ensures r.None? <==> forall k :: 0 <= k < |favourites| ==> !(favourites[k].user == user && favourites[k].product == product)
  {
    First(favourites, (f: F.Favourite) => f.user == user && f.product == product)
  }

  /** `fav.delete()`: the row with that key leaves the table. */
  function WithoutFavourite(favourites: seq<F.Favourite>, id: nat): (r: seq<F.Favourite>)
    ensures forall f :: f in r <==> f in favourites && f.id != id
  {
    var r := Filter(favourites, (f: F.Favourite) => f.id != id);
    assert forall f :: f in r ==> f in favourites && f.id != id by {
      forall f | f in r ensures f in favourites && f.id != id {
        var i :| 0 <= i < |r| && r[i] == f;
      }
    }
    assert forall f :: f in favourites && f.id != id ==> f in r by {
      forall f | f in favourites && f.id != id ensures f in r {
        var i :| 0 <= i < |favourites| && favourites[i] == f;
      }
    }
    r
  }

  /**
   * POST to the toggle: 404 for a product id with no product; otherwise
   * `get_or_create` on (user, product): a row that was there is deleted and
   * the answer is 200 with `is_favourite` false, a row that was created is
   * kept and the answer is 201 with `is_favourite` true.
   */
  function ToggleFavourite(t: Store.Tables, requester: Store.Requester, product: nat): Reply<Toggled>
  {
    match Store.Authenticate(t, requester)
    case None => Reply(Unauthorized(t, requester), t)
    case Some(user) =>
      if Store.ProductById(t, product).None? then Reply(NotFound("Product"), t)
      else
        match FavouriteOf(t.favourites, user.id, product)
        case Some(k) =>
          Reply(Response(OK, Data(Removed)), t.(favourites := WithoutFavourite(t.favourites, t.favourites[k].id)))
        case None =>
          var row := F.Favourite(t.nextFavouriteId, user.id, product);
          Reply(Response(CREATED, Data(Added)),
                t.(favourites := t.favourites + [row], nextFavouriteId := t.nextFavouriteId + 1))
  }

  /** A product id that names no product is answered with 404 and nothing changes. */
  lemma ToggleUnknownProduct(t: Store.Tables, user: nat, product: nat)
    requires Store.Authenticate(t, Store.Bearer(user)).Some?
    requires !Store.HasProduct(t, product)
    ensures ToggleFavourite(t, Store.Bearer(user), product) == Reply(NotFound("Product"), t)
  {
  }

  /** Marking a product not yet marked adds exactly one row and answers 201 with the flag set. */
  lemma ToggleAdds(t: Store.Tables, user: nat, product: nat)
    requires Store.Authenticate(t, Store.Bearer(user)).Some?
    requires Store.HasProduct(t, product) && !HasFavourite(t, user, product)
    ensures var r := ToggleFavourite(t, Store.Bearer(user), product);
            && r.response == Response(CREATED, Data(Added))
            && r.tables == t.(favourites := t.favourites + [F.Favourite(t.nextFavouriteId, user, product)],
                              nextFavouriteId := t.nextFavouriteId + 1)
  {
  }

  /**
   * Toggling a marked product deletes the user's row for it and answers 200
   * with the flag cleared; in a table with one row per user and product,
   * every other row stays.
   */
  lemma ToggleRemoves(t: Store.Tables, user: nat, product: nat)
    requires Store.Authenticate(t, Store.Bearer(user)).Some?
    requires Store.HasProduct(t, product) && HasFavourite(t, user, product)
    requires KeysIncreasing(t.favourites, Store.FavouriteKey, t.nextFavouriteId)
    requires Pairwise(t.favourites, Store.FavouritesCompatible)
    ensures var r := ToggleFavourite(t, Store.Bearer(user), product);
            && r.response == Response(OK, Data(Removed))
            && r.tables == t.(favourites := r.tables.favourites)
            && forall f :: f in r.tables.favourites <==> f in t.favourites && !(f.user == user && f.product == product)
  {
    var k := FavouriteOf(t.favourites, user, product).value;
    RowOfPairRemoved(t.favourites, t.nextFavouriteId, k);
  }

  /** In a keyed table with one row per pair, deleting a pair's row by its key removes exactly that pair's rows. */
  lemma RowOfPairRemoved(favourites: seq<F.Favourite>, next: nat, k: nat)
    requires KeysIncreasing(favourites, Store.FavouriteKey, next)
    requires Pairwise(favourites, Store.FavouritesCompatible)
    requires k < |favourites|
    ensures forall f :: f in WithoutFavourite(favourites, favourites[k].id) <==>
                          f in favourites && !(f.user == favourites[k].user && f.product == favourites[k].product)
  {
    forall g | g in favourites
      ensures g.id == favourites[k].id <==> g.user == favourites[k].user && g.product == favourites[k].product
    {
      var j :| 0 <= j < |favourites| && favourites[j] == g;
      if g.id == favourites[k].id {
        KeyIdentifiesRow(favourites, Store.FavouriteKey, next, j, k);
      }
      if g.user == favourites[k].user && g.product == favourites[k].product {
        FavouriteUnique(favourites, j, k);
      }
    }
  }

  /** With one row per user and product, two rows for the same pair are the same row. */
  lemma FavouriteUnique(favourites: seq<F.Favourite>, i: nat, j: nat)
    requires Pairwise(favourites, Store.FavouritesCompatible)
    requires i < |favourites| && j < |favourites|
    requires favourites[i].user == favourites[j].user && favourites[i].product == favourites[j].product
    ensures i == j
  {
  }

  /** The favourites table keeps its keys in order and one row per user and product. */
  ghost predicate FavouritesKeyed(t: Store.Tables)
  {
    KeysIncreasing(t.favourites, Store.FavouriteKey, t.nextFavouriteId)
    && Pairwise(t.favourites, Store.FavouritesCompatible)
  }

  /** After a toggle the flag reads the opposite of what it read before, and the answer reports it. */
  lemma ToggleFlipsFlag(t: Store.Tables, user: nat, product: nat)
    requires FavouritesKeyed(t)
    requires Store.Authenticate(t, Store.Bearer(user)).Some?
    requires Store.HasProduct(t, product)
    ensures var r := ToggleFavourite(t, Store.Bearer(user), product);
            && IsFavourite(r.tables, Some(user), product) == !IsFavourite(t, Some(user), product)
            && r.response.body.value.isFavourite == IsFavourite(r.tables, Some(user), product)
  {
    var r := ToggleFavourite(t, Store.Bearer(user), product);
    if HasFavourite(t, user, product) {
      ToggleRemoves(t, user, product);
    } else {
      ToggleAdds(t, user, product);
      assert F.Favourite(t.nextFavouriteId, user, product) in r.tables.favourites;
    }
  }

  /** The (user, product) pairs the table records. */
  function Pairs(favourites: seq<F.Favourite>): set<(nat, nat)>
  {
    set f | f in favourites :: (f.user, f.product)
  }

  /** Dropping exactly the rows of one pair drops that pair from the recorded pairs. */
  lemma PairsWithout(favourites: seq<F.Favourite>, rest: seq<F.Favourite>, user: nat, product: nat)
    requires forall f :: f in rest <==> f in favourites && !(f.user == user && f.product == product)
    ensures Pairs(rest) == Pairs(favourites) - {(user, product)}
  {
    forall pr | pr in Pairs(favourites) - {(user, product)} ensures pr in Pairs(rest) {
      var f :| f in favourites && (f.user, f.product) == pr;
      assert f in rest;
    }
  }

  /** Appending a row adds its pair to the recorded pairs. */
  lemma PairsWith(favourites: seq<F.Favourite>, row: F.Favourite)
    ensures Pairs(favourites + [row]) == Pairs(favourites) + {(row.user, row.product)}
  {
    assert row in favourites + [row];
    forall pr | pr in Pairs(favourites) ensures pr in Pairs(favourites + [row]) {
      var f :| f in favourites && (f.user, f.product) == pr;
      assert f in favourites + [row];
    }
  }

  /** A toggle adds the user and product to the recorded pairs, or takes them out. */
  lemma TogglePairs(t: Store.Tables, user: nat, product: nat)
    requires FavouritesKeyed(t)
    requires Store.Authenticate(t, Store.Bearer(user)).Some?
    requires Store.HasProduct(t, product)
    ensures var r := ToggleFavourite(t, Store.Bearer(user), product).tables;
            if HasFavourite(t, user, product) then Pairs(r.favourites) == Pairs(t.favourites) - {(user, product)}
            else Pairs(r.favourites) == Pairs(t.favourites) + {(user, product)}
  {
    var r := ToggleFavourite(t, Store.Bearer(user), product).tables;
    if HasFavourite(t, user, product) {
      ToggleRemoves(t, user, product);
      PairsWithout(t.favourites, r.favourites, user, product);
    } else {
      ToggleAdds(t, user, product);
      PairsWith(t.favourites, F.Favourite(t.nextFavouriteId, user, product));
    }
  }

  /** A toggle keeps the favourites' keys in order and one row per user and product. */
  lemma ToggleKeepsFavouritesKeyed(t: Store.Tables, user: nat, product: nat)
    requires FavouritesKeyed(t)
    ensures FavouritesKeyed(ToggleFavourite(t, Store.Bearer(user), product).tables)
  {
    if Store.Authenticate(t, Store.Bearer(user)).Some? && Store.HasProduct(t, product) {
      if HasFavourite(t, user, product) {
        var id := t.favourites[FavouriteOf(t.favourites, user, product).value].id;
        var keep := (f: F.Favourite) => f.id != id;
        FilterKeepsKeys(t.favourites, keep, Store.FavouriteKey, t.nextFavouriteId);
        FilterKeepsPairwise(t.favourites, keep, Store.FavouritesCompatible);
      } else {
        var row := F.Favourite(t.nextFavouriteId, user, product);
        AppendKeepsKeys(t.favourites, row, Store.FavouriteKey, t.nextFavouriteId, t.nextFavouriteId + 1);
        NewFavouriteKeepsUnique(t.favourites, row);
      }
    }
  }

  /** Toggling the same product twice leaves the same products marked by the same users. */
  lemma ToggleTwiceRestores(t: Store.Tables, user: nat, product: nat)
    requires FavouritesKeyed(t)
    requires Store.Authenticate(t, Store.Bearer(user)).Some?
    ensures var once := ToggleFavourite(t, Store.Bearer(user), product).tables;
            Pairs(ToggleFavourite(once, Store.Bearer(user), product).tables.favourites) == Pairs(t.favourites)
  {
    var once := ToggleFavourite(t, Store.Bearer(user), product).tables;
    if Store.HasProduct(t, product) {
      ToggleKeepsCaller(t, user, product);
      ToggleKeepsFavouritesKeyed(t, user, product);
      ToggleFlipsFlag(t, user, product);
      TogglePairs(t, user, product);
      TogglePairs(once, user, product);
      if HasFavourite(t, user, product) {
        FavouritePairRecorded(t, user, product);
      }
    }
  }

  /** A toggle leaves the users and products as they were, so the same caller finds the same product again. */
  lemma ToggleKeepsCaller(t: Store.Tables, user: nat, product: nat)
    ensures var once := ToggleFavourite(t, Store.Bearer(user), product).tables;
            && Store.Authenticate(once, Store.Bearer(user)) == Store.Authenticate(t, Store.Bearer(user))
            && (Store.HasProduct(once, product) <==> Store.HasProduct(t, product))
  {
    var once := ToggleFavourite(t, Store.Bearer(user), product).tables;
    assert once.users == t.users && once.products == t.products;
  }

  /** A user's favourite shows among the recorded pairs. */
  lemma FavouritePairRecorded(t: Store.Tables, user: nat, product: nat)
    requires HasFavourite(t, user, product)
    ensures (user, product) in Pairs(t.favourites)
  {
    var f :| f in t.favourites && f.user == user && f.product == product;
  }

  /** A toggle changes no row except one for that user and product, and no table but the favourites. */
  lemma ToggleOnlyOwnRow(t: Store.Tables, user: nat, product: nat)
    requires KeysIncreasing(t.favourites, Store.FavouriteKey, t.nextFavouriteId)
    requires Pairwise(t.favourites, Store.FavouritesCompatible)
    ensures var r := ToggleFavourite(t, Store.Bearer(user), product).tables;
            && r.users == t.users && r.products == t.products && r.cart == t.cart
            && r.orders == t.orders && r.orderItems == t.orderItems
            && forall f: F.Favourite :: !(f.user == user && f.product == product) ==> (f in r.favourites <==> f in t.favourites)
  {
    if Store.Authenticate(t, Store.Bearer(user)).Some? && Store.HasProduct(t, product) {
      if HasFavourite(t, user, product) {
        ToggleRemoves(t, user, product);
      } else {
        ToggleAdds(t, user, product);
      }
    }
  }

  /** A toggle keeps every integrity rule, one favourite per user and product included. */
  lemma ToggleKeepsValid(t: Store.Tables, requester: Store.Requester, product: nat)
    requires Store.Valid(t)
    ensures Store.Valid(ToggleFavourite(t, requester, product).tables)
  {
    var r := ToggleFavourite(t, requester, product).tables;
    if r != t {
      var user := Store.Authenticate(t, requester).value.id;
      assert requester == Store.Bearer(user);
      if HasFavourite(t, user, product) {
        ToggleRemoves(t, user, product);
        var k := FavouriteOf(t.favourites, user, product).value;
        RemovedFavouriteKeepsValid(t, t.favourites[k].id);
      } else {
        ToggleAdds(t, user, product);
        NewFavouriteKeepsValid(t, F.Favourite(t.nextFavouriteId, user, product));
      }
    }
  }

  lemma RemovedFavouriteKeepsValid(t: Store.Tables, id: nat)
    requires Store.Valid(t)
    ensures Store.Valid(t.(favourites := WithoutFavourite(t.favourites, id)))
  {
    var keep := (f: F.Favourite) => f.id != id;
    FilterKeepsKeys(t.favourites, keep, Store.FavouriteKey, t.nextFavouriteId);
    FilterKeepsPairwise(t.favourites, keep, Store.FavouritesCompatible);
    RemovedFavouriteKeepsReferences(t, id);
  }

  lemma NewFavouriteKeepsValid(t: Store.Tables, row: F.Favourite)
    requires Store.Valid(t)
    requires row.id == t.nextFavouriteId && Store.HasUser(t, row.user) && Store.HasProduct(t, row.product)
    requires FavouriteOf(t.favourites, row.user, row.product).None?
    ensures Store.Valid(t.(favourites := t.favourites + [row], nextFavouriteId := t.nextFavouriteId + 1))
  {
    AppendKeepsKeys(t.favourites, row, Store.FavouriteKey, t.nextFavouriteId, t.nextFavouriteId + 1);
    NewFavouriteKeepsUnique(t.favourites, row);
    NewFavouriteKeepsReferences(t, row);
  }

  lemma NewFavouriteKeepsUnique(favourites: seq<F.Favourite>, row: F.Favourite)
    requires Pairwise(favourites, Store.FavouritesCompatible)
    requires FavouriteOf(favourites, row.user, row.product).None?
    ensures Pairwise(favourites + [row], Store.FavouritesCompatible)
  {
    var r := favourites + [row];
    forall i, j | 0 <= i < j < |r| ensures Store.FavouritesCompatible(r[i], r[j]) {
      if j < |favourites| {
        assert Store.FavouritesCompatible(favourites[i], favourites[j]);
      }
    }
  }

  lemma NewFavouriteKeepsReferences(t: Store.Tables, row: F.Favourite)
    requires Store.ReferencesValid(t) && Store.FieldsValid(t)
    requires Store.HasUser(t, row.user) && Store.HasProduct(t, row.product)
    ensures var r := t.(favourites := t.favourites + [row], nextFavouriteId := t.nextFavouriteId + 1);
            Store.ReferencesValid(r) && Store.FieldsValid(r)
  {
    var r := t.(favourites := t.favourites + [row], nextFavouriteId := t.nextFavouriteId + 1);
    forall f | f in r.favourites ensures Store.HasUser(r, f.user) && Store.HasProduct(r, f.product) {
      if f != row {
        assert f in t.favourites;
      }
    }
    assert forall id :: Store.HasOrder(t, id) ==> Store.HasOrder(r, id);
  }

  lemma RemovedFavouriteKeepsReferences(t: Store.Tables, id: nat)
    requires Store.ReferencesValid(t) && Store.FieldsValid(t)
    ensures var r := t.(favourites := WithoutFavourite(t.favourites, id));
            Store.ReferencesValid(r) && Store.FieldsValid(r)
  {
    var r := t.(favourites := WithoutFavourite(t.favourites, id));
    assert forall id :: Store.HasOrder(t, id) ==> Store.HasOrder(r, id);
  }

  method Toggle(db: Store.Database, requester: Store.Requester, product: nat) returns (response: Response<Toggled>)
    modifies db
    ensures Reply(response, db.State()) == ToggleFavourite(old(db.State()), requester, product)
  {
    var user := Store.Authenticate(db.State(), requester);
    if user.None? {
      return Unauthorized(db.State(), requester);
    }
    if Store.ProductById(db.State(), product).None? {
      return NotFound("Product");
    }
    var existing := FavouriteOf(db.favourites, user.value.id, product);
    if existing.Some? {
      db.favourites := WithoutFavourite(db.favourites, db.favourites[existing.value].id);
      response := Response(OK, Data(Removed));
    } else {
      db.favourites := db.favourites + [F.Favourite(db.nextFavouriteId, user.value.id, product)];
      db.nextFavouriteId := db.nextFavouriteId + 1;
      response := Response(CREATED, Data(Added));
    }
  }

  // ---------------------------------------------------------------------------
  // FavouriteListView

  /** `Product.objects.filter(favourite__user=user)`: the products the user has marked, in table order. */
  function FavouriteProducts(t: Store.Tables, user: nat): (r: seq<P.Product>)
    ensures forall i :: 0 <= i < |r| ==> r[i] in t.products && HasFavourite(t, user, r[i].id)
    ensures forall i :: 0 <= i < |t.products| && HasFavourite(t, user, t.products[i].id) ==> t.products[i] in r
  {
    Filter(t.products, (p: P.Product) => HasFavourite(t, user, p.id))
  }

  /** GET on the favourites: the marked products, serialized for the requester. */
  function ListFavourites(t: Store.Tables, requester: Store.Requester): Response<seq<ProductView>>
  {
    match Store.Authenticate(t, requester)
    case None => Unauthorized(t, requester)
    case Some(user) => Response(OK, Data(SerializeAll(t, Some(user.id), FavouriteProducts(t, user.id))))
  }

  /**
   * The list names exactly the products the requester has marked, and every
   * product in it is shown with `is_favourite` set.
   */
  lemma ListedAreFavourites(t: Store.Tables, user: nat)
    requires Store.Authenticate(t, Store.Bearer(user)).Some?
    ensures var r := ListFavourites(t, Store.Bearer(user));
            && r.status == OK
            && (forall i :: 0 <= i < |r.body.value| ==> r.body.value[i].isFavourite)
            && (forall p :: p in t.products ==>
                  (HasFavourite(t, user, p.id) <==> exists i :: 0 <= i < |r.body.value| && r.body.value[i].id == p.id))
  {
    var r := ListFavourites(t, Store.Bearer(user));
    var ps := FavouriteProducts(t, user);
    forall p | p in t.products
      ensures HasFavourite(t, user, p.id) <==> exists i :: 0 <= i < |r.body.value| && r.body.value[i].id == p.id
    {
      if HasFavourite(t, user, p.id) {
        var j :| 0 <= j < |t.products| && t.products[j] == p;
        var i :| 0 <= i < |ps| && ps[i] == p;
        assert r.body.value[i].id == p.id;
      }
      if exists i :: 0 <= i < |r.body.value| && r.body.value[i].id == p.id {
        var i :| 0 <= i < |r.body.value| && r.body.value[i].id == p.id;
        assert ps[i].id == p.id;
      }
    }
  }

  method List(db: Store.Database, requester: Store.Requester) returns (response: Response<seq<ProductView>>)
    ensures response == ListFavourites(db.State(), requester)
  {
    var user := Store.Authenticate(db.State(), requester);
    if user.None? {
      return Unauthorized(db.State(), requester);
    }
    response := Response(OK, Data(SerializeAll(db.State(), Some(user.value.id), FavouriteProducts(db.State(), user.value.id))));
  }
}
