/**
 * The product serializer (product/serializers.py): a product as the API
 * shows it, with an `is_favourite` flag worked out for the requesting user
 * from the Favourite table.
 */
module ProductSerializers {
  import opened Wrappers
  import P = ProductModel
  import F = FavouriteModel
  import Store

  /** The names of the serialized fields, in the declared order. */
  const FieldNames: seq<string> := ["id", "name", "price", "description", "is_favourite", "image", "stock", "category"]

  /** A serialized product: one component per name of `FieldNames`, in the same order. */
  datatype ProductView = ProductView(
    id: nat,
    name: string,
    priceCents: int,
    description: string,
    isFavourite: bool,
    image: Option<string>,
    stock: Option<int>,
    category: Option<string>)

  /** Whether the user has a Favourite row for the product (`filter(...).exists()`). */
  predicate HasFavourite(t: Store.Tables, user: nat, product: nat)
  {
    exists f :: f in t.favourites && f.user == user && f.product == product
  }

  /**
   * `get_is_favourite`: false for an anonymous request; for an
   * authenticated user, whether that user has marked the product.
   */
  function IsFavourite(t: Store.Tables, user: Option<nat>, product: nat): (r: bool)
    ensures user.None? ==> !r
    ensures user.Some? ==> (r <==> HasFavourite(t, user.value, product))
  {
    match user
    case None => false
    case Some(u) => exists f :: f in t.favourites && f.user == u && f.product == product
  }

  /** The flag reads only the requesting user's favourites: other users' rows do not affect it. */
  lemma IsFavouriteReadsOwnRows(t: Store.Tables, t': Store.Tables, user: nat, product: nat)
    requires forall f: F.Favourite :: f.user == user ==> (f in t.favourites <==> f in t'.favourites)
    ensures IsFavourite(t, Some(user), product) == IsFavourite(t', Some(user), product)
  {
    if IsFavourite(t, Some(user), product) {
      var f :| f in t.favourites && f.user == user && f.product == product;
      assert f in t'.favourites;
    }
    if IsFavourite(t', Some(user), product) {
      var f :| f in t'.favourites && f.user == user && f.product == product;
      assert f in t.favourites;
    }
  }

  /** The product's stored fields, each under its own name, and the flag for `user`. */
  function Serialize(t: Store.Tables, user: Option<nat>, p: P.Product): (v: ProductView)
    ensures v.id == p.id && v.name == p.name && v.priceCents == p.priceCents && v.description == p.description
    ensures v.image == p.image && v.stock == p.stock && v.category == p.category
    ensures v.isFavourite == IsFavourite(t, user, p.id)
  {
    ProductView(p.id, p.name, p.priceCents, p.description, IsFavourite(t, user, p.id), p.image, p.stock, p.category)
  }

  function SerializeAll(t: Store.Tables, user: Option<nat>, products: seq<P.Product>): (r: seq<ProductView>)
    ensures |r| == |products|
    ensures forall i :: 0 <= i < |r| ==> r[i] == Serialize(t, user, products[i])
  {
    seq(|products|, i requires 0 <= i < |products| => Serialize(t, user, products[i]))
  }
}
