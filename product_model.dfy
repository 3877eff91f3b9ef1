/**
 * The Product record of the catalogue (product/models.py): a shoe with a
 * name, a price in whole cents, an optional stock count and an optional
 * category drawn from a fixed list of choices.
 */
module ProductModel {
  import opened Wrappers
  import Text

  /** The stored values of the category choices, in declaration order. */
  const CategoryChoices: seq<string> := ["balletflat", "BOAT", "BROGUE", "CLOG", "SNEAKER"]

  const NameMaxLength := 100
  const CategoryMaxLength := 50

  /**
   * `DecimalField(max_digits=10, decimal_places=2)`: at most ten digits of
   * which two follow the point, so a price in cents stays below 10^10 in
   * magnitude.
   */
  const PriceLimitCents := 10_000_000_000

  datatype Product = Product(
    id: nat,
    name: string,
    description: string,
    priceCents: int,
    stock: Option<int>,     // IntegerField(null=True): may be absent
    image: Option<string>,  // path of the uploaded image, if any
    category: Option<string>,
    createdAt: int)

  predicate PriceFits(cents: int)
  {
    -PriceLimitCents < cents < PriceLimitCents
  }

  /** A category is absent, blank, or one of the stored choice values. */
  predicate ValidCategory(category: Option<string>)
  {
    category.None? || category.value == "" || category.value in CategoryChoices
  }

  /** The bounds the field declarations put on a stored product. */
  predicate Valid(p: Product)
  {
    |p.name| <= NameMaxLength && PriceFits(p.priceCents) && ValidCategory(p.category)
  }

  /** The size of a price in cents, whatever its sign. */
  function Magnitude(cents: int): nat
  {
    if cents < 0 then -cents else cents
  }

  /** A price that fits its column is written with at most ten digits (two of them after the point). */
  lemma PriceHasTenDigits(cents: int)
    requires PriceFits(cents)
    ensures |Text.Decimal(Magnitude(cents))| <= 10
  {
    Text.Pow10Value10();
    Text.DecimalDigits(Magnitude(cents), 10);
  }

  /** `str(product)` is the product's name. */
  function Str(p: Product): string
  {
    p.name
  }
}
