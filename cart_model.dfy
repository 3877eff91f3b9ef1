/**
 * The CartItem record (cart/models.py): one line of a user's cart, naming a
 * product, a quantity and optionally a colour and a size.
 */
module CartModel {
  import opened Wrappers
  import Text

  const DefaultQuantity := 1
  const ColorMaxLength := 50
  const SizeMaxLength := 10

  datatype CartItem = CartItem(
    id: nat,
    user: nat,          // the owning user, deleted with it
    product: nat,       // the product, deleted with it
    quantity: nat,      // PositiveIntegerField: zero or more
    color: Option<string>,
    size: Option<string>,
    addedAt: int)

  /** The length bounds of the optional colour and size. */
  predicate Valid(c: CartItem)
  {
    (c.color.Some? ==> |c.color.value| <= ColorMaxLength)
    && (c.size.Some? ==> |c.size.value| <= SizeMaxLength)
  }

  /**
   * Two rows clash under `unique_together = (user, product, color, size)`.
   * As in SQL, a NULL colour or size never equals anything, so rows with one
   * of them absent never clash.
   */
  predicate Clash(a: CartItem, b: CartItem)
  {
    a.user == b.user && a.product == b.product
    && a.color.Some? && b.color.Some? && a.color == b.color
    && a.size.Some? && b.size.Some? && a.size == b.size
  }

  /** How Python formats an optional text inside an f-string. */
  function OptionText(o: Option<string>): string
  {
    if o.None? then "None" else o.value
  }

  /** `str(item)`: "{quantity} x {product name} ({colour}, {size}) (User: {email})". */
  function Str(c: CartItem, productName: string, email: string): string
  {
    Text.Decimal(c.quantity) + " x " + productName
      + " (" + OptionText(c.color) + ", " + OptionText(c.size) + ")"
      + " (User: " + email + ")"
  }

  /** The quantity can be read back from the front of a cart line's text. */
  lemma StrLeadsWithQuantity(c: CartItem, productName: string, email: string)
    ensures Text.ParseInt(Text.LeadingDigits(Str(c, productName, email))) == Some(c.quantity as int)
  {
    var rest := " x " + productName + " (" + OptionText(c.color) + ", " + OptionText(c.size) + ")"
                + " (User: " + email + ")";
    assert Str(c, productName, email) == Text.Decimal(c.quantity) + rest;
    Text.LeadingDigitsOfPrefix(Text.Decimal(c.quantity), rest);
    Text.DecimalRoundTrip(c.quantity);
  }
}
