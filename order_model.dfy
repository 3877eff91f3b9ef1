/**
 * The Order and OrderItem records (order/models.py). An order belongs to a
 * user and carries a shipping address; each item copies one cart line and
 * the product's price at the moment of checkout.
 */
module OrderModel {
  import opened Wrappers
  import Text

  const ShippingAddressMaxLength := 255
  const CityMaxLength := 100
  const PostalCodeMaxLength := 20
  const CountryMaxLength := 100
  const ItemColorMaxLength := 50
  const ItemSizeMaxLength := 50

  datatype Order = Order(
    id: nat,
    user: nat,   // deleted with the user
    shippingAddress: string,
    city: string,
    postalCode: string,
    country: string,
    createdAt: int,
    updatedAt: int)

  datatype OrderItem = OrderItem(
    id: nat,
    order: nat,     // deleted with the order
    product: nat,   // deleted with the product
    quantity: nat,
    color: Option<string>,
    size: Option<string>,
    priceCents: Option<int>)  // nullable DecimalField(max_digits=10, decimal_places=2)

  predicate ValidOrder(o: Order)
  {
    |o.shippingAddress| <= ShippingAddressMaxLength
    && |o.city| <= CityMaxLength
    && |o.postalCode| <= PostalCodeMaxLength
    && |o.country| <= CountryMaxLength
  }

  predicate ValidItem(i: OrderItem)
  {
    (i.color.Some? ==> |i.color.value| <= ItemColorMaxLength)
    && (i.size.Some? ==> |i.size.value| <= ItemSizeMaxLength)
  }

  /** `str(order)`: "Order {id} by {email}". */
  function Str(o: Order, email: string): string
  {
    "Order " + Text.Decimal(o.id) + " by " + email
  }

  /** `str(item)`: "{quantity} x {product name} in {order}". */
  function ItemStr(i: OrderItem, productName: string, orderText: string): string
  {
    Text.Decimal(i.quantity) + " x " + productName + " in " + orderText
  }

  /** The item's quantity can be read back from the front of its text. */
  lemma ItemStrLeadsWithQuantity(i: OrderItem, productName: string, orderText: string)
    ensures Text.ParseInt(Text.LeadingDigits(ItemStr(i, productName, orderText))) == Some(i.quantity as int)
  {
    var rest := " x " + productName + " in " + orderText;
    assert ItemStr(i, productName, orderText) == Text.Decimal(i.quantity) + rest;
    Text.LeadingDigitsOfPrefix(Text.Decimal(i.quantity), rest);
    Text.DecimalRoundTrip(i.quantity);
  }

  /** The order's id can be read back from its text, right after "Order ". */
  lemma StrNamesOrder(o: Order, email: string)
    ensures var s := Str(o, email);
            |s| >= 6 && s[..6] == "Order " && Text.ParseInt(Text.LeadingDigits(s[6..])) == Some(o.id as int)
  {
    var s := Str(o, email);
    assert s[6..] == Text.Decimal(o.id) + (" by " + email);
    Text.LeadingDigitsOfPrefix(Text.Decimal(o.id), " by " + email);
    Text.DecimalRoundTrip(o.id);
  }
}
