/**
 * The cart line serializer (cart/serializers.py): the field checks the REST
 * framework derives from the CartItem model, then the serializer's own
 * `validate`, which treats colour and size differently when a line is
 * created and when one is updated.
 */
module CartSerializers {
  import opened Wrappers
  import opened Http
  import Text
  import C = CartModel
  import Store

  /** The writable fields of a cart line as they arrive in a request. */
  datatype CartData = CartData(product: Option<nat>, quantity: Option<int>, color: Entry, size: Entry)

  const ColorRequired := FieldError("color", "Color is required.")
  const SizeRequired := FieldError("size", "Size is required.")
  const ColorEmpty := FieldError("color", "Color cannot be empty.")
  const SizeEmpty := FieldError("size", "Size cannot be empty.")

  // ---------------------------------------------------------------------------
  // Field checks derived from the model

  /**
   * The validators of an optional text column on the stripped text: the
   * length limit and the refusal of NUL characters. A blank text skips them.
   */
  function TextErrors(key: string, e: Entry, maxLength: nat): (r: seq<FieldError>)
    ensures r == [] <==> !e.Given? || (|Text.Strip(e.text)| <= maxLength && '\0' !in Text.Strip(e.text))
  {
    if e.Given? then
      (if |Text.Strip(e.text)| > maxLength then [FieldError(key, TooLong(maxLength))] else [])
      + (if '\0' in Text.Strip(e.text) then [FieldError(key, NullCharacters)] else [])
    else []
  }

  /**
   * The errors of the field checks, in field order: the product is required
   * unless the update is partial and must exist; a quantity is zero or more;
   * colour and size, once stripped of surrounding white space, fit their
   * column and hold no NUL character. Absent and null colour or size pass
   * these checks.
   */
  function FieldErrors(data: CartData, t: Store.Tables, partial: bool): seq<FieldError>
  {
    (if data.product.None? && !partial then [FieldError("product", "This field is required.")]
     else if data.product.Some? && !Store.HasProduct(t, data.product.value) then
       [FieldError("product", "Invalid pk \"" + Text.Decimal(data.product.value) + "\" - object does not exist.")]
     else [])
    + (if data.quantity.Some? && data.quantity.value < 0 then
         [FieldError("quantity", "Ensure this value is greater than or equal to 0.")]
       else [])
    + TextErrors("color", data.color, C.ColorMaxLength)
    + TextErrors("size", data.size, C.SizeMaxLength)
  }

  function Trimmed(e: Entry): Entry
  {
    if e.Given? then Given(Text.Strip(e.text)) else e
  }

  /**
   * The data after the field checks (`to_internal_value`): text stripped,
   * or every failing field's error.
   */
  function ToInternal(data: CartData, t: Store.Tables, partial: bool): (r: Result<CartData, seq<FieldError>>)
    ensures r.Err? <==> FieldErrors(data, t, partial) != []
    ensures r.Ok? ==> r.value.product == data.product && r.value.quantity == data.quantity
    ensures r.Ok? ==> (data.product.Some? ==> Store.HasProduct(t, data.product.value))
    ensures r.Ok? ==> (!partial ==> data.product.Some?)
    ensures r.Ok? ==> (data.quantity.Some? ==> data.quantity.value >= 0)
    ensures r.Ok? ==> r.value.color.Given? ==> |r.value.color.text| <= C.ColorMaxLength
    ensures r.Ok? ==> r.value.size.Given? ==> |r.value.size.text| <= C.SizeMaxLength
    ensures r.Ok? ==> (r.value.color.Given? ==> '\0' !in r.value.color.text) && (r.value.size.Given? ==> '\0' !in r.value.size.text)
    ensures r.Ok? ==> r.value.color.Missing? == data.color.Missing? && r.value.color.Null? == data.color.Null?
    ensures r.Ok? ==> r.value.size.Missing? == data.size.Missing? && r.value.size.Null? == data.size.Null?
  {
    var errors := FieldErrors(data, t, partial);
    if errors != [] then Err(errors)
    else
      assert TextErrors("color", data.color, C.ColorMaxLength) == [];
      assert TextErrors("size", data.size, C.SizeMaxLength) == [];
      Ok(data.(color := Trimmed(data.color), size := Trimmed(data.size)))
  }

  // ---------------------------------------------------------------------------
  // CartItemSerializer.validate

  /**
   * On create (no instance) colour and size must both be given and
   * non-empty, colour checked first. On update either may be left out, but
   * one that is present must not be null or empty. Data that passes is
   * returned unchanged.
   */
  function Validate(data: CartData, isUpdate: bool): (r: Result<CartData, FieldError>)
    ensures r.Ok? ==> r.value == data
    ensures !isUpdate ==> (r.Ok? <==> Truthy(data.color) && Truthy(data.size))
    ensures !isUpdate && !Truthy(data.color) ==> r == Err(ColorRequired)
    ensures !isUpdate && Truthy(data.color) && !Truthy(data.size) ==> r == Err(SizeRequired)
    ensures isUpdate ==>
              (r.Ok? <==> ((data.color.Missing? || Truthy(data.color)) && (data.size.Missing? || Truthy(data.size))))
    ensures isUpdate && !data.color.Missing? && !Truthy(data.color) ==> r == Err(ColorEmpty)
    ensures (isUpdate && (data.color.Missing? || Truthy(data.color)) && !data.size.Missing? && !Truthy(data.size))
              ==> r == Err(SizeEmpty)
  {
    if !isUpdate then
      if !Truthy(data.color) then Err(ColorRequired)
      else if !Truthy(data.size) then Err(SizeRequired)
      else Ok(data)
    else
      if !data.color.Missing? && !Truthy(data.color) then Err(ColorEmpty)
      else if !data.size.Missing? && !Truthy(data.size) then Err(SizeEmpty)
      else Ok(data)
  }
}
