/**
 * Requests and responses as the REST framework sees them. A request body
 * holds, under each key, nothing, a null or a text. A response is a status
 * code and a body that is either the serialized data, the error details
 * keyed by field, or an exception that escaped the view and became a
 * server error.
 */
module Http {
  import Store
  import Text

  const OK := 200
  const CREATED := 201
  const NO_CONTENT := 204
  const BAD_REQUEST := 400
  const UNAUTHORIZED := 401
  const FORBIDDEN := 403
  const NOT_FOUND := 404
  const SERVER_ERROR := 500

  /** What the request body holds under one text key. */
  datatype Entry = Missing | Null | Given(text: string)

  /** Python truthiness of `data.get(key)`: a non-empty text. */
  predicate Truthy(e: Entry)
  {
    e.Given? && e.text != ""
  }

  /** One error detail: the key it is reported under and its message. */
  datatype FieldError = FieldError(field: string, message: string)

  datatype Body<T> =
    | Data(value: T)
    | Errors(errors: seq<FieldError>)
    | Raised(exception: string)
    | Empty

  datatype Response<T> = Response(status: nat, body: Body<T>)

  /** What handling one request produces: the response and the tables afterwards. */
  datatype Reply<T> = Reply(response: Response<T>, tables: Store.Tables)

  /** The 401 of a request without credentials. */
  const NotAuthenticatedDetail := FieldError("detail", "Authentication credentials were not provided.")
  /** The 401s of a well-formed token whose user is gone or inactive. */
  const UserNotFoundDetail := FieldError("detail", "User not found")
  const UserInactiveDetail := FieldError("detail", "User is inactive")

  /**
   * The 401 of a request that authenticates no active user: without
   * credentials the permission check refuses it; with a token, the JWT
   * authentication refuses it before any permission is checked, naming why.
   */
  function Unauthorized<T>(t: Store.Tables, requester: Store.Requester): (r: Response<T>)
    ensures r.status == UNAUTHORIZED && r.body.Errors? && |r.body.errors| == 1
    ensures r.body.errors[0] == NotAuthenticatedDetail <==> requester.Anonymous?
    ensures r.body.errors[0] == UserNotFoundDetail <==> requester.Bearer? && !Store.HasUser(t, requester.userId)
  {
    match requester
    case Anonymous => Response(UNAUTHORIZED, Errors([NotAuthenticatedDetail]))
    case Bearer(id) =>
      if Store.UserById(t, id).None? then Response(UNAUTHORIZED, Errors([UserNotFoundDetail]))
      else Response(UNAUTHORIZED, Errors([UserInactiveDetail]))
  }

  /** The 404 of a lookup of the named model that finds no row. */
  function NotFound<T>(model: string): (r: Response<T>)
    ensures r.status == NOT_FOUND
    ensures r.body == Errors([FieldError("detail", "No " + model + " matches the given query.")])
  {
    Response(NOT_FOUND, Errors([FieldError("detail", "No " + model + " matches the given query.")]))
  }

  /** The message of the validator every text field runs against the NUL character. */
  const NullCharacters := "Null characters are not allowed."

  /** The message of a text field's length validator. */
  function TooLong(maxLength: nat): string
  {
    "Ensure this field has no more than " + Text.Decimal(maxLength) + " characters."
  }

  /**
   * A required `CharField`: present, not null, not blank once stripped of
   * surrounding white space; the stripped text then goes through every
   * validator, each adding its error: at most `maxLength` characters, and no
   * NUL character.
   */
  function CharFieldErrors(key: string, e: Entry, maxLength: nat): (r: seq<FieldError>)
    ensures r == [] <==> e.Given? && Text.Strip(e.text) != "" && |Text.Strip(e.text)| <= maxLength
                         && '\0' !in Text.Strip(e.text)
    ensures |r| <= 2 && forall i :: 0 <= i < |r| ==> r[i].field == key
    ensures |r| == 2 <==> e.Given? && |Text.Strip(e.text)| > maxLength && '\0' in Text.Strip(e.text)
  {
    match e
    case Missing => [FieldError(key, "This field is required.")]
    case Null => [FieldError(key, "This field may not be null.")]
    case Given(s) =>
      var v := Text.Strip(s);
      if v == "" then [FieldError(key, "This field may not be blank.")]
      else
        (if |v| > maxLength then [FieldError(key, TooLong(maxLength))] else [])
        + (if '\0' in v then [FieldError(key, NullCharacters)] else [])
  }

  /** Text of a field that passed its check. */
  function Cleaned(e: Entry): string
  {
    if e.Given? then Text.Strip(e.text) else ""
  }
}
