/**
 * The account serializers (account/serializers.py): registration, change of
 * password, the password-reset email and the password reset itself. Each
 * `validate` runs its checks in a fixed order and reports the first that
 * fails; the change and the reset then set the password and save the user.
 * The reset link carries the user's id as unpadded URL-safe base 64 of its
 * decimal digits, which the reset decodes back to the same id. Tokens are
 * made and checked by an opaque generator, and the mail is handed to an
 * opaque sender; both are parameters.
 */
module AccountSerializers {
  import opened Wrappers
  import opened Http
  import opened QuerySet
  import A = AccountModel
  import M = AccountManager
  import B = Base64Url
  import Store
  import Text

  const NonField := "non_field_errors"
  const EmailExists := "user with this Email already exists."
  const RegistrationMismatch := "Password and Confirm Password do not match"
  const PasswordMismatch := "Password and confirm password do not match"
  const UserNotFound := "User not found"
  const NotRegistered := "You are not registered."
  const SendFailed := "Error sending password reset email."
  const InvalidUser := "Invalid user ID or user does not exist"
  const InvalidToken := "Token is not valid or expired"
  const PasswordMaxLength := 255

  // ---------------------------------------------------------------------------
  // UserRegistrationSerializer

  /** The registration form after its field checks. */
  datatype Registration = Registration(email: string, name: string, password: string, password2: string, tc: bool)

  /**
   * The unique-email check of the email field, then `validate`: the two
   * passwords must be equal. Accepted data is returned unchanged.
   */
  function ValidateRegistration(t: Store.Tables, d: Registration): (r: Result<Registration, FieldError>)
    ensures r.Ok? <==> !M.EmailInUse(t, d.email) && d.password == d.password2
    ensures r.Ok? ==> r.value == d
    ensures M.EmailInUse(t, d.email) ==> r == Err(FieldError("email", EmailExists))
    ensures !M.EmailInUse(t, d.email) && d.password != d.password2 ==> r == Err(FieldError("password2", RegistrationMismatch))
  {
    if Store.UserByEmail(t, d.email).Some? then Err(FieldError("email", EmailExists))
    else if d.password != d.password2 then Err(FieldError("password2", RegistrationMismatch))
    else Ok(d)
  }

  /** `create`: the confirmation is dropped and the rest goes to `create_user`. */
  function Register(t: Store.Tables, d: Registration, now: int): M.Creation
  {
    M.CreateUserEffect(t, d.email, d.name, d.tc, Some(d.password), now)
  }

  /** What is stored does not depend on the confirmation field. */
  lemma RegisterDropsConfirmation(t: Store.Tables, d: Registration, other: string, now: int)
    ensures Register(t, d, now) == Register(t, d.(password2 := other), now)
    ensures Register(t, d, now).outcome.Saved? ==> Register(t, d, now).outcome.user.password == A.Hashed(d.password)
  {
  }

  /**
   * Registration that passes validation stores a user that can be found by
   * its normalised email and whose password is the one given, unless the
   * manager refuses the name or the terms, or the normalised email is taken.
   */
  lemma RegistrationStoresUser(t: Store.Tables, d: Registration, now: int)
    requires Store.Valid(t)
    requires ValidateRegistration(t, d).Ok?
    requires d.email != "" && d.name != "" && d.tc && !M.EmailInUse(t, A.NormalizeEmail(d.email))
    ensures var r := Register(t, d, now);
            && r.outcome.Saved?
            && Store.UserByEmail(r.tables, A.NormalizeEmail(d.email)) == Some(r.outcome.user)
            && r.outcome.user.password == A.Hashed(d.password2)
            && Store.Valid(r.tables)
  {
    M.CreateUserKeepsValid(t, d.email, d.name, d.tc, Some(d.password), now);
  }

  /**
   * The email check compares the address as typed, the stored address is
   * normalised: an address that differs from a stored one only in the case
   * of its domain passes validation and is then refused by the unique
   * column.
   */
  lemma RegistrationCollidesAfterNormalising(t: Store.Tables, now: int)
    requires t.users == [A.User(1, "a@b", "A", true, true, false, A.Unusable, 0, 0)]
    ensures var d := Registration("a@B", "B", "pw", "pw", true);
            && ValidateRegistration(t, d).Ok?
            && Register(t, d, now).outcome == M.EmailTaken
  {
    var e := "a@B";
    assert Text.LeadingSpaces(e) == 0;
    assert Text.TrailingSpaces(e) == 0;
    assert Text.Strip(e) == e;
    assert A.LastAt(e) == Some(1);
    assert Text.Lower("B") == "b";
    assert A.NormalizeEmail(e) == "a@b";
    assert t.users[0].email == "a@b";
  }

  /** `create` on the database. */
  method RegistrationCreate(manager: M.UserManager, d: Registration, now: int) returns (outcome: M.Outcome)
    modifies manager.db
    ensures M.Creation(outcome, manager.db.State()) == Register(old(manager.db.State()), d, now)
  {
    outcome := manager.CreateUser(d.email, d.name, d.tc, Some(d.password), now);
  }

  // ---------------------------------------------------------------------------
  // The password fields of the change and reset serializers

  /** A new password and its confirmation as the request gives them. */
  datatype PasswordPair = PasswordPair(password: Entry, password2: Entry)

  /** Both fields are required text of at most 255 characters. */
  function PasswordFieldErrors(d: PasswordPair): seq<FieldError>
  {
    CharFieldErrors("password", d.password, PasswordMaxLength)
    + CharFieldErrors("password2", d.password2, PasswordMaxLength)
  }

  /** The fields passed their checks and, stripped, are the same text. */
  predicate PasswordsAgree(d: PasswordPair)
  {
    PasswordFieldErrors(d) == [] && Cleaned(d.password) == Cleaned(d.password2)
  }

  /** The stored user with its password set to the new one. */
  function WithPassword(u: A.User, d: PasswordPair): (r: A.User)
    ensures r == u.(password := r.password) && r.password == A.Hashed(Cleaned(d.password))
  {
    u.(password := A.SetPassword(Some(Cleaned(d.password))))
  }

  // ---------------------------------------------------------------------------
  // UserChangePasswordSerializer

  /**
   * The field checks, then the passwords must agree, then there must be a
   * user; only then is the password set and the user saved.
   */
  function ChangePassword(t: Store.Tables, d: PasswordPair, user: Option<A.User>, now: int)
    : (r: Result<Store.Tables, seq<FieldError>>)
    requires user.Some? ==> user.value in t.users
    ensures PasswordFieldErrors(d) != [] ==> r == Err(PasswordFieldErrors(d))
    ensures PasswordFieldErrors(d) == [] && !PasswordsAgree(d) ==> r == Err([FieldError(NonField, PasswordMismatch)])
    ensures PasswordsAgree(d) && user.None? ==> r == Err([FieldError(NonField, UserNotFound)])
    ensures r.Ok? <==> PasswordsAgree(d) && user.Some?
  {
    var errors := PasswordFieldErrors(d);
    if errors != [] then Err(errors)
    else if Cleaned(d.password) != Cleaned(d.password2) then Err([FieldError(NonField, PasswordMismatch)])
    else if user.None? then Err([FieldError(NonField, UserNotFound)])
    else
      assert user.value in t.users;
      Ok(M.SaveUser(t, WithPassword(user.value, d), now))
  }

  /**
   * A change that passes stores the new password on the user's own row and
   * on no other; every other table is as it was, and the tables stay valid.
   */
  lemma ChangePasswordSetsOwnRowOnly(t: Store.Tables, d: PasswordPair, u: A.User, now: int)
    requires Store.Valid(t) && u in t.users
    requires PasswordsAgree(d)
    ensures var r := ChangePassword(t, d, Some(u), now);
            && r.Ok?
            && Store.UserById(r.value, u.id) == Some(WithPassword(u, d).(updatedAt := now))
            && r.value.(users := t.users) == t
            && (forall i :: 0 <= i < |t.users| && t.users[i].id != u.id ==> r.value.users[i] == t.users[i])
            && Store.Valid(r.value)
  {
    NewPasswordSaved(t, d, u, now);
  }

  /** Saving a stored user with a new password touches that user's row only. */
  lemma NewPasswordSaved(t: Store.Tables, d: PasswordPair, u: A.User, now: int)
    requires Store.Valid(t) && u in t.users
    ensures var r := M.SaveUser(t, WithPassword(u, d), now);
            && Store.UserById(r, u.id) == Some(WithPassword(u, d).(updatedAt := now))
            && r.(users := t.users) == t
            && (forall i :: 0 <= i < |t.users| && t.users[i].id != u.id ==> r.users[i] == t.users[i])
            && Store.Valid(r)
  {
    StoredUserIsFoundById(t, u);
    M.SaveUserKeepsValid(t, WithPassword(u, d), now);
    SavedUserIsFoundById(t, WithPassword(u, d), now);
  }

  /** With keys in order, a stored user is the one found by its id. */
  lemma StoredUserIsFoundById(t: Store.Tables, u: A.User)
    requires Store.KeysValid(t) && u in t.users
    ensures Store.UserById(t, u.id) == Some(u)
  {
    var found := Store.UserById(t, u.id).value;
    var i :| 0 <= i < |t.users| && t.users[i] == found;
    var j :| 0 <= j < |t.users| && t.users[j] == u;
    KeyIdentifiesRow(t.users, Store.UserKey, t.nextUserId, i, j);
  }

  /** After a save, the user's id finds the saved row. */
  lemma SavedUserIsFoundById(t: Store.Tables, u: A.User, now: int)
    requires Store.KeysValid(t) && Store.HasUser(t, u.id)
    ensures Store.UserById(M.SaveUser(t, u, now), u.id) == Some(u.(updatedAt := now))
  {
    M.SavedUserKeepsKeys(t, u, now);
    StoredUserIsFoundById(M.SaveUser(t, u, now), u.(updatedAt := now));
  }

  /** `validate` of the change-password serializer on the database. */
  method ValidateChangePassword(db: Store.Database, d: PasswordPair, user: Option<A.User>, now: int)
    returns (errors: seq<FieldError>)
    requires user.Some? ==> user.value in db.users
    modifies db
    ensures var r := ChangePassword(old(db.State()), d, user, now);
            && (r.Ok? ==> errors == [] && db.State() == r.value)
            && (r.Err? ==> errors == r.error && db.State() == old(db.State()))
  {
    errors := PasswordFieldErrors(d);
    if errors != [] {
      return;
    }
    if Cleaned(d.password) != Cleaned(d.password2) {
      return [FieldError(NonField, PasswordMismatch)];
    }
    if user.None? {
      return [FieldError(NonField, UserNotFound)];
    }
    assert user.value in db.users;
    M.Save(db, WithPassword(user.value, d), now);
  }

  // ---------------------------------------------------------------------------
  // SendPasswordResetEmailSerializer

  /** The bytes of a text of decimal digits (`force_bytes`). */
  function DigitBytes(s: string): (b: seq<B.Byte>)
    requires Text.AllDigits(s)
    ensures |b| == |s| && forall i :: 0 <= i < |s| ==> b[i] == s[i] as int
  {
    seq(|s|, i requires 0 <= i < |s| => s[i] as int)
  }

  /** ASCII bytes read back as text (`smart_str`); other bytes are refused. */
  function AsciiText(b: seq<B.Byte>): (r: Option<string>)
    ensures r.Some? <==> forall i :: 0 <= i < |b| ==> b[i] < 128
    ensures r.Some? ==> |r.value| == |b| && forall i :: 0 <= i < |b| ==> r.value[i] as int == b[i]
  {
    if forall i :: 0 <= i < |b| ==> b[i] < 128 then Some(seq(|b|, i requires 0 <= i < |b| => b[i] as char))
    else None
  }

  /** The uid of the reset link: the id's decimal digits in unpadded URL-safe base 64. */
  function ResetUid(id: nat): string
  {
    B.Encode(DigitBytes(Text.Decimal(id)))
  }

  function ResetLink(uid: string, token: string): string
  {
    "http://localhost:3000/api/user/reset/" + uid + "/" + token
  }

  /** The message handed to the mail sender. */
  datatype Mail = Mail(subject: string, body: string, toEmail: string)

  function ResetMail(u: A.User, token: string): Mail
  {
    Mail("Reset your password", "Click the following link to reset your password: " + ResetLink(ResetUid(u.id), token), u.email)
  }

  /**
   * The email field first: required, not null, not blank once stripped, at
   * most 255 characters and free of NUL characters. Then an address no user
   * has is refused; otherwise a token is made for the user, the mail with
   * the link is handed to `deliver`, and a failed delivery is refused too.
   * The result is the mail that went out.
   */
  function SendResetEmail(t: Store.Tables, email: Entry, makeToken: A.User -> string, deliver: Mail -> bool)
    : (r: Result<Mail, seq<FieldError>>)
    ensures CharFieldErrors("email", email, A.EmailMaxLength) != [] ==> r == Err(CharFieldErrors("email", email, A.EmailMaxLength))
    ensures CharFieldErrors("email", email, A.EmailMaxLength) == [] ==>
              var address := Cleaned(email);
              && (!M.EmailInUse(t, address) ==> r == Err([FieldError(NonField, NotRegistered)]))
              && (M.EmailInUse(t, address) ==>
                    var u := Store.UserByEmail(t, address).value;
                    && u.email == address
                    && (deliver(ResetMail(u, makeToken(u))) ==> r == Ok(ResetMail(u, makeToken(u))))
                    && (!deliver(ResetMail(u, makeToken(u))) ==> r == Err([FieldError(NonField, SendFailed)])))
    ensures r.Ok? ==> email.Given? && r.value.toEmail == Text.Strip(email.text)
  {
    var errors := CharFieldErrors("email", email, A.EmailMaxLength);
    if errors != [] then Err(errors)
    else
      match Store.UserByEmail(t, Cleaned(email))
      case None => Err([FieldError(NonField, NotRegistered)])
      case Some(u) =>
        var mail := ResetMail(u, makeToken(u));
        if deliver(mail) then Ok(mail) else Err([FieldError(NonField, SendFailed)])
  }

  // ---------------------------------------------------------------------------
  // UserPasswordResetSerializer

  /**
   * The user a uid names: the uid decoded from base 64, read as text, parsed
   * as an integer and looked up. Any step failing means no user.
   */
  function ResetUser(t: Store.Tables, uid: string): (r: Option<A.User>)
    ensures r.Some? ==> r.value in t.users
  {
    var bytes :- B.Decode(uid);
    var text :- AsciiText(bytes);
    var id :- Text.ParseInt(text);
    if id < 0 then None else Store.UserById(t, id)
  }

  /**
   * The field checks, then the passwords must agree, then the uid must name
   * a user, then the token must be valid for that user; only then is the
   * password set and the user saved.
   */
  function PasswordReset(t: Store.Tables, d: PasswordPair, uid: string, token: string,
                         checkToken: (A.User, string) -> bool, now: int): (r: Result<Store.Tables, seq<FieldError>>)
    ensures PasswordFieldErrors(d) != [] ==> r == Err(PasswordFieldErrors(d))
    ensures PasswordFieldErrors(d) == [] && !PasswordsAgree(d) ==> r == Err([FieldError("password", PasswordMismatch)])
    ensures PasswordsAgree(d) && ResetUser(t, uid).None? ==> r == Err([FieldError("user", InvalidUser)])
    ensures PasswordsAgree(d) && ResetUser(t, uid).Some? && !checkToken(ResetUser(t, uid).value, token)
            ==> r == Err([FieldError("token", InvalidToken)])
    ensures r.Ok? <==> PasswordsAgree(d) && ResetUser(t, uid).Some? && checkToken(ResetUser(t, uid).value, token)
    ensures r.Ok? ==> r.value == M.SaveUser(t, WithPassword(ResetUser(t, uid).value, d), now)
  {
    var errors := PasswordFieldErrors(d);
    if errors != [] then Err(errors)
    else if Cleaned(d.password) != Cleaned(d.password2) then Err([FieldError("password", PasswordMismatch)])
    else
      match ResetUser(t, uid)
      case None => Err([FieldError("user", InvalidUser)])
      case Some(u) =>
        if !checkToken(u, token) then Err([FieldError("token", InvalidToken)])
        else
          assert u in t.users;
          Ok(M.SaveUser(t, WithPassword(u, d), now))
  }

  /** Text of digits, turned into bytes and read back, is the same text. */
  lemma DigitBytesRoundTrip(s: string)
    requires Text.AllDigits(s)
    ensures AsciiText(DigitBytes(s)) == Some(s)
  {
    var b := DigitBytes(s);
    forall i | 0 <= i < |b| ensures b[i] < 128 {
      assert Text.IsDigit(s[i]);
    }
    assert AsciiText(b).value == s;
  }

  /** The uid put in the reset link names the user it was made for. */
  lemma UidRoundTrip(t: Store.Tables, id: nat)
    ensures ResetUser(t, ResetUid(id)) == Store.UserById(t, id)
  {
    var digits := Text.Decimal(id);
    B.DecodeEncode(DigitBytes(digits));
    DigitBytesRoundTrip(digits);
    Text.DecimalRoundTrip(id);
  }

  /**
   * The reset email followed by the reset: for a registered user whose
   * stored address passes the email field as it stands, the mail
   * that goes out is addressed to that user and carries the uid of that
   * user and a fresh token; when the generator accepts that token, agreeing
   * passwords sent back with the uid and the token set that user's password
   * (and, by `NewPasswordSaved`, nobody else's).
   */
  lemma ResetLinkResetsItsUser(t: Store.Tables, u: A.User, makeToken: A.User -> string, deliver: Mail -> bool,
                               d: PasswordPair, checkToken: (A.User, string) -> bool, now: int)
    requires Store.Valid(t) && u in t.users
    requires CharFieldErrors("email", Given(u.email), A.EmailMaxLength) == [] && Text.Strip(u.email) == u.email
    requires deliver(ResetMail(u, makeToken(u)))
    requires checkToken(u, makeToken(u)) && PasswordsAgree(d)
    ensures SendResetEmail(t, Given(u.email), makeToken, deliver) == Ok(ResetMail(u, makeToken(u)))
    ensures PasswordReset(t, d, ResetUid(u.id), makeToken(u), checkToken, now)
            == Ok(M.SaveUser(t, WithPassword(u, d), now))
  {
    StoredUserIsFoundByEmail(t, u);
    ResetWithUidOf(t, d, u, makeToken(u), checkToken, now);
  }

  /** With emails distinct, a stored user is the one found by its email. */
  lemma StoredUserIsFoundByEmail(t: Store.Tables, u: A.User)
    requires Pairwise(t.users, Store.DistinctEmails) && u in t.users
    ensures Store.UserByEmail(t, u.email) == Some(u)
  {
    var found := Store.UserByEmail(t, u.email).value;
    var i :| 0 <= i < |t.users| && t.users[i] == found;
    var j :| 0 <= j < |t.users| && t.users[j] == u;
  }

  /** The uid of a stored user and a token valid for that user reset that user's password. */
  lemma ResetWithUidOf(t: Store.Tables, d: PasswordPair, u: A.User, token: string,
                       checkToken: (A.User, string) -> bool, now: int)
    requires Store.KeysValid(t) && u in t.users
    requires PasswordsAgree(d) && checkToken(u, token)
    ensures PasswordReset(t, d, ResetUid(u.id), token, checkToken, now) == Ok(M.SaveUser(t, WithPassword(u, d), now))
  {
    UidRoundTrip(t, u.id);
    StoredUserIsFoundById(t, u);
  }

  /**
   * Whatever spelling of the id the uid carries, a successful reset saves
   * the user the uid names with the new password, and changes no other
   * user and no other table.
   */
  lemma ResetSavesNamedUser(t: Store.Tables, d: PasswordPair, uid: string, token: string,
                            checkToken: (A.User, string) -> bool, now: int)
    requires Store.Valid(t)
    ensures var r := PasswordReset(t, d, uid, token, checkToken, now);
            r.Ok? ==>
              var u := ResetUser(t, uid).value;
              && Store.UserById(r.value, u.id) == Some(WithPassword(u, d).(updatedAt := now))
              && r.value.(users := t.users) == t
              && |r.value.users| == |t.users|
              && (forall i :: 0 <= i < |t.users| && t.users[i].id != u.id ==> r.value.users[i] == t.users[i])
  {
    var r := PasswordReset(t, d, uid, token, checkToken, now);
    if r.Ok? {
      NewPasswordSaved(t, d, ResetUser(t, uid).value, now);
    }
  }

  /** A uid need not be the one a link carries: "MDc", the digits "07", names user 7, whose link carries "Nw". */
  lemma LeadingZeroUidNamesSameUser(t: Store.Tables)
    ensures ResetUser(t, "MDc") == Store.UserById(t, 7)
    ensures ResetUid(7) == "Nw"
  {
    var digits := "07";
    assert Text.AllDigits(digits);
    assert B.Encode(DigitBytes(digits)) == "MDc";
    B.DecodeEncode(DigitBytes(digits));
    DigitBytesRoundTrip(digits);
    assert Text.DigitsValue(digits) == 7;
  }

  /** A reset keeps every integrity rule. */
  lemma PasswordResetKeepsValid(t: Store.Tables, d: PasswordPair, uid: string, token: string,
                                checkToken: (A.User, string) -> bool, now: int)
    requires Store.Valid(t)
    ensures var r := PasswordReset(t, d, uid, token, checkToken, now);
            r.Ok? ==> Store.Valid(r.value)
  {
    var r := PasswordReset(t, d, uid, token, checkToken, now);
    if r.Ok? {
      var u := ResetUser(t, uid).value;
      StoredUserIsFoundById(t, u);
      M.SaveUserKeepsValid(t, WithPassword(u, d), now);
    }
  }

  /** `validate` of the password-reset serializer on the database. */
  method ValidatePasswordReset(db: Store.Database, d: PasswordPair, uid: string, token: string,
                               checkToken: (A.User, string) -> bool, now: int) returns (errors: seq<FieldError>)
    modifies db
    ensures var r := PasswordReset(old(db.State()), d, uid, token, checkToken, now);
            && (r.Ok? ==> errors == [] && db.State() == r.value)
            && (r.Err? ==> errors == r.error && db.State() == old(db.State()))
  {
    errors := PasswordFieldErrors(d);
    if errors != [] {
      return;
    }
    if Cleaned(d.password) != Cleaned(d.password2) {
      return [FieldError("password", PasswordMismatch)];
    }
    var user := ResetUser(db.State(), uid);
    if user.None? {
      return [FieldError("user", InvalidUser)];
    }
    if !checkToken(user.value, token) {
      return [FieldError("token", InvalidToken)];
    }
    M.Save(db, WithPassword(user.value, d), now);
  }
}
