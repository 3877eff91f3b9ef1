/**
 * The custom User record and the validation its manager applies before a
 * user is created (account/models.py). Password hashing is abstract: a
 * stored password records which raw password was set, or that none was.
 */
module AccountModel {
  import opened Wrappers
  import Text

  const EmailMaxLength := 255
  const NameMaxLength := 100

  /** What `set_password` leaves behind: an unusable password for None, otherwise a hash of the raw text. */
  datatype Password = Unusable | Hashed(raw: string)

  datatype User = User(
    id: nat,
    email: string,
    name: string,
    tc: bool,
    isActive: bool,
    isAdmin: bool,
    password: Password,
    createdAt: int,
    updatedAt: int)

  function SetPassword(raw: Option<string>): (p: Password)
    ensures p.Hashed? <==> raw.Some?
  {
    match raw
    case None => Unusable
    case Some(r) => Hashed(r)
  }

  /** The reasons `create_user` refuses to build a user, checked in this order. */
  datatype CreateUserError = MissingEmail | MissingName | TermsNotAccepted

  function Message(e: CreateUserError): string
  {
    match e
    case MissingEmail => "Users must have an email address"
    case MissingName => "Users must have a name"
    case TermsNotAccepted => "You must accept Terms and Conditions"
  }

  /**
   * The checks of `create_user`: an empty email first, then an empty name,
   * then terms not accepted. None means every check passed.
   */
  function CheckNewUser(email: string, name: string, tc: bool): (r: Option<CreateUserError>)
    ensures r.None? <==> email != "" && name != "" && tc
    ensures email == "" ==> r == Some(MissingEmail)
    ensures email != "" && name == "" ==> r == Some(MissingName)
    ensures email != "" && name != "" && !tc ==> r == Some(TermsNotAccepted)
  {
    if email == "" then Some(MissingEmail)
    else if name == "" then Some(MissingName)
    else if !tc then Some(TermsNotAccepted)
    else None
  }

  /** Index of the last '@', if any. */
  function LastAt(s: string): (r: Option<nat>)
    ensures r.Some? ==> r.value < |s| && s[r.value] == '@'
    ensures r.Some? ==> forall k :: r.value < k < |s| ==> s[k] != '@'
    ensures r.None? ==> forall k :: 0 <= k < |s| ==> s[k] != '@'
  {
    if s == [] then None
    else if s[|s| - 1] == '@' then Some(|s| - 1)
    else LastAt(s[..|s| - 1])
  }

  /**
   * `normalize_email`: the stripped address with the part after its last '@'
   * in lower case; an address without '@' is returned as given.
   */
  function NormalizeEmail(email: string): (r: string)
    ensures LastAt(Text.Strip(email)).None? ==> r == email
  {
    var t := Text.Strip(email);
    match LastAt(t)
    case None => email
    case Some(i) => t[..i] + "@" + Text.Lower(t[i + 1..])
  }

  /** A freshly built user: the model's field defaults make it active and not an administrator. */
  function NewUser(id: nat, email: string, name: string, tc: bool, password: Option<string>, now: int): (u: User)
    ensures u.isActive && !u.isAdmin
    ensures u.id == id && u.email == NormalizeEmail(email) && u.name == name && u.tc == tc
    ensures u.password == SetPassword(password)
  {
    User(id, NormalizeEmail(email), name, tc, true, false, SetPassword(password), now, now)
  }

  /** `has_perm`: an administrator holds every permission, anyone else none. */
  function HasPerm(u: User, perm: string): bool
  {
    u.isAdmin
  }

  /** `has_module_perms`: every user may see every application. */
  function HasModulePerms(u: User, appLabel: string): bool
  {
    true
  }

  /** `is_staff`: administrators are staff. */
  function IsStaff(u: User): bool
  {
    u.isAdmin
  }

  /**
   * Administrators, and only they, hold every permission and are staff;
   * every user may see every application.
   */
  lemma PermissionsFollowAdmin(u: User, perm: string, appLabel: string)
    ensures HasPerm(u, perm) <==> u.isAdmin
    ensures IsStaff(u) <==> HasPerm(u, perm)
    ensures HasModulePerms(u, appLabel)
  {
  }

  /** `str(user)` is the email address. */
  function Str(u: User): string
  {
    u.email
  }
}
