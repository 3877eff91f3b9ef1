/**
 * `MyUserManager` (account/models.py): `create_user` checks the email, the
 * name and the acceptance of the terms, in that order, builds an active,
 * non-administrator user with the normalised email and the password set,
 * and inserts it; the unique email column refuses a second user with the
 * same address. `create_superuser` does the same and then saves the user
 * again with the administrator flag set.
 */
module AccountManager {
  import opened Wrappers
  import opened QuerySet
  import A = AccountModel
  import Store

  /** How `create_user` or `create_superuser` ends. */
  datatype Outcome =
    | Saved(user: A.User)
    | Refused(error: A.CreateUserError)  // the ValueError of a failed check
    | EmailTaken                         // the IntegrityError of the unique email column

  /** The outcome and the tables afterwards. */
  datatype Creation = Creation(outcome: Outcome, tables: Store.Tables)

  /** Some stored user has this email. */
  predicate EmailInUse(t: Store.Tables, email: string)
  {
    exists u :: u in t.users && u.email == email
  }

  /**
   * `user.save()` of a user that is already stored: its row is overwritten
   * with the object, `updated_at` becoming the time of the save.
   */
  function SaveUser(t: Store.Tables, u: A.User, now: int): (r: Store.Tables)
    requires Store.HasUser(t, u.id)
    ensures r.(users := t.users) == t
    ensures |r.users| == |t.users| && u.(updatedAt := now) in r.users
    ensures forall i :: 0 <= i < |t.users| && t.users[i].id != u.id ==> r.users[i] == t.users[i]
    ensures forall i :: 0 <= i < |t.users| ==> r.users[i].id == t.users[i].id
  {
    var k := Store.UserIndex(t, u.id).value;
    var r := t.(users := t.users[k := u.(updatedAt := now)]);
    assert r.users[k] == u.(updatedAt := now);
    r
  }

  /** `create_user`: the checks, then the insert of the new user under the next key. */
  function CreateUserEffect(t: Store.Tables, email: string, name: string, tc: bool, password: Option<string>,
                            now: int): (r: Creation)
    ensures r.outcome.Refused? <==> A.CheckNewUser(email, name, tc).Some?
    ensures r.outcome.Refused? ==> r.outcome.error == A.CheckNewUser(email, name, tc).value
    ensures r.outcome.EmailTaken? <==> A.CheckNewUser(email, name, tc).None? && EmailInUse(t, A.NormalizeEmail(email))
    ensures !r.outcome.Saved? ==> r.tables == t
    ensures r.outcome.Saved? ==>
              && r.outcome.user == A.NewUser(t.nextUserId, email, name, tc, password, now)
              && r.tables == t.(users := t.users + [r.outcome.user], nextUserId := t.nextUserId + 1)
  {
    match A.CheckNewUser(email, name, tc)
    case Some(e) => Creation(Refused(e), t)
    case None =>
      var u := A.NewUser(t.nextUserId, email, name, tc, password, now);
      if Store.UserByEmail(t, u.email).Some? then Creation(EmailTaken, t)
      else Creation(Saved(u), t.(users := t.users + [u], nextUserId := t.nextUserId + 1))
  }

  /** `create_superuser`: `create_user`, then the administrator flag set and the user saved again. */
  function CreateSuperuserEffect(t: Store.Tables, email: string, name: string, tc: bool, password: Option<string>,
                                 now: int): Creation
  {
    var c := CreateUserEffect(t, email, name, tc, password, now);
    if c.outcome.Saved? then
      var admin := c.outcome.user.(isAdmin := true);
      assert c.outcome.user in c.tables.users;
      Creation(Saved(admin.(updatedAt := now)), SaveUser(c.tables, admin, now))
    else c
  }

  // ---------------------------------------------------------------------------
  // Properties

  /**
   * A created user is stored under the next key with the normalised email,
   * the given name and terms flag and the password set; it is active and no
   * administrator, so its token authenticates it and it holds no permission.
   */
  lemma CreatedUserIsStored(t: Store.Tables, email: string, name: string, tc: bool, password: Option<string>, now: int)
    requires Store.Valid(t)
    requires CreateUserEffect(t, email, name, tc, password, now).outcome.Saved?
    ensures var r := CreateUserEffect(t, email, name, tc, password, now);
            var u := r.outcome.user;
            && u.id == t.nextUserId && u.email == A.NormalizeEmail(email) && u.name == name && u.tc == tc
            && u.password == A.SetPassword(password)
            && Store.UserById(r.tables, u.id) == Some(u)
            && Store.Authenticate(r.tables, Store.Bearer(u.id)) == Some(u)
            && !A.HasPerm(u, "any") && !A.IsStaff(u)
  {
  }

  /** A user is created exactly when the checks pass and the normalised email is free. */
  lemma CreateUserSavesIff(t: Store.Tables, email: string, name: string, tc: bool, password: Option<string>, now: int)
    ensures CreateUserEffect(t, email, name, tc, password, now).outcome.Saved?
            <==> email != "" && name != "" && tc && !EmailInUse(t, A.NormalizeEmail(email))
  {
  }

  /**
   * `create_superuser` refuses exactly what `create_user` refuses, with the
   * same error; otherwise it stores the same user with the administrator
   * flag set, who then holds every permission and is staff.
   */
  lemma SuperuserIsAdminUser(t: Store.Tables, email: string, name: string, tc: bool, password: Option<string>, now: int)
    requires Store.KeysValid(t)
    ensures var plain := CreateUserEffect(t, email, name, tc, password, now);
            var r := CreateSuperuserEffect(t, email, name, tc, password, now);
            && (!plain.outcome.Saved? ==> r == plain)
            && (plain.outcome.Saved? ==>
                  && r.outcome == Saved(plain.outcome.user.(isAdmin := true))
                  && r.tables == plain.tables.(users := t.users + [r.outcome.user])
                  && A.HasPerm(r.outcome.user, "any") && A.IsStaff(r.outcome.user))
  {
    var plain := CreateUserEffect(t, email, name, tc, password, now);
    if plain.outcome.Saved? {
      var u := plain.outcome.user;
      AppendedUserIsLast(t, u);
      var k := |t.users|;
      var admin := u.(isAdmin := true, updatedAt := now);
      assert u.updatedAt == now;
      assert plain.tables.users[k := admin] == t.users + [admin];
    }
  }

  /** A user stored under the next key is found at the end of the users table. */
  lemma AppendedUserIsLast(t: Store.Tables, u: A.User)
    requires Store.KeysValid(t) && u.id == t.nextUserId
    ensures Store.UserIndex(t.(users := t.users + [u], nextUserId := t.nextUserId + 1), u.id) == Some(|t.users|)
  {
  }

  /** Creating a user keeps every integrity rule, the unique email among them. */
  lemma CreateUserKeepsValid(t: Store.Tables, email: string, name: string, tc: bool, password: Option<string>, now: int)
    requires Store.Valid(t)
    ensures Store.Valid(CreateUserEffect(t, email, name, tc, password, now).tables)
  {
    var r := CreateUserEffect(t, email, name, tc, password, now);
    if r.outcome.Saved? {
      UserAddedKeepsValid(t, r.outcome.user);
    }
  }

  lemma UserAddedKeepsValid(t: Store.Tables, u: A.User)
    requires Store.Valid(t)
    requires u.id == t.nextUserId && !EmailInUse(t, u.email)
    ensures Store.Valid(t.(users := t.users + [u], nextUserId := t.nextUserId + 1))
  {
    var r := t.(users := t.users + [u], nextUserId := t.nextUserId + 1);
    AppendKeepsKeys(t.users, u, Store.UserKey, t.nextUserId, t.nextUserId + 1);
    assert Pairwise(r.users, Store.DistinctEmails) by {
      forall i, j | 0 <= i < j < |r.users| ensures Store.DistinctEmails(r.users[i], r.users[j]) {
        if j == |t.users| {
          assert r.users[i] in t.users;
        }
      }
    }
    assert Store.ReferencesValid(r) by {
      forall id | Store.HasUser(t, id) ensures Store.HasUser(r, id) {
        var v :| v in t.users && v.id == id;
        assert v in r.users;
      }
    }
  }

  /** Saving a stored user again, with its email unchanged, keeps every integrity rule. */
  lemma SaveUserKeepsValid(t: Store.Tables, u: A.User, now: int)
    requires Store.Valid(t)
    requires Store.UserById(t, u.id).Some? && Store.UserById(t, u.id).value.email == u.email
    ensures Store.Valid(SaveUser(t, u, now))
  {
    KeyIdentifiesRowOfUser(t, u.id);
    SavedUserKeepsKeys(t, u, now);
    SavedUserKeepsEmailsDistinct(t, u, now);
    SavedUserKeepsReferences(t, u, now);
  }

  lemma SavedUserKeepsKeys(t: Store.Tables, u: A.User, now: int)
    requires Store.KeysValid(t) && Store.HasUser(t, u.id)
    ensures Store.KeysValid(SaveUser(t, u, now))
  {
    var k := Store.UserIndex(t, u.id).value;
    assert SaveUser(t, u, now).users == t.users[k := u.(updatedAt := now)];
    ReplaceKeepsKeys(t.users, k, u.(updatedAt := now), Store.UserKey, t.nextUserId);
  }

  lemma SavedUserKeepsEmailsDistinct(t: Store.Tables, u: A.User, now: int)
    requires Pairwise(t.users, Store.DistinctEmails) && Store.HasUser(t, u.id)
    requires t.users[Store.UserIndex(t, u.id).value].email == u.email
    ensures Pairwise(SaveUser(t, u, now).users, Store.DistinctEmails)
  {
    var r := SaveUser(t, u, now);
    var k := Store.UserIndex(t, u.id).value;
    assert r.users == t.users[k := u.(updatedAt := now)];
    forall i, j | 0 <= i < j < |r.users| ensures Store.DistinctEmails(r.users[i], r.users[j]) {
      assert Store.DistinctEmails(t.users[i], t.users[j]);
    }
  }

  lemma SavedUserKeepsReferences(t: Store.Tables, u: A.User, now: int)
    requires Store.ReferencesValid(t) && Store.FieldsValid(t) && Store.HasUser(t, u.id)
    ensures Store.ReferencesValid(SaveUser(t, u, now)) && Store.FieldsValid(SaveUser(t, u, now))
  {
    var r := SaveUser(t, u, now);
    forall id | Store.HasUser(t, id) ensures Store.HasUser(r, id) {
      var i :| 0 <= i < |t.users| && t.users[i].id == id;
      assert r.users[i] in r.users;
    }
  }

  /** With keys in order, the row found by key is the one at the position found by key. */
  lemma KeyIdentifiesRowOfUser(t: Store.Tables, id: nat)
    requires Store.KeysValid(t) && Store.HasUser(t, id)
    ensures Store.UserById(t, id) == Some(t.users[Store.UserIndex(t, id).value])
  {
    var k := Store.UserIndex(t, id).value;
    var u := Store.UserById(t, id).value;
    var j :| 0 <= j < |t.users| && t.users[j] == u;
    KeyIdentifiesRow(t.users, Store.UserKey, t.nextUserId, j, k);
  }

  /** Creating a superuser keeps every integrity rule. */
  lemma CreateSuperuserKeepsValid(t: Store.Tables, email: string, name: string, tc: bool, password: Option<string>,
                                  now: int)
    requires Store.Valid(t)
    ensures Store.Valid(CreateSuperuserEffect(t, email, name, tc, password, now).tables)
  {
    var c := CreateUserEffect(t, email, name, tc, password, now);
    CreateUserKeepsValid(t, email, name, tc, password, now);
    if c.outcome.Saved? {
      var u := c.outcome.user;
      CreatedUserIsStored(t, email, name, tc, password, now);
      SaveUserKeepsValid(c.tables, u.(isAdmin := true), now);
    }
  }

  // ---------------------------------------------------------------------------
  // The manager

  /** `user.save()` on the database: the user's row is overwritten. */
  method Save(db: Store.Database, u: A.User, now: int)
    requires Store.HasUser(db.State(), u.id)
    modifies db
    ensures db.State() == SaveUser(old(db.State()), u, now)
  {
    var k := Store.UserIndex(db.State(), u.id).value;
    db.users := db.users[k := u.(updatedAt := now)];
  }

  /** The manager of the user table, bound to the database it saves to. */
  class UserManager {
    const db: Store.Database

    constructor (db: Store.Database)
      ensures this.db == db
    {
      this.db := db;
    }

    method CreateUser(email: string, name: string, tc: bool, password: Option<string>, now: int)
      returns (outcome: Outcome)
      modifies db
      ensures Creation(outcome, db.State()) == CreateUserEffect(old(db.State()), email, name, tc, password, now)
    {
      var check := A.CheckNewUser(email, name, tc);
      if check.Some? {
        return Refused(check.value);
      }
      var user := A.NewUser(db.nextUserId, email, name, tc, password, now);
      if Store.UserByEmail(db.State(), user.email).Some? {
        return EmailTaken;
      }
      db.users := db.users + [user];
      db.nextUserId := db.nextUserId + 1;
      outcome := Saved(user);
    }

    method CreateSuperuser(email: string, name: string, tc: bool, password: Option<string>, now: int)
      returns (outcome: Outcome)
      modifies db
      ensures Creation(outcome, db.State()) == CreateSuperuserEffect(old(db.State()), email, name, tc, password, now)
    {
      outcome := CreateUser(email, name, tc, password, now);
      if outcome.Saved? {
        var user := outcome.user.(isAdmin := true);
        assert outcome.user in db.users;
        Save(db, user, now);
        outcome := Saved(user.(updatedAt := now));
      }
    }
  }
}
