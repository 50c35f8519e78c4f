/**
 * `UserAuth` of PST5/app/auth.py: a user database of accounts, each with a
 * role and a salted password hash, kept in one (encrypted) file.
 * Registration refuses empty credentials and usernames already taken
 * regardless of case, makes the first account an admin, and appends one
 * account; authentication finds the account by username regardless of
 * case and checks the password against its hash.
 *
 * PBKDF2 is the parameter `kdf`: the hash text of a password under a salt
 * and an iteration count. The random salt and the creation time are
 * parameters too.
 */
module Auth {
  import opened Outcomes
  import opened Text

  /** The iteration count `_hash_password` uses. */
  const Iterations: int := 200000

  /** `{"salt", "hash", "iterations"}` of a stored account. */
  datatype PasswordHash = PasswordHash(salt: string, hash: string, iterations: int)

  /** One entry of `db["users"]`. */
  datatype Account = Account(username: string, role: string, password: PasswordHash, createdAt: string)

  /** What `register_user` and `authenticate_user` return: `{"username", "role"}`. */
  datatype Identity = Identity(username: string, role: string)

  /**
   * What the encrypted user file reads as: nothing (the default), a
   * dictionary with a `"users"` list, a dictionary whose `"users"` is not a
   * list, or any other value. For the third, `size` is the `len` of that
   * value when it has one (a string or a dictionary) and None when it has
   * none (a number, a boolean or null).
   */
  datatype StoredDb = UsersDict(users: seq<Account>) | UsersOther(size: Option<nat>) | OtherValue
  datatype DbFile = Absent | Holds(db: StoredDb)

  /** `_hash_password`: the hash of `password` under `salt`, which verifies `password`. */
  function HashPassword(password: string, salt: string, kdf: (string, string, int) -> string): (h: PasswordHash)
    ensures h.salt == salt && h.iterations == Iterations
    ensures VerifyPassword(password, h, kdf)
  {
    PasswordHash(salt, kdf(password, salt, Iterations), Iterations)
  }

  /** `_verify_password`: the password hashes, under the stored salt and count, to the stored hash. */
  predicate VerifyPassword(password: string, h: PasswordHash, kdf: (string, string, int) -> string)
  {
    kdf(password, h.salt, h.iterations) == h.hash
  }

  /** The key derivation tells passwords apart under every salt and count. */
  ghost predicate Injective(kdf: (string, string, int) -> string)
  {
    forall p, q, s, n :: kdf(p, s, n) == kdf(q, s, n) ==> p == q
  }

  /**
   * With an injective key derivation only the password that made a hash
   * verifies against it.
   */
  lemma OnlyOwnPasswordVerifies(password: string, other: string, salt: string, kdf: (string, string, int) -> string)
    requires Injective(kdf)
    ensures VerifyPassword(other, HashPassword(password, salt, kdf), kdf) <==> other == password
  {
    var h := HashPassword(password, salt, kdf);
    if VerifyPassword(other, h, kdf) {
      assert kdf(other, salt, Iterations) == kdf(password, salt, Iterations);
    }
  }

  /**
   * `_load_db`: a dictionary with `"users"` is kept as it is, whatever
   * `"users"` holds; an absent file or any other value reads as
   * `{"users": []}`.
   */
  function LoadDb(f: DbFile): (db: StoredDb)
    ensures f.Holds? && !f.db.OtherValue? ==> db == f.db
    ensures f.Absent? || f.db.OtherValue? ==> db == UsersDict([])
  {
    match f
    case Holds(OtherValue) => UsersDict([])
    case Holds(db) => db
    case Absent => UsersDict([])
  }

  /** The loaded database has a list of accounts under `"users"`. */
  predicate HoldsUserList(f: DbFile)
  {
    LoadDb(f).UsersDict?
  }

  /** The accounts of the loaded user list; none when `"users"` is not a list. */
  function Accounts(f: DbFile): (users: seq<Account>)
    ensures HoldsUserList(f) ==> users == LoadDb(f).users
    ensures users != [] ==> HoldsUserList(f)
  {
    if HoldsUserList(f) then LoadDb(f).users else []
  }

  /**
   * `has_any_user`: `len(db["users"]) > 0`, which counts the accounts of a
   * list and the entries of a string or dictionary, and raises TypeError
   * for a value without a length.
   */
  function HasAnyUser(f: DbFile): (r: Result<bool>)
    ensures HoldsUserList(f) ==> r == Ok(Accounts(f) != [])
    ensures LoadDb(f).UsersOther? ==> (r.Ok? <==> LoadDb(f).size.Some?)
    ensures LoadDb(f).UsersOther? && r.Ok? ==> r.value == (LoadDb(f).size.value > 0)
    ensures r.Err? ==> r.error == NonListUsers
  {
    match LoadDb(f)
    case UsersOther(size) => if size.Some? then Ok(size.value > 0) else Err(NonListUsers)
    case _ => Ok(|Accounts(f)| > 0)
  }

  /** Two usernames are the same once lower-cased. */
  predicate SameName(a: string, b: string)
    ensures SameName(a, b) ==> |a| == |b|
  {
    Lower(a) == Lower(b)
  }

  /**
   * The position of the first account from `k` on whose username is
   * `name` regardless of case: `next(...)` over the users.
   */
  function FindFrom(users: seq<Account>, name: string, k: nat): (r: Option<nat>)
    requires k <= |users|
    ensures r.None? <==> forall j :: k <= j < |users| ==> !SameName(users[j].username, name)
    ensures r.Some? ==> k <= r.value < |users| && SameName(users[r.value].username, name) &&
                        forall j :: k <= j < r.value ==> !SameName(users[j].username, name)
    decreases |users| - k
  {
    if k == |users| then None
    else if SameName(users[k].username, name) then Some(k)
    else FindFrom(users, name, k + 1)
  }

  /** The first account named `name` regardless of case, if any. */
  function FindUser(users: seq<Account>, name: string): (r: Option<nat>)
    ensures r.None? <==> forall j :: 0 <= j < |users| ==> !SameName(users[j].username, name)
    ensures r.Some? ==> r.value < |users| && SameName(users[r.value].username, name) &&
                        forall j :: 0 <= j < r.value ==> !SameName(users[j].username, name)
  {
    FindFrom(users, name, 0)
  }

  /**
   * Looking a name up after appending an account finds the earlier match,
   * if any, else the appended account when its name matches.
   */
  lemma FindUserAppend(users: seq<Account>, a: Account, name: string)
    ensures FindUser(users + [a], name) ==
            if FindUser(users, name).Some? then FindUser(users, name)
            else if SameName(a.username, name) then Some(|users|) else None
  {
    var all := users + [a];
    assert forall j :: 0 <= j < |users| ==> all[j] == users[j];
    assert all[|users|] == a;
  }

  /**
   * What `register_user` does to the user file `f`, as a value: the
   * returned identity and the file afterwards, or the error it raises.
   * `role == ""` stands for no role given. When `"users"` is not a list,
   * the duplicate scan raises (iterating a value without items, or
   * indexing a string key with `"username"`) or, for an empty string or
   * dictionary, the `append` does.
   */
  function Register(f: DbFile, username: string, password: string, role: string,
                    salt: string, now: string, kdf: (string, string, int) -> string): (r: Result<(Identity, DbFile)>)
    ensures r.Err? ==> r.error == MissingCredentials || r.error == DuplicateUsername || r.error == NonListUsers
    ensures r.Ok? ==> HoldsUserList(f) && r.value.1.Holds? && r.value.1.db.UsersDict?
  {
    var name := Strip(username);
    if name == [] || password == [] then Err(MissingCredentials)
    else if !HoldsUserList(f) then Err(NonListUsers)
    else
      var users := Accounts(f);
      if FindUser(users, name).Some? then Err(DuplicateUsername)
      else
        var chosen := if role != "" then role else if users == [] then "admin" else "staff";
        Ok((Identity(name, chosen),
            Holds(UsersDict(users + [Account(name, chosen, HashPassword(password, salt, kdf), now)]))))
  }

  /**
   * `authenticate_user`: the identity of the first account whose username
   * is the stripped `username` regardless of case, when `password`
   * verifies against its hash; None otherwise. When `"users"` is not a
   * list, the search raises unless that value is empty, which finds
   * nothing.
   */
  function Authenticate(f: DbFile, username: string, password: string,
                        kdf: (string, string, int) -> string): (r: Result<Option<Identity>>)
    ensures r.Err? <==> LoadDb(f).UsersOther? && LoadDb(f).size != Some(0)
    ensures r.Err? ==> r.error == NonListUsers
    ensures r.Ok? && r.value.Some? ==> FindUser(Accounts(f), Strip(username)).Some?
  {
    match LoadDb(f)
    case UsersOther(size) => if size == Some(0) then Ok(None) else Err(NonListUsers)
    case _ =>
      var users := Accounts(f);
      match FindUser(users, Strip(username))
      case None => Ok(None)
      case Some(i) =>
        var u := users[i];
        if VerifyPassword(password, u.password, kdf) then Ok(Some(Identity(u.username, u.role))) else Ok(None)
  }

  /**
   * Over a user list, authentication answers None when no account has the
   * stripped username regardless of case. Otherwise it looks only at the
   * first such account: it answers with that account's username and role
   * when the password verifies against its hash, and None when it does not.
   */
  lemma AuthenticateMeaning(f: DbFile, username: string, password: string, kdf: (string, string, int) -> string)
    ensures HoldsUserList(f) && (forall a :: a in Accounts(f) ==> !SameName(a.username, Strip(username))) ==>
              Authenticate(f, username, password, kdf) == Ok(None)
    ensures Authenticate(f, username, password, kdf).Ok? && Authenticate(f, username, password, kdf).value.Some? ==>
              exists i :: 0 <= i < |Accounts(f)| &&
                SameName(Accounts(f)[i].username, Strip(username)) &&
                (forall j :: 0 <= j < i ==> !SameName(Accounts(f)[j].username, Strip(username))) &&
                VerifyPassword(password, Accounts(f)[i].password, kdf) &&
                Authenticate(f, username, password, kdf).value.value == Identity(Accounts(f)[i].username, Accounts(f)[i].role)
    ensures FindUser(Accounts(f), Strip(username)).Some? ==>
              var u := Accounts(f)[FindUser(Accounts(f), Strip(username)).value];
              Authenticate(f, username, password, kdf) ==
                if VerifyPassword(password, u.password, kdf) then Ok(Some(Identity(u.username, u.role))) else Ok(None)
  {
    var users := Accounts(f);
    var found := FindUser(users, Strip(username));
    if found.Some? {
      assert users[found.value] in users;
    }
  }

  // ---------------------------------------------------------------------
  // Properties of registration and authentication

  /**
   * Registration fails exactly when the stripped username or the password
   * is empty (MissingCredentials), when `"users"` is not a list
   * (NonListUsers), or when the name is taken regardless of case
   * (DuplicateUsername), in that order.
   */
  lemma RegisterErrors(f: DbFile, username: string, password: string, role: string,
                       salt: string, now: string, kdf: (string, string, int) -> string)
    ensures var r := Register(f, username, password, role, salt, now, kdf);
            && (r.Err? <==> Strip(username) == [] || password == [] || !HoldsUserList(f) ||
                            exists a :: a in Accounts(f) && SameName(a.username, Strip(username)))
            && (r.Err? && (Strip(username) == [] || password == []) ==> r.error == MissingCredentials)
            && (r.Err? && Strip(username) != [] && password != [] && !HoldsUserList(f) ==> r.error == NonListUsers)
            && (r.Err? && Strip(username) != [] && password != [] && HoldsUserList(f) ==> r.error == DuplicateUsername)
  {
    var users := Accounts(f);
    var name := Strip(username);
    var found := FindUser(users, name);
    if found.Some? {
      assert users[found.value] in users;
    }
  }

  /**
   * A successful registration appends exactly one account, holding the
   * stripped username, the role (the one given, else admin for the first
   * account and staff afterwards) and a hash of the password, and returns
   * that username and role.
   */
  lemma RegisterAppends(f: DbFile, username: string, password: string, role: string,
                        salt: string, now: string, kdf: (string, string, int) -> string)
    requires Register(f, username, password, role, salt, now, kdf).Ok?
    ensures var (id, g) := Register(f, username, password, role, salt, now, kdf).value;
            && id.username == Strip(username)
            && id.role == (if role != "" then role else if HasAnyUser(f) == Ok(false) then "admin" else "staff")
            && Accounts(g) == Accounts(f) + [Account(id.username, id.role, HashPassword(password, salt, kdf), now)]
            && HasAnyUser(g) == Ok(true)
  {
  }

  /** The first account of an empty database, registered without a role, is an admin. */
  lemma FirstUserIsAdmin(f: DbFile, username: string, password: string,
                         salt: string, now: string, kdf: (string, string, int) -> string)
    requires HoldsUserList(f) && HasAnyUser(f) == Ok(false) && Strip(username) != [] && password != []
    ensures Register(f, username, password, "", salt, now, kdf).Ok?
    ensures Register(f, username, password, "", salt, now, kdf).value.0.role == "admin"
  {
  }

  /**
   * Right after registering, a login under that name, written with any
   * case and surrounding whitespace, is checked against the new account's
   * hash alone and answers with the new identity.
   */
  lemma LoginAfterRegister(f: DbFile, username: string, password: string, role: string,
                           salt: string, now: string, kdf: (string, string, int) -> string,
                           login: string, secret: string)
    requires Register(f, username, password, role, salt, now, kdf).Ok?
    requires SameName(Strip(login), Strip(username))
    ensures var (id, g) := Register(f, username, password, role, salt, now, kdf).value;
            Authenticate(g, login, secret, kdf) ==
              Ok(if VerifyPassword(secret, HashPassword(password, salt, kdf), kdf) then Some(id) else None)
  {
    var users := Accounts(f);
    var (id, g) := Register(f, username, password, role, salt, now, kdf).value;
    var added := Account(id.username, id.role, HashPassword(password, salt, kdf), now);
    var key := Strip(login);
    assert Accounts(g) == users + [added];
    assert FindUser(users, Strip(username)).None?;
    assert FindUser(users, key).None?;
    FindUserAppend(users, added, key);
    assert FindUser(Accounts(g), key) == Some(|users|);
  }

  /**
   * Right after registering, the username, written with any case and
   * surrounding whitespace, and the password authenticate as the new
   * identity.
   */
  lemma RegisterThenAuthenticate(f: DbFile, username: string, password: string, role: string,
                                 salt: string, now: string, kdf: (string, string, int) -> string,
                                 login: string)
    requires Register(f, username, password, role, salt, now, kdf).Ok?
    requires SameName(Strip(login), Strip(username))
    ensures var (id, g) := Register(f, username, password, role, salt, now, kdf).value;
            Authenticate(g, login, password, kdf) == Ok(Some(id))
  {
    LoginAfterRegister(f, username, password, role, salt, now, kdf, login, password);
  }

  /**
   * Right after registering, with an injective key derivation, any other
   * password fails to authenticate under that username.
   */
  lemma WrongPasswordRejected(f: DbFile, username: string, password: string, role: string,
                              salt: string, now: string, kdf: (string, string, int) -> string,
                              login: string, other: string)
    requires Injective(kdf)
    requires Register(f, username, password, role, salt, now, kdf).Ok?
    requires SameName(Strip(login), Strip(username)) && other != password
    ensures Authenticate(Register(f, username, password, role, salt, now, kdf).value.1, login, other, kdf) == Ok(None)
  {
    LoginAfterRegister(f, username, password, role, salt, now, kdf, login, other);
    OnlyOwnPasswordVerifies(password, other, salt, kdf);
  }

  /**
   * Once a username is registered, registering it again in any case, with
   * any password and role, fails with DuplicateUsername and changes nothing.
   */
  lemma RegisterTwiceRefused(f: DbFile, username: string, password: string, role: string,
                             salt: string, now: string, kdf: (string, string, int) -> string,
                             again: string, password2: string, role2: string, salt2: string, now2: string)
    requires Register(f, username, password, role, salt, now, kdf).Ok?
    requires SameName(Strip(again), Strip(username)) && password2 != []
    ensures var g := Register(f, username, password, role, salt, now, kdf).value.1;
            Register(g, again, password2, role2, salt2, now2, kdf) == Err(DuplicateUsername)
  {
    var users := Accounts(f);
    var g := Register(f, username, password, role, salt, now, kdf).value.1;
    var all := Accounts(g);
    assert SameName(all[|users|].username, Strip(again));
    StrippedNonEmpty(again, username);
  }

  /** A name the same as a non-empty one once stripped and lower-cased is itself non-empty. */
  lemma StrippedNonEmpty(a: string, b: string)
    requires SameName(Strip(a), Strip(b)) && Strip(b) != []
    ensures Strip(a) != []
  {
    assert |Lower(Strip(b))| == |Strip(b)|;
  }

  /** A file that is absent or holds no dictionary with `"users"` loads as an empty database with no user. */
  lemma FallbackHasNoUser(f: DbFile, username: string, password: string, kdf: (string, string, int) -> string)
    requires f.Absent? || f.db.OtherValue?
    ensures LoadDb(f) == UsersDict([]) && HasAnyUser(f) == Ok(false)
    ensures Authenticate(f, username, password, kdf) == Ok(None)
  {
  }

  /**
   * `{"users": {"a": 1}}`: the dictionary is kept, `has_any_user` counts
   * its one key, and registering or logging in raises.
   */
  lemma NonListUsersRaise(username: string, password: string, role: string,
                          salt: string, now: string, kdf: (string, string, int) -> string)
    requires Strip(username) != [] && password != []
    ensures var f := Holds(UsersOther(Some(1)));
            && HasAnyUser(f) == Ok(true)
            && Register(f, username, password, role, salt, now, kdf) == Err(NonListUsers)
            && Authenticate(f, username, password, kdf) == Err(NonListUsers)
  {
  }

  /**
   * Registering one user leaves every login under another name, with any
   * password, answering as before.
   */
  lemma OtherLoginsKept(f: DbFile, username: string, password: string, role: string,
                        salt: string, now: string, kdf: (string, string, int) -> string,
                        login: string, secret: string)
    requires Register(f, username, password, role, salt, now, kdf).Ok?
    requires !SameName(Strip(login), Strip(username))
    ensures Authenticate(Register(f, username, password, role, salt, now, kdf).value.1, login, secret, kdf) ==
            Authenticate(f, login, secret, kdf)
  {
    var users := Accounts(f);
    var (id, g) := Register(f, username, password, role, salt, now, kdf).value;
    var all := Accounts(g);
    var added := Account(id.username, id.role, HashPassword(password, salt, kdf), now);
    assert all == users + [added];
    var key := Strip(login);
    assert !SameName(added.username, key);
    FindUserAppend(users, added, key);
    var before := FindUser(users, key);
    if before.Some? {
      assert all[before.value] == users[before.value];
    }
  }

  /**
   * A new name registered without a role on a database that already has
   * an account is staff.
   */
  lemma LaterUserIsStaff(f: DbFile, username: string, password: string,
                         salt: string, now: string, kdf: (string, string, int) -> string)
    requires HoldsUserList(f) && HasAnyUser(f) == Ok(true) && Strip(username) != [] && password != []
    requires forall a :: a in Accounts(f) ==> !SameName(a.username, Strip(username))
    ensures Register(f, username, password, "", salt, now, kdf).Ok?
    ensures Register(f, username, password, "", salt, now, kdf).value.0 == Identity(Strip(username), "staff")
  {
    RegisterErrors(f, username, password, "", salt, now, kdf);
    RegisterAppends(f, username, password, "", salt, now, kdf);
  }

  /**
   * The user store behind `enc`: `register_user` reads it with `_load_db`
   * and writes it back with `_save_db`; `has_any_user` and
   * `authenticate_user` only read it.
   */
  class UserAuth {
    var file: DbFile

    constructor (file: DbFile)
      ensures this.file == file
    {
      this.file := file;
    }

    /** `has_any_user`. */
    function HasAny(): (r: Result<bool>)
      reads this
      ensures HoldsUserList(file) ==> r == Ok(Accounts(file) != [])
      ensures r.Err? <==> LoadDb(file) == UsersOther(None)
    {
      HasAnyUser(file)
    }

    /**
     * `register_user`: on success the file holds the loaded users with the
     * new account appended; when it raises the file is untouched.
     */
    method RegisterUser(username: string, password: string, role: string,
                        salt: string, now: string, kdf: (string, string, int) -> string) returns (r: Result<Identity>)
      modifies this
      ensures var spec := Register(old(file), username, password, role, salt, now, kdf);
              && (r.Ok? <==> spec.Ok?)
              && (r.Ok? ==> r.value == spec.value.0 && file == spec.value.1)
              && (r.Err? ==> r.error == spec.error && file == old(file))
    {
      var name := Strip(username);
      if name == [] || password == [] {
        return Err(MissingCredentials);
      }
      if !HoldsUserList(file) {
        return Err(NonListUsers);
      }
      var users := Accounts(file);
      if FindUser(users, name).Some? {
        return Err(DuplicateUsername);
      }
      var chosen := if role != "" then role else if users == [] then "admin" else "staff";
      var account := Account(name, chosen, HashPassword(password, salt, kdf), now);
      file := Holds(UsersDict(users + [account]));
      r := Ok(Identity(name, chosen));
    }

    /** `authenticate_user`. */
    function AuthenticateUser(username: string, password: string, kdf: (string, string, int) -> string): (r: Result<Option<Identity>>)
      reads this
      ensures r == Authenticate(file, username, password, kdf)
      ensures r.Ok? && r.value.Some? ==> exists a :: a in Accounts(file) && SameName(a.username, Strip(username)) &&
                                                    VerifyPassword(password, a.password, kdf) &&
                                                    r.value.value == Identity(a.username, a.role)
    {
      AuthenticateMeaning(file, username, password, kdf);
      Authenticate(file, username, password, kdf)
    }
  }
}
