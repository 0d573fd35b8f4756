/**
 * The `User` record type: its class constants, its setters, and the password
 * and two-factor secret it keeps encrypted under the local key.
 *
 * The local key is the `getString()` of `Discretion::getLocalEncryptionKey()`,
 * passed in; the nonce and salt drawn by the library are parameters too.
 */
module Users {
  import opened Wrappers
  import opened PhpValues
  import opened Primitives
  import opened Storage
  import opened Structs
  import opened HiddenStrings
  import SC = SimpleCrypto
  import DS = Discretion

  const BCRYPT_COST := 12
  const USER_CLASS := "ParagonIE\\Discretion\\Struct\\User"
  const USER_TABLE := "discretion_users"

  /** DB_FIELD_NAMES of User: column => property, in declaration order. */
  const UserFieldNames: seq<(string, string)> := [
    ("userid", "id"), ("active", "active"), ("username", "username"), ("pwhash", "pwHash"),
    ("twofactor", "twoFactorSecret"), ("email", "email"), ("fullname", "fullName"),
    ("chronicle", "chronicle")]

  /** The declared defaults of the properties of User, and the inherited timestamps. */
  const UserDefaults: map<string, Value> := map[
    "active" := VBool(false), "chronicle" := VString([]), "email" := VString([]),
    "fullName" := VString([]), "username" := VString([]), "pwHash" := VString([]),
    "twoFactorSecret" := VString([]), "created" := VNull, "modified" := VNull]

  /** The two defaults the registration chain leaves untouched. */
  lemma UserDefaultsUnset()
    ensures "active" in UserDefaults && UserDefaults["active"] == VBool(false)
    ensures "chronicle" in UserDefaults && UserDefaults["chronicle"] == VString([])
  {
  }

  /** The class constants and declared defaults of User. */
  const UserSchema := Schema(USER_CLASS, USER_TABLE, "userid", UserFieldNames, ["active"], true, UserDefaults)

  /** DB_FIELD_NAMES lists every column once and every property once. */
  lemma UserFieldNamesDistinct()
    ensures forall i, j :: 0 <= i < j < |UserFieldNames| ==>
      UserFieldNames[i].0 != UserFieldNames[j].0 && UserFieldNames[i].1 != UserFieldNames[j].1
  {
    var f := UserFieldNames;
    var columns := ["userid", "active", "username", "pwhash", "twofactor", "email", "fullname", "chronicle"];
    var properties := ["id", "active", "username", "pwHash", "twoFactorSecret", "email", "fullName", "chronicle"];
    assert |f| == 8 && forall i :: 0 <= i < 8 ==> f[i] == (columns[i], properties[i]);
    forall i, j | 0 <= i < j < 8
      ensures columns[i] != columns[j] && properties[i] != properties[j]
    {
      assert columns[i][0] != columns[j][0] || columns[i][1] != columns[j][1] || |columns[i]| != |columns[j]|;
      assert properties[i][0] != properties[j][0] || properties[i][1] != properties[j][1]
        || |properties[i]| != |properties[j]|;
    }
  }

  /** User is a well-formed record type that passes the guard of byId() and is Unique. */
  lemma UserSchemaIsWellFormed()
    ensures WellFormed(UserSchema) && DefinesConstants(UserSchema) && UserSchema.unique
  {
    UserFieldNamesDistinct();
    var f := UserFieldNames;
    assert f[0] == ("userid", "id");
    forall i | 0 <= i < |f|
      ensures f[i].1 == "id" <==> f[i].0 == "userid"
      ensures f[i].1 != "id" ==> f[i].1 in UserDefaults
    {
      assert i == 0 || |f[i].0| != 6 || f[i].0[0] != 'u';
      assert i == 0 || f[i].1 != "id";
    }
  }

  /** The columns a User writes: every declared column but `userid`, `active` DB-boolean encoded. */
  lemma UserWriteColumns(driver: string, id: int, props: map<string, Value>)
    ensures var f := ColumnSet(UserSchema, driver, id, props, |UserSchema.fieldNames|);
      f == map[
        "active" := DS.GetDatabaseBoolean(driver, Truthy(PropertyValue(id, props, "active"))),
        "username" := PropertyValue(id, props, "username"),
        "pwhash" := PropertyValue(id, props, "pwHash"),
        "twofactor" := PropertyValue(id, props, "twoFactorSecret"),
        "email" := PropertyValue(id, props, "email"),
        "fullname" := PropertyValue(id, props, "fullName"),
        "chronicle" := PropertyValue(id, props, "chronicle")]
  {
    var s := UserSchema;
    var f := s.fieldNames;
    var a := DS.GetDatabaseBoolean(driver, Truthy(PropertyValue(id, props, "active")));
    assert f[0].0 == s.primaryKey;
    assert ColumnSet(s, driver, id, props, 1) == map[];
    assert f[1] == ("active", "active") && "active" in s.booleanFields;
    assert ColumnSet(s, driver, id, props, 2) == ColumnSet(s, driver, id, props, 1)["active" := a];
    assert f[2] == ("username", "username") && "username" !in s.booleanFields;
    assert ColumnSet(s, driver, id, props, 3)
      == ColumnSet(s, driver, id, props, 2)["username" := PropertyValue(id, props, "username")];
    assert f[3] == ("pwhash", "pwHash") && "pwhash" !in s.booleanFields;
    assert ColumnSet(s, driver, id, props, 4)
      == ColumnSet(s, driver, id, props, 3)["pwhash" := PropertyValue(id, props, "pwHash")];
    assert f[4] == ("twofactor", "twoFactorSecret") && "twofactor" !in s.booleanFields;
    assert ColumnSet(s, driver, id, props, 5)
      == ColumnSet(s, driver, id, props, 4)["twofactor" := PropertyValue(id, props, "twoFactorSecret")];
    assert f[5] == ("email", "email") && "email" !in s.booleanFields;
    assert ColumnSet(s, driver, id, props, 6)
      == ColumnSet(s, driver, id, props, 5)["email" := PropertyValue(id, props, "email")];
    assert f[6] == ("fullname", "fullName") && "fullname" !in s.booleanFields;
    assert ColumnSet(s, driver, id, props, 7)
      == ColumnSet(s, driver, id, props, 6)["fullname" := PropertyValue(id, props, "fullName")];
    assert f[7] == ("chronicle", "chronicle") && "chronicle" !in s.booleanFields;
    assert ColumnSet(s, driver, id, props, 8)
      == ColumnSet(s, driver, id, props, 7)["chronicle" := PropertyValue(id, props, "chronicle")];
  }

  /** `new User()`: no id yet, inactive, every string property empty. */
  method NewUser() returns (u: Struct)
    ensures fresh(u) && u.schema == UserSchema && u.id == 0 && u.props == UserSchema.defaults
    ensures u.Get("active") == Success(VBool(false))
    ensures forall p :: p in {"chronicle", "email", "fullName", "username", "pwHash", "twoFactorSecret"} ==>
      u.Get(p) == Success(VString([]))
    ensures u.Id().Failure?
  {
    u := new Struct(UserSchema);
  }

  // ---------------------------------------------------------------------------
  // Password

  /** The prehash: base64url of the 54-byte BLAKE2b digest of the password. */
  function PreHash(lib: Library, password: Bytes): (h: Bytes)
    ensures Sound(lib) ==> lib.base64UrlDecode(h) == Some(lib.genericHash(password))
  {
    lib.base64UrlEncode(lib.genericHash(password))
  }

  /** Distinct passwords have distinct prehashes. */
  lemma PreHashInjective(lib: Library, p: Bytes, q: Bytes)
    requires Sound(lib)
    ensures PreHash(lib, p) == PreHash(lib, q) <==> p == q
  {
    if PreHash(lib, p) == PreHash(lib, q) {
      assert Some(lib.genericHash(p)) == Some(lib.genericHash(q));
    }
  }

  /** What `setPassword(p)` stores in `pwHash`: the encrypted bcrypt hash of the prehash. */
  function StoredPassword(lib: Library, password: Bytes, key: Bytes, salt: Bytes, nonce: Bytes): (c: Bytes)
    requires |nonce| == SC.NONCE_LENGTH
    ensures Sound(lib) ==> SC.Decrypt(lib, c, key) == Success(lib.passwordHash(PreHash(lib, password), salt))
  {
    var hash := lib.passwordHash(PreHash(lib, password), salt);
    assert Sound(lib) ==> SC.Decrypt(lib, SC.Encrypt(lib, hash, key, nonce), key) == Success(hash) by {
      if Sound(lib) { SC.RoundTrip(lib, hash, key, nonce); }
    }
    SC.Encrypt(lib, hash, key, nonce)
  }

  /** `checkPassword(p)` against a `pwHash` value; `decrypt(string)` raises TypeError on anything else. */
  function PasswordMatches(lib: Library, pwHash: Value, password: Bytes, key: Bytes): (r: Result<bool, Exception>)
    ensures !pwHash.VString? ==> r == Failure(TypeError)
    ensures pwHash.VString? && SC.Decrypt(lib, pwHash.s, key).Failure? ==> r == Failure(SC.Decrypt(lib, pwHash.s, key).error)
    ensures r.Success? ==> pwHash.VString? && SC.Decrypt(lib, pwHash.s, key).Success?
    ensures pwHash.VString? && SC.Decrypt(lib, pwHash.s, key).Success? ==>
      r == Success(lib.passwordVerify(PreHash(lib, password), SC.Decrypt(lib, pwHash.s, key).value))
  {
    if !pwHash.VString? then Failure(TypeError)
    else
      match SC.Decrypt(lib, pwHash.s, key)
      case Failure(e) => Failure(e)
      case Success(stored) => Success(lib.passwordVerify(PreHash(lib, password), stored))
  }

  /** Once `setPassword(p)` stored its hash, exactly `p` passes `checkPassword`. */
  lemma {:induction false} PasswordRoundTrip(lib: Library, p: Bytes, q: Bytes, key: Bytes, salt: Bytes, nonce: Bytes)
    requires Sound(lib) && |nonce| == SC.NONCE_LENGTH
    ensures PasswordMatches(lib, VString(StoredPassword(lib, p, key, salt, nonce)), q, key) == Success(q == p)
  {
    var stored := lib.passwordHash(PreHash(lib, p), salt);
    PreHashInjective(lib, p, q);
    assert lib.passwordVerify(PreHash(lib, q), stored) <==> PreHash(lib, q) == PreHash(lib, p);
  }

  /**
   * The stored password field decodes to a raw ciphertext 40 bytes longer than
   * the bcrypt hash, framed by the nonce; neither the field nor what it decodes
   * to is the bare hash.
   */
  lemma StoredPasswordIsCiphertext(lib: Library, p: Bytes, key: Bytes, salt: Bytes, nonce: Bytes)
    requires Sound(lib) && |nonce| == SC.NONCE_LENGTH
    ensures var hash := lib.passwordHash(PreHash(lib, p), salt);
      var raw := lib.base64UrlDecode(StoredPassword(lib, p, key, salt, nonce));
      raw.Some? && |raw.value| == |hash| + SC.MIN_CIPHERTEXT_LENGTH && raw.value[..SC.NONCE_LENGTH] == nonce
      && raw.value != hash
    ensures StoredPassword(lib, p, key, salt, nonce) != lib.passwordHash(PreHash(lib, p), salt)
  {
    var hash := lib.passwordHash(PreHash(lib, p), salt);
    assert |StoredPassword(lib, p, key, salt, nonce)| >= |SC.EncryptRaw(lib, hash, key, nonce)|;
  }

  /** `checkPassword($password)`. */
  function CheckPassword(u: Struct, lib: Library, password: HiddenString, key: Bytes): (r: Result<bool, Exception>)
    reads u, password
    ensures var pwHash := PropertyValue(u.id, u.props, "pwHash");
      (!pwHash.VString? ==> r == Failure(TypeError))
      && (pwHash.VString? && SC.Decrypt(lib, pwHash.s, key).Failure? ==> r == Failure(SC.Decrypt(lib, pwHash.s, key).error))
      && (pwHash.VString? && SC.Decrypt(lib, pwHash.s, key).Success? ==>
            r == Success(lib.passwordVerify(PreHash(lib, password.GetString()), SC.Decrypt(lib, pwHash.s, key).value)))
  {
    PasswordMatches(lib, PropertyValue(u.id, u.props, "pwHash"), password.GetString(), key)
  }

  /** `setPassword($password)`: afterwards exactly that password checks out. */
  method SetPassword(u: Struct, lib: Library, password: HiddenString, key: Bytes, salt: Bytes, nonce: Bytes)
    returns (self: Struct)
    requires |nonce| == SC.NONCE_LENGTH
    modifies u`props
    ensures self == u
    ensures u.props == old(u.props)["pwHash" := VString(StoredPassword(lib, password.GetString(), key, salt, nonce))]
    ensures Sound(lib) ==> forall q: HiddenString ::
      CheckPassword(u, lib, q, key) == Success(q.GetString() == password.GetString())
  {
    u.props := u.props["pwHash" := VString(StoredPassword(lib, password.GetString(), key, salt, nonce))];
    self := u;
    forall q: HiddenString | Sound(lib)
      ensures CheckPassword(u, lib, q, key) == Success(q.GetString() == password.GetString())
    {
      PasswordRoundTrip(lib, password.GetString(), q.GetString(), key, salt, nonce);
    }
  }

  // ---------------------------------------------------------------------------
  // Two-factor secret

  /** `get2FASecret()`: the decryption of `twoFactorSecret` under the local key. */
  function Get2FASecret(u: Struct, lib: Library, key: Bytes): (r: Result<Bytes, Exception>)
    reads u
    ensures !PropertyValue(u.id, u.props, "twoFactorSecret").VString? ==> r == Failure(TypeError)
    ensures r.Success? ==> PropertyValue(u.id, u.props, "twoFactorSecret").VString?
    ensures PropertyValue(u.id, u.props, "twoFactorSecret").VString? ==>
      r == SC.Decrypt(lib, PropertyValue(u.id, u.props, "twoFactorSecret").s, key)
  {
    var v := PropertyValue(u.id, u.props, "twoFactorSecret");
    if v.VString? then SC.Decrypt(lib, v.s, key) else Failure(TypeError)
  }

  /** `set2FASecret($secret)`: stores the encryption; reading it back gives the secret. */
  method Set2FASecret(u: Struct, lib: Library, secret: HiddenString, key: Bytes, nonce: Bytes) returns (self: Struct)
    requires |nonce| == SC.NONCE_LENGTH
    modifies u`props
    ensures self == u
    ensures u.props == old(u.props)["twoFactorSecret" := VString(SC.Encrypt(lib, secret.GetString(), key, nonce))]
    ensures Sound(lib) ==> Get2FASecret(u, lib, key) == Success(secret.GetString())
  {
    u.props := u.props["twoFactorSecret" := VString(SC.Encrypt(lib, secret.GetString(), key, nonce))];
    self := u;
    if Sound(lib) {
      SC.RoundTrip(lib, secret.GetString(), key, nonce);
    }
  }

  /**
   * The stored two-factor field is a ciphertext: it decodes to 40 bytes more than
   * the secret, and neither it nor what it decodes to is the secret.
   */
  lemma StoredSecretIsCiphertext(lib: Library, secret: Bytes, key: Bytes, nonce: Bytes)
    requires Sound(lib) && |nonce| == SC.NONCE_LENGTH
    ensures var raw := lib.base64UrlDecode(SC.Encrypt(lib, secret, key, nonce));
      raw.Some? && |raw.value| == |secret| + SC.MIN_CIPHERTEXT_LENGTH && raw.value != secret
    ensures SC.Encrypt(lib, secret, key, nonce) != secret
  {
    assert |SC.Encrypt(lib, secret, key, nonce)| >= |SC.EncryptRaw(lib, secret, key, nonce)|;
  }

  // ---------------------------------------------------------------------------
  // Setters

  /** `setUsername($username)`. */
  method SetUsername(u: Struct, username: Bytes) returns (self: Struct)
    modifies u`props
    ensures self == u && u.props == old(u.props)["username" := VString(username)]
    ensures u.Get("username") == Success(VString(username))
    ensures forall p :: p != "username" ==> u.Get(p) == old(u.Get(p))
  {
    u.props := u.props["username" := VString(username)];
    self := u;
  }

  /** `setEmail($email)`. */
  method SetEmail(u: Struct, email: Bytes) returns (self: Struct)
    modifies u`props
    ensures self == u && u.props == old(u.props)["email" := VString(email)]
    ensures u.Get("email") == Success(VString(email))
    ensures forall p :: p != "email" ==> u.Get(p) == old(u.Get(p))
  {
    u.props := u.props["email" := VString(email)];
    self := u;
  }

  /** `setFullName($fullName)`. */
  method SetFullName(u: Struct, fullName: Bytes) returns (self: Struct)
    modifies u`props
    ensures self == u && u.props == old(u.props)["fullName" := VString(fullName)]
    ensures u.Get("fullName") == Success(VString(fullName))
    ensures forall p :: p != "fullName" ==> u.Get(p) == old(u.Get(p))
  {
    u.props := u.props["fullName" := VString(fullName)];
    self := u;
  }

  /** `setActive($isActive)`. */
  method SetActive(u: Struct, isActive: bool) returns (self: Struct)
    modifies u`props
    ensures self == u && u.props == old(u.props)["active" := VBool(isActive)]
    ensures IsActive(u) == Success(isActive)
    ensures forall p :: p != "active" ==> u.Get(p) == old(u.Get(p))
  {
    u.props := u.props["active" := VBool(isActive)];
    self := u;
  }

  // ---------------------------------------------------------------------------
  // isActive

  /**
   * `isActive()` as written: `return $this->active;` under a `bool` return
   * type with strict types, so any value but a boolean raises TypeError.
   */
  function IsActiveAsWritten(u: Struct): (r: Result<bool, Exception>)
    reads u
    ensures PropertyValue(u.id, u.props, "active").VBool? <==> r.Success?
    ensures r.Success? ==> r.value == PropertyValue(u.id, u.props, "active").b
  {
    var v := PropertyValue(u.id, u.props, "active");
    if v.VBool? then Success(v.b) else Failure(TypeError)
  }

  /**
   * On the sqlite driver a stored active User is read back with `active` as
   * the integer 1, on which `isActive()` as written raises TypeError.
   */
  lemma SqliteReloadedUserIsActiveFails(props: map<string, Value>, id: int, reloaded: Struct)
    requires "active" in props && props["active"] == VBool(true)
    requires reloaded.props == LoadedProps(UserSchema,
      ColumnSet(UserSchema, "sqlite", id, props, |UserSchema.fieldNames|)["userid" := VInt(id)])
    ensures PropertyValue(reloaded.id, reloaded.props, "active") == VInt(1)
    ensures IsActiveAsWritten(reloaded) == Failure(TypeError)
  {
    UserSchemaIsWellFormed();
    var n := |UserSchema.fieldNames|;
    var row := ColumnSet(UserSchema, "sqlite", id, props, n)["userid" := VInt(id)];
    ColumnSetAt(UserSchema, "sqlite", id, props, n, 1);
    LoadedFieldsAt(UserSchema, row, n, 1);
  }

  /** `isActive()` as intended: the truth value of `active`, whichever driver stored it. */
  function IsActive(u: Struct): (r: Result<bool, Exception>)
    reads u
    ensures r.Success?
    ensures PropertyValue(u.id, u.props, "active").VBool? ==> r == IsActiveAsWritten(u)
    ensures r.value == Truthy(PropertyValue(u.id, u.props, "active"))
  {
    Success(Truthy(PropertyValue(u.id, u.props, "active")))
  }

  /** A stored User reads back with the same `isActive()`, on every driver. */
  lemma ReloadedUserKeepsActive(driver: string, id: int, props: map<string, Value>, reloaded: Struct)
    requires reloaded.props == LoadedProps(UserSchema,
      ColumnSet(UserSchema, driver, id, props, |UserSchema.fieldNames|)["userid" := VInt(id)])
    ensures IsActive(reloaded).value == Truthy(PropertyValue(id, props, "active"))
  {
    UserSchemaIsWellFormed();
    StoredRecordReloads(UserSchema, driver, id, props, 1);
  }

  // ---------------------------------------------------------------------------
  // Lookups by username

  /** The row stores that username (`WHERE username = ?`). */
  predicate HasUsername(row: Row, username: Bytes)
  {
    "username" in row && row["username"] == VString(username)
  }

  /** `usernameIsTaken($username)`: some row of discretion_users has that username. */
  predicate UsernameIsTaken(db: Database, username: Bytes)
    reads db
  {
    exists k :: k in db.TableOf(USER_TABLE).rows && HasUsername(db.TableOf(USER_TABLE).rows[k], username)
  }

  /**
   * `byUsername($username)`: RecordNotFound when no row has that username,
   * otherwise `byId()` of the key of a row that has it.
   */
  method ByUsername(rt: Runtime, username: Bytes, freshKey: Bytes) returns (r: Result<Struct, Exception>, ghost userId: int)
    requires rt.Valid() && rt.Consistent(UserSchema) && |freshKey| == RUNTIME_KEY_LENGTH
    modifies rt`objectCache, rt`runtimeCacheKey
    ensures rt.Valid() && rt.Consistent(UserSchema)
    ensures !UsernameIsTaken(rt.db, username) <==> r == Failure(RecordNotFound)
    ensures !UsernameIsTaken(rt.db, username) ==> unchanged(rt)
    // otherwise `byId` of the key of a row holding the username
    ensures UsernameIsTaken(rt.db, username) ==>
      r.Success? && userId in rt.db.TableOf(USER_TABLE).rows
      && HasUsername(rt.db.TableOf(USER_TABLE).rows[userId], username)
      && r.value.schema == UserSchema && r.value.id == userId
      && rt.runtimeCacheKey == (if old(rt.runtimeCacheKey) == [] then freshKey else old(rt.runtimeCacheKey))
    // the instance already cached for that key is handed back as is
    ensures UsernameIsTaken(rt.db, username) && old(rt.Cached(USER_CLASS, userId)).Some? ==>
      r == Success(old(rt.Cached(USER_CLASS, userId)).value) && rt.objectCache == old(rt.objectCache)
    // otherwise a new instance is loaded from the row and cached
    ensures UsernameIsTaken(rt.db, username) && old(rt.Cached(USER_CLASS, userId)).None? ==>
      r.Success? && fresh(r.value)
      && r.value.props == LoadedProps(UserSchema, rt.db.SelectRow(USER_TABLE, "userid", userId).value)
      && rt.objectCache == old(rt.objectCache)[CacheKey(rt.runtimeCacheKey, USER_CLASS, userId) := r.value]
  {
    var rows := rt.db.TableOf(USER_TABLE).rows;
    if !UsernameIsTaken(rt.db, username) {
      return Failure(RecordNotFound), 0;
    }
    var id :| id in rows && HasUsername(rows[id], username);
    userId := id;
    UserSchemaIsWellFormed();
    r := Struct.ById(rt, UserSchema, id, freshKey);
    assert r.Success? by {
      if !(rt.db.SelectRow(USER_TABLE, "userid", id).Some?) {
        assert false;
      }
    }
  }

}
