/**
 * The registration handler: an ordered chain of checks on a POSTed form, then
 * one User record creation and a session update; and the page that shows the
 * form with the pending two-factor secret.
 *
 * E-mail validation, TOTP verification (section 4 of RFC 6238, with a grace
 * window) and the otpauth URI are oracles; the clock, the random draws, the
 * local key and the outcome of the commit are parameters.
 */
module Registration {
  import opened Wrappers
  import opened PhpValues
  import opened Primitives
  import opened Storage
  import opened Structs
  import opened HiddenStrings
  import opened Users
  import SC = SimpleCrypto
  import DS = Discretion

  /** `$_SESSION`, as far as this handler uses it. */
  class Session {
    /** `$_SESSION['registration']['twoFactorSecret']`, while a registration is pending. */
    var registration: Option<Bytes>
    /** `$_SESSION['userid']`. */
    var userid: Option<int>
    /** The session id, which `session_regenerate_id()` replaces. */
    var sessionId: Bytes

    constructor (sessionId: Bytes)
      ensures registration.None? && userid.None? && this.sessionId == sessionId
    {
      registration := None;
      userid := None;
      this.sessionId := sessionId;
    }

    /** A registration that succeeded: the pending secret is dropped, the id regenerated, the user logged in. */
    method LogIn(newSessionId: Bytes, id: int)
      modifies this
      ensures registration.None? && sessionId == newSessionId && userid == Some(id)
    {
      registration := None;
      sessionId := newSessionId;
      userid := Some(id);
    }
  }

  /** The parts of the Slim request the handler reads. */
  datatype Request = Request(
    authenticated: bool,       // truthiness of the `authenticated` attribute
    isPost: bool,
    csrfMitigated: bool,       // truthiness of the `csrf_mitigated` attribute
    post: map<string, Value>,  // getParsedBody()
    httpHost: Bytes)           // $_SERVER['HTTP_HOST']

  /** The library calls treated as oracles. */
  datatype Oracles = Oracles(
    /** `filter_var($email, FILTER_VALIDATE_EMAIL)` returns a string */
    validEmail: Bytes -> bool,
    /** `Oath::verifyTotp($secret, $code, $graceWindows, $time)` */
    verifyTotp: (Bytes, Bytes, int, int) -> bool,
    /** `Oath::getUri($secret, $issuer, $label)` */
    otpUri: (Bytes, Bytes, Bytes) -> Bytes)

  /** The clock, the random draws, the local key and what `commit()` reports. */
  datatype Environment = Environment(
    now: int,
    newSecret: Bytes,      // Oath::generateKey(32)
    localKey: Bytes,       // getLocalEncryptionKey()->getString()
    salt: Bytes,           // drawn by password_hash
    passwordNonce: Bytes,  // drawn by encryptRaw in setPassword
    secretNonce: Bytes,    // drawn by encryptRaw in set2FASecret
    cacheKey: Bytes,       // drawn by getCacheKey on first use
    committed: bool,
    newSessionId: Bytes)

  predicate EnvironmentValid(env: Environment)
  {
    |env.passwordNonce| == SC.NONCE_LENGTH && |env.secretNonce| == SC.NONCE_LENGTH
    && |env.cacheKey| == RUNTIME_KEY_LENGTH
  }

  const TOTP_WINDOW := 2
  const TOTP_STEP := 30

  const CSRF_MESSAGE := "CSRF Mitigation not applied."
  const INCOMPLETE_MESSAGE := "Incomplete registration"
  const TYPES_MESSAGE := "Invalid types"
  const EMAIL_MESSAGE := "Invalid email address."
  const TAKEN_MESSAGE := "Username is already taken"
  const MISMATCH_MESSAGE := "Passphrases do not match"
  const TOTP_MESSAGE := "Incorrect two-factor authentication code."
  const DATABASE_MESSAGE := "An unknown database error occurred."

  const SUCCESS_BODY := "Account succesfully created. Redirecting to the control panel."

  /** The six fields the form must carry. */
  const RequiredFields: seq<string> := ["username", "email", "passphrase", "passphrase2", "twoFactor1", "twoFactor2"]

  /** `isset($post[$f])`. */
  predicate IsSetField(post: map<string, Value>, f: string)
  {
    f in post && post[f] != VNull
  }

  predicate AllSet(post: map<string, Value>)
  {
    forall f :: f in RequiredFields ==> IsSetField(post, f)
  }

  predicate AllStrings(post: map<string, Value>)
  {
    forall f :: f in RequiredFields ==> f in post && post[f].VString?
  }

  /** The bytes of a posted string field. */
  function Field(post: map<string, Value>, f: string): Bytes
    requires f in post && post[f].VString?
  {
    post[f].s
  }

  /**
   * An acceptable registration, stated without regard to the order of the
   * checks: every field present and a string, a valid e-mail address, a free
   * username, matching passphrases, and both one-time codes verified against
   * the pending secret, the second one step earlier.
   */
  predicate Acceptable(db: Database, pending: Option<Bytes>, req: Request, o: Oracles, now: int)
    reads db
  {
    req.csrfMitigated && AllStrings(req.post)
    && o.validEmail(Field(req.post, "email"))
    && !UsernameIsTaken(db, Field(req.post, "username"))
    && Field(req.post, "passphrase") == Field(req.post, "passphrase2")
    && pending.Some?
    && o.verifyTotp(pending.value, Field(req.post, "twoFactor1"), TOTP_WINDOW, now)
    && o.verifyTotp(pending.value, Field(req.post, "twoFactor2"), TOTP_WINDOW, now - TOTP_STEP)
  }

  /** The guard chain of `processRegistrationRequest()`, in the order the source runs it. */
  function Validate(db: Database, pending: Option<Bytes>, req: Request, o: Oracles, now: int): (r: Outcome<Exception>)
    reads db
    ensures r.Pass? <==> Acceptable(db, pending, req, o, now)
    ensures !req.csrfMitigated ==> r == Fail(SecurityException(CSRF_MESSAGE))
    ensures req.csrfMitigated && !AllSet(req.post) ==> r == Fail(SecurityException(INCOMPLETE_MESSAGE))
    ensures req.csrfMitigated && AllSet(req.post) && !AllStrings(req.post) ==> r == Fail(SecurityException(TYPES_MESSAGE))
    ensures r.Fail? && r.error == TypeError ==> pending.None?
    ensures r.Fail? ==> r.error == TypeError || r.error.SecurityException?
  {
    var post := req.post;
    if !req.csrfMitigated then Fail(SecurityException(CSRF_MESSAGE))
    else if !AllSet(post) then Fail(SecurityException(INCOMPLETE_MESSAGE))
    else if !AllStrings(post) then Fail(SecurityException(TYPES_MESSAGE))
    else if !o.validEmail(Field(post, "email")) then Fail(SecurityException(EMAIL_MESSAGE))
    else if UsernameIsTaken(db, Field(post, "username")) then Fail(SecurityException(TAKEN_MESSAGE))
    else if Field(post, "passphrase") != Field(post, "passphrase2") then Fail(SecurityException(MISMATCH_MESSAGE))
    // a missing pending secret reaches verifyTotp(string ...) as null
    else if pending.None? then Fail(TypeError)
    else if !o.verifyTotp(pending.value, Field(post, "twoFactor1"), TOTP_WINDOW, now) then
      Fail(SecurityException(TOTP_MESSAGE))
    else if !o.verifyTotp(pending.value, Field(post, "twoFactor2"), TOTP_WINDOW, now - TOTP_STEP) then
      Fail(SecurityException(TOTP_MESSAGE))
    else Pass
  }

  /** `$post['fullName'] ?? ''` as `setFullName(string)` takes it. */
  function FullName(post: map<string, Value>): (r: Result<Bytes, Exception>)
    ensures !IsSetField(post, "fullName") ==> r == Success([])
    ensures IsSetField(post, "fullName") && post["fullName"].VString? ==> r == Success(post["fullName"].s)
    ensures r.Failure? <==> IsSetField(post, "fullName") && !post["fullName"].VString?
  {
    if !IsSetField(post, "fullName") then Success([])
    else if post["fullName"].VString? then Success(post["fullName"].s)
    else Failure(TypeError)
  }

  /** How a registration attempt ends: the exception it raises, or None when the account is created. */
  function RegistrationError(db: Database, pending: Option<Bytes>, req: Request, o: Oracles, env: Environment): (e: Option<Exception>)
    reads db
    ensures e.None? <==> Acceptable(db, pending, req, o, env.now) && FullName(req.post).Success? && env.committed
    ensures !Acceptable(db, pending, req, o, env.now) ==> e == Some(Validate(db, pending, req, o, env.now).error)
    ensures Acceptable(db, pending, req, o, env.now) && FullName(req.post).Success? && !env.committed ==>
      e == Some(SecurityException(DATABASE_MESSAGE))
  {
    match Validate(db, pending, req, o, env.now)
    case Fail(err) => Some(err)
    case Pass =>
      if FullName(req.post).Failure? then Some(TypeError)
      else if !env.committed then Some(SecurityException(DATABASE_MESSAGE))
      else None
  }

  /** The row stored for the new account. */
  function NewUserRow(driver: string, lib: Library, env: Environment, post: map<string, Value>, fullName: Bytes, secret: Bytes): Row
    requires EnvironmentValid(env) && AllStrings(post)
  {
    map[
      "active" := DS.GetDatabaseBoolean(driver, false),
      "username" := VString(Field(post, "username")),
      "pwhash" := VString(StoredPassword(lib, Field(post, "passphrase"), env.localKey, env.salt, env.passwordNonce)),
      "twofactor" := VString(SC.Encrypt(lib, secret, env.localKey, env.secretNonce)),
      "email" := VString(Field(post, "email")),
      "fullname" := VString(fullName),
      "chronicle" := VString([])]
  }

  /**
   * The account a successful registration stores authenticates exactly the
   * posted passphrase, keeps the pending secret, and starts inactive.
   */
  lemma NewAccountAuthenticates(driver: string, lib: Library, env: Environment, post: map<string, Value>,
                                fullName: Bytes, secret: Bytes, q: Bytes)
    requires Sound(lib) && EnvironmentValid(env) && AllStrings(post)
    ensures var row := NewUserRow(driver, lib, env, post, fullName, secret);
      PasswordMatches(lib, row["pwhash"], q, env.localKey) == Success(q == Field(post, "passphrase"))
      && SC.Decrypt(lib, row["twofactor"].s, env.localKey) == Success(secret)
      && !Truthy(row["active"])
  {
    var row := NewUserRow(driver, lib, env, post, fullName, secret);
    var stored := StoredPassword(lib, Field(post, "passphrase"), env.localKey, env.salt, env.passwordNonce);
    assert row["pwhash"] == VString(stored);
    assert row["twofactor"] == VString(SC.Encrypt(lib, secret, env.localKey, env.secretNonce));
    assert row["active"] == DS.GetDatabaseBoolean(driver, false);
    PasswordRoundTrip(lib, Field(post, "passphrase"), q, env.localKey, env.salt, env.passwordNonce);
    SC.RoundTrip(lib, secret, env.localKey, env.secretNonce);
  }

  /** The properties of the User the fluent chain builds. */
  function BuiltProps(lib: Library, env: Environment, post: map<string, Value>, fullName: Bytes, secret: Bytes): map<string, Value>
    requires EnvironmentValid(env) && AllStrings(post)
  {
    UserSchema.defaults
      ["username" := VString(Field(post, "username"))]
      ["email" := VString(Field(post, "email"))]
      ["fullName" := VString(fullName)]
      ["pwHash" := VString(StoredPassword(lib, Field(post, "passphrase"), env.localKey, env.salt, env.passwordNonce))]
      ["twoFactorSecret" := VString(SC.Encrypt(lib, secret, env.localKey, env.secretNonce))]
  }

  /** Those properties are written as the new account's row. */
  lemma BuiltUserColumns(driver: string, lib: Library, env: Environment, post: map<string, Value>, fullName: Bytes, secret: Bytes)
    requires EnvironmentValid(env) && AllStrings(post)
    ensures ColumnSet(UserSchema, driver, 0, BuiltProps(lib, env, post, fullName, secret), |UserSchema.fieldNames|)
      == NewUserRow(driver, lib, env, post, fullName, secret)
  {
    var props := BuiltProps(lib, env, post, fullName, secret);
    UserWriteColumns(driver, 0, props);
    BuiltPropsDefaults(lib, env, post, fullName, secret);
    BuiltPropsProfile(lib, env, post, fullName, secret);
    BuiltPropsSecrets(lib, env, post, fullName, secret);
  }

  /** What the chain leaves in the properties it does not set. */
  lemma BuiltPropsDefaults(lib: Library, env: Environment, post: map<string, Value>, fullName: Bytes, secret: Bytes)
    requires EnvironmentValid(env) && AllStrings(post)
    ensures var props := BuiltProps(lib, env, post, fullName, secret);
      PropertyValue(0, props, "active") == VBool(false) && PropertyValue(0, props, "chronicle") == VString([])
  {
    UserDefaultsUnset();
  }

  /** What the chain leaves in the profile properties. */
  lemma BuiltPropsProfile(lib: Library, env: Environment, post: map<string, Value>, fullName: Bytes, secret: Bytes)
    requires EnvironmentValid(env) && AllStrings(post)
    ensures var props := BuiltProps(lib, env, post, fullName, secret);
      PropertyValue(0, props, "username") == VString(Field(post, "username"))
      && PropertyValue(0, props, "email") == VString(Field(post, "email"))
      && PropertyValue(0, props, "fullName") == VString(fullName)
  {
  }

  /** What the chain leaves in the encrypted properties. */
  lemma BuiltPropsSecrets(lib: Library, env: Environment, post: map<string, Value>, fullName: Bytes, secret: Bytes)
    requires EnvironmentValid(env) && AllStrings(post)
    ensures var props := BuiltProps(lib, env, post, fullName, secret);
      PropertyValue(0, props, "pwHash")
        == VString(StoredPassword(lib, Field(post, "passphrase"), env.localKey, env.salt, env.passwordNonce))
      && PropertyValue(0, props, "twoFactorSecret") == VString(SC.Encrypt(lib, secret, env.localKey, env.secretNonce))
  {
  }

  /** The first links of the fluent chain: a new User with the posted profile. */
  method BuildProfile(post: map<string, Value>, fullName: Bytes) returns (user: Struct)
    requires AllStrings(post)
    ensures fresh(user) && user.schema == UserSchema && user.id == 0
    ensures user.props == UserSchema.defaults
      ["username" := VString(Field(post, "username"))]
      ["email" := VString(Field(post, "email"))]
      ["fullName" := VString(fullName)]
  {
    user := NewUser();
    user := SetUsername(user, Field(post, "username"));
    user := SetEmail(user, Field(post, "email"));
    user := SetFullName(user, fullName);
  }

  /** The fluent chain that builds the new User from the form. */
  method BuildUser(lib: Library, env: Environment, post: map<string, Value>, fullName: Bytes, secret: Bytes)
    returns (user: Struct)
    requires EnvironmentValid(env) && AllStrings(post)
    ensures fresh(user) && user.schema == UserSchema && user.id == 0
    ensures user.props == BuiltProps(lib, env, post, fullName, secret)
  {
    user := BuildProfile(post, fullName);
    var password := new HiddenString(Field(post, "passphrase"));
    user := SetPassword(user, lib, password, env.localKey, env.salt, env.passwordNonce);
    var hiddenSecret := new HiddenString(secret);
    user := Set2FASecret(user, lib, hiddenSecret, env.localKey, env.secretNonce);
  }

  /** The parts of the store and of the record cache that `create()` changes, as they stood. */
  datatype Before = Before(tables: map<string, Table>, users: Table, cache: map<CacheKey, Struct>, runtimeKey: Bytes)

  function Snapshot(rt: Runtime): Before
    reads rt, rt.db
  {
    Before(rt.db.tables, rt.db.TableOf(USER_TABLE), rt.objectCache, rt.runtimeCacheKey)
  }

  /**
   * What `create()` on a new User did, measured against `before`: the users
   * table handed out its next key and took `row` under it only if the commit
   * succeeded; the runtime key was drawn if none was held; and a User with that
   * key and `props` was filed in the cache under it, before the commit.
   */
  ghost predicate AccountCreated(rt: Runtime, before: Before, row: Row, props: map<string, Value>, committed: bool, drawnKey: Bytes)
    reads rt, rt.db, rt.objectCache.Values
  {
    var id := before.users.nextId;
    var key := CacheKey(rt.runtimeCacheKey, USER_CLASS, id);
    && rt.db.tables == before.tables[USER_TABLE := Table(if committed then before.users.rows[id := row] else before.users.rows, id + 1)]
    && rt.runtimeCacheKey == (if before.runtimeKey == [] then drawnKey else before.runtimeKey)
    && key in rt.objectCache && rt.objectCache == before.cache[key := rt.objectCache[key]]
    && rt.objectCache[key].schema == UserSchema && rt.objectCache[key].id == id && rt.objectCache[key].props == props
  }

  /**
   * The form passes every check and `fullName` is a string or absent, so the
   * handler goes on to `create()`, whatever the commit then does.
   */
  predicate ReachesCreate(db: Database, pending: Option<Bytes>, req: Request, o: Oracles, env: Environment)
    reads db
  {
    Acceptable(db, pending, req, o, env.now) && FullName(req.post).Success?
  }

  /** `AccountCreated` for the User a registration builds from the form and the pending secret. */
  ghost predicate RegistrationCreated(rt: Runtime, before: Before, lib: Library, env: Environment, req: Request, secret: Bytes)
    requires EnvironmentValid(env) && AllStrings(req.post) && FullName(req.post).Success?
    reads rt, rt.db, rt.objectCache.Values
  {
    var fullName := FullName(req.post).value;
    AccountCreated(rt, before, NewUserRow(rt.db.driver, lib, env, req.post, fullName, secret),
      BuiltProps(lib, env, req.post, fullName, secret), env.committed, env.cacheKey)
  }

  /** `$user->create()` on the new User: its row goes in under the next key of the users table. */
  method CreateNewUser(rt: Runtime, user: Struct, committed: bool, cacheKey: Bytes) returns (ok: bool)
    requires rt.Valid() && rt.Consistent(UserSchema) && |cacheKey| == RUNTIME_KEY_LENGTH
    requires user.schema == UserSchema && user.id == 0
    modifies user`id, rt`objectCache, rt`runtimeCacheKey, rt.db
    ensures rt.Valid() && rt.Consistent(UserSchema)
    ensures ok == committed && user.id == old(rt.db.TableOf(USER_TABLE)).nextId
    ensures AccountCreated(rt, old(Snapshot(rt)), old(user.Fields(rt.db.driver)), user.props, committed, cacheKey)
    ensures rt.objectCache[CacheKey(rt.runtimeCacheKey, USER_CLASS, user.id)] == user
  {
    UserSchemaIsWellFormed();
    ok := user.Create(rt, committed, cacheKey);
  }

  /** Build the User from the form and `create()` it. */
  method StoreNewUser(rt: Runtime, lib: Library, env: Environment, post: map<string, Value>, fullName: Bytes, secret: Bytes)
    returns (user: Struct, created: bool)
    requires rt.Valid() && rt.Consistent(UserSchema) && EnvironmentValid(env) && AllStrings(post)
    modifies rt`objectCache, rt`runtimeCacheKey, rt.db
    ensures rt.Valid() && rt.Consistent(UserSchema)
    ensures created == env.committed && user.id == old(rt.db.TableOf(USER_TABLE)).nextId
    ensures AccountCreated(rt, old(Snapshot(rt)), NewUserRow(rt.db.driver, lib, env, post, fullName, secret),
      BuiltProps(lib, env, post, fullName, secret), env.committed, env.cacheKey)
  {
    user := BuildUser(lib, env, post, fullName, secret);
    BuiltUserColumns(rt.db.driver, lib, env, post, fullName, secret);
    created := CreateNewUser(rt, user, env.committed, env.cacheKey);
  }

  /**
   * The end of `processRegistrationRequest()`: build the User, create it, and
   * on success end the pending registration and log the new user in.
   */
  method CreateAccount(rt: Runtime, session: Session, lib: Library, env: Environment, post: map<string, Value>, fullName: Bytes)
    returns (r: Result<DS.Response, Exception>)
    requires rt.Valid() && rt.Consistent(UserSchema) && EnvironmentValid(env)
    requires AllStrings(post) && session.registration.Some?
    modifies session, rt`objectCache, rt`runtimeCacheKey, rt.db
    ensures rt.Valid() && rt.Consistent(UserSchema)
    // the User is created, cached and, if the commit succeeds, stored, whatever the commit's outcome
    ensures AccountCreated(rt, old(Snapshot(rt)),
      NewUserRow(rt.db.driver, lib, env, post, fullName, old(session.registration).value),
      BuiltProps(lib, env, post, fullName, old(session.registration).value), env.committed, env.cacheKey)
    ensures !env.committed ==> r == Failure(SecurityException(DATABASE_MESSAGE)) && unchanged(session)
    ensures env.committed ==>
      r == Success(DS.CreateNormalResponse(Ascii(SUCCESS_BODY), map["Location" := "/manage"], 301))
      && session.registration.None? && session.userid == Some(old(rt.db.TableOf(USER_TABLE)).nextId)
      && session.sessionId == env.newSessionId
  {
    var user, created := StoreNewUser(rt, lib, env, post, fullName, session.registration.value);
    if !created {
      return Failure(SecurityException(DATABASE_MESSAGE));
    }
    var id := user.Id();
    session.LogIn(env.newSessionId, id.value);
    r := Success(DS.CreateNormalResponse(Ascii(SUCCESS_BODY), map["Location" := "/manage"], 301));
  }

  /**
   * `processRegistrationRequest($request)`. Every rejection leaves the
   * session and the store as they were; an accepted form creates one User
   * row, ends the pending registration and logs the new user in.
   */
  method ProcessRegistrationRequest(rt: Runtime, session: Session, lib: Library, o: Oracles, req: Request, env: Environment)
    returns (r: Result<DS.Response, Exception>)
    requires rt.Valid() && rt.Consistent(UserSchema) && EnvironmentValid(env)
    modifies session, rt`objectCache, rt`runtimeCacheKey, rt.db
    ensures rt.Valid() && rt.Consistent(UserSchema)
    ensures var e := old(RegistrationError(rt.db, session.registration, req, o, env));
      e.Some? ==> r == Failure(e.value) && unchanged(session)
    ensures !old(ReachesCreate(rt.db, session.registration, req, o, env)) ==> unchanged(rt) && unchanged(rt.db)
    // once past the checks the User is created and cached, and stored if the commit succeeds
    ensures old(ReachesCreate(rt.db, session.registration, req, o, env)) ==>
      RegistrationCreated(rt, old(Snapshot(rt)), lib, env, req, old(session.registration).value)
    ensures old(RegistrationError(rt.db, session.registration, req, o, env)).None? ==>
      r == Success(DS.CreateNormalResponse(Ascii(SUCCESS_BODY), map["Location" := "/manage"], 301))
      && session.registration.None? && session.userid == Some(old(rt.db.TableOf(USER_TABLE)).nextId)
      && session.sessionId == env.newSessionId
  {
    var check := Validate(rt.db, session.registration, req, o, env.now);
    if check.Fail? {
      return Failure(check.error);
    }
    var fullName := FullName(req.post);
    if fullName.Failure? {
      return Failure(fullName.error);
    }
    r := CreateAccount(rt, session, lib, env, req.post, fullName.value);
  }

  /** `initRegistration()`: a new pending two-factor secret. */
  function InitRegistration(newSecret: Bytes): (pending: Option<Bytes>)
    ensures pending == Some(newSecret)
  {
    Some(newSecret)
  }

  /** The arguments of `register.twig`. */
  function RegisterArgs(error: string, secret: Bytes, host: Bytes, o: Oracles): map<string, Value>
  {
    map[
      "error" := VString(Ascii(error)),
      "registration" := VArray([(VString(Ascii("twoFactorSecret")), VString(secret))]),
      "qrcode" := VString(o.otpUri(secret, host, Ascii("R_E_P_L_A_C_E_M_E")))]
  }

  /**
   * `__invoke()`: an authenticated visitor is sent to the control panel; a
   * POST is processed, and a SecurityException is shown on the form again;
   * the form keeps the pending secret and draws one only when none is pending.
   */
  method Invoke(rt: Runtime, session: Session, disc: DS.Discretion, lib: Library, o: Oracles, req: Request, env: Environment)
    returns (r: Result<DS.Response, Exception>)
    requires rt.Valid() && rt.Consistent(UserSchema) && EnvironmentValid(env)
    modifies session, rt`objectCache, rt`runtimeCacheKey, rt.db
    ensures rt.Valid() && rt.Consistent(UserSchema)
    ensures req.authenticated ==>
      r == Success(disc.ErrorResponse(Ascii("You are already logged in."), 301, map["Location" := "/manage"]))
      && unchanged(session)
    // the store and the cache change only when a POST gets past the checks to `create()`
    ensures !(!req.authenticated && req.isPost && old(ReachesCreate(rt.db, session.registration, req, o, env))) ==>
      unchanged(rt) && unchanged(rt.db)
    ensures !req.authenticated && req.isPost && old(ReachesCreate(rt.db, session.registration, req, o, env)) ==>
      RegistrationCreated(rt, old(Snapshot(rt)), lib, env, req, old(session.registration).value)
    ensures (!req.authenticated && req.isPost
             && old(RegistrationError(rt.db, session.registration, req, o, env)) == None) ==>
      r == Success(DS.CreateNormalResponse(Ascii(SUCCESS_BODY), map["Location" := "/manage"], 301))
      && session.registration.None? && session.userid == Some(old(rt.db.TableOf(USER_TABLE)).nextId)
      && session.sessionId == env.newSessionId
    ensures (!req.authenticated && req.isPost
             && old(RegistrationError(rt.db, session.registration, req, o, env)).Some?
             && !old(RegistrationError(rt.db, session.registration, req, o, env)).value.SecurityException?) ==>
      r == Failure(old(RegistrationError(rt.db, session.registration, req, o, env)).value)
    ensures var e := old(RegistrationError(rt.db, session.registration, req, o, env));
      !req.authenticated && (!req.isPost || (e.Some? && e.value.SecurityException?)) ==>
      var error := if req.isPost then e.value.message else "";
      var pending := if old(session.registration).Some? then old(session.registration).value else env.newSecret;
      r == Success(disc.View("register.twig", RegisterArgs(error, pending, req.httpHost, o), map[], 200))
      && session.registration == Some(pending)
      && session.userid == old(session.userid) && session.sessionId == old(session.sessionId)
  {
    var error := "";
    if req.authenticated {
      return Success(disc.ErrorResponse(Ascii("You are already logged in."), 301, map["Location" := "/manage"]));
    }
    if req.isPost {
      var result := ProcessRegistrationRequest(rt, session, lib, o, req, env);
      match result {
        case Success(_) =>
          return result;
        case Failure(ex) =>
          if !ex.SecurityException? {
            return result;
          }
          error := ex.message;
      }
    }
    if session.registration.None? {
      session.registration := InitRegistration(env.newSecret);
    }
    r := Success(disc.View("register.twig", RegisterArgs(error, session.registration.value, req.httpHost, o), map[], 200));
  }
}
