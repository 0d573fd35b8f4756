# Discretion core, modelled in Dafny

Discretion is a small PHP web application that manages user accounts for
contact forms. This project models its core:

- **Records.** `Struct` is an active-record base class. A record type is
  described by its class constants: table, primary key, column-to-property map
  and boolean columns. Records are loaded with `byId`, written with
  `create`/`update` and read and assigned through `__get`/`__set`. Types marked
  `Unique` go through a process-wide identity cache, keyed by a runtime secret.
- **Users.** `User` is the one record type in the model. It stores a bcrypt
  hash of a BLAKE2b prehash of the password, encrypted under the local key. It
  also stores a TOTP secret, encrypted the same way.
- **Crypto helpers.** `SimpleCrypto` frames ciphertexts as
  `nonce || XChaCha20-Poly1305(m, ad = nonce)`, in base64url.
  `HiddenString` is a secret container that never prints its contents.
- **Shared helpers.** `Discretion` holds static helpers: type naming,
  database booleans, redirects and responses. It also holds process-wide state:
  Twig variables and the cached local key.
- **Registration.** The `Register` handler runs an ordered chain of checks on
  the registration form. It then creates the account and updates the session.

Files:

| file | models |
|---|---|
| `php_values.dfy` | PHP values (`Value`), truthiness, the exceptions raised |
| `wrappers.dfy` | `Option`, `Result`, and `Outcome` (a call that returns nothing or throws) |
| `primitives.dfy` | the libraries as function values; `Sound` states what the core relies on |
| `hidden_string.dfy` | `HiddenString` as a class |
| `simple_crypto.dfy` | `SimpleCrypto` as functions, with round-trip and integrity lemmas |
| `discretion.dfy` | the helpers of `Discretion` and its static state (class `Discretion`) |
| `storage.dfy` | the tables behind EasyDB and the three statements the core issues |
| `struct.dfy` | `Struct`: the `Schema` of a record type, the instance class, the runtime statics |
| `user.dfy` | `User`: its schema, password, two-factor secret, setters and lookups |
| `register.dfy` | `Register`: the checks, the account creation, the page |

The cryptographic and encoding libraries are parameters of type `Library`. The
properties the core relies on are the hypothesis `Sound(lib)`:

- AEAD correctness and integrity;
- forgery resistance, idealised: a one-byte change to an AEAD output, or to the nonce and associated data it was made with, is rejected;
- base64url decoding inverts encoding, and its text is never shorter than its input;
- the prehash is collision-free;
- bcrypt verifies exactly the password it hashed.

`IdealLibrary` shows that `Sound` can be met. The clock, random draws, the
local key, the outcome of `commit()` and the TOTP/e-mail checks are also
parameters.

## Model

| member | source | states |
|---|---|---|
| `HiddenStrings.HiddenString.constructor` | src/Discretion/Data/HiddenString.php:21-24 | the new container's `getString()` is exactly the given value |
| `HiddenStrings.HiddenString.GetString` | src/Discretion/Data/HiddenString.php:66-69 | returns the held value; a container whose value was unset reads as the empty string |
| `HiddenStrings.HiddenString.Equals` | src/Discretion/Data/HiddenString.php:30-36 | holds exactly when both containers hold equal strings |
| `HiddenStrings.EqualsIsEquivalence` | src/Discretion/Data/HiddenString.php:30-36 | `equals` is reflexive and symmetric |
| `HiddenStrings.HiddenString.ToString` | src/Discretion/Data/HiddenString.php:77-80 | `__toString()` is empty whatever the contents |
| `HiddenStrings.HiddenString.DebugInfo` | src/Discretion/Data/HiddenString.php:43-46 | `__debugInfo()` exposes nothing |
| `HiddenStrings.HiddenString.Sleep` | src/Discretion/Data/HiddenString.php:85-88 | `__sleep()` serialises no property |
| `HiddenStrings.XorBytes` | src/Discretion/Data/HiddenString.php:56 | string XOR is as long as the shorter operand |
| `HiddenStrings.HiddenString.Destruct` | src/Discretion/Data/HiddenString.php:51-59 | afterwards the old bytes are overwritten with zeros and the container no longer holds a string, so `getString()` reads '', whether `sodium_memzero` nulled the property or the fallback unset it |
| `SimpleCrypto.EncryptRaw` | src/Discretion/SimpleCrypto.php:92-101 | the output starts with the 24-byte nonce and, under `Sound`, is exactly 40 bytes longer than the message |
| `SimpleCrypto.DecryptRaw` | src/Discretion/SimpleCrypto.php:65-83 | input under 40 bytes is refused before the AEAD is called; otherwise bytes 0-24 are nonce and associated data and the rest is the AEAD input; an AEAD rejection is 'Decryption failed' |
| `SimpleCrypto.Encrypt` | src/Discretion/SimpleCrypto.php:49-54 | under `Sound`, the text decodes to the raw ciphertext of the same message, key and nonce |
| `SimpleCrypto.Decrypt` | src/Discretion/SimpleCrypto.php:32-40 | an undecodable text raises the base64url decoder's RangeException, so the 'Invalid encoding' guard after it is never reached; an accepted text decodes to at least 40 bytes |
| `SimpleCrypto.RawRoundTrip` | src/Discretion/SimpleCrypto.php:65-101 | `decryptRaw(encryptRaw(m, k), k) = m` for every message, key and nonce |
| `SimpleCrypto.RoundTrip` | src/Discretion/SimpleCrypto.php:32-54 | `decrypt(encrypt(m, k), k) = m` through base64url |
| `SimpleCrypto.ShortInputIndependentOfAead` | src/Discretion/SimpleCrypto.php:67-69 | the length guard fails whatever the library does, so no library output is involved |
| `SimpleCrypto.AcceptedIsGenuine` | src/Discretion/SimpleCrypto.php:70-82 | any raw ciphertext that decrypts is exactly the encryption of its plaintext under its own nonce |
| `SimpleCrypto.TamperedNeverYieldsOriginal` | src/Discretion/SimpleCrypto.php:70-82 | a raw ciphertext that differs from `encryptRaw(m)` but keeps its nonce never decrypts to `m` |
| `SimpleCrypto.AlteredIsRejected` | src/Discretion/SimpleCrypto.php:65-83 | changing any one byte of `encryptRaw(m, k)`, nonce bytes included, makes `decryptRaw` fail with 'Decryption failed' |
| `SimpleCrypto.AlteredTextIsRejected` | src/Discretion/SimpleCrypto.php:32-40 | decoding `encrypt(m, k)`, changing any one byte and encoding again gives a text that `decrypt` rejects with 'Decryption failed' |
| `SimpleCrypto.DecryptAcceptsOnlyGenuine` | src/Discretion/SimpleCrypto.php:32-40 | any text `decrypt` accepts decodes to a genuine raw ciphertext of the returned plaintext |
| `Discretion.PhpUnion` | src/Discretion/Discretion.php:93 | `$a + $b` holds the keys of both, and the left operand wins on shared keys |
| `Discretion.TrimLeft` | src/Discretion/Discretion.php:74 | strips exactly the leading backslashes, leaving a suffix that does not start with one |
| `Discretion.TrimRight` | src/Discretion/Discretion.php:74 | strips exactly the trailing backslashes, leaving a prefix that does not end with one |
| `Discretion.Trim` | src/Discretion/Discretion.php:74 | `trim($c, '\\')` is a middle slice of `c` with only backslashes around it and none at its ends |
| `Discretion.DecorateClassName` | src/Discretion/Discretion.php:72-75 | is `"Object ("` + the trimmed name + `")"` |
| `Discretion.DecorateClassNameInjective` | src/Discretion/Discretion.php:72-75 | two class names decorate alike exactly when they agree once trimmed |
| `Discretion.GetGenericType` | src/Discretion/Discretion.php:160-182 | 'void' without an argument, 'null' for null, the decorated class for an object, the renamed `gettype` name otherwise |
| `Discretion.GenericTypeIdentifiesKind` | src/Discretion/Discretion.php:160-182 | two values get the same generic type name exactly when they have the same PHP type (the same class, for objects) |
| `Discretion.GetDatabaseBoolean` | src/Discretion/Discretion.php:131-137 | preserves the truth value; 1/0 on sqlite and a boolean on any other driver |
| `Discretion.HasSchemeSeparatorIff` | src/Discretion/Discretion.php:284 | the recursive `strpos($path, '://') !== false` holds exactly when `://` occurs at some index |
| `Discretion.RedirectPath` | src/Discretion/Discretion.php:284-287 | a remote path is kept when allowed; otherwise a path containing `://` becomes `/`, and other paths are kept |
| `Discretion.Redirect` | src/Discretion/Discretion.php:278-298 | status 301, `Location` set to the path rule's result, and the default headers kept |
| `Discretion.Discretion.GetTwigVar` | src/Discretion/Discretion.php:263-269 | returns the stored value of a set key; an unset key raises RecordNotFound |
| `Discretion.Discretion.SetTwigVar` | src/Discretion/Discretion.php:349-352 | afterwards `getTwigVar(k)` returns the value, and every other key reads as before |
| `Discretion.Discretion.GetLocalEncryptionKey` | src/Discretion/Discretion.php:198-213 | a cached key is returned without reading the file; otherwise the file is read once, and a failed read or decode leaves nothing cached |
| `Discretion.Discretion.View` | src/Discretion/Discretion.php:363-381 | the default headers are used only when none are given; the context is the arguments over the Twig variables, arguments winning |
| `Discretion.Discretion.ErrorResponse` | src/Discretion/Discretion.php:85-95 | renders `error.twig` with the message; caller headers take precedence over the defaults |
| `Storage.Database.SelectRow` | src/Discretion/Struct.php:57-65 | finds a row exactly when the key is stored, and returns its columns plus the key column |
| `Storage.Database.InsertGet` | src/Discretion/Struct.php:157-165 | hands out the next key (one not yet used); the row is kept only if the commit succeeds |
| `Storage.Database.Update` | src/Discretion/Struct.php:193-198 | only the row whose key equals the id takes the new columns, and only if the commit succeeds |
| `Structs.PropertyValue` | src/Discretion/Struct.php:213 | `id` reads as the key; an undeclared property reads as null |
| `Structs.ColumnValue` | src/Discretion/Struct.php:149-155 | a boolean column keeps the property's truth value; any other column copies the property unchanged |
| `Structs.ColumnSet` | src/Discretion/Struct.php:143-156 | the written columns never include the primary key |
| `Structs.ColumnSetAt` | src/Discretion/Struct.php:143-156 | every declared non-key column is written, with its own property's value |
| `Structs.ColumnSetKeys` | src/Discretion/Struct.php:143-156 | only declared columns are written |
| `Structs.RowValue` | src/Discretion/Struct.php:70 | a column the row lacks reads as null |
| `Structs.LoadedFields` | src/Discretion/Struct.php:69-71 | the copied properties never include `id`, which the loop sets apart |
| `Structs.LoadedFieldsAt` | src/Discretion/Struct.php:69-71 | every mapped property takes its column's value |
| `Structs.LoadedProps` | src/Discretion/Struct.php:69-77 | declared defaults overridden by the mapped columns; `created`/`modified` become timestamps only when set in the row |
| `Structs.StoredRecordReloads` | src/Discretion/Struct.php:69-77 | a record written by `create()` and read back by `byId()` has each plain property unchanged and each boolean property with the same truth value |
| `Structs.Runtime.constructor` | src/Discretion/Struct.php:32-36 | the cache starts empty and no runtime key is drawn yet |
| `Structs.Runtime.Cached` | src/Discretion/Struct.php:52-55 | a cache hit is a record of that class with that (positive) id |
| `Structs.Runtime.GetRuntimeCache` | src/Discretion/Struct.php:127-130 | every cached record is filed under its own class and id |
| `Structs.Struct.constructor` | src/Discretion/Struct.php:23-30 | `new static()` has id 0 and the declared defaults |
| `Structs.Struct.Columns` | src/Discretion/Struct.php:143-156 | the loop builds the column set: every non-key column with its encoded value, never the key |
| `Structs.Struct.GetCacheKey` | src/Discretion/Struct.php:89-110 | the runtime key is drawn only on first use; the key is a function of class and id, using the argument when positive and the record's id otherwise |
| `Structs.Struct.CopyRow` | src/Discretion/Struct.php:69-71 | the copy loop gives the instance the row's key, and every mapped property its column's value over the defaults |
| `Structs.Struct.Load` | src/Discretion/Struct.php:69-77 | after the copy loop and the timestamps, the instance holds the row's key and exactly the loaded properties |
| `Structs.Struct.LoadAndCache` | src/Discretion/Struct.php:69-80 | the instance is loaded from the row and, for a Unique type, filed in the cache under its class and id, with the runtime key unchanged |
| `Structs.Struct.ById` | src/Discretion/Struct.php:46-82 | a type whose constants are empty gets an Error before anything else happens; for a Unique type, a cached record is returned as is; a missing row raises RecordNotFound; otherwise a fresh instance is loaded from the row and, for a Unique type, cached; the runtime key is drawn on first use |
| `Structs.Struct.Create` | src/Discretion/Struct.php:135-166 | with an id it acts exactly as update; otherwise it inserts the column set, takes the new key and caches a Unique record; returns the commit result |
| `Structs.Struct.Insert` | src/Discretion/Struct.php:140-165 | the column set is inserted under the next key, which the record takes; a Unique record is cached; the result is the commit's |
| `Structs.Struct.Update` | src/Discretion/Struct.php:171-199 | without an id it acts exactly as create; otherwise only the row with that key takes the column set; returns the commit result |
| `Structs.Struct.Id` | src/Discretion/Struct.php:116-122 | raises DatabaseException while the id is 0, and returns the id otherwise |
| `Structs.Struct.Get` | src/Discretion/Struct.php:208-214 | an unknown name raises InvalidArgumentException; a known one returns the property |
| `Structs.Struct.Set` | src/Discretion/Struct.php:224-244 | assigns exactly when the checks on the properties as they were pass: an unknown name or `id` raises InvalidArgument and a type change raises TypeError; then only that property changes and `__get` returns the new value; on failure nothing changes |
| `Structs.AssignmentCheck` | src/Discretion/Struct.php:226-242 | passes exactly when the property exists, is not `id`, and is null or keeps its PHP type |
| `Structs.AssignmentKeepsType` | src/Discretion/Struct.php:235-243 | once a property is non-null, an accepted assignment keeps its generic type |
| `Structs.ByIdTwice` | src/Discretion/Struct.php:46-82 | for a Unique type, a second `byId(id)` returns the very instance the first returned |
| `Structs.CreateThenById` | src/Discretion/Struct.php:162-164 | for a Unique type, `byId` of the id `create()` handed out returns the created instance itself, even when the commit failed, because `create()` caches before committing |
| `Users.UserFieldNamesDistinct` | src/Discretion/Struct/User.php:24-33 | DB_FIELD_NAMES names each column once and each property once |
| `Users.UserSchemaIsWellFormed` | src/Discretion/Struct/User.php:19-34 | the field map binds `userid` to `id` as primary key, lists each column once, and User is Unique |
| `Users.UserWriteColumns` | src/Discretion/Struct/User.php:24-34 | a User writes the seven non-key columns, never `userid`, and `active` is DB-boolean encoded |
| `Users.NewUser` | src/Discretion/Struct/User.php:36-55 | a new User has no id, is inactive, and has empty strings in every other field |
| `Users.PreHash` | src/Discretion/Struct/User.php:80-86 | under `Sound`, the prehash decodes to the BLAKE2b digest of the password |
| `Users.PreHashInjective` | src/Discretion/Struct/User.php:168-174 | distinct passwords have distinct prehashes |
| `Users.StoredPassword` | src/Discretion/Struct/User.php:175-184 | the stored field decrypts to the bcrypt hash of the prehash |
| `Users.PasswordMatches` | src/Discretion/Struct/User.php:78-95 | a non-string field raises TypeError; a decryption failure propagates; otherwise the result is bcrypt's verdict on the prehash against the decrypted hash |
| `Users.PasswordRoundTrip` | src/Discretion/Struct/User.php:78-95 | against the field `setPassword(p)` stores, `checkPassword(q)` holds exactly when `q = p`, at any length |
| `Users.StoredPasswordIsCiphertext` | src/Discretion/Struct/User.php:175-184 | the stored field decodes to a nonce-framed ciphertext 40 bytes longer than the bcrypt hash; under the base64url length law neither the stored text nor its decoding is the bare hash |
| `Users.CheckPassword` | src/Discretion/Struct/User.php:78-95 | a non-string `pwHash` raises TypeError, a decryption failure is raised as is, and otherwise the result is bcrypt's verdict on the prehash against the decrypted hash |
| `Users.SetPassword` | src/Discretion/Struct/User.php:165-186 | only `pwHash` changes, and afterwards exactly that password passes `checkPassword` |
| `Users.Get2FASecret` | src/Discretion/Struct/User.php:100-106 | a string field gives exactly what `decrypt` gives for it, its failure included; a non-string field raises TypeError |
| `Users.Set2FASecret` | src/Discretion/Struct/User.php:122-129 | only the two-factor field changes, and `get2FASecret()` then returns the secret |
| `Users.StoredSecretIsCiphertext` | src/Discretion/Struct/User.php:124-127 | the stored secret decodes to 40 bytes more than the secret; neither the stored text nor its decoding is the secret |
| `Users.SetUsername` | src/Discretion/Struct/User.php:192-196 | returns the same object; only `username` changes |
| `Users.SetEmail` | src/Discretion/Struct/User.php:145-149 | returns the same object; only `email` changes |
| `Users.SetFullName` | src/Discretion/Struct/User.php:155-159 | returns the same object; only `fullName` changes |
| `Users.SetActive` | src/Discretion/Struct/User.php:135-139 | returns the same object; only `active` changes, and `isActive()` then returns the flag |
| `Users.IsActiveAsWritten` | src/Discretion/Struct/User.php:111-114 | returns `active` when it is a boolean and raises TypeError otherwise |
| `Users.SqliteReloadedUserIsActiveFails` | src/Discretion/Struct/User.php:111-114 | an active User saved and reloaded on sqlite has `active = 1`, and `isActive()` as written raises TypeError |
| `Users.IsActive` | src/Discretion/Struct/User.php:111-114 | returns the truth value of `active`, and agrees with the code as written whenever `active` is a boolean |
| `Users.ReloadedUserKeepsActive` | src/Discretion/Struct/User.php:111-114 | a saved and reloaded User keeps its `isActive()` on every driver |
| `Users.ByUsername` | src/Discretion/Struct/User.php:62-72 | raises RecordNotFound exactly when no row has the username (`usernameIsTaken` is false). Otherwise it succeeds with what `byId` gives for the key of a row with that username: the instance already cached for that key, or a fresh one loaded from the row and then cached |
| `Registration.Validate` | src/Discretion/Handlers/Register.php:92-144 | passes exactly when the form is acceptable; CSRF is checked first, then presence, then types, in the source's order |
| `Registration.FullName` | src/Discretion/Handlers/Register.php:150 | `fullName ?? ''`; a non-string value raises TypeError in `setFullName` |
| `Registration.RegistrationError` | src/Discretion/Handlers/Register.php:90-156 | an attempt ends without error exactly when the form is acceptable, `fullName` is a string or absent, and the commit succeeds; otherwise it names the first failure |
| `Registration.NewAccountAuthenticates` | src/Discretion/Handlers/Register.php:147-152 | the stored account accepts exactly the posted passphrase, keeps the pending two-factor secret, and starts inactive |
| `Registration.BuiltUserColumns` | src/Discretion/Handlers/Register.php:147-152 | the new User writes the posted username and email, the given full name, and the encrypted password and secret |
| `Registration.BuildProfile` | src/Discretion/Handlers/Register.php:147-150 | the chained setters give a new User the posted profile fields |
| `Registration.BuildUser` | src/Discretion/Handlers/Register.php:147-152 | the chained setters give a new User with no id exactly the registration's properties |
| `Registration.StoreNewUser` | src/Discretion/Handlers/Register.php:147-154 | the User built from the form gets the next key, is cached under it, and has exactly the registration's columns stored if the commit succeeds |
| `Registration.CreateNewUser` | src/Discretion/Handlers/Register.php:154 | `create()` gives the new User the next key of the users table, and the table's counter moves on even when the commit fails. The User is cached under that key before the commit, the runtime key is drawn on first use, its columns are stored only when the commit succeeds, and the commit is reported |
| `Registration.CreateAccount` | src/Discretion/Handlers/Register.php:147-167 | the User is built, created and cached, and stored only when the commit succeeds. A failed commit raises 'An unknown database error occurred.' and leaves the session unchanged. Otherwise the registration ends, the session id is replaced, `userid` is the new key, and the response is a 301 to `/manage` |
| `Registration.Session.LogIn` | src/Discretion/Handlers/Register.php:158-161 | after a successful registration the pending secret is gone, the session id is the regenerated one, and `userid` is the new key |
| `Registration.ProcessRegistrationRequest` | src/Discretion/Handlers/Register.php:90-168 | every rejection before `create()` raises the first failing check's exception and changes neither the session nor the store. Past the checks, the User is created and cached as in `CreateAccount`, even when the commit then fails. An accepted form logs the new user in |
| `Registration.InitRegistration` | src/Discretion/Handlers/Register.php:78-83 | a new pending registration holds the newly drawn secret |
| `Registration.Invoke` | src/Discretion/Handlers/Register.php:32-73 | an authenticated visitor gets a 301 to `/manage` with no processing. The store and cache change only when a POST gets past the checks, and then as in `CreateAccount`; a successful POST logs the user in with a 301. A POST SecurityException is shown on the form. The pending secret is kept, and one is drawn only when none is pending |

## Left out

- SQL and the EasyDB engine: statements are modelled by their effect on a map of tables. Engine exceptions, row order and escaping are not modelled. Neither are drivers that return integers as numeric strings. A table never written reads as empty.
- Structs.Struct.GetCacheKey: the base64url SipHash of the JSON `{class, id}` is modelled as the record `CacheKey(runtimeKey, class, id)`. It is therefore collision-free, and the `json_encode` failure branch cannot occur.
- Structs.Struct.Get: `property_exists` is also true for the static properties `objectCache` and `runtimeCacheKey`; `__get`/`__set` on those two names are not modelled. PHP calls `__get`/`__set` only for inaccessible properties; the model calls them explicitly.
- Structs.Struct.Load: the `DateTimeImmutable` a set `created`/`modified` column is parsed into is a wrapped value. The exception for an unparsable timestamp is not modelled.
- Structs.Struct.Create: the `(int)` cast of the inserted key and the failure of `beginTransaction` are not modelled. Only the outcome of `commit()` is, as a parameter.
- The record types Form, Contact and Theme are not part of this model. No handler in this model loads or stores them. Their class constants would be further `Schema` values handled by the same `Struct` operations, and none of them adds an operation of its own that the model lacks.
- Constant-time behaviour (`hash_equals`, the constant-time encoders) and the memory effect of `sodium_memzero` are out of scope. Whether `sodium_memzero` throws is a parameter of `Destruct`.
- Primitives.Sound: the AEAD's forgery resistance, a probabilistic property, is idealised as the rejection of every one-byte change; changes to several bytes are covered only by the integrity law. BLAKE2b is idealised as collision-free, so its fixed 54-byte output is not stated. bcrypt's 72-byte input limit is not modelled. The prehash is base64url of 54 bytes, which is exactly 72 characters.
- Users: the local key is the bytes of `getLocalEncryptionKey()`, passed in. The FilesystemException or RangeException that call can raise inside the setters is not modelled there; `Discretion.Discretion.GetLocalEncryptionKey` models it.
- Users.StoredPasswordIsCiphertext: states that the stored field and the bytes it decodes to both differ from the bcrypt hash. It does not state that the field differs from the plaintext password: with no length law on bcrypt, a base64url text can coincide with arbitrary bytes.
- Registration: e-mail validation, TOTP verification and the otpauth URI are oracles. `session_regenerate_id` is modelled as a new session id given as a parameter. The CSP source added for the page and the CSP header injection are not modelled. Neither is Twig rendering: a rendered body is its template and context.
- Registration.Validate: one timestamp `now` stands for the two `time()` calls at src/Discretion/Handlers/Register.php:139 and :142. A clock tick between the two calls is not modelled.
- Registration.Invoke: the request is assumed to be a Slim `Request`, as in the application. `$_SERVER['HTTP_HOST']` is a request field.
- The Login, Index and control-panel handlers, the middleware, bootstrap and installer are not part of this model.
- Users.ByUsername: when several rows share a username, the row `cell()` picks is any of them; the engine's choice is not modelled.
- Integers are unbounded. Record keys and the clock never approach PHP's integer limits in this code.

## Findings

| source | as written | input that shows it | evidently intended | confidence | as-written member | corrected member |
|---|---|---|---|---|---|---|
| src/Discretion/Struct/User.php:111-114 | `isActive(): bool` returns the raw `active` property in a strict-types file | a User with `active = true`, saved and reloaded on the sqlite driver: `getDatabaseBoolean` stored 1, `byId` reads back 1, and the return raises TypeError | return the truth value of `active`, whatever driver stored it | medium, not executed | `Users.IsActiveAsWritten` (shown by `Users.SqliteReloadedUserIsActiveFails`) | `Users.IsActive` (proved by `Users.ReloadedUserKeepsActive`) |
