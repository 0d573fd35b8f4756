/**
 * Discretion.php: the application's static helpers (type naming, database
 * booleans, redirects, responses) and its process-wide state (Twig variables,
 * the cached local encryption key).
 */
module Discretion {
  import opened Wrappers
  import opened PhpValues
  import opened Primitives

  /** What a response carries: a plain body, or a Twig template and the context it is rendered with. */
  datatype Body = Text(text: Bytes) | Rendered(template: string, context: map<string, Value>)

  datatype Response = Response(status: int, headers: map<string, string>, body: Body)

  /** `getDefaultHeaders()`. */
  const DefaultHeaders: map<string, string> := map[
    "Content-Type" := "text/html; charset=UTF-8",
    "X-Content-Type-Options" := "nosniff",
    "X-Frame-Options" := "SAMEORIGIN",
    "X-XSS-Protection" := "1; mode=block"
  ]

  /** `createNormalResponse($body, $headers, $status)`: a plain-text response with exactly those headers. */
  function CreateNormalResponse(body: Bytes, headers: map<string, string>, status: int): (r: Response)
    ensures r.status == status && r.headers == headers && r.body == Text(body)
  {
    Response(status, headers, Text(body))
  }

  /** PHP array union `$a + $b`: every key of either, the left operand's value winning. */
  function PhpUnion<K, V>(a: map<K, V>, b: map<K, V>): (r: map<K, V>)
    ensures r.Keys == a.Keys + b.Keys
    ensures forall k :: k in a ==> r[k] == a[k]
    ensures forall k :: k in b && k !in a ==> r[k] == b[k]
  {
    b + a
  }

  // ---------------------------------------------------------------------------
  // decorateClassName and getGenericType

  /** `ltrim($s, '\\')`. */
  function TrimLeft(s: string): (r: string)
    ensures |r| <= |s| && r == s[|s| - |r|..]
    ensures r == [] || r[0] != '\\'
    ensures forall i :: 0 <= i < |s| - |r| ==> s[i] == '\\'
  {
    if s != [] && s[0] == '\\' then TrimLeft(s[1..]) else s
  }

  /** `rtrim($s, '\\')`. */
  function TrimRight(s: string): (r: string)
    ensures |r| <= |s| && r == s[..|r|]
    ensures r == [] || r[|r| - 1] != '\\'
    ensures forall i :: |r| <= i < |s| ==> s[i] == '\\'
  {
    if s != [] && s[|s| - 1] == '\\' then TrimRight(s[..|s| - 1]) else s
  }

  /** Every character of `t` is a backslash. */
  predicate AllBackslashes(t: string)
  {
    forall j :: 0 <= j < |t| ==> t[j] == '\\'
  }

  /** `r` is `s` with `i` backslashes removed in front and only backslashes removed behind. */
  predicate StripsTo(s: string, i: int, r: string)
  {
    0 <= i <= |s| - |r| && r == s[i..i + |r|] && AllBackslashes(s[..i]) && AllBackslashes(s[i + |r|..])
  }

  /** `trim($s, '\\')`: strip backslashes from both ends. */
  function Trim(s: string): (r: string)
    ensures r == [] || (r[0] != '\\' && r[|r| - 1] != '\\')
    ensures exists i :: StripsTo(s, i, r)
  {
    var l := TrimLeft(s);
    var r := TrimRight(l);
    assert r == s[|s| - |l|..][..|r|] == s[|s| - |l|..|s| - |l| + |r|];
    assert r != [] ==> r[0] == l[0];
    assert StripsTo(s, |s| - |l|, r);
    r
  }

  /** `decorateClassName($class)`. */
  function DecorateClassName(c: string): (r: string)
    ensures |r| == |Trim(c)| + 9 && r[..8] == "Object (" && r[|r| - 1] == ')'
    ensures r[8..|r| - 1] == Trim(c)
  {
    "Object (" + Trim(c) + ")"
  }

  /** Two class names decorate alike exactly when they agree once trimmed. */
  lemma DecorateClassNameInjective(a: string, b: string)
    ensures DecorateClassName(a) == DecorateClassName(b) <==> Trim(a) == Trim(b)
  {
    var da, db := DecorateClassName(a), DecorateClassName(b);
    if da == db {
      assert Trim(a) == da[8..|da| - 1] == db[8..|db| - 1] == Trim(b);
    }
  }

  /** `getGenericType(...$obj)`; `None` is a call with no argument. */
  function GetGenericType(arg: Option<Value>): (r: string)
    ensures arg.None? ==> r == "void"
    ensures arg == Some(VNull) ==> r == "null"
    ensures arg.Some? && arg.value.VObject? ==> r == DecorateClassName(arg.value.className)
  {
    match arg
    case None => "void"
    case Some(v) =>
      match v
      case VNull => "null"
      case VObject(c, _) => DecorateClassName(c)
      // gettype() gives "boolean", "double", "integer"; they are renamed
      case VBool(_) => "bool"
      case VFloat(_) => "float"
      case VInt(_) => "int"
      // every other gettype() name is returned as it is
      case VString(_) => "string"
      case VArray(_) => "array"
      case VResource(closed) => if closed then "resource (closed)" else "resource"
  }

  /** Two values are of the same PHP type, objects of the same class. */
  predicate SameKind(a: Value, b: Value)
  {
    match (a, b)
    case (VNull, VNull) => true
    case (VBool(_), VBool(_)) => true
    case (VInt(_), VInt(_)) => true
    case (VFloat(_), VFloat(_)) => true
    case (VString(_), VString(_)) => true
    case (VArray(_), VArray(_)) => true
    case (VObject(c, _), VObject(d, _)) => Trim(c) == Trim(d)
    case (VResource(x), VResource(y)) => x == y
    case _ => false
  }

  /** The generic type name identifies the kind of a value (and the class of an object). */
  lemma GenericTypeIdentifiesKind(a: Value, b: Value)
    ensures GetGenericType(Some(a)) == GetGenericType(Some(b)) <==> SameKind(a, b)
  {
    var ta, tb := GetGenericType(Some(a)), GetGenericType(Some(b));
    if a.VObject? && b.VObject? {
      DecorateClassNameInjective(a.className, b.className);
    } else if a.VObject? {
      assert ta[0] == 'O' != tb[0];
    } else if b.VObject? {
      assert tb[0] == 'O' != ta[0];
    }
  }

  // ---------------------------------------------------------------------------
  // getDatabaseBoolean

  /** `getDatabaseBoolean($value)` on a connection with driver `driver`. */
  function GetDatabaseBoolean(driver: string, v: bool): (r: Value)
    ensures Truthy(r) == v
    ensures driver == "sqlite" ==> r.VInt? && (r.i == 0 || r.i == 1)
    ensures driver != "sqlite" ==> r.VBool?
  {
    if driver == "sqlite" then VInt(if v then 1 else 0) else VBool(v)
  }

  // ---------------------------------------------------------------------------
  // redirect

  /** `strpos($path, '://') !== false`. */
  predicate HasSchemeSeparator(s: string)
  {
    |s| >= 3 && (s[..3] == "://" || HasSchemeSeparator(s[1..]))
  }

  /** "://" occurs in `s` at index `i`. */
  predicate SeparatorAt(s: string, i: int)
  {
    0 <= i && i + 3 <= |s| && s[i..i + 3] == "://"
  }

  /** The recursive search agrees with the existence of an occurrence. */
  lemma {:induction false} HasSchemeSeparatorIff(s: string)
    ensures HasSchemeSeparator(s) <==> exists i :: SeparatorAt(s, i)
  {
    if |s| >= 3 {
      HasSchemeSeparatorIff(s[1..]);
      if s[..3] == "://" {
        assert SeparatorAt(s, 0);
      } else {
        if i :| SeparatorAt(s, i) {
          assert i != 0;
          assert s[1..][i - 1..i + 2] == s[i..i + 3];
          assert SeparatorAt(s[1..], i - 1);
        }
        if i :| SeparatorAt(s[1..], i) {
          assert s[1..][i..i + 3] == s[i + 1..i + 4];
          assert SeparatorAt(s, i + 1);
        }
      }
    }
  }

  /** The Location `redirect($path, $allowRemote)` sets. */
  function RedirectPath(path: string, allowRemote: bool): (r: string)
    ensures allowRemote ==> r == path
    ensures !allowRemote ==> !HasSchemeSeparator(r)
    ensures !HasSchemeSeparator(path) ==> r == path
    ensures r == path || r == "/"
  {
    if !allowRemote && HasSchemeSeparator(path) then "/" else path
  }

  /** `redirect($path, $allowRemote)`, before the CSP header is injected. */
  function Redirect(path: string, allowRemote: bool): (r: Response)
    ensures r.status == 301
    ensures "Location" in r.headers && r.headers["Location"] == RedirectPath(path, allowRemote)
    ensures forall h :: h in DefaultHeaders ==> h in r.headers && r.headers[h] == DefaultHeaders[h]
  {
    Response(301, DefaultHeaders["Location" := RedirectPath(path, allowRemote)], Text([]))
  }

  // ---------------------------------------------------------------------------
  // Process-wide state

  /** The static properties of class Discretion that the core reads and writes. */
  class Discretion {
    /** `self::$easyDb->getDriver()`. */
    const driver: string
    /** `self::$twigVars`. */
    var twigVars: map<string, Value>
    /** `self::$localEncryptionKey`, the bytes of the HiddenString once loaded. */
    var localEncryptionKey: Option<Bytes>
    /** How many times the key file has been read. */
    ghost var keyFileReads: nat

    constructor (driver: string)
      ensures this.driver == driver && twigVars == map[]
      ensures localEncryptionKey == None && keyFileReads == 0
    {
      this.driver := driver;
      twigVars := map[];
      localEncryptionKey := None;
      keyFileReads := 0;
    }

    /** `getTwigVar($key)`. */
    function GetTwigVar(key: string): (r: Result<Value, Exception>)
      reads this
      ensures r.Success? <==> key in twigVars
      ensures r.Success? ==> r.value == twigVars[key]
      ensures r.Failure? ==> r.error == RecordNotFound
    {
      if key in twigVars then Success(twigVars[key]) else Failure(RecordNotFound)
    }

    /** `setTwigVar($key, $value)`. */
    method SetTwigVar(key: string, value: Value)
      modifies this`twigVars
      ensures twigVars == old(twigVars)[key := value]
      ensures GetTwigVar(key) == Success(value)
      ensures forall k :: k != key ==> GetTwigVar(k) == old(GetTwigVar(k))
    {
      twigVars := twigVars[key := value];
    }

    /**
     * `getLocalEncryptionKey()`, given what `file_get_contents` returns for the
     * key file (None for false). The file is read only while no key is cached.
     */
    method GetLocalEncryptionKey(lib: Library, keyFile: Option<Bytes>) returns (r: Result<Bytes, Exception>)
      modifies this`localEncryptionKey, this`keyFileReads
      ensures old(localEncryptionKey).Some? ==>
        r == Success(old(localEncryptionKey).value) &&
        localEncryptionKey == old(localEncryptionKey) && keyFileReads == old(keyFileReads)
      ensures old(localEncryptionKey).None? ==> keyFileReads == old(keyFileReads) + 1
      ensures old(localEncryptionKey).None? && keyFile.None? ==>
        r == Failure(FilesystemException) && localEncryptionKey.None?
      ensures old(localEncryptionKey).None? && keyFile.Some? ==>
        match lib.base64UrlDecode(keyFile.value)
        case None => r == Failure(RangeException) && localEncryptionKey.None?
        case Some(k) => r == Success(k) && localEncryptionKey == Some(k)
      ensures r.Success? ==> localEncryptionKey == Some(r.value)
    {
      if localEncryptionKey.Some? {
        return Success(localEncryptionKey.value);
      }
      keyFileReads := keyFileReads + 1;
      if keyFile.None? {
        return Failure(FilesystemException);
      }
      match lib.base64UrlDecode(keyFile.value)
      case None =>
        r := Failure(RangeException);
      case Some(k) =>
        localEncryptionKey := Some(k);
        r := Success(k);
    }

    /** `view($template, $args, $headers, $status)`, the rendering itself left abstract. */
    function View(template: string, args: map<string, Value>, headers: map<string, string>, status: int): (r: Response)
      reads this
      ensures r.status == status
      ensures headers == map[] ==> r.headers == DefaultHeaders
      ensures headers != map[] ==> r.headers == headers
      ensures r.body.Rendered? && r.body.template == template
      ensures r.body.context.Keys == args.Keys + twigVars.Keys
      ensures forall k :: k in args ==> r.body.context[k] == args[k]
      ensures forall k :: k in twigVars && k !in args ==> r.body.context[k] == twigVars[k]
    {
      var h := if headers == map[] then DefaultHeaders else headers;
      Response(status, h, Rendered(template, PhpUnion(args, twigVars)))
    }

    /** `errorResponse($errorMessage, $statusCode, $headers)`. */
    function ErrorResponse(errorMessage: Bytes, statusCode: int, headers: map<string, string>): (r: Response)
      reads this
      ensures r.status == statusCode
      ensures r.headers.Keys == headers.Keys + DefaultHeaders.Keys
      ensures forall h :: h in headers ==> r.headers[h] == headers[h]
      ensures forall h :: h in DefaultHeaders && h !in headers ==> r.headers[h] == DefaultHeaders[h]
      ensures r.body.Rendered? && r.body.template == "error.twig"
      ensures "error" in r.body.context && r.body.context["error"] == VString(errorMessage)
    {
      assert "Content-Type" in PhpUnion(headers, DefaultHeaders);
      View("error.twig", map["error" := VString(errorMessage)], PhpUnion(headers, DefaultHeaders), statusCode)
    }
  }
}
