/**
 * SimpleCrypto.php: XChaCha20-Poly1305 with the nonce used as associated data,
 * framed as `nonce(24) || AEAD output` and base64url-encoded.
 * The functions take the `getString()` of their HiddenString arguments and
 * return the plaintext that `decryptRaw` wraps in a new HiddenString.
 */
module SimpleCrypto {
  import opened Wrappers
  import opened PhpValues
  import opened Primitives

  const MIN_CIPHERTEXT_LENGTH := 40
  /** Length of the nonce `encryptRaw` draws with `random_bytes(24)`. */
  const NONCE_LENGTH := 24

  /** `encryptRaw($message, $key)` given the nonce `random_bytes(24)` returned. */
  function EncryptRaw(lib: Library, message: Bytes, key: Bytes, nonce: Bytes): (c: Bytes)
    requires |nonce| == NONCE_LENGTH
    ensures |c| >= NONCE_LENGTH && c[..NONCE_LENGTH] == nonce
    ensures Sound(lib) ==> |c| == |message| + MIN_CIPHERTEXT_LENGTH
  {
    nonce + lib.aeadEncrypt(message, nonce, nonce, key)
  }

  /** `decryptRaw($ciphertext, $key)`. */
  function DecryptRaw(lib: Library, ciphertext: Bytes, key: Bytes): (r: Result<Bytes, Exception>)
    // the length guard comes first and needs no call into the AEAD
    ensures |ciphertext| < MIN_CIPHERTEXT_LENGTH ==>
      r == Failure(InvalidArgument("Ciphertext is too short."))
    // otherwise the first 24 bytes are both nonce and associated data
    ensures |ciphertext| >= MIN_CIPHERTEXT_LENGTH ==>
      var n := ciphertext[..NONCE_LENGTH];
      match lib.aeadDecrypt(ciphertext[NONCE_LENGTH..], n, n, key)
      case None => r == Failure(DecryptionFailed)
      case Some(m) => r == Success(m)
  {
    if |ciphertext| < MIN_CIPHERTEXT_LENGTH then
      Failure(InvalidArgument("Ciphertext is too short."))
    else
      var nonce := ciphertext[..NONCE_LENGTH];
      var message := ciphertext[NONCE_LENGTH..];
      match lib.aeadDecrypt(message, nonce, nonce, key)
      case None => Failure(DecryptionFailed)
      case Some(plaintext) => Success(plaintext)
  }

  /** `encrypt($message, $key)`: base64url of the raw ciphertext. */
  function Encrypt(lib: Library, message: Bytes, key: Bytes, nonce: Bytes): (c: Bytes)
    requires |nonce| == NONCE_LENGTH
    ensures Sound(lib) ==> lib.base64UrlDecode(c) == Some(EncryptRaw(lib, message, key, nonce))
  {
    lib.base64UrlEncode(EncryptRaw(lib, message, key, nonce))
  }

  /**
   * `decrypt($ciphertext, $key)`. `Base64UrlSafe::decode` raises RangeException
   * on text that is not base64url, so the 'Invalid encoding' guard after it is
   * never reached.
   */
  function Decrypt(lib: Library, ciphertext: Bytes, key: Bytes): (r: Result<Bytes, Exception>)
    ensures lib.base64UrlDecode(ciphertext).None? ==> r == Failure(RangeException)
    ensures r.Success? ==>
      lib.base64UrlDecode(ciphertext).Some? &&
      |lib.base64UrlDecode(ciphertext).value| >= MIN_CIPHERTEXT_LENGTH
  {
    match lib.base64UrlDecode(ciphertext)
    case None => Failure(RangeException)
    case Some(raw) => DecryptRaw(lib, raw, key)
  }

  /** Raw round trip: for the nonce drawn, decryptRaw(encryptRaw(m, k), k) returns m. */
  lemma RawRoundTrip(lib: Library, message: Bytes, key: Bytes, nonce: Bytes)
    requires Sound(lib) && |nonce| == NONCE_LENGTH
    ensures DecryptRaw(lib, EncryptRaw(lib, message, key, nonce), key) == Success(message)
  {
    var c := EncryptRaw(lib, message, key, nonce);
    assert c[NONCE_LENGTH..] == lib.aeadEncrypt(message, nonce, nonce, key);
  }

  /** Encoded round trip through base64url. */
  lemma RoundTrip(lib: Library, message: Bytes, key: Bytes, nonce: Bytes)
    requires Sound(lib) && |nonce| == NONCE_LENGTH
    ensures Decrypt(lib, Encrypt(lib, message, key, nonce), key) == Success(message)
  {
    RawRoundTrip(lib, message, key, nonce);
  }

  /** The short-input guard does not depend on the AEAD at all: it fires before any library call. */
  lemma ShortInputIndependentOfAead(lib1: Library, lib2: Library, ciphertext: Bytes, key: Bytes)
    requires |ciphertext| < MIN_CIPHERTEXT_LENGTH
    ensures DecryptRaw(lib1, ciphertext, key) == DecryptRaw(lib2, ciphertext, key)
    ensures DecryptRaw(lib1, ciphertext, key).Failure?
  {
  }

  /**
   * Integrity: every raw ciphertext that decryptRaw accepts is exactly what
   * encryptRaw produces for the returned plaintext under the ciphertext's own nonce.
   */
  lemma {:induction false} AcceptedIsGenuine(lib: Library, ciphertext: Bytes, key: Bytes)
    requires Sound(lib)
    requires DecryptRaw(lib, ciphertext, key).Success?
    ensures |ciphertext| >= MIN_CIPHERTEXT_LENGTH
    ensures ciphertext == EncryptRaw(lib, DecryptRaw(lib, ciphertext, key).value, key, ciphertext[..NONCE_LENGTH])
  {
    var n := ciphertext[..NONCE_LENGTH];
    var body := ciphertext[NONCE_LENGTH..];
    assert lib.aeadDecrypt(body, n, n, key).Some?;
    assert ciphertext == n + body;
  }

  /**
   * Tamper evidence: a raw ciphertext that differs from `encryptRaw(m, k)` never
   * decrypts to `m` when it keeps the nonce, and whatever it decrypts to, it is the
   * genuine encryption of that plaintext.
   */
  lemma TamperedNeverYieldsOriginal(lib: Library, message: Bytes, key: Bytes, nonce: Bytes, forged: Bytes)
    requires Sound(lib) && |nonce| == NONCE_LENGTH
    requires forged != EncryptRaw(lib, message, key, nonce)
    requires |forged| >= NONCE_LENGTH && forged[..NONCE_LENGTH] == nonce
    ensures DecryptRaw(lib, forged, key) != Success(message)
  {
    if DecryptRaw(lib, forged, key) == Success(message) {
      AcceptedIsGenuine(lib, forged, key);
      assert false;
    }
  }

  /**
   * Tamper evidence: changing any one byte of `encryptRaw(m, k)`, in the nonce
   * or in the AEAD output, makes `decryptRaw` fail with 'Decryption failed'.
   */
  lemma AlteredIsRejected(lib: Library, message: Bytes, key: Bytes, nonce: Bytes, i: nat, b: bv8)
    requires Sound(lib) && |nonce| == NONCE_LENGTH
    requires i < |EncryptRaw(lib, message, key, nonce)| && b != EncryptRaw(lib, message, key, nonce)[i]
    ensures DecryptRaw(lib, WithByte(EncryptRaw(lib, message, key, nonce), i, b), key) == Failure(DecryptionFailed)
  {
    var body := lib.aeadEncrypt(message, nonce, nonce, key);
    var forged := WithByte(EncryptRaw(lib, message, key, nonce), i, b);
    if i < NONCE_LENGTH {
      assert forged[..NONCE_LENGTH] == WithByte(nonce, i, b);
      assert forged[NONCE_LENGTH..] == body;
    } else {
      assert forged[..NONCE_LENGTH] == nonce;
      assert forged[NONCE_LENGTH..] == WithByte(body, i - NONCE_LENGTH, b);
    }
  }

  /**
   * The same through the encoding: decoding `encrypt(m, k)`, changing one byte
   * and encoding again gives a text that `decrypt` rejects.
   */
  lemma AlteredTextIsRejected(lib: Library, message: Bytes, key: Bytes, nonce: Bytes, i: nat, b: bv8)
    requires Sound(lib) && |nonce| == NONCE_LENGTH
    requires i < |EncryptRaw(lib, message, key, nonce)| && b != EncryptRaw(lib, message, key, nonce)[i]
    ensures lib.base64UrlDecode(Encrypt(lib, message, key, nonce)) == Some(EncryptRaw(lib, message, key, nonce))
    ensures Decrypt(lib, lib.base64UrlEncode(WithByte(EncryptRaw(lib, message, key, nonce), i, b)), key)
      == Failure(DecryptionFailed)
  {
    AlteredIsRejected(lib, message, key, nonce, i, b);
  }

  /** The encoded form: any accepted text decodes to a genuine raw ciphertext of the plaintext returned. */
  lemma DecryptAcceptsOnlyGenuine(lib: Library, ciphertext: Bytes, key: Bytes)
    requires Sound(lib)
    requires Decrypt(lib, ciphertext, key).Success?
    ensures var raw := lib.base64UrlDecode(ciphertext).value;
      |raw| >= MIN_CIPHERTEXT_LENGTH &&
      raw == EncryptRaw(lib, Decrypt(lib, ciphertext, key).value, key, raw[..NONCE_LENGTH])
  {
    AcceptedIsGenuine(lib, lib.base64UrlDecode(ciphertext).value, key);
  }
}
