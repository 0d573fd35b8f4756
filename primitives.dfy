/**
 * The library calls the core makes and cannot be seen here: XChaCha20-Poly1305
 * (the extended-nonce form of the AEAD of section 2.8 of RFC 8439), base64url
 * (section 5 of RFC 4648), BLAKE2b `crypto_generichash` (RFC 7693) and bcrypt
 * `password_hash`/`password_verify`. They are function values; what the core
 * relies on about them is the predicate `Sound`, taken as a hypothesis.
 */
module Primitives {
  import opened Wrappers
  import opened PhpValues

  /** Length of the Poly1305 authentication tag appended by the AEAD. */
  const TagLength := 16

  datatype Library = Library(
    /** crypto_aead_xchacha20poly1305_ietf_encrypt(message, ad, nonce, key) */
    aeadEncrypt: (Bytes, Bytes, Bytes, Bytes) -> Bytes,
    /** crypto_aead_xchacha20poly1305_ietf_decrypt(ciphertext, ad, nonce, key); None when the tag fails */
    aeadDecrypt: (Bytes, Bytes, Bytes, Bytes) -> Option<Bytes>,
    /** Base64UrlSafe::encode */
    base64UrlEncode: Bytes -> Bytes,
    /** Base64UrlSafe::decode; None when the text is not valid base64url */
    base64UrlDecode: Bytes -> Option<Bytes>,
    /** crypto_generichash(m, '', 54) */
    genericHash: Bytes -> Bytes,
    /** password_hash(p, PASSWORD_DEFAULT, ['cost' => 12]) with the salt it draws */
    passwordHash: (Bytes, Bytes) -> Bytes,
    /** password_verify(p, hash) */
    passwordVerify: (Bytes, Bytes) -> bool
  )

  /**
   * What the core assumes of the libraries. Collision resistance of BLAKE2b is
   * idealised as injectivity, so the fixed 54-byte output length is not stated
   * (no injective function has a fixed-length output).
   */
  /** `s` with byte `i` replaced by `b`, as `$s[$i] = chr($b)` does. */
  function WithByte(s: Bytes, i: nat, b: bv8): Bytes
    requires i < |s|
  {
    s[i := b]
  }

  ghost predicate Sound(lib: Library)
  {
    // the AEAD output is the ciphertext followed by a 16-byte tag
    && (forall m, ad, n, k :: |lib.aeadEncrypt(m, ad, n, k)| == |m| + TagLength)
    // decryption inverts encryption under the same nonce, associated data and key
    && (forall m, ad, n, k :: lib.aeadDecrypt(lib.aeadEncrypt(m, ad, n, k), ad, n, k) == Some(m))
    // integrity: whatever decrypts is the encryption of what it decrypts to
    && (forall c, ad, n, k :: lib.aeadDecrypt(c, ad, n, k).Some? ==>
          lib.aeadEncrypt(lib.aeadDecrypt(c, ad, n, k).value, ad, n, k) == c)
    // forgery resistance, idealised: a text one byte away from an AEAD output is
    // rejected under the nonce, associated data and key it was made with
    && (forall m, ad, n, k, i: nat, b ::
          i < |lib.aeadEncrypt(m, ad, n, k)| && b != lib.aeadEncrypt(m, ad, n, k)[i] ==>
          lib.aeadDecrypt(WithByte(lib.aeadEncrypt(m, ad, n, k), i, b), ad, n, k).None?)
    // and an AEAD output made with nonce and associated data `n` is rejected
    // under a nonce and associated data one byte away from `n`
    && (forall m, n, k, i: nat, b :: i < |n| && b != n[i] ==>
          lib.aeadDecrypt(lib.aeadEncrypt(m, n, n, k), WithByte(n, i, b), WithByte(n, i, b), k).None?)
    // base64url decoding inverts encoding
    && (forall b :: lib.base64UrlDecode(lib.base64UrlEncode(b)) == Some(b))
    // base64url text is never shorter than the bytes it encodes
    && (forall b :: |lib.base64UrlEncode(b)| >= |b|)
    // the prehash does not collide
    && (forall a, b :: lib.genericHash(a) == lib.genericHash(b) ==> a == b)
    // a bcrypt hash verifies exactly the password it was made from
    && (forall p, q, salt :: lib.passwordVerify(q, lib.passwordHash(p, salt)) <==> p == q)
  }

  /** The exclusive or of all the bytes of `s`. */
  function ByteXor(s: Bytes): bv8
  {
    if s == [] then 0 else s[0] ^ ByteXor(s[1..])
  }

  /** Changing one byte from `x` to `b` changes the exclusive or by `x ^ b`, so it changes it. */
  lemma {:induction false} ByteXorUpdate(s: Bytes, i: nat, b: bv8)
    requires i < |s|
    ensures ByteXor(s[i := b]) == ByteXor(s) ^ s[i] ^ b
    ensures b != s[i] ==> ByteXor(s[i := b]) != ByteXor(s)
  {
    var t := s[i := b];
    if i == 0 {
      assert t[1..] == s[1..];
    } else {
      assert t[1..] == s[1..][i - 1 := b];
      ByteXorUpdate(s[1..], i - 1, b);
    }
  }

  /** A tag that notices any one-byte change to the message, the associated data or the nonce. */
  function IdealTag(m: Bytes, ad: Bytes, n: Bytes): (t: Bytes)
    ensures |t| == TagLength
  {
    [ByteXor(m), ByteXor(ad), ByteXor(n)] + Zeros(TagLength - 3)
  }

  /**
   * A library that meets `Sound`: the AEAD output is the tag followed by the
   * message in the clear, and the other maps are identities.
   */
  function IdealLibrary(): Library
  {
    Library(
      (m: Bytes, ad: Bytes, n: Bytes, k: Bytes) => IdealTag(m, ad, n) + m,
      (c: Bytes, ad: Bytes, n: Bytes, k: Bytes) =>
        if |c| >= TagLength && c[..TagLength] == IdealTag(c[TagLength..], ad, n) then Some(c[TagLength..]) else None,
      (b: Bytes) => b,
      (b: Bytes) => Some(b),
      (m: Bytes) => m,
      (p: Bytes, salt: Bytes) => p,
      (q: Bytes, h: Bytes) => q == h)
  }

  /** The hypotheses in `Sound` are consistent. */
  lemma IdealLibraryIsSound()
    ensures Sound(IdealLibrary())
  {
    var lib := IdealLibrary();
    forall c: Bytes, ad: Bytes, n: Bytes, k: Bytes | lib.aeadDecrypt(c, ad, n, k).Some?
      ensures lib.aeadEncrypt(lib.aeadDecrypt(c, ad, n, k).value, ad, n, k) == c
    {
      assert c == c[..TagLength] + c[TagLength..];
    }
    forall m: Bytes, ad: Bytes, n: Bytes, k: Bytes
      ensures lib.aeadDecrypt(lib.aeadEncrypt(m, ad, n, k), ad, n, k) == Some(m)
    {
      var c := IdealTag(m, ad, n) + m;
      assert c[..TagLength] == IdealTag(m, ad, n) && c[TagLength..] == m;
    }
    forall m: Bytes, ad: Bytes, n: Bytes, k: Bytes, i: nat, b: bv8 |
      i < |lib.aeadEncrypt(m, ad, n, k)| && b != lib.aeadEncrypt(m, ad, n, k)[i]
      ensures lib.aeadDecrypt(WithByte(lib.aeadEncrypt(m, ad, n, k), i, b), ad, n, k).None?
    {
      AlteredTextRejected(m, ad, n, i, b);
    }
    forall m: Bytes, n: Bytes, k: Bytes, i: nat, b: bv8 | i < |n| && b != n[i]
      ensures lib.aeadDecrypt(lib.aeadEncrypt(m, n, n, k), WithByte(n, i, b), WithByte(n, i, b), k).None?
    {
      ByteXorUpdate(n, i, b);
      var c := IdealTag(m, n, n) + m;
      assert WithByte(n, i, b) == n[i := b];
      assert c[..TagLength] == IdealTag(m, n, n) && c[TagLength..] == m;
      assert IdealTag(m, n, n)[2] != IdealTag(m, n[i := b], n[i := b])[2];
    }
  }

  /** In the ideal AEAD, a one-byte change to the tag or to the message breaks the tag. */
  lemma AlteredTextRejected(m: Bytes, ad: Bytes, n: Bytes, i: nat, b: bv8)
    requires i < TagLength + |m| && b != (IdealTag(m, ad, n) + m)[i]
    ensures var c := (IdealTag(m, ad, n) + m)[i := b];
      !(c[..TagLength] == IdealTag(c[TagLength..], ad, n))
  {
    var c := (IdealTag(m, ad, n) + m)[i := b];
    if i < TagLength {
      assert c[TagLength..] == m;
      assert c[..TagLength][i] != IdealTag(m, ad, n)[i];
    } else {
      assert c[TagLength..] == m[i - TagLength := b];
      ByteXorUpdate(m, i - TagLength, b);
      assert c[..TagLength][0] == ByteXor(m);
    }
  }
}
