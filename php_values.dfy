/**
 * The PHP runtime values and exceptions the core manipulates.
 * PHP strings are byte strings; they are modelled as sequences of bytes.
 * Identifiers (class, column, property and header names) are Dafny strings.
 */
module PhpValues {

  type Byte = bv8
  type Bytes = seq<Byte>

  /** A PHP value of any type (the `mixed` of the source). */
  datatype Value =
    | VNull
    | VBool(b: bool)
    | VInt(i: int)
    | VFloat(f: real)
    | VString(s: Bytes)
    | VArray(entries: seq<(Value, Value)>)
    | VObject(className: string, state: seq<Value>)
    | VResource(closed: bool)

  /** The exceptions the core throws, by PHP class; the message is kept where the source fixes it. */
  datatype Exception =
    | InvalidArgument(message: string)   // \InvalidArgumentException
    | TypeError                          // \TypeError
    | Error(message: string)             // \Error
    | RecordNotFound                     // Exception\RecordNotFound
    | DatabaseException                  // Exception\DatabaseException
    | DecryptionFailed                   // \Exception('Decryption failed')
    | FilesystemException                // Exception\FilesystemException
    | RangeException                     // \RangeException from Base64UrlSafe::decode
    | SecurityException(message: string) // Exception\SecurityException

  /** `!empty($v)`: PHP truthiness. */
  predicate Truthy(v: Value)
  {
    match v
    case VNull => false
    case VBool(b) => b
    case VInt(i) => i != 0
    case VFloat(f) => f != 0.0
    case VString(s) => s != [] && s != [0x30]  // "0"
    case VArray(e) => e != []
    case VObject(_, _) => true
    case VResource(_) => true
  }

  /** `empty($s)` for a string constant: true for "" and for "0". */
  predicate EmptyString(s: string)
  {
    s == "" || s == "0"
  }

  /** The bytes of a string literal of the source (its characters are ASCII). */
  function Ascii(s: string): (r: Bytes)
    ensures |r| == |s|
  {
    seq(|s|, i requires 0 <= i < |s| => (s[i] as int % 256) as Byte)
  }

  /** `$n` zero bytes. */
  function Zeros(n: nat): (r: Bytes)
    ensures |r| == n && forall i :: 0 <= i < n ==> r[i] == 0
  {
    seq(n, _ => 0)
  }
}
