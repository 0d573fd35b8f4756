/** Data/HiddenString.php: a container for a secret that no implicit conversion reveals. */
module HiddenStrings {
  import opened PhpValues

  /** PHP string `$a ^ $b`: bytewise exclusive or over the shorter length. */
  function XorBytes(a: Bytes, b: Bytes): (r: Bytes)
    ensures |r| == if |a| <= |b| then |a| else |b|
  {
    var n := if |a| <= |b| then |a| else |b|;
    seq(n, i requires 0 <= i < n => a[i] ^ b[i])
  }

  class HiddenString {
    /** The secret bytes. */
    var internalStringValue: Bytes
    /** False once `__destruct` has nulled or unset the property, which then reads as ''. */
    var isSet: bool

    constructor (value: Bytes)
      ensures isSet && internalStringValue == value
      ensures GetString() == value
    {
      internalStringValue := value;
      isSet := true;
    }

    /** `getString()`: the one explicit way to read the secret (an unset property reads as ''). */
    function GetString(): (r: Bytes)
      reads this
      ensures isSet ==> r == internalStringValue
      ensures !isSet ==> r == []
    {
      if isSet then internalStringValue else []
    }

    /** `equals($other)`: `hash_equals` on the two secrets, taken as plain equality. */
    predicate Equals(other: HiddenString)
      reads this, other
      ensures Equals(other) <==> GetString() == other.GetString()
    {
      GetString() == other.GetString()
    }

    /** `__toString()`: always the empty string, whatever the secret. */
    function ToString(): (r: Bytes)
      ensures r == []
    {
      []
    }

    /** `__debugInfo()`: what `var_dump` shows, an empty array. */
    function DebugInfo(): (r: seq<(Value, Value)>)
      ensures r == []
    {
      []
    }

    /** `__sleep()`: the properties `serialize` keeps, none. */
    function Sleep(): (r: seq<string>)
      ensures r == []
    {
      []
    }

    /**
     * `__destruct()`: `sodium_memzero` overwrites the secret with zero bytes and
     * then nulls the property; when it throws, the secret is XORed with itself
     * and the property unset. Either way the container no longer holds a string.
     */
    method Destruct(memzeroAvailable: bool)
      modifies this
      ensures internalStringValue == Zeros(|old(internalStringValue)|)
      ensures !isSet && GetString() == []
    {
      if memzeroAvailable {
        internalStringValue := Zeros(|internalStringValue|);
        isSet := false;
      } else {
        internalStringValue := XorBytes(internalStringValue, internalStringValue);
        isSet := false;
      }
    }
  }

  /** `equals` is reflexive and symmetric. */
  lemma EqualsIsEquivalence(a: HiddenString, b: HiddenString)
    ensures a.Equals(a)
    ensures a.Equals(b) == b.Equals(a)
  {
  }
}
