/**
  Base16 ("hex") encoding as Go's `encoding/hex` writes it: two lower-case
  digits per byte, high nibble first (section 8 of RFC 4648, lower-case
  alphabet).  Decoding accepts either case, as `hex.DecodeString` does.
 */
module Hex {
  import opened Optional
  import opened GoStrings

  /** True of the sixteen digits `EncodeToString` writes: `0`-`9` and `a`-`f`. */
  predicate IsLowerHexDigit(c: ByteChar)
  {
    '0' <= c <= '9' || 'a' <= c <= 'f'
  }

  /** The lower-case digit for a nibble: the entry `n` of the table "0123456789abcdef". */
  function LowerDigit(n: nat): (c: ByteChar)
    requires n < 16
    ensures IsLowerHexDigit(c)
  {
    if n < 10 then ('0' as int + n) as char else ('a' as int + n - 10) as char
  }

  /** The value of a hex digit of either case; `None` for any other byte. */
  function DigitValue(c: ByteChar): (v: Option<nat>)
    ensures v.Some? ==> v.value < 16
  {
    if '0' <= c <= '9' then Some(c as int - '0' as int)
    else if 'a' <= c <= 'f' then Some(c as int - 'a' as int + 10)
    else if 'A' <= c <= 'F' then Some(c as int - 'A' as int + 10)
    else None
  }

  /** `hex.EncodeToString`: two lower-case hex digits for every byte. */
  function EncodeToString(b: seq<byte>): (s: GoString)
    ensures |s| == 2 * |b|
    ensures forall i :: 0 <= i < |s| ==> IsLowerHexDigit(s[i])
  {
    if b == [] then []
    else [LowerDigit(b[0] as int / 16), LowerDigit(b[0] as int % 16)] + EncodeToString(b[1..])
  }

  /** `hex.DecodeString`: the bytes of an even-length string of hex digits, or `None`. */
  function DecodeString(s: GoString): Option<seq<byte>>
  {
    if s == [] then Some([])
    else if |s| == 1 then None
    else
      match (DigitValue(s[0]), DigitValue(s[1]), DecodeString(s[2..]))
      case (Some(hi), Some(lo), Some(rest)) => Some([(hi * 16 + lo) as byte] + rest)
      case _ => None
  }

  lemma LowerDigitValue(n: nat)
    requires n < 16
    ensures DigitValue(LowerDigit(n)) == Some(n)
  {
  }

  /** Decoding what `EncodeToString` wrote gives back the bytes. */
  lemma {:induction false} DecodeEncode(b: seq<byte>)
    ensures DecodeString(EncodeToString(b)) == Some(b)
  {
    if b != [] {
      var s := EncodeToString(b);
      var hi, lo := b[0] as int / 16, b[0] as int % 16;
      LowerDigitValue(hi);
      LowerDigitValue(lo);
      DecodeEncode(b[1..]);
      assert s[2..] == EncodeToString(b[1..]);
      assert [(hi * 16 + lo) as byte] + b[1..] == b;
    }
  }

  /** Encoding is one-to-one: distinct byte strings never share a hex text. */
  lemma EncodeInjective(a: seq<byte>, b: seq<byte>)
    requires EncodeToString(a) == EncodeToString(b)
    ensures a == b
  {
    DecodeEncode(a);
    DecodeEncode(b);
  }
}
