/**
  Go strings and the few functions of Go's `strings` package that the
  authentication helper calls.  A Go string is a sequence of bytes; each byte
  is held here as the character with the same code, so literals read as in
  the Go source and every per-byte operation (percent-encoding, hex, byte
  order) works exactly as Go's does.
 */
module GoStrings {

  /** One byte of a Go string. */
  type ByteChar = c: char | c as int < 256

  /** A Go string: its bytes, in order. */
  type GoString = seq<ByteChar>

  /** Go's `byte`. */
  newtype byte = x: int | 0 <= x < 256

  /** The conversion `[]byte(s)`. */
  function ToBytes(s: GoString): seq<byte>
  {
    seq(|s|, i requires 0 <= i < |s| => s[i] as int as byte)
  }

  /** The ASCII white-space bytes that `strings.TrimSpace` removes: '\t', '\n', '\v', '\f', '\r' and ' '. */
  predicate IsSpace(c: ByteChar)
  {
    c == ' ' || c == '\t' || c == '\n' || c == '\r' || c as int == 0x0B || c as int == 0x0C
  }

  /** True when the bytes `s[lo..hi]` are all white space. */
  predicate SpaceBetween(s: GoString, lo: int, hi: int)
    requires 0 <= lo <= hi <= |s|
  {
    forall k :: lo <= k < hi ==> IsSpace(s[k])
  }

  /** The scan forward from `i` past white space: the index of the next other byte, or `|s|`. */
  function SkipSpaceForward(s: GoString, i: nat): (start: nat)
    requires i <= |s|
    ensures i <= start <= |s| && SpaceBetween(s, i, start)
    ensures start < |s| ==> !IsSpace(s[start])
    decreases |s| - i
  {
    if i < |s| && IsSpace(s[i]) then SkipSpaceForward(s, i + 1) else i
  }

  /** The scan backward from `stop` past white space, not going below `start`. */
  function SkipSpaceBackward(s: GoString, start: nat, stop: nat): (end: nat)
    requires start <= stop <= |s|
    ensures start <= end <= stop && SpaceBetween(s, end, stop)
    ensures end > start ==> !IsSpace(s[end - 1])
    decreases stop
  {
    if stop > start && IsSpace(s[stop - 1]) then SkipSpaceBackward(s, start, stop - 1) else stop
  }

  /**
    `strings.TrimSpace`: the result is the slice of `s` left after removing
    the white space at both ends -- what is cut off is all white space, and
    the result neither starts nor ends with white space.  It is empty exactly
    when `s` is all white space.
   */
  function TrimSpace(s: GoString): (r: GoString)
    ensures exists i, j :: 0 <= i <= j <= |s| && r == s[i..j] && SpaceBetween(s, 0, i) && SpaceBetween(s, j, |s|)
    ensures r != [] ==> !IsSpace(r[0]) && !IsSpace(r[|r| - 1])
    ensures r == [] <==> SpaceBetween(s, 0, |s|)
  {
    var start := SkipSpaceForward(s, 0);
    var stop := SkipSpaceBackward(s, start, |s|);
    assert start < |s| ==> stop > start;
    s[start..stop]
  }

  /** The lower-case letter of an ASCII upper-case letter; every other byte is left alone. */
  function LowerByte(c: ByteChar): ByteChar
  {
    if 'A' <= c <= 'Z' then (c as int + 32) as char else c
  }

  /**
    `strings.ToLower` over the ASCII letters: same length, no upper-case
    letter left, every upper-case letter replaced by its lower-case one and
    every other byte kept.
   */
  function ToLower(s: GoString): (r: GoString)
    ensures |r| == |s|
    ensures forall i :: 0 <= i < |r| ==> !IsUpper(r[i])
    ensures forall i :: 0 <= i < |s| ==> if IsUpper(s[i]) then UpperByte(r[i]) == s[i] else r[i] == s[i]
  {
    seq(|s|, i requires 0 <= i < |s| => LowerByte(s[i]))
  }

  /** True when `c` is an ASCII upper-case letter. */
  predicate IsUpper(c: ByteChar)
  {
    'A' <= c <= 'Z'
  }

  /** The upper-case letter of an ASCII lower-case letter; every other byte is left alone. */
  function UpperByte(c: ByteChar): ByteChar
  {
    if 'a' <= c <= 'z' then (c as int - 32) as char else c
  }

  /**
    Case-insensitive equality against a string without upper-case letters,
    stated without `ToLower`: `s` lowers to `t` exactly when every byte of `s`
    is the byte of `t` or its upper-case form.
   */
  lemma {:induction false} ToLowerMatches(s: GoString, t: GoString)
    requires forall i :: 0 <= i < |t| ==> !IsUpper(t[i])
    ensures ToLower(s) == t <==>
            |s| == |t| && forall i :: 0 <= i < |s| ==> s[i] == t[i] || s[i] == UpperByte(t[i])
  {
    if |s| == |t| && forall i :: 0 <= i < |s| ==> s[i] == t[i] || s[i] == UpperByte(t[i]) {
      forall i | 0 <= i < |s| ensures ToLower(s)[i] == t[i] {
        if s[i] != t[i] {
          assert 'a' <= t[i] <= 'z';
        }
      }
    }
    if ToLower(s) == t {
      forall i | 0 <= i < |s| ensures s[i] == t[i] || s[i] == UpperByte(t[i]) {
        assert LowerByte(s[i]) == t[i];
      }
    }
  }

  /** Go's `<` on strings: byte-wise lexicographic order, a proper prefix first. */
  predicate Less(a: GoString, b: GoString)
  {
    if a == [] then b != []
    else if b == [] then false
    else if a[0] != b[0] then a[0] < b[0]
    else Less(a[1..], b[1..])
  }

  lemma {:induction false} LessIrreflexive(a: GoString)
    ensures !Less(a, a)
  {
    if a != [] {
      LessIrreflexive(a[1..]);
    }
  }

  lemma {:induction false} LessAsymmetric(a: GoString, b: GoString)
    ensures !(Less(a, b) && Less(b, a))
  {
    if a != [] && b != [] && a[0] == b[0] {
      LessAsymmetric(a[1..], b[1..]);
    }
  }

  lemma {:induction false} LessTransitive(a: GoString, b: GoString, c: GoString)
    requires Less(a, b) && Less(b, c)
    ensures Less(a, c)
  {
    if a != [] && a[0] == b[0] && b[0] == c[0] {
      LessTransitive(a[1..], b[1..], c[1..]);
    }
  }

  lemma {:induction false} LessTotal(a: GoString, b: GoString)
    ensures a == b || Less(a, b) || Less(b, a)
  {
    if a != [] && b != [] && a[0] == b[0] {
      LessTotal(a[1..], b[1..]);
      if a[1..] == b[1..] {
        assert a == [a[0]] + a[1..] && b == [b[0]] + b[1..];
      }
    }
  }
}
