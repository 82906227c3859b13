/** Byte strings and the prefix test the codec is built on. */
module Bytes {

  /** An unsigned 8-bit value, as in a C# `byte[]`. */
  newtype byte = x: int | 0 <= x < 256

  /** `a` begins with `prefix`: it is at least as long and agrees on the first `|prefix|` bytes. */
  predicate HasPrefix(a: seq<byte>, prefix: seq<byte>)
  {
    |prefix| <= |a| && a[..|prefix|] == prefix
  }

  /**
   * The byte-by-byte prefix test: false as soon as `a` is too short or a
   * position differs, true once every byte of `b` has been compared.
   */
  method StartWith(a: seq<byte>, b: seq<byte>) returns (r: bool)
    ensures r <==> HasPrefix(a, b)
    ensures |a| < |b| ==> !r
  {
    if |a| < |b| {
      return false;
    }
    var i := 0;
    while i < |b|
      invariant 0 <= i <= |b|
      invariant a[..i] == b[..i]
    {
      if a[i] != b[i] {
        return false;
      }
      i := i + 1;
    }
    return true;
  }

  /** `p + s` begins with `p`, and what follows `p` in it is `s`. */
  lemma HasPrefixOfConcat(p: seq<byte>, s: seq<byte>)
    ensures HasPrefix(p + s, p)
    ensures (p + s)[|p|..] == s
  {
  }
}
