/**
 * Byte buffers and the byte-key order of the ordered key-value layers
 * (`compareUint8Array`, `bufStartsWith`, `concatBuffers` of packages/data/src/utils.ts),
 * and the UTF-8 encoding the string key serializer writes.
 */
module Bytes {
  import Lex

  type byte = x: int | 0 <= x < 256
  type Bytes = seq<byte>

  /** The three-way result of `compareUint8Array`: -1, 0 or 1, defined from the lexicographic order. */
  function Order(a: Bytes, b: Bytes): int
  {
    if Lex.Less(a, b) then -1 else if a == b then 0 else 1
  }

  /** The order is a total order: 0 exactly on equal buffers, and swapping the arguments negates the result. */
  lemma OrderAntisymmetric(a: Bytes, b: Bytes)
    ensures Order(a, b) == 0 <==> a == b
    ensures Order(b, a) == -Order(a, b)
  {
    Lex.LessIrreflexive(a);
    Lex.LessAsymmetric(a, b);
    Lex.LessTotal(a, b);
  }

  /**
   * `compareUint8Array`: scan the common length; the first differing byte decides;
   * otherwise the shorter buffer is smaller, and equal lengths give 0.
   */
  method CompareUint8Array(a: Bytes, b: Bytes) returns (r: int)
    ensures r == -1 || r == 0 || r == 1
    ensures r == 0 <==> a == b
    ensures r == -1 <==> Lex.Less(a, b)
    ensures r == 1 <==> Lex.Less(b, a)
  {
    var minLength := if |a| < |b| then |a| else |b|;
    var i := 0;
    while i < minLength
      invariant 0 <= i <= minLength
      invariant a[..i] == b[..i]
    {
      if a[i] < b[i] {
        Lex.LessAtFirstDifference(a, b, i);
        Lex.LessAsymmetric(a, b);
        return -1;
      }
      if a[i] > b[i] {
        Lex.LessAtFirstDifference(b, a, i);
        Lex.LessAsymmetric(b, a);
        return 1;
      }
      assert a[..i + 1] == a[..i] + [a[i]] && b[..i + 1] == b[..i] + [b[i]];
      i := i + 1;
    }
    Lex.LessIrreflexive(a);
    if |a| < |b| {
      assert Lex.IsPrefix(a, b);
      Lex.PrefixLess(a, b);
      Lex.LessAsymmetric(a, b);
      return -1;
    }
    if |a| > |b| {
      assert Lex.IsPrefix(b, a);
      Lex.PrefixLess(b, a);
      Lex.LessAsymmetric(b, a);
      return 1;
    }
    assert a == a[..i] && b == b[..i];
    return 0;
  }

  /** `bufStartsWith`: the leading `|prefix|` bytes of `buf` (clipped to its length) compare equal to `prefix`. */
  function BufStartsWith(buf: Bytes, prefix: Bytes): (r: bool)
    ensures r <==> (|prefix| <= |buf| && buf[..|prefix|] == prefix)
  {
    var bufPrefix := if |prefix| <= |buf| then buf[..|prefix|] else buf;
    OrderAntisymmetric(bufPrefix, prefix);
    Order(bufPrefix, prefix) == 0
  }

  /** `concatBuffers`: a fresh buffer of length |a| + |b| holding `a` and then `b`. */
  method ConcatBuffers(a: array<byte>, b: array<byte>) returns (merged: array<byte>)
    ensures fresh(merged)
    ensures merged.Length == a.Length + b.Length
    ensures merged[..a.Length] == a[..] && merged[a.Length..] == b[..]
  {
    merged := new byte[a.Length + b.Length];
    var i := 0;
    while i < a.Length
      invariant 0 <= i <= a.Length
      invariant forall k :: 0 <= k < i ==> merged[k] == a[k]
    {
      merged[i] := a[i];
      i := i + 1;
    }
    var j := 0;
    while j < b.Length
      invariant 0 <= j <= b.Length
      invariant forall k :: 0 <= k < a.Length ==> merged[k] == a[k]
      invariant forall k :: 0 <= k < j ==> merged[a.Length + k] == b[k]
    {
      merged[a.Length + j] := b[j];
      j := j + 1;
    }
    assert merged[..a.Length] == a[..];
    assert merged[a.Length..] == b[..];
  }

  /** The UTF-8 encoding of one Unicode scalar value. */
  function EncodeChar(c: char): (r: Bytes)
    ensures 1 <= |r| <= 4
    ensures (c as int) < 0x80 <==> r == [c as int]
  {
    var n := c as int;
    if n < 0x80 then [n]
    else if n < 0x800 then [0xC0 + n / 64, 0x80 + n % 64]
    else if n < 0x10000 then [0xE0 + n / 4096, 0x80 + (n / 64) % 64, 0x80 + n % 64]
    else [0xF0 + n / 262144, 0x80 + (n / 4096) % 64, 0x80 + (n / 64) % 64, 0x80 + n % 64]
  }

  /** The UTF-8 encoding of a string, as the string key serializer produces it. */
  function Utf8(s: string): Bytes
  {
    if s == [] then [] else EncodeChar(s[0]) + Utf8(s[1..])
  }

  /** Encoding distributes over concatenation. */
  lemma {:induction false} Utf8Append(s: string, t: string)
    ensures Utf8(s + t) == Utf8(s) + Utf8(t)
  {
    if s != [] {
      assert (s + t)[0] == s[0] && (s + t)[1..] == s[1..] + t;
      Utf8Append(s[1..], t);
    } else {
      assert s + t == t;
    }
  }

  /** A string of ASCII characters encodes to one byte per character, its code. */
  lemma {:induction false} Utf8Ascii(s: string)
    requires forall i :: 0 <= i < |s| ==> (s[i] as int) < 0x80
    ensures |Utf8(s)| == |s|
    ensures forall i :: 0 <= i < |s| ==> Utf8(s)[i] == s[i] as int
  {
    if s != [] {
      Utf8Ascii(s[1..]);
    }
  }
}
