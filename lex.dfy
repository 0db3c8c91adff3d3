/**
 * Lexicographic order on sequences of integers: the first differing position
 * decides and a proper prefix is smaller. Byte keys, and the encoded index
 * tuples of the document repositories, are ordered by it.
 */
module Lex {

  /** `a` sorts strictly before `b`. */
  predicate Less(a: seq<int>, b: seq<int>)
    decreases |a|
  {
    if |a| == 0 then |b| > 0
    else if |b| == 0 then false
    else a[0] < b[0] || (a[0] == b[0] && Less(a[1..], b[1..]))
  }

  /** `p` is a prefix of `s`. */
  predicate IsPrefix(p: seq<int>, s: seq<int>)
  {
    |p| <= |s| && s[..|p|] == p
  }

  lemma {:induction false} LessIrreflexive(a: seq<int>)
    ensures !Less(a, a)
    decreases |a|
  {
    if |a| > 0 {
      LessIrreflexive(a[1..]);
    }
  }

  lemma {:induction false} LessAsymmetric(a: seq<int>, b: seq<int>)
    ensures Less(a, b) ==> !Less(b, a)
    decreases |a|
  {
    if |a| > 0 && |b| > 0 {
      LessAsymmetric(a[1..], b[1..]);
    }
  }

  lemma {:induction false} LessTransitive(a: seq<int>, b: seq<int>, c: seq<int>)
    requires Less(a, b) && Less(b, c)
    ensures Less(a, c)
    decreases |a|
  {
    if |a| > 0 && a[0] == b[0] && b[0] == c[0] {
      LessTransitive(a[1..], b[1..], c[1..]);
    }
  }

  /** Any two distinct sequences are ordered one way or the other. */
  lemma {:induction false} LessTotal(a: seq<int>, b: seq<int>)
    ensures a == b || Less(a, b) || Less(b, a)
    decreases |a|
  {
    if |a| > 0 && |b| > 0 && a[0] == b[0] {
      LessTotal(a[1..], b[1..]);
      if a[1..] == b[1..] {
        assert a == [a[0]] + a[1..] && b == [b[0]] + b[1..];
      }
    }
  }

  /** A proper prefix is smaller. */
  lemma {:induction false} PrefixLess(p: seq<int>, s: seq<int>)
    requires IsPrefix(p, s) && |p| < |s|
    ensures Less(p, s)
    decreases |p|
  {
    if |p| > 0 {
      assert s[1..][..|p| - 1] == p[1..];
      PrefixLess(p[1..], s[1..]);
    }
  }

  /** A common prefix does not change the order of the rest. */
  lemma {:induction false} LessAppend(p: seq<int>, a: seq<int>, b: seq<int>)
    ensures Less(p + a, p + b) <==> Less(a, b)
    decreases |p|
  {
    if |p| > 0 {
      assert (p + a)[0] == p[0] == (p + b)[0];
      assert (p + a)[1..] == p[1..] + a && (p + b)[1..] == p[1..] + b;
      LessAppend(p[1..], a, b);
      assert Less(p + a, p + b) == Less(p[1..] + a, p[1..] + b);
    } else {
      assert p + a == a && p + b == b;
    }
  }

  /** The first position that differs decides, whatever follows it. */
  lemma {:induction false} LessAtFirstDifference(a: seq<int>, b: seq<int>, i: nat)
    requires i < |a| && i < |b| && a[..i] == b[..i] && a[i] < b[i]
    ensures Less(a, b)
    decreases i
  {
    if i > 0 {
      assert a[1..][..i - 1] == a[..i][1..] && b[1..][..i - 1] == b[..i][1..];
      LessAtFirstDifference(a[1..], b[1..], i - 1);
    }
  }
}
