/**
 * Index keys of the document repositories. An index key is a tuple of parts (a number, a
 * string or an id); a tuple is stored as a single integer sequence so that the ordered
 * index tables can keep it. The encoding is self-delimiting, so a tuple's encoding is a
 * prefix of another's exactly when the tuple is a prefix of the other, and two numbers
 * after a common prefix compare as the numbers do.
 *
 * The encoding is this model's own: the source's index layer is not part of this model.
 */
module IndexKeys {
  import Lex
  import opened Bytes

  type Uuid = Bytes

  datatype KeyPart = Num(n: int) | Str(s: string) | Id(u: Uuid)

  /** Every element shifted up by one, leaving 0 free as a terminator. */
  function Escape(s: seq<int>): (r: seq<int>)
    ensures |r| == |s|
  {
    if s == [] then [] else [s[0] + 1] + Escape(s[1..])
  }

  function Codes(s: string): (r: seq<int>)
    ensures |r| == |s| && forall i :: 0 <= i < |s| ==> r[i] == s[i] as int && r[i] >= 0
  {
    seq(|s|, i requires 0 <= i < |s| => s[i] as int)
  }

  predicate NonNegative(s: seq<int>)
  {
    forall i :: 0 <= i < |s| ==> s[i] >= 0
  }

  function EncodePart(p: KeyPart): (r: seq<int>)
    ensures |r| >= 2
  {
    match p
    case Num(n) => [0, n]
    case Str(s) => [1] + Escape(Codes(s)) + [0]
    case Id(u) => [2] + Escape(u) + [0]
  }

  function EncodeKey(parts: seq<KeyPart>): seq<int>
  {
    if parts == [] then [] else EncodePart(parts[0]) + EncodeKey(parts[1..])
  }

  /** `p` is a prefix of `q`, part by part. */
  predicate PartsPrefix(p: seq<KeyPart>, q: seq<KeyPart>)
  {
    |p| <= |q| && q[..|p|] == p
  }

  lemma {:induction false} EncodeKeyAppend(p: seq<KeyPart>, q: seq<KeyPart>)
    ensures EncodeKey(p + q) == EncodeKey(p) + EncodeKey(q)
  {
    if p == [] {
      assert p + q == q;
    } else {
      assert (p + q)[0] == p[0] && (p + q)[1..] == p[1..] + q;
      EncodeKeyAppend(p[1..], q);
    }
  }

  /** After an escaped non-negative run, the terminator is the first 0. */
  lemma EscapeHead(b: seq<int>, y: seq<int>)
    requires NonNegative(b)
    ensures (Escape(b) + [0] + y)[0] == if b == [] then 0 else b[0] + 1
  {
  }

  lemma {:induction false} EscapedUnique(a: seq<int>, b: seq<int>, x: seq<int>, y: seq<int>)
    requires NonNegative(a) && NonNegative(b)
    requires Escape(a) + [0] + x == Escape(b) + [0] + y
    ensures a == b && x == y
  {
    var l := Escape(a) + [0] + x;
    var r := Escape(b) + [0] + y;
    EscapeHead(a, x);
    EscapeHead(b, y);
    if a == [] {
      assert b == [];
      assert x == l[1..] && y == r[1..];
    } else {
      assert b != [];
      assert a[0] == b[0];
      assert l[1..] == Escape(a[1..]) + [0] + x;
      assert r[1..] == Escape(b[1..]) + [0] + y;
      EscapedUnique(a[1..], b[1..], x, y);
      assert a == [a[0]] + a[1..] && b == [b[0]] + b[1..];
    }
  }

  lemma CodesInjective(s: string, t: string)
    requires Codes(s) == Codes(t)
    ensures s == t
  {
    assert |s| == |t|;
    forall i | 0 <= i < |s| ensures s[i] == t[i] {
      assert Codes(s)[i] == Codes(t)[i];
    }
  }

  function Tag(p: KeyPart): int
  {
    match p
    case Num(_) => 0
    case Str(_) => 1
    case Id(_) => 2
  }

  /** What follows the tag of a part's encoding, with `x` after it. */
  function Rest(p: KeyPart, x: seq<int>): seq<int>
  {
    match p
    case Num(n) => [n] + x
    case Str(s) => Escape(Codes(s)) + [0] + x
    case Id(u) => Escape(u) + [0] + x
  }

  lemma HeadTail(h: int, w: seq<int>, h': int, w': seq<int>)
    requires [h] + w == [h'] + w'
    ensures h == h' && w == w'
  {
    assert ([h] + w)[0] == h && ([h'] + w')[0] == h';
    assert ([h] + w)[1..] == w && ([h'] + w')[1..] == w';
  }

  lemma PartShape(p: KeyPart, x: seq<int>)
    ensures EncodePart(p) + x == [Tag(p)] + Rest(p, x)
  {
    match p
    case Num(n) =>
      assert [0, n] + x == [0] + ([n] + x);
    case Str(s) =>
      var e := Escape(Codes(s));
      assert ([1] + e + [0]) + x == [1] + (e + [0] + x);
    case Id(u) =>
      var e := Escape(u);
      assert ([2] + e + [0]) + x == [2] + (e + [0] + x);
  }

  /** A part's encoding can be read off the front of a longer sequence in one way only. */
  lemma PartUnique(p: KeyPart, q: KeyPart, x: seq<int>, y: seq<int>)
    requires EncodePart(p) + x == EncodePart(q) + y
    ensures p == q && x == y
  {
    PartShape(p, x);
    PartShape(q, y);
    HeadTail(Tag(p), Rest(p, x), Tag(q), Rest(q, y));
    match p
    case Num(n) =>
      assert q.Num?;
      HeadTail(n, x, q.n, y);
    case Str(s) =>
      assert q.Str?;
      EscapedUnique(Codes(s), Codes(q.s), x, y);
      CodesInjective(s, q.s);
    case Id(u) =>
      assert q.Id?;
      EscapedUnique(u, q.u, x, y);
  }

  /** A tuple's encoding is a prefix of another's exactly when the tuple is a prefix of the other. */
  lemma EncodeKeyPrefix(p: seq<KeyPart>, q: seq<KeyPart>)
    ensures Lex.IsPrefix(EncodeKey(p), EncodeKey(q)) <==> PartsPrefix(p, q)
  {
    if PartsPrefix(p, q) {
      assert q == p + q[|p|..];
      EncodeKeyAppend(p, q[|p|..]);
    }
    if Lex.IsPrefix(EncodeKey(p), EncodeKey(q)) {
      var t := EncodeKey(q)[|EncodeKey(p)|..];
      assert EncodeKey(q) == EncodeKey(p) + t;
      ParsePrefix(p, q, t);
    }
  }

  lemma {:induction false} ParsePrefix(p: seq<KeyPart>, q: seq<KeyPart>, t: seq<int>)
    requires EncodeKey(q) == EncodeKey(p) + t
    ensures PartsPrefix(p, q)
  {
    if p != [] {
      assert EncodeKey(p) == EncodePart(p[0]) + EncodeKey(p[1..]);
      assert |EncodeKey(q)| >= 2;
      assert q != [];
      assert EncodeKey(q) == EncodePart(q[0]) + EncodeKey(q[1..]);
      var x := EncodeKey(p[1..]) + t;
      var y := EncodeKey(q[1..]);
      assert (EncodePart(p[0]) + EncodeKey(p[1..])) + t == EncodePart(p[0]) + (EncodeKey(p[1..]) + t);
      PartUnique(p[0], q[0], x, y);
      ParsePrefix(p[1..], q[1..], t);
      PrefixCons(q, |p|);
      PrefixCons(p, |p|);
    }
  }

  lemma PrefixCons<T>(q: seq<T>, n: nat)
    requires 1 <= n <= |q|
    ensures q[..n] == [q[0]] + q[1..][..n - 1]
  {
  }

  /** Distinct tuples have distinct encodings. */
  lemma EncodeKeyInjective(p: seq<KeyPart>, q: seq<KeyPart>)
    requires EncodeKey(p) == EncodeKey(q)
    ensures p == q
  {
    EncodeKeyPrefix(p, q);
    EncodeKeyPrefix(q, p);
    assert q[..|p|] == p && |p| == |q|;
    assert q[..|q|] == q;
  }

  lemma LessCons(a: int, s: seq<int>, b: int, t: seq<int>)
    ensures Lex.Less([a] + s, [b] + t) <==> a < b || (a == b && Lex.Less(s, t))
  {
    assert ([a] + s)[0] == a && ([a] + s)[1..] == s;
    assert ([b] + t)[0] == b && ([b] + t)[1..] == t;
  }

  lemma EncodeSingleNum(prefix: seq<KeyPart>, m: int)
    ensures EncodeKey(prefix + [Num(m)]) == EncodeKey(prefix) + [0, m]
  {
    EncodeKeyAppend(prefix, [Num(m)]);
    assert [Num(m)][1..] == [];
  }

  /** The encoding of a tuple ending in a number, followed by more parts. */
  lemma NumSplit(prefix: seq<KeyPart>, m: int, x: seq<KeyPart>)
    ensures EncodeKey(prefix + [Num(m)] + x) == EncodeKey(prefix) + ([0] + ([m] + EncodeKey(x)))
  {
    calc {
      EncodeKey(prefix + [Num(m)] + x);
      == { EncodeKeyAppend(prefix + [Num(m)], x); }
      EncodeKey(prefix + [Num(m)]) + EncodeKey(x);
      == { EncodeSingleNum(prefix, m); }
      (EncodeKey(prefix) + [0, m]) + EncodeKey(x);
      ==
      EncodeKey(prefix) + ([0] + ([m] + EncodeKey(x)));
    }
  }

  /** After a common prefix, a numeric part orders the encodings as the numbers. */
  lemma NumOrder(prefix: seq<KeyPart>, m: int, n: int, x: seq<KeyPart>, y: seq<KeyPart>)
    ensures m < n ==> Lex.Less(EncodeKey(prefix + [Num(m)] + x), EncodeKey(prefix + [Num(n)] + y))
    ensures Lex.Less(EncodeKey(prefix + [Num(m)] + x), EncodeKey(prefix + [Num(n)] + y)) ==> m <= n
  {
    NumSplit(prefix, m, x);
    NumSplit(prefix, n, y);
    var a := [m] + EncodeKey(x);
    var b := [n] + EncodeKey(y);
    Lex.LessAppend(EncodeKey(prefix), [0] + a, [0] + b);
    LessCons(0, a, 0, b);
    LessCons(m, EncodeKey(x), n, EncodeKey(y));
  }
}
