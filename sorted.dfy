/**
 * Tables of entries kept in strictly ascending key order (keys are integer sequences under
 * the lexicographic order). The ordered key-value transaction and the repository index
 * tables are both such tables.
 */
module Sorted {
  import Lex
  import opened Wrappers

  datatype Entry<V> = Entry(key: seq<int>, value: V)

  /** Strictly ascending keys (hence no key twice). */
  ghost predicate Ascending<V>(s: seq<Entry<V>>)
  {
    forall i, j :: 0 <= i < j < |s| ==> Lex.Less(s[i].key, s[j].key)
  }

  /** Strictly descending keys. */
  ghost predicate Descending<V>(s: seq<Entry<V>>)
  {
    forall i, j :: 0 <= i < j < |s| ==> Lex.Less(s[j].key, s[i].key)
  }

  function KeySet<V>(s: seq<Entry<V>>): set<seq<int>>
  {
    set i | 0 <= i < |s| :: s[i].key
  }

  /** The value stored under `k`, if any. */
  function Get<V>(s: seq<Entry<V>>, k: seq<int>): (r: Option<V>)
    ensures r.Some? <==> k in KeySet(s)
    ensures r.Some? ==> Entry(k, r.value) in s
  {
    if s == [] then None
    else if s[0].key == k then Some(s[0].value)
    else
      var r := Get(s[1..], k);
      assert KeySet(s) == {s[0].key} + KeySet(s[1..]) by {
        forall x | x in KeySet(s) ensures x in {s[0].key} + KeySet(s[1..]) {
          var i :| 0 <= i < |s| && s[i].key == x;
          if i > 0 { assert s[1..][i - 1].key == x; }
        }
        forall x | x in KeySet(s[1..]) ensures x in KeySet(s) {
          var i :| 0 <= i < |s[1..]| && s[1..][i].key == x;
          assert s[i + 1].key == x;
        }
      }
      r
  }

  /** In an ascending table, looking up a stored key finds that entry's value. */
  lemma {:induction false} GetMember<V>(s: seq<Entry<V>>, i: nat)
    requires Ascending(s) && i < |s|
    ensures Get(s, s[i].key) == Some(s[i].value)
  {
    if i > 0 {
      Lex.LessIrreflexive(s[i].key);
      assert s[0].key != s[i].key;
      AscendingTail(s);
      assert s[1..][i - 1] == s[i];
      GetMember(s[1..], i - 1);
    }
  }

  lemma KeySetCons<V>(e: Entry<V>, s: seq<Entry<V>>)
    ensures KeySet([e] + s) == {e.key} + KeySet(s)
  {
    var t := [e] + s;
    assert t[0].key == e.key;
    forall x | x in KeySet(t) ensures x in {e.key} + KeySet(s) {
      var i :| 0 <= i < |t| && t[i].key == x;
      if i > 0 { assert s[i - 1].key == x; }
    }
    forall x | x in KeySet(s) ensures x in KeySet(t) {
      var i :| 0 <= i < |s| && s[i].key == x;
      assert t[i + 1].key == x;
    }
  }

  lemma AscendingTail<V>(s: seq<Entry<V>>)
    requires Ascending(s) && s != []
    ensures Ascending(s[1..])
    ensures forall k :: k in KeySet(s[1..]) ==> Lex.Less(s[0].key, k)
  {
    forall k | k in KeySet(s[1..]) ensures Lex.Less(s[0].key, k) {
      var i :| 0 <= i < |s[1..]| && s[1..][i].key == k;
      assert s[i + 1].key == k;
    }
  }

  lemma DescendingTail<V>(s: seq<Entry<V>>)
    requires Descending(s) && s != []
    ensures Descending(s[1..])
    ensures forall k :: k in KeySet(s[1..]) ==> Lex.Less(k, s[0].key)
  {
    forall k | k in KeySet(s[1..]) ensures Lex.Less(k, s[0].key) {
      var i :| 0 <= i < |s[1..]| && s[1..][i].key == k;
      assert s[i + 1].key == k;
    }
  }

  lemma DescendingCons<V>(e: Entry<V>, s: seq<Entry<V>>)
    requires Descending(s)
    requires forall k :: k in KeySet(s) ==> Lex.Less(k, e.key)
    ensures Descending([e] + s)
  {
    var t := [e] + s;
    forall i, j | 0 <= i < j < |t| ensures Lex.Less(t[j].key, t[i].key) {
      if i == 0 {
        assert t[j].key == s[j - 1].key && s[j - 1].key in KeySet(s);
      } else {
        assert t[i] == s[i - 1] && t[j] == s[j - 1];
      }
    }
  }

  lemma AscendingCons<V>(e: Entry<V>, s: seq<Entry<V>>)
    requires Ascending(s)
    requires forall k :: k in KeySet(s) ==> Lex.Less(e.key, k)
    ensures Ascending([e] + s)
  {
    var t := [e] + s;
    forall i, j | 0 <= i < j < |t| ensures Lex.Less(t[i].key, t[j].key) {
      if i == 0 {
        assert t[j].key == s[j - 1].key && s[j - 1].key in KeySet(s);
      } else {
        assert t[i] == s[i - 1] && t[j] == s[j - 1];
      }
    }
  }

  /** `put`: store `v` under `k`, replacing an existing entry, keeping the order. */
  function Insert<V>(s: seq<Entry<V>>, k: seq<int>, v: V): (r: seq<Entry<V>>)
    requires Ascending(s)
    ensures Ascending(r)
    ensures KeySet(r) == KeySet(s) + {k}
    ensures forall k' :: Get(r, k') == if k' == k then Some(v) else Get(s, k')
  {
    if s == [] then
      KeySetCons(Entry(k, v), []);
      [Entry(k, v)]
    else if s[0].key == k then
      AscendingTail(s);
      AscendingCons(Entry(k, v), s[1..]);
      KeySetCons(Entry(k, v), s[1..]);
      KeySetCons(s[0], s[1..]);
      assert s == [s[0]] + s[1..];
      [Entry(k, v)] + s[1..]
    else if Lex.Less(k, s[0].key) then
      assert forall k' :: k' in KeySet(s) ==> Lex.Less(k, k') by {
        AscendingTail(s);
        KeySetCons(s[0], s[1..]);
        assert s == [s[0]] + s[1..];
        forall k' | k' in KeySet(s[1..]) ensures Lex.Less(k, k') {
          Lex.LessTransitive(k, s[0].key, k');
        }
      }
      AscendingCons(Entry(k, v), s);
      KeySetCons(Entry(k, v), s);
      [Entry(k, v)] + s
    else
      AscendingTail(s);
      var rest := Insert(s[1..], k, v);
      Lex.LessTotal(k, s[0].key);
      AscendingCons(s[0], rest);
      KeySetCons(s[0], rest);
      KeySetCons(s[0], s[1..]);
      assert s == [s[0]] + s[1..];
      [s[0]] + rest
  }

  /** `delete`: drop the entry under `k`, if any, keeping the order. */
  function Remove<V>(s: seq<Entry<V>>, k: seq<int>): (r: seq<Entry<V>>)
    requires Ascending(s)
    ensures Ascending(r)
    ensures KeySet(r) == KeySet(s) - {k}
    ensures forall k' :: Get(r, k') == if k' == k then None else Get(s, k')
  {
    if s == [] then []
    else
      AscendingTail(s);
      KeySetCons(s[0], s[1..]);
      assert s == [s[0]] + s[1..];
      if s[0].key == k then
        assert k !in KeySet(s[1..]) by {
          if k in KeySet(s[1..]) { Lex.LessIrreflexive(k); }
        }
        s[1..]
      else
        var rest := Remove(s[1..], k);
        AscendingCons(s[0], rest);
        KeySetCons(s[0], rest);
        [s[0]] + rest
  }

  /** The entries whose key satisfies `keep`, in their original order. */
  function Filter<V>(s: seq<Entry<V>>, keep: seq<int> -> bool): (r: seq<Entry<V>>)
    ensures forall e :: e in r ==> e in s && keep(e.key)
    ensures forall i :: 0 <= i < |s| && keep(s[i].key) ==> s[i] in r
    ensures KeySet(r) <= KeySet(s)
  {
    if s == [] then []
    else
      var rest := Filter(s[1..], keep);
      KeySetCons(s[0], s[1..]);
      assert s == [s[0]] + s[1..];
      if keep(s[0].key) then
        KeySetCons(s[0], rest);
        [s[0]] + rest
      else rest
  }

  /** A filtered ascending table is ascending. */
  lemma {:induction false} FilterAscending<V>(s: seq<Entry<V>>, keep: seq<int> -> bool)
    requires Ascending(s)
    ensures Ascending(Filter(s, keep))
  {
    if s != [] {
      AscendingTail(s);
      FilterAscending(s[1..], keep);
      AscendingCons(s[0], Filter(s[1..], keep));
    }
  }

  lemma {:induction false} FilterAppend<V>(a: seq<Entry<V>>, b: seq<Entry<V>>, keep: seq<int> -> bool)
    ensures Filter(a + b, keep) == Filter(a, keep) + Filter(b, keep)
  {
    if a == [] {
      assert a + b == b;
    } else {
      assert (a + b)[0] == a[0] && (a + b)[1..] == a[1..] + b;
      FilterAppend(a[1..], b, keep);
    }
  }

  function Reverse<T>(s: seq<T>): (r: seq<T>)
    ensures |r| == |s| && forall i :: 0 <= i < |s| ==> r[i] == s[|s| - 1 - i]
  {
    if s == [] then [] else Reverse(s[1..]) + [s[0]]
  }

  /** Reversing keeps the same elements. */
  lemma ReverseMembers<T>(s: seq<T>)
    ensures forall i :: 0 <= i < |s| ==> s[i] in Reverse(s)
    ensures forall e :: e in Reverse(s) ==> e in s
  {
    var r := Reverse(s);
    forall i | 0 <= i < |s| ensures s[i] in r {
      assert r[|s| - 1 - i] == s[i];
    }
  }

  /** Reversing an ascending table gives a descending one. */
  lemma ReverseAscending<V>(s: seq<Entry<V>>)
    requires Ascending(s)
    ensures Descending(Reverse(s))
    ensures forall i :: 0 <= i < |s| ==> s[i] in Reverse(s)
    ensures forall e :: e in Reverse(s) ==> e in s
  {
    ReverseMembers(s);
  }
}
