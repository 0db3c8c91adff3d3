/**
 * The ordered key-value transaction of packages/server/src/fdb-kv-store.ts: an ordered map
 * over byte keys (FoundationDB's own retry, isolation and conflict detection are outside the
 * model), the mapping of a query condition onto a key range and a direction, and the key
 * prefixing by which `transact` keeps every key out of the reserved range starting at 0xff.
 */
module KvStore {
  import Lex
  import opened Bytes
  import opened Sorted
  import opened Wrappers

  /** Leading byte of every key the store's callers touch. */
  const MAGIC_BYTE: byte := 174

  /** The end of the caller-visible space: the reserved range starts at [0xff]. */
  const BigKey: Bytes := [255]
  const SmallKey: Bytes := []

  datatype Condition = Gt(gt: Bytes) | Gte(gte: Bytes) | Lt(lt: Bytes) | Lte(lte: Bytes)

  /** FoundationDB key selectors: the first stored key after, or at or after, a key. */
  datatype Selector = FirstGreaterThan(key: Bytes) | FirstGreaterOrEqual(key: Bytes)

  /** The `[start, end, reverse]` triple handed to `getRange`. */
  datatype RangeSpec = RangeSpec(start: Selector, end: Selector, reverse: bool)

  /** The case analysis of `query`: `gt`/`gte` read forward up to the reserved range, `lt`/`lte` backward from the empty key. */
  function MapCondition(c: Condition): (r: RangeSpec)
    ensures r.reverse <==> c.Lt? || c.Lte?
    ensures !r.reverse ==> r.end == FirstGreaterOrEqual(BigKey)
    ensures r.reverse ==> r.start == FirstGreaterOrEqual(SmallKey)
  {
    match c
    case Gt(k) => RangeSpec(FirstGreaterThan(k), FirstGreaterOrEqual(BigKey), false)
    case Gte(k) => RangeSpec(FirstGreaterOrEqual(k), FirstGreaterOrEqual(BigKey), false)
    case Lt(k) => RangeSpec(FirstGreaterOrEqual(SmallKey), FirstGreaterOrEqual(k), true)
    case Lte(k) => RangeSpec(FirstGreaterOrEqual(SmallKey), FirstGreaterThan(k), true)
  }

  /** `k` is at or after the key a start selector resolves to. */
  predicate FromStart(sel: Selector, k: seq<int>)
  {
    match sel
    case FirstGreaterThan(a) => Lex.Less(a, k)
    case FirstGreaterOrEqual(a) => a == k || Lex.Less(a, k)
  }

  /** `k` is before the key an end selector resolves to (the end is exclusive). */
  predicate BeforeEnd(sel: Selector, k: seq<int>)
  {
    match sel
    case FirstGreaterThan(b) => b == k || Lex.Less(k, b)
    case FirstGreaterOrEqual(b) => Lex.Less(k, b)
  }

  predicate InRange(spec: RangeSpec, k: seq<int>)
  {
    FromStart(spec.start, k) && BeforeEnd(spec.end, k)
  }

  /** What `getRange(start, end, {reverse})` yields from an ordered table. */
  function RangeOf<V>(entries: seq<Entry<V>>, spec: RangeSpec): seq<Entry<V>>
  {
    var inRange := Filter(entries, k => InRange(spec, k));
    if spec.reverse then Reverse(inRange) else inRange
  }

  /** The result of `query(condition)`: exactly the stored entries meeting the range, in its direction. */
  lemma QueryResult<V>(entries: seq<Entry<V>>, c: Condition)
    requires Ascending(entries)
    ensures var r := RangeOf(entries, MapCondition(c));
      && (forall e :: e in r ==> e in entries && InRange(MapCondition(c), e.key))
      && (forall i :: 0 <= i < |entries| && InRange(MapCondition(c), entries[i].key) ==> entries[i] in r)
      && (if MapCondition(c).reverse then Descending(r) else Ascending(r))
  {
    var spec := MapCondition(c);
    FilterAscending(entries, k => InRange(spec, k));
    if spec.reverse {
      ReverseAscending(Filter(entries, k => InRange(spec, k)));
    }
  }

  /** `gt k`: keys above k and below [255], ascending. */
  lemma GtRange(k: Bytes, x: seq<int>)
    ensures InRange(MapCondition(Gt(k)), x) <==> Lex.Less(k, x) && Lex.Less(x, BigKey)
    ensures !MapCondition(Gt(k)).reverse
  {
  }

  /** `gte k`: keys at or above k and below [255], ascending. */
  lemma GteRange(k: Bytes, x: seq<int>)
    ensures InRange(MapCondition(Gte(k)), x) <==> (x == k || Lex.Less(k, x)) && Lex.Less(x, BigKey)
    ensures !MapCondition(Gte(k)).reverse
  {
  }

  /** `lt k`: keys below k (every key is at or above the empty key), descending. */
  lemma LtRange(k: Bytes, x: seq<int>)
    ensures InRange(MapCondition(Lt(k)), x) <==> Lex.Less(x, k)
    ensures MapCondition(Lt(k)).reverse
  {
    if x != [] {
      assert Lex.Less([], x);
    }
  }

  /** `lte k`: keys at or below k, descending. */
  lemma LteRange(k: Bytes, x: seq<int>)
    ensures InRange(MapCondition(Lte(k)), x) <==> (x == k || Lex.Less(x, k))
    ensures MapCondition(Lte(k)).reverse
  {
    if x != [] {
      assert Lex.Less([], x);
    }
  }

  /** The operations a transaction has been asked to perform, on physical keys. */
  datatype Access = Read(key: Bytes) | Write(key: Bytes, value: Bytes) | Clear(key: Bytes) | Scan(spec: RangeSpec)

  predicate IsBytes(k: seq<int>)
  {
    forall i :: 0 <= i < |k| ==> 0 <= k[i] < 256
  }

  /** The physical transaction: an ordered byte map, plus the operations issued on it. */
  class Transaction {
    var entries: seq<Entry<Bytes>>
    var trace: seq<Access>

    ghost predicate Valid()
      reads this
    {
      Ascending(entries) && forall i :: 0 <= i < |entries| ==> IsBytes(entries[i].key)
    }

    constructor (initial: seq<Entry<Bytes>>)
      requires Ascending(initial) && forall i :: 0 <= i < |initial| ==> IsBytes(initial[i].key)
      ensures Valid() && entries == initial && trace == []
    {
      entries := initial;
      trace := [];
    }

    /** `get`: the stored bytes, or undefined for an absent key. */
    method Get(key: Bytes) returns (r: Option<Bytes>)
      requires Valid()
      modifies this`trace
      ensures r == Sorted.Get(entries, key)
      ensures r.None? <==> key !in KeySet(entries)
      ensures trace == old(trace) + [Read(key)]
    {
      r := Sorted.Get(entries, key);
      trace := trace + [Read(key)];
    }

    /** `put` (`tx.set`). */
    method Put(key: Bytes, value: Bytes)
      requires Valid()
      modifies this
      ensures Valid()
      ensures forall k :: Sorted.Get(entries, k) == if k == key then Some(value) else Sorted.Get(old(entries), k)
      ensures KeySet(entries) == KeySet(old(entries)) + {key}
      ensures trace == old(trace) + [Write(key, value)]
    {
      ghost var before := entries;
      entries := Insert(entries, key, value);
      forall i | 0 <= i < |entries| ensures IsBytes(entries[i].key) {
        assert entries[i].key in KeySet(entries);
        if entries[i].key != key {
          var j :| 0 <= j < |before| && before[j].key == entries[i].key;
        }
      }
      trace := trace + [Write(key, value)];
    }

    /** `delete` (`tx.clear`). */
    method Delete(key: Bytes)
      requires Valid()
      modifies this
      ensures Valid()
      ensures forall k :: Sorted.Get(entries, k) == if k == key then None else Sorted.Get(old(entries), k)
      ensures KeySet(entries) == KeySet(old(entries)) - {key}
      ensures trace == old(trace) + [Clear(key)]
    {
      ghost var before := entries;
      entries := Remove(entries, key);
      forall i | 0 <= i < |entries| ensures IsBytes(entries[i].key) {
        assert entries[i].key in KeySet(entries);
        var j :| 0 <= j < |before| && before[j].key == entries[i].key;
      }
      trace := trace + [Clear(key)];
    }

    /** `query`: walk the table in key order, keeping the entries of the condition's range. */
    method Query(c: Condition) returns (r: seq<Entry<Bytes>>)
      requires Valid()
      modifies this`trace
      ensures r == RangeOf(entries, MapCondition(c))
      ensures trace == old(trace) + [Scan(MapCondition(c))]
    {
      var spec := MapCondition(c);
      var acc: seq<Entry<Bytes>> := [];
      var i := 0;
      while i < |entries|
        invariant 0 <= i <= |entries|
        invariant acc == Filter(entries[..i], k => InRange(spec, k))
        invariant trace == old(trace)
      {
        FilterAppend(entries[..i], [entries[i]], k => InRange(spec, k));
        assert entries[..i + 1] == entries[..i] + [entries[i]];
        if InRange(spec, entries[i].key) {
          acc := acc + [entries[i]];
        }
        i := i + 1;
      }
      assert entries[..i] == entries;
      r := if spec.reverse then Reverse(acc) else acc;
      trace := trace + [Scan(spec)];
    }
  }

  /**
   * A view of a transaction under a key prefix (`withPrefix(prefix)(txn)`): keys are
   * prefixed on the way in, and a query keeps the physical keys under the prefix and strips it.
   */
  class View {
    const txn: Transaction
    const prefix: Bytes

    constructor (txn: Transaction, prefix: Bytes)
      ensures this.txn == txn && this.prefix == prefix
    {
      this.txn := txn;
      this.prefix := prefix;
    }

    /** The physical key of a caller's key. */
    function Physical(key: Bytes): (p: Bytes)
      reads this
      ensures BufStartsWith(p, prefix) && |p| == |prefix| + |key| && p[|prefix|..] == key
    {
      prefix + key
    }

    method Get(key: Bytes) returns (r: Option<Bytes>)
      requires txn.Valid()
      modifies txn`trace
      ensures r == Sorted.Get(txn.entries, Physical(key))
      ensures txn.trace == old(txn.trace) + [Read(Physical(key))]
    {
      r := txn.Get(Physical(key));
    }

    method Put(key: Bytes, value: Bytes)
      requires txn.Valid()
      modifies txn
      ensures txn.Valid()
      ensures forall k :: Sorted.Get(txn.entries, k) == if k == Physical(key) then Some(value) else Sorted.Get(old(txn.entries), k)
      ensures txn.trace == old(txn.trace) + [Write(Physical(key), value)]
    {
      txn.Put(Physical(key), value);
    }

    method Delete(key: Bytes)
      requires txn.Valid()
      modifies txn
      ensures txn.Valid()
      ensures forall k :: Sorted.Get(txn.entries, k) == if k == Physical(key) then None else Sorted.Get(old(txn.entries), k)
      ensures txn.trace == old(txn.trace) + [Clear(Physical(key))]
    {
      txn.Delete(Physical(key));
    }

    /** `query` through the view: the prefixed condition on the transaction, then only keys under the prefix, stripped. */
    method Query(c: Condition) returns (r: seq<Entry<Bytes>>)
      requires txn.Valid()
      modifies txn`trace
      ensures r == ViewRange(txn.entries, prefix, c)
      ensures txn.trace == old(txn.trace) + [Scan(MapCondition(PrefixCondition(prefix, c)))]
      ensures if c.Lt? || c.Lte? then Descending(r) else Ascending(r)
    {
      var physical := txn.Query(PrefixCondition(prefix, c));
      r := Strip(prefix, physical);
      ViewQueryOrdered(txn.entries, prefix, c);
    }
  }

  /** The entries under `prefix`, with the prefix removed from their keys, in the same order. */
  function Strip<V>(prefix: seq<int>, s: seq<Entry<V>>): (r: seq<Entry<V>>)
    ensures forall i :: 0 <= i < |r| ==> Entry(prefix + r[i].key, r[i].value) in s
    ensures forall i :: 0 <= i < |s| && Lex.IsPrefix(prefix, s[i].key) ==> Entry(s[i].key[|prefix|..], s[i].value) in r
  {
    if s == [] then []
    else
      assert Lex.IsPrefix(prefix, s[0].key) ==> prefix + s[0].key[|prefix|..] == s[0].key;
      (if Lex.IsPrefix(prefix, s[0].key) then [Entry(s[0].key[|prefix|..], s[0].value)] else [])
      + Strip(prefix, s[1..])
  }

  /** What a query through a prefix view yields from the physical table. */
  function ViewRange<V>(entries: seq<Entry<V>>, prefix: Bytes, c: Condition): seq<Entry<V>>
  {
    Strip(prefix, RangeOf(entries, MapCondition(PrefixCondition(prefix, c))))
  }

  /** Every key `Strip` keeps from `s` is `prefix + k` for a key of `s` itself. */
  lemma StripKeys<V>(prefix: seq<int>, s: seq<Entry<V>>, k: seq<int>)
    requires k in KeySet(Strip(prefix, s))
    ensures prefix + k in KeySet(s)
  {
    var r := Strip(prefix, s);
    var i :| 0 <= i < |r| && r[i].key == k;
    var m :| 0 <= m < |s| && s[m] == Entry(prefix + r[i].key, r[i].value);
  }

  /** Stripping the prefix keeps an ascending table ascending: the kept entries stay in order. */
  lemma {:induction false} StripAscending<V>(prefix: seq<int>, s: seq<Entry<V>>)
    requires Ascending(s)
    ensures Ascending(Strip(prefix, s))
  {
    if s != [] {
      AscendingTail(s);
      StripAscending(prefix, s[1..]);
      var rest := Strip(prefix, s[1..]);
      if Lex.IsPrefix(prefix, s[0].key) {
        var k0 := s[0].key[|prefix|..];
        assert prefix + k0 == s[0].key;
        forall k | k in KeySet(rest) ensures Lex.Less(k0, k) {
          StripKeys(prefix, s[1..], k);
          Lex.LessAppend(prefix, k0, k);
        }
        AscendingCons(Entry(k0, s[0].value), rest);
      }
    }
  }

  /** Stripping the prefix keeps a descending table descending. */
  lemma {:induction false} StripDescending<V>(prefix: seq<int>, s: seq<Entry<V>>)
    requires Descending(s)
    ensures Descending(Strip(prefix, s))
  {
    if s != [] {
      DescendingTail(s);
      StripDescending(prefix, s[1..]);
      var rest := Strip(prefix, s[1..]);
      if Lex.IsPrefix(prefix, s[0].key) {
        var k0 := s[0].key[|prefix|..];
        assert prefix + k0 == s[0].key;
        forall k | k in KeySet(rest) ensures Lex.Less(k, k0) {
          StripKeys(prefix, s[1..], k);
          Lex.LessAppend(prefix, k, k0);
        }
        DescendingCons(Entry(k0, s[0].value), rest);
      }
    }
  }

  /** A query through a view is ascending for `gt`/`gte` and descending for `lt`/`lte`, like one on the transaction. */
  lemma ViewQueryOrdered<V>(entries: seq<Entry<V>>, prefix: Bytes, c: Condition)
    requires Ascending(entries)
    ensures if c.Lt? || c.Lte? then Descending(ViewRange(entries, prefix, c)) else Ascending(ViewRange(entries, prefix, c))
  {
    var pc := PrefixCondition(prefix, c);
    QueryResult(entries, pc);
    if c.Lt? || c.Lte? {
      StripDescending(prefix, RangeOf(entries, MapCondition(pc)));
    } else {
      StripAscending(prefix, RangeOf(entries, MapCondition(pc)));
    }
  }

  /** The relation a condition states between its key and a result key. */
  predicate Matches(c: Condition, k: seq<int>)
  {
    match c
    case Gt(a) => Lex.Less(a, k)
    case Gte(a) => a == k || Lex.Less(a, k)
    case Lt(a) => Lex.Less(k, a)
    case Lte(a) => k == a || Lex.Less(k, a)
  }

  /** The physical range of a prefixed condition, on a key under the prefix. */
  lemma PrefixedInRange(prefix: Bytes, c: Condition, k: seq<int>)
    ensures InRange(MapCondition(PrefixCondition(prefix, c)), prefix + k)
      <==> Matches(c, k) && ((c.Gt? || c.Gte?) ==> Lex.Less(prefix + k, BigKey))
  {
    match c
    case Gt(a) => GtRange(prefix + a, prefix + k); Lex.LessAppend(prefix, a, k);
    case Gte(a) => GteRange(prefix + a, prefix + k); Lex.LessAppend(prefix, a, k);
      assert prefix + a == prefix + k ==> a == k by {
        if prefix + a == prefix + k {
          assert a == (prefix + a)[|prefix|..] && k == (prefix + k)[|prefix|..];
        }
      }
    case Lt(a) => LtRange(prefix + a, prefix + k); Lex.LessAppend(prefix, k, a);
    case Lte(a) => LteRange(prefix + a, prefix + k); Lex.LessAppend(prefix, k, a);
      assert prefix + a == prefix + k ==> a == k by {
        if prefix + a == prefix + k {
          assert a == (prefix + a)[|prefix|..] && k == (prefix + k)[|prefix|..];
        }
      }
  }

  /** Every result of a view query is stored under the prefix and meets the condition. */
  lemma ViewQuerySound<V>(entries: seq<Entry<V>>, prefix: Bytes, c: Condition, i: nat)
    requires i < |ViewRange(entries, prefix, c)|
    ensures var e := ViewRange(entries, prefix, c)[i];
      Entry(prefix + e.key, e.value) in entries && Matches(c, e.key)
  {
    var e := ViewRange(entries, prefix, c)[i];
    var spec := MapCondition(PrefixCondition(prefix, c));
    ReverseMembers(Filter(entries, k => InRange(spec, k)));
    PrefixedInRange(prefix, c, e.key);
  }

  /**
   * Every stored entry under the prefix that meets the condition is a result (for `gt`/`gte`
   * as far as its physical key stays below [255]).
   */
  lemma ViewQueryComplete<V>(entries: seq<Entry<V>>, prefix: Bytes, c: Condition, j: nat, k: seq<int>)
    requires j < |entries| && entries[j].key == prefix + k
    requires Matches(c, k) && ((c.Gt? || c.Gte?) ==> Lex.Less(prefix + k, BigKey))
    ensures Entry(k, entries[j].value) in ViewRange(entries, prefix, c)
  {
    var spec := MapCondition(PrefixCondition(prefix, c));
    PrefixedInRange(prefix, c, k);
    var f := Filter(entries, k' => InRange(spec, k'));
    assert entries[j] in f;
    var rng := RangeOf(entries, spec);
    if spec.reverse {
      ReverseMembers(f);
    }
    assert entries[j] in rng;
    var m :| 0 <= m < |rng| && rng[m] == entries[j];
    assert rng[m].key[|prefix|..] == k;
  }

  /** The condition with the prefix put in front of its key. */
  function PrefixCondition(prefix: Bytes, c: Condition): Condition
  {
    match c
    case Gt(k) => Gt(prefix + k)
    case Gte(k) => Gte(prefix + k)
    case Lt(k) => Lt(prefix + k)
    case Lte(k) => Lte(prefix + k)
  }

  /** `transact`: the caller's transaction is the physical one under the one-byte magic prefix. */
  method Transact(native: Transaction) returns (view: View)
    ensures view.txn == native && view.prefix == [MAGIC_BYTE]
  {
    view := new View(native, [MAGIC_BYTE]);
  }

  /** Nesting prefix views concatenates the prefixes, outermost first. */
  method WithPrefix(inner: View, p: Bytes) returns (view: View)
    ensures view.txn == inner.txn && view.prefix == inner.prefix + p
    ensures forall k :: view.Physical(k) == inner.Physical(p + k)
  {
    view := new View(inner.txn, inner.prefix + p);
  }

  /** Every physical key under the magic prefix is below [255] and outside the reserved range. */
  lemma MagicKeysAvoidReservedRange(key: Bytes)
    ensures Lex.Less([MAGIC_BYTE] + key, BigKey)
    ensures !BufStartsWith([MAGIC_BYTE] + key, BigKey)
  {
    var p: Bytes := [MAGIC_BYTE] + key;
    Lex.LessAtFirstDifference(p, BigKey, 0);
  }

  /** `put` then `get` through one view returns the value; `delete` then `get` returns undefined. */
  lemma PutThenGet(entries: seq<Entry<Bytes>>, prefix: Bytes, key: Bytes, value: Bytes)
    requires Ascending(entries)
    ensures Sorted.Get(Insert(entries, prefix + key, value), prefix + key) == Some(value)
    ensures Sorted.Get(Remove(entries, prefix + key), prefix + key) == None
  {
  }
}
