/**
 * The document value engine `Crdt` (packages/data/src/crdt/crdt.ts is not part of this model;
 * its contract is the one packages/data/src/crdt/crdt.spec.ts asserts).
 *
 * Plain values are mapped onto a replicated node tree by `From` and back by `Snapshot`.
 * A diff is a whole-document replacement stamped with a version (clock, client); merging keeps
 * the newer stamp (last writer wins), so applying diffs is idempotent and order-insensitive.
 * A recipe is a list of edits to a draft of the snapshot.
 */
module Crdt {
  import opened Wrappers

  /** A named member of a struct or an entry of a map. */
  datatype Entry<T> = Entry(key: string, value: T)

  /** A plain structured value; `Date` and `Symbol` stand for values the engine cannot represent. */
  datatype Value =
    | Null
    | Undefined
    | Bool(b: bool)
    | Number(n: int)
    | Text(s: string)
    | Array(items: seq<Value>)
    | MapValue(entries: seq<Entry<Value>>)
    | Struct(fields: seq<Entry<Value>>)
    | Date(time: int)
    | Symbol(description: string)

  /** The replicated representation: texts, arrays and maps (a struct is a map tagged as such). */
  datatype Node =
    | YNull
    | YUndefined
    | YBool(b: bool)
    | YNumber(n: int)
    | YText(s: string)
    | YArray(items: seq<Node>)
    | YMap(isStruct: bool, entries: seq<Entry<Node>>)

  datatype CrdtError =
    | Unsupported   // `from` (or a recipe) met a value it cannot represent
    | TypeError     // a recipe navigated into a value of the wrong kind or out of range

  // ----- from / snapshot -----

  /** The value holds nothing the engine cannot represent. */
  predicate Supported(v: Value)
  {
    match v
    case Date(_) => false
    case Symbol(_) => false
    case Array(items) => forall i :: 0 <= i < |items| ==> Supported(items[i])
    case MapValue(entries) => forall i :: 0 <= i < |entries| ==> Supported(entries[i].value)
    case Struct(fields) => forall i :: 0 <= i < |fields| ==> Supported(fields[i].value)
    case _ => true
  }

  /** Structural mapping of a supported value onto a node. */
  function Encode(v: Value): Node
    requires Supported(v)
  {
    match v
    case Null => YNull
    case Undefined => YUndefined
    case Bool(b) => YBool(b)
    case Number(n) => YNumber(n)
    case Text(s) => YText(s)
    case Array(items) => YArray(seq(|items|, i requires 0 <= i < |items| => Encode(items[i])))
    case MapValue(entries) =>
      YMap(false, seq(|entries|, i requires 0 <= i < |entries| => Entry(entries[i].key, Encode(entries[i].value))))
    case Struct(fields) =>
      YMap(true, seq(|fields|, i requires 0 <= i < |fields| => Entry(fields[i].key, Encode(fields[i].value))))
  }

  /** The plain value a node stands for (what `snapshot` returns). */
  function Decode(n: Node): Value
  {
    match n
    case YNull => Null
    case YUndefined => Undefined
    case YBool(b) => Bool(b)
    case YNumber(x) => Number(x)
    case YText(s) => Text(s)
    case YArray(items) => Array(seq(|items|, i requires 0 <= i < |items| => Decode(items[i])))
    case YMap(isStruct, entries) =>
      var es := seq(|entries|, i requires 0 <= i < |entries| => Entry(entries[i].key, Decode(entries[i].value)));
      if isStruct then Struct(es) else MapValue(es)
  }

  /** `from`: fails exactly on values the engine cannot represent. */
  function From(v: Value): (r: Result<Node, CrdtError>)
    ensures r.Err? <==> !Supported(v)
    ensures r.Err? ==> r.error == Unsupported
  {
    if Supported(v) then Ok(Encode(v)) else Err(Unsupported)
  }

  /** Round trip: the snapshot of `from(v)` is `v` for every representable value. */
  lemma {:induction false} SnapshotOfFrom(v: Value)
    requires Supported(v)
    ensures From(v).Ok? && Decode(From(v).value) == v
  {
    EncodeRoundTrip(v);
  }

  lemma {:induction false} EncodeRoundTrip(v: Value)
    requires Supported(v)
    ensures Decode(Encode(v)) == v
  {
    match v
    case Array(items) =>
      forall i | 0 <= i < |items| ensures Decode(Encode(items[i])) == items[i] {
        EncodeRoundTrip(items[i]);
      }
    case MapValue(entries) =>
      forall i | 0 <= i < |entries| ensures Decode(Encode(entries[i].value)) == entries[i].value {
        EncodeRoundTrip(entries[i].value);
      }
    case Struct(fields) =>
      forall i | 0 <= i < |fields| ensures Decode(Encode(fields[i].value)) == fields[i].value {
        EncodeRoundTrip(fields[i].value);
      }
    case _ =>
  }

  /** Every snapshot is representable and maps back onto the same node. */
  lemma {:induction false} SnapshotRoundTrip(n: Node)
    ensures Supported(Decode(n)) && Encode(Decode(n)) == n
  {
    match n
    case YArray(items) =>
      forall i | 0 <= i < |items| ensures Supported(Decode(items[i])) && Encode(Decode(items[i])) == items[i] {
        SnapshotRoundTrip(items[i]);
      }
    case YMap(isStruct, entries) =>
      forall i | 0 <= i < |entries|
        ensures Supported(Decode(entries[i].value)) && Encode(Decode(entries[i].value)) == entries[i].value
      {
        SnapshotRoundTrip(entries[i].value);
      }
    case _ =>
  }

  // ----- recipes -----

  /** One step into a draft: a struct field, an array index, or a map key (`map.get(key)`). */
  datatype Step = Field(name: string) | Index(i: nat) | Key(key: string)

  /** A mutation of the draft at the end of a path. */
  datatype Op =
    | Replace(v: Value)                 // the recipe returns a new value (at the root) or assigns it
    | SetField(name: string, v: Value)  // `draft.name = v`
    | SetIndex(i: nat, v: Value)        // `draft[i] = v`
    | Push(vs: seq<Value>)              // `draft.push(...vs)`
    | Unshift(vs: seq<Value>)           // `draft.unshift(...vs)`
    | MapSet(key: string, v: Value)     // `draft.set(key, v)`
    | MapDelete(key: string)            // `draft.delete(key)`
    | MapClear                          // `draft.clear()`

  datatype Edit = Edit(path: seq<Step>, op: Op)

  /** A recipe: the edits it performs on the draft, in order. */
  type Recipe = seq<Edit>

  predicate HasKey<T>(entries: seq<Entry<T>>, k: string)
  {
    exists i :: 0 <= i < |entries| && entries[i].key == k
  }

  /** Set `k` to `x`: an existing entry is overwritten in place, a new key is appended. */
  function SetEntry<T>(entries: seq<Entry<T>>, k: string, x: T): (r: seq<Entry<T>>)
    ensures HasKey(entries, k) ==> |r| == |entries| && forall i :: 0 <= i < |entries| ==>
      r[i] == (if entries[i].key == k then Entry(k, x) else entries[i])
    ensures !HasKey(entries, k) ==> r == entries + [Entry(k, x)]
  {
    if HasKey(entries, k) then
      seq(|entries|, i requires 0 <= i < |entries| => if entries[i].key == k then Entry(k, x) else entries[i])
    else entries + [Entry(k, x)]
  }

  /** Remove key `k`; every other entry stays, in order. */
  function DeleteEntry<T(!new)>(entries: seq<Entry<T>>, k: string): (r: seq<Entry<T>>)
    ensures !HasKey(r, k)
    ensures forall e :: e in r <==> e in entries && e.key != k
  {
    if entries == [] then []
    else (if entries[0].key == k then [] else [entries[0]]) + DeleteEntry(entries[1..], k)
  }

  /** Deleting from two runs of entries deletes from each: the kept entries stay in order. */
  lemma {:induction false} DeleteEntryAppend<T(!new)>(a: seq<Entry<T>>, b: seq<Entry<T>>, k: string)
    ensures DeleteEntry(a + b, k) == DeleteEntry(a, k) + DeleteEntry(b, k)
  {
    if a == [] {
      assert a + b == b;
    } else {
      assert (a + b)[0] == a[0] && (a + b)[1..] == a[1..] + b;
      DeleteEntryAppend(a[1..], b, k);
      var h := if a[0].key == k then [] else [a[0]];
      assert DeleteEntry(a + b, k) == h + (DeleteEntry(a[1..], k) + DeleteEntry(b, k));
    }
  }

  /** Entries without the key are kept whole. */
  lemma {:induction false} DeleteEntryAbsent<T(!new)>(entries: seq<Entry<T>>, k: string)
    requires !HasKey(entries, k)
    ensures DeleteEntry(entries, k) == entries
  {
    if entries != [] {
      assert !HasKey(entries[1..], k) by {
        forall i | 0 <= i < |entries[1..]| ensures entries[1..][i].key != k {
          assert entries[1..][i] == entries[i + 1];
        }
      }
      DeleteEntryAbsent(entries[1..], k);
      assert entries[0].key != k;
    }
  }

  /** With keys distinct, as in a Map, `delete` removes the one entry and closes the gap. */
  lemma DeleteEntryRemovesOne<T(!new)>(a: seq<Entry<T>>, x: Entry<T>, b: seq<Entry<T>>, k: string)
    requires x.key == k && !HasKey(a, k) && !HasKey(b, k)
    ensures DeleteEntry(a + [x] + b, k) == a + b
  {
    DeleteEntryAppend(a + [x], b, k);
    DeleteEntryAppend(a, [x], k);
    DeleteEntryAbsent(a, k);
    DeleteEntryAbsent(b, k);
    assert DeleteEntry([x], k) == [] by {
      assert [x][1..] == [];
    }
    assert DeleteEntry(a + [x], k) == a;
  }

  /** The value of the first entry with key `k`. */
  function Lookup<T>(entries: seq<Entry<T>>, k: string): (r: Option<T>)
    ensures r.Some? <==> HasKey(entries, k)
    ensures r.Some? ==> exists i :: 0 <= i < |entries| && entries[i] == Entry(k, r.value)
  {
    if entries == [] then None
    else if entries[0].key == k then Some(entries[0].value)
    else Lookup(entries[1..], k)
  }

  /** Apply one mutation to the value it targets. */
  function ApplyOp(v: Value, op: Op): Result<Value, CrdtError>
  {
    match op
    case Replace(x) => Ok(x)
    case SetField(name, x) => if v.Struct? then Ok(Struct(SetEntry(v.fields, name, x))) else Err(TypeError)
    case SetIndex(i, x) => if v.Array? && i < |v.items| then Ok(Array(v.items[i := x])) else Err(TypeError)
    case Push(xs) => if v.Array? then Ok(Array(v.items + xs)) else Err(TypeError)
    case Unshift(xs) => if v.Array? then Ok(Array(xs + v.items)) else Err(TypeError)
    case MapSet(k, x) => if v.MapValue? then Ok(MapValue(SetEntry(v.entries, k, x))) else Err(TypeError)
    case MapDelete(k) => if v.MapValue? then Ok(MapValue(DeleteEntry(v.entries, k))) else Err(TypeError)
    case MapClear => if v.MapValue? then Ok(MapValue([])) else Err(TypeError)
  }

  /** Apply a mutation at the end of a path, rebuilding the values along it. */
  function ApplyAt(v: Value, path: seq<Step>, op: Op): Result<Value, CrdtError>
    decreases |path|
  {
    if path == [] then ApplyOp(v, op)
    else
      match path[0]
      case Field(name) =>
        if !v.Struct? then Err(TypeError)
        else
          var child := Lookup(v.fields, name);
          if child.None? then Err(TypeError)
          else
            var r := ApplyAt(child.value, path[1..], op);
            if r.Err? then r else Ok(Struct(SetEntry(v.fields, name, r.value)))
      case Index(i) =>
        if !v.Array? || i >= |v.items| then Err(TypeError)
        else
          var r := ApplyAt(v.items[i], path[1..], op);
          if r.Err? then r else Ok(Array(v.items[i := r.value]))
      case Key(k) =>
        if !v.MapValue? then Err(TypeError)
        else
          var child := Lookup(v.entries, k);
          if child.None? then Err(TypeError)
          else
            var r := ApplyAt(child.value, path[1..], op);
            if r.Err? then r else Ok(MapValue(SetEntry(v.entries, k, r.value)))
  }

  /** Run a recipe against a draft of `v`: the edits in order; the first failure aborts it. */
  function RunRecipe(v: Value, recipe: Recipe): Result<Value, CrdtError>
    decreases |recipe|
  {
    if recipe == [] then Ok(v)
    else
      var r := ApplyAt(v, recipe[0].path, recipe[0].op);
      if r.Err? then r else RunRecipe(r.value, recipe[1..])
  }

  /** A recipe that returns a value replaces the whole document, whatever it was. */
  lemma ReplaceReplacesWhole(v: Value, x: Value)
    ensures RunRecipe(v, [Edit([], Replace(x))]) == Ok(x)
  {
  }

  /** Editing one field of a struct leaves every other field exactly as it was. */
  lemma {:induction false} FieldEditIsLocal(fields: seq<Entry<Value>>, name: string, rest: seq<Step>, op: Op, j: nat)
    requires j < |fields| && fields[j].key != name
    requires ApplyAt(Struct(fields), [Field(name)] + rest, op).Ok?
    ensures var r := ApplyAt(Struct(fields), [Field(name)] + rest, op).value;
      r.Struct? && |r.fields| == |fields| && r.fields[j] == fields[j]
  {
    var path := [Field(name)] + rest;
    assert path[0] == Field(name) && path[1..] == rest;
  }

  /** A one-edit recipe on the only field of a struct applies the mutation to that field. */
  lemma OneFieldEdit(name: string, c: Value, op: Op)
    requires ApplyOp(c, op).Ok?
    ensures RunRecipe(Struct([Entry(name, c)]), [Edit([Field(name)], op)])
      == Ok(Struct([Entry(name, ApplyOp(c, op).value)]))
  {
    var f := [Entry(name, c)];
    assert f[0].key == name;
    assert Lookup(f, name) == Some(c);
    assert SetEntry(f, name, ApplyOp(c, op).value) == [Entry(name, ApplyOp(c, op).value)];
    var path := [Field(name)];
    assert path[1..] == [];
    assert ApplyAt(c, path[1..], op) == ApplyOp(c, op);
    var after := Struct([Entry(name, ApplyOp(c, op).value)]);
    assert ApplyAt(Struct(f), path, op) == Ok(after);
    var recipe := [Edit(path, op)];
    assert recipe[1..] == [];
    assert RunRecipe(Struct(f), recipe) == RunRecipe(after, []);
  }

  /** The array recipes of the tests: push, unshift and index assignment on `{arr: ...}`. */
  lemma ArrayRecipes()
    ensures RunRecipe(Struct([Entry("arr", Array([Number(3), Number(4), Number(5)]))]),
                      [Edit([Field("arr")], Push([Number(6)]))])
      == Ok(Struct([Entry("arr", Array([Number(3), Number(4), Number(5), Number(6)]))]))
    ensures RunRecipe(Struct([Entry("arr", Array([Number(3), Number(4), Number(5)]))]),
                      [Edit([Field("arr")], Unshift([Number(6), Number(7)]))])
      == Ok(Struct([Entry("arr", Array([Number(6), Number(7), Number(3), Number(4), Number(5)]))]))
    ensures RunRecipe(Struct([Entry("arr", Array([Number(1), Number(1), Number(1), Number(1)]))]),
                      [Edit([Field("arr")], SetIndex(3, Number(3)))])
      == Ok(Struct([Entry("arr", Array([Number(1), Number(1), Number(1), Number(3)]))]))
  {
    var a := [Number(3), Number(4), Number(5)];
    OneFieldEdit("arr", Array(a), Push([Number(6)]));
    assert a + [Number(6)] == [Number(3), Number(4), Number(5), Number(6)];
    OneFieldEdit("arr", Array(a), Unshift([Number(6), Number(7)]));
    assert [Number(6), Number(7)] + a == [Number(6), Number(7), Number(3), Number(4), Number(5)];
    var one := [Number(1), Number(1), Number(1), Number(1)];
    OneFieldEdit("arr", Array(one), SetIndex(3, Number(3)));
    assert one[3 := Number(3)] == [Number(1), Number(1), Number(1), Number(3)];
  }

  /** The map recipes of the tests: set overwrites in place and appends new keys; delete and clear. */
  lemma MapRecipes()
    ensures RunRecipe(MapValue([Entry("a", Text("v1")), Entry("b", Text("v1"))]),
                      [Edit([], MapSet("a", Text("v2"))), Edit([], MapSet("c", Text("v1")))])
      == Ok(MapValue([Entry("a", Text("v2")), Entry("b", Text("v1")), Entry("c", Text("v1"))]))
    ensures RunRecipe(MapValue([Entry("a", Text("v1")), Entry("b", Text("v1"))]), [Edit([], MapDelete("a"))])
      == Ok(MapValue([Entry("b", Text("v1"))]))
    ensures RunRecipe(MapValue([Entry("a", Text("one")), Entry("b", Text("two"))]), [Edit([], MapClear)])
      == Ok(MapValue([]))
  {
    MapSetRecipe();
    MapDeleteRecipe();
  }

  lemma MapSetRecipe()
    ensures RunRecipe(MapValue([Entry("a", Text("v1")), Entry("b", Text("v1"))]),
                      [Edit([], MapSet("a", Text("v2"))), Edit([], MapSet("c", Text("v1")))])
      == Ok(MapValue([Entry("a", Text("v2")), Entry("b", Text("v1")), Entry("c", Text("v1"))]))
  {
    var m := [Entry("a", Text("v1")), Entry("b", Text("v1"))];
    assert HasKey(m, "a") by { assert m[0].key == "a"; }
    var m1 := SetEntry(m, "a", Text("v2"));
    assert "b" != "a";
    assert m1 == [Entry("a", Text("v2")), Entry("b", Text("v1"))];
    assert !HasKey(m1, "c") by {
      assert "a" != "c" && "b" != "c";
    }
    assert SetEntry(m1, "c", Text("v1")) == m1 + [Entry("c", Text("v1"))];
    var r := [Edit([], MapSet("a", Text("v2"))), Edit([], MapSet("c", Text("v1")))];
    assert r[1..] == [Edit([], MapSet("c", Text("v1")))] && r[1..][1..] == [];
    assert RunRecipe(MapValue(m), r) == RunRecipe(MapValue(m1), r[1..]);
    assert RunRecipe(MapValue(m1), r[1..]) == RunRecipe(MapValue(m1 + [Entry("c", Text("v1"))]), []);
    assert m1 + [Entry("c", Text("v1"))] == [Entry("a", Text("v2")), Entry("b", Text("v1")), Entry("c", Text("v1"))];
  }

  lemma MapDeleteRecipe()
    ensures RunRecipe(MapValue([Entry("a", Text("v1")), Entry("b", Text("v1"))]), [Edit([], MapDelete("a"))])
      == Ok(MapValue([Entry("b", Text("v1"))]))
  {
    var m := [Entry("a", Text("v1")), Entry("b", Text("v1"))];
    assert DeleteEntry(m, "a") == [Entry("b", Text("v1"))] by {
      assert m[1..] == [Entry("b", Text("v1"))];
      assert DeleteEntry(m[1..], "a") == [Entry("b", Text("v1"))] + DeleteEntry(m[2..], "a");
    }
  }

  // ----- versions and blobs -----

  /** A Lamport-style stamp: clock, then the writing client as tie-break. */
  datatype Version = Version(clock: nat, client: nat)

  predicate Newer(a: Version, b: Version)
  {
    a.clock > b.clock || (a.clock == b.clock && a.client > b.client)
  }

  /** A serialized document: used both as a full state and as a diff. */
  datatype Blob = Blob(version: Version, root: Node)

  /** Merging a diff into a state keeps the newer of the two. */
  function Merge(state: Blob, diff: Blob): (r: Blob)
    ensures r == state || r == diff
    ensures !Newer(state.version, r.version) && !Newer(diff.version, r.version)
  {
    if Newer(diff.version, state.version) then diff else state
  }

  /** Applying the same diff twice has the effect of applying it once. */
  lemma MergeIdempotent(state: Blob, diff: Blob)
    ensures Merge(Merge(state, diff), diff) == Merge(state, diff)
  {
  }

  /** Two diffs with distinct stamps (or equal diffs) give the same state in either order. */
  lemma MergeCommutes(state: Blob, d1: Blob, d2: Blob)
    requires d1.version != d2.version || d1 == d2
    ensures Merge(Merge(state, d1), d2) == Merge(Merge(state, d2), d1)
  {
  }

  // ----- documents -----

  type ListenerId = nat

  /** A subscription: its identity (cancelled with its scope) and the listener it calls. */
  datatype Subscription = Subscription(token: nat, listener: ListenerId)

  /** One call of a listener: the diff just applied and the options passed with it. */
  datatype Delivery = Delivery(listener: ListenerId, diff: Blob, origin: Option<string>)

  /** The calls made for one applied diff: every live subscription, in subscription order. */
  function Fanout(subs: seq<Subscription>, diff: Blob, origin: Option<string>): (r: seq<Delivery>)
    ensures |r| == |subs|
    ensures forall i :: 0 <= i < |subs| ==> r[i] == Delivery(subs[i].listener, diff, origin)
  {
    seq(|subs|, i requires 0 <= i < |subs| => Delivery(subs[i].listener, diff, origin))
  }

  function RemoveSubscription(subs: seq<Subscription>, token: nat): (r: seq<Subscription>)
    ensures forall s :: s in r <==> s in subs && s.token != token
  {
    if subs == [] then []
    else (if subs[0].token == token then [] else [subs[0]]) + RemoveSubscription(subs[1..], token)
  }

  /** Once its only subscription is removed, a listener is not among the calls of any later diff. */
  lemma CancelledListenerNotCalled(subs: seq<Subscription>, token: nat, listener: ListenerId, diff: Blob, origin: Option<string>)
    requires forall s :: s in subs && s.listener == listener ==> s.token == token
    ensures forall d :: d in Fanout(RemoveSubscription(subs, token), diff, origin) ==> d.listener != listener
  {
    var rest := RemoveSubscription(subs, token);
    forall d | d in Fanout(rest, diff, origin) ensures d.listener != listener {
      var k :| 0 <= k < |rest| && Fanout(rest, diff, origin)[k] == d;
      assert rest[k] in rest;
    }
  }

  class Doc {
    var blob: Blob
    /** The client identity this instance stamps its own updates with. */
    const client: nat
    var subs: seq<Subscription>
    var nextToken: nat

    ghost predicate Valid()
      reads this
    {
      forall i :: 0 <= i < |subs| ==> subs[i].token < nextToken
    }

    /** `load(state)`. */
    constructor Load(state: Blob, client: nat)
      ensures Valid() && blob == state && this.client == client && subs == []
    {
      blob := state;
      this.client := client;
      subs := [];
      nextToken := 0;
    }

    /** `from(value)`: the initial stamp is clock 0 of this client. */
    static method FromValue(v: Value, client: nat) returns (r: Result<Doc, CrdtError>)
      ensures r.Err? <==> !Supported(v)
      ensures r.Ok? ==> fresh(r.value) && r.value.Valid() && r.value.Snapshot() == v && r.value.subs == []
    {
      var node := From(v);
      if node.Err? {
        return Err(node.error);
      }
      SnapshotOfFrom(v);
      var doc := new Doc.Load(Blob(Version(0, client), node.value), client);
      return Ok(doc);
    }

    /** `snapshot()`: always a value `from` accepts, and one it turns back into the document's tree. */
    function Snapshot(): (r: Value)
      reads this
      ensures Supported(r) && From(r) == Ok(blob.root)
    {
      SnapshotRoundTrip(blob.root);
      Decode(blob.root)
    }

    /** `state()`: the full current state, from which `load` rebuilds a document with the same snapshot. */
    function State(): (r: Blob)
      reads this
      ensures r.version == blob.version && Decode(r.root) == Snapshot()
    {
      blob
    }

    /** `map(fn)`: `fn` of the snapshot, changing nothing. */
    function Map<R>(fn: Value -> R): (r: R)
      reads this
      ensures r == fn(Snapshot())
    {
      fn(Snapshot())
    }

    /** `from(v).map(fn)` is `fn(v)`: the document hands its callback the value it was built from. */
    lemma MapOfFrom<R>(v: Value, fn: Value -> R)
      requires Supported(v) && blob.root == From(v).value
      ensures Map(fn) == fn(v)
    {
      SnapshotOfFrom(v);
    }

    /** `subscribe(scope, 'update', listener)`: returns the subscription's identity. */
    method Subscribe(listener: ListenerId) returns (token: nat)
      requires Valid()
      modifies this
      ensures Valid() && blob == old(blob)
      ensures token == old(nextToken) && subs == old(subs) + [Subscription(token, listener)]
    {
      token := nextToken;
      subs := subs + [Subscription(token, listener)];
      nextToken := nextToken + 1;
    }

    /** Cancelling a subscription's scope: that listener receives nothing further. */
    method CancelScope(token: nat)
      requires Valid()
      modifies this
      ensures Valid() && blob == old(blob) && nextToken == old(nextToken)
      ensures subs == RemoveSubscription(old(subs), token)
    {
      subs := RemoveSubscription(subs, token);
    }

    /** `apply(diff, {origin})`: merge, then call every live listener once with the diff and origin. */
    method Apply(diff: Blob, origin: Option<string>) returns (calls: seq<Delivery>)
      requires Valid()
      modifies this
      ensures Valid() && subs == old(subs) && nextToken == old(nextToken)
      ensures blob == Merge(old(blob), diff)
      ensures calls == Fanout(subs, diff, origin)
    {
      blob := Merge(blob, diff);
      calls := Fanout(subs, diff, origin);
    }

    /**
     * `update(recipe)`: run the recipe against a draft of the snapshot; on success the result
     * becomes the content under a newer stamp of this client, and the listeners get the diff.
     * A failing recipe changes nothing and calls nobody.
     */
    method Update(recipe: Recipe) returns (r: Result<(Blob, seq<Delivery>), CrdtError>)
      requires Valid()
      modifies this
      ensures Valid() && subs == old(subs) && nextToken == old(nextToken)
      ensures var run := RunRecipe(old(Snapshot()), recipe);
        r.Ok? <==> run.Ok? && Supported(run.value)
      ensures r.Err? ==> blob == old(blob)
      ensures r.Ok? ==> var diff := r.value.0;
        && Newer(diff.version, old(blob.version))
        && blob == diff
        && Snapshot() == RunRecipe(old(Snapshot()), recipe).value
        && r.value.1 == Fanout(subs, diff, None)
    {
      var run := RunRecipe(Snapshot(), recipe);
      if run.Err? {
        return Err(run.error);
      }
      var node := From(run.value);
      if node.Err? {
        return Err(node.error);
      }
      SnapshotOfFrom(run.value);
      var diff := Blob(Version(blob.version.clock + 1, client), node.value);
      blob := diff;
      return Ok((diff, Fanout(subs, diff, None)));
    }
  }

  /** The listener `diff => replica.apply(diff)` is subscribed to `doc` under `token`. */
  ghost predicate Forwards(doc: Doc, token: nat, listener: ListenerId)
    reads doc
  {
    Subscription(token, listener) in doc.subs
  }

  /**
   * A replica loaded from `doc.state()` whose listener forwards doc's diffs: after `doc`
   * runs a recipe and the listener calls are made, the replica's state equals doc's.
   */
  method UpdateAndReplay(doc: Doc, replica: Doc, token: nat, listener: ListenerId, recipe: Recipe)
      returns (r: Result<(Blob, seq<Delivery>), CrdtError>)
    requires doc != replica && doc.Valid() && replica.Valid()
    requires replica.State() == doc.State()
    modifies doc, replica
    ensures doc.Valid() && replica.Valid() && doc.subs == old(doc.subs)
    ensures Forwards(doc, token, listener) ==> replica.State() == doc.State() && replica.Snapshot() == doc.Snapshot()
    ensures (forall s :: s in doc.subs ==> s.listener != listener) ==> replica.State() == old(replica.State())
  {
    r := doc.Update(recipe);
    if r.Err? {
      return;
    }
    var diff := r.value.0;
    var calls := r.value.1;
    ghost var j := |calls|;
    if Forwards(doc, token, listener) {
      j :| 0 <= j < |doc.subs| && doc.subs[j] == Subscription(token, listener);
      assert calls[j].listener == listener;
    }
    var i := 0;
    while i < |calls|
      invariant 0 <= i <= |calls|
      invariant doc.Valid() && replica.Valid() && doc.subs == old(doc.subs)
      invariant doc.State() == diff && calls == Fanout(doc.subs, diff, None)
      invariant replica.State() == old(replica.State()) || replica.State() == diff
      invariant j < i ==> replica.State() == diff
      invariant (forall k :: 0 <= k < i ==> calls[k].listener != listener) ==> replica.State() == old(replica.State())
    {
      if calls[i].listener == listener {
        var _ := replica.Apply(calls[i].diff, calls[i].origin);
      }
      i := i + 1;
    }
  }
}
