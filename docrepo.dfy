/**
 * An in-memory document repository with declared indexes, the store the identity, member
 * and task repositories are built on. Documents are kept by id; every declared index has an
 * ordered table of rows: a unique index stores the encoded key itself, so two documents
 * cannot share it, a non-unique index stores the key followed by the document id. Optional
 * parts of a declaration are a schema, checked on every write, and a writeable-field mask,
 * checked on every update.
 *
 * The repository class of the source and its index layer are not part of this model; what it
 * does here is stated in the README.
 */
module DocRepos {
  import Lex
  import opened Wrappers
  import opened Sorted
  import opened IndexKeys

  /** A declared index: `key`, `unique` and `include` of an index declaration. */
  datatype IndexDef<!D> = IndexDef(name: string, key: D -> seq<KeyPart>, unique: bool, included: D -> bool)

  datatype RepoError =
    | ValidationError
    | UniqueError(indexName: string)
    | PermissionError
    | NotFound
    | IdChanged
    | DuplicateId

  /** The parts of a document's row in an index table. */
  function RowParts<D>(def: IndexDef<D>, id: Uuid, d: D): seq<KeyPart>
  {
    if def.unique then def.key(d) else def.key(d) + [Id(id)]
  }

  function Row<D>(def: IndexDef<D>, id: Uuid, d: D): seq<int>
  {
    EncodeKey(RowParts(def, id, d))
  }

  /** The rows of two documents coincide only for equal keys (unique index) or the same id. */
  lemma RowsEqual<D>(def: IndexDef<D>, a: Uuid, da: D, b: Uuid, db: D)
    requires Row(def, a, da) == Row(def, b, db)
    ensures def.unique ==> def.key(da) == def.key(db)
    ensures !def.unique ==> a == b
  {
    EncodeKeyInjective(RowParts(def, a, da), RowParts(def, b, db));
    if !def.unique {
      var pa, pb := RowParts(def, a, da), RowParts(def, b, db);
      assert pa[|pa| - 1] == Id(a) && pb[|pb| - 1] == Id(b);
    }
  }

  /** An index table holds exactly one row per included document, pointing at its id. */
  ghost predicate TableAgrees<D>(t: seq<Entry<Uuid>>, docs: map<Uuid, D>, def: IndexDef<D>)
  {
    && Ascending(t)
    && (forall id :: id in docs && def.included(docs[id]) ==> Get(t, Row(def, id, docs[id])) == Some(id))
    && (forall i :: 0 <= i < |t| ==>
          t[i].value in docs && def.included(docs[t[i].value]) && Row(def, t[i].value, docs[t[i].value]) == t[i].key)
  }

  /** In a unique index no other included document has the key of `d`. */
  ghost predicate NoClash<D>(def: IndexDef<D>, docs: map<Uuid, D>, id: Uuid, d: D)
  {
    def.unique && def.included(d) ==>
      forall o :: o in docs && o != id && def.included(docs[o]) ==> def.key(docs[o]) != def.key(d)
  }

  /** A unique index holds at most one document per key. */
  lemma UniqueIndexAtMostOne<D>(t: seq<Entry<Uuid>>, docs: map<Uuid, D>, def: IndexDef<D>, a: Uuid, b: Uuid)
    requires TableAgrees(t, docs, def) && def.unique
    requires a in docs && b in docs && def.included(docs[a]) && def.included(docs[b])
    requires def.key(docs[a]) == def.key(docs[b])
    ensures a == b
  {
    assert Row(def, a, docs[a]) == Row(def, b, docs[b]);
  }

  /** Looking up the row of `d` in a unique index finds another document exactly when `d` clashes. */
  lemma ClashViaTable<D>(t: seq<Entry<Uuid>>, docs: map<Uuid, D>, def: IndexDef<D>, id: Uuid, d: D)
    requires TableAgrees(t, docs, def) && def.unique && def.included(d)
    ensures !NoClash(def, docs, id, d) <==> (Get(t, Row(def, id, d)).Some? && Get(t, Row(def, id, d)).value != id)
  {
    var g := Get(t, Row(def, id, d));
    if g.Some? && g.value != id {
      var j :| 0 <= j < |t| && t[j] == Entry(Row(def, id, d), g.value);
      RowsEqual(def, g.value, docs[g.value], id, d);
    }
    if !NoClash(def, docs, id, d) {
      var o :| o in docs && o != id && def.included(docs[o]) && def.key(docs[o]) == def.key(d);
      assert Row(def, o, docs[o]) == Row(def, id, d);
    }
  }

  /** The index table with the row of `prev` (if it was included) taken out. */
  function Cleared<D>(def: IndexDef<D>, t: seq<Entry<Uuid>>, id: Uuid, prev: Option<D>): (r: seq<Entry<Uuid>>)
    requires Ascending(t)
    ensures Ascending(r)
    ensures forall k :: Get(r, k) == if prev.Some? && def.included(prev.value) && k == Row(def, id, prev.value) then None else Get(t, k)
  {
    if prev.Some? && def.included(prev.value) then Remove(t, Row(def, id, prev.value)) else t
  }

  /** The index table after document `id` changes from `prev` (absent: `None`) to `next`. */
  function Reindex<D>(def: IndexDef<D>, t: seq<Entry<Uuid>>, id: Uuid, prev: Option<D>, next: D): (r: seq<Entry<Uuid>>)
    requires Ascending(t)
    ensures Ascending(r)
    ensures forall k :: Get(r, k) == if def.included(next) && k == Row(def, id, next) then Some(id) else Get(Cleared(def, t, id, prev), k)
  {
    var cleared := Cleared(def, t, id, prev);
    if def.included(next) then Insert(cleared, Row(def, id, next), id) else cleared
  }

  /** Every other included document keeps its row. */
  lemma ReindexKeepsOthers<D>(t: seq<Entry<Uuid>>, docs: map<Uuid, D>, def: IndexDef<D>, id: Uuid, next: D, o: Uuid)
    requires TableAgrees(t, docs, def) && NoClash(def, docs, id, next)
    requires o in docs && o != id && def.included(docs[o])
    ensures Get(Reindex(def, t, id, if id in docs then Some(docs[id]) else None, next), Row(def, o, docs[o])) == Some(o)
  {
    var ro := Row(def, o, docs[o]);
    if id in docs && def.included(docs[id]) {
      assert Get(t, Row(def, id, docs[id])) == Some(id);
      assert ro != Row(def, id, docs[id]);
    }
    if def.included(next) && ro == Row(def, id, next) {
      RowsEqual(def, o, docs[o], id, next);
    }
  }

  /** Every row of the new table belongs to an included document of the new map. */
  lemma ReindexRowsSound<D>(t: seq<Entry<Uuid>>, docs: map<Uuid, D>, def: IndexDef<D>, id: Uuid, next: D,
                            r: seq<Entry<Uuid>>, i: nat)
    requires TableAgrees(t, docs, def)
    requires r == Reindex(def, t, id, if id in docs then Some(docs[id]) else None, next) && i < |r|
    ensures r[i].value in docs[id := next] && def.included(docs[id := next][r[i].value])
    ensures Row(def, r[i].value, docs[id := next][r[i].value]) == r[i].key
  {
    var e := r[i];
    GetMember(r, i);
    if def.included(next) && e.key == Row(def, id, next) {
      assert e.value == id;
    } else {
      assert Get(Cleared(def, t, id, if id in docs then Some(docs[id]) else None), e.key) == Some(e.value);
      OldRowSound(t, docs, def, id, e);
    }
  }

  /** A row that survives the clearing of document `id` belongs to another document. */
  lemma OldRowSound<D>(t: seq<Entry<Uuid>>, docs: map<Uuid, D>, def: IndexDef<D>, id: Uuid, e: Entry<Uuid>)
    requires TableAgrees(t, docs, def)
    requires Get(Cleared(def, t, id, if id in docs then Some(docs[id]) else None), e.key) == Some(e.value)
    ensures e.value in docs && e.value != id && def.included(docs[e.value]) && Row(def, e.value, docs[e.value]) == e.key
  {
    var prev := if id in docs then Some(docs[id]) else None;
    assert Get(t, e.key) == Some(e.value);
    var j :| 0 <= j < |t| && t[j] == Entry(e.key, e.value);
  }

  lemma ReindexAgrees<D>(t: seq<Entry<Uuid>>, docs: map<Uuid, D>, def: IndexDef<D>, id: Uuid, next: D)
    requires TableAgrees(t, docs, def) && NoClash(def, docs, id, next)
    ensures TableAgrees(Reindex(def, t, id, if id in docs then Some(docs[id]) else None, next), docs[id := next], def)
  {
    var prev := if id in docs then Some(docs[id]) else None;
    var r := Reindex(def, t, id, prev, next);
    var docs' := docs[id := next];
    forall o | o in docs' && def.included(docs'[o]) ensures Get(r, Row(def, o, docs'[o])) == Some(o) {
      if o != id {
        ReindexKeepsOthers(t, docs, def, id, next, o);
      }
    }
    forall i | 0 <= i < |r|
      ensures r[i].value in docs' && def.included(docs'[r[i].value]) && Row(def, r[i].value, docs'[r[i].value]) == r[i].key
    {
      ReindexRowsSound(t, docs, def, id, next, r, i);
    }
  }

  function HasPrefix(p: seq<int>): seq<int> -> bool
  {
    x => Lex.IsPrefix(p, x)
  }

  /** The documents behind the rows of a table that start with `prefix`. */
  ghost predicate RowsOf<D>(t: seq<Entry<Uuid>>, docs: map<Uuid, D>, prefix: seq<KeyPart>, rows: seq<Entry<Uuid>>, acc: seq<D>)
  {
    && rows == Filter(t, HasPrefix(EncodeKey(prefix)))
    && |acc| == |rows|
    && forall j :: 0 <= j < |rows| ==> rows[j].value in docs && acc[j] == docs[rows[j].value]
  }

  lemma QuerySound<D>(t: seq<Entry<Uuid>>, docs: map<Uuid, D>, def: IndexDef<D>, idOf: D -> Uuid,
                      prefix: seq<KeyPart>, rows: seq<Entry<Uuid>>, acc: seq<D>, j: nat)
    requires TableAgrees(t, docs, def) && (forall id :: id in docs ==> idOf(docs[id]) == id)
    requires RowsOf(t, docs, prefix, rows, acc) && j < |acc|
    ensures idOf(acc[j]) in docs && docs[idOf(acc[j])] == acc[j] && def.included(acc[j])
    ensures PartsPrefix(prefix, RowParts(def, idOf(acc[j]), acc[j]))
    ensures Row(def, idOf(acc[j]), acc[j]) == rows[j].key
  {
    assert rows[j] in rows;
    assert rows[j] in t && HasPrefix(EncodeKey(prefix))(rows[j].key);
    var m :| 0 <= m < |t| && t[m] == rows[j];
    EncodeKeyPrefix(prefix, RowParts(def, rows[j].value, docs[rows[j].value]));
  }

  lemma QueryComplete<D>(t: seq<Entry<Uuid>>, docs: map<Uuid, D>, def: IndexDef<D>,
                         prefix: seq<KeyPart>, rows: seq<Entry<Uuid>>, acc: seq<D>, id: Uuid)
    requires TableAgrees(t, docs, def) && RowsOf(t, docs, prefix, rows, acc)
    requires id in docs && def.included(docs[id]) && PartsPrefix(prefix, RowParts(def, id, docs[id]))
    ensures docs[id] in acc
  {
    EncodeKeyPrefix(prefix, RowParts(def, id, docs[id]));
    assert Entry(Row(def, id, docs[id]), id) in t;
    var m :| 0 <= m < |t| && t[m] == Entry(Row(def, id, docs[id]), id);
    assert HasPrefix(EncodeKey(prefix))(t[m].key);
    assert t[m] in rows;
    var j :| 0 <= j < |rows| && rows[j] == t[m];
    assert acc[j] == docs[id];
  }

  /** The facts `get` promises about the collected documents. */
  lemma QueryFacts<D>(t: seq<Entry<Uuid>>, docs: map<Uuid, D>, def: IndexDef<D>, idOf: D -> Uuid,
                      prefix: seq<KeyPart>, rows: seq<Entry<Uuid>>, acc: seq<D>)
    requires TableAgrees(t, docs, def) && (forall id :: id in docs ==> idOf(docs[id]) == id)
    requires RowsOf(t, docs, prefix, rows, acc)
    ensures forall j :: 0 <= j < |acc| ==>
      idOf(acc[j]) in docs && docs[idOf(acc[j])] == acc[j] && def.included(acc[j])
      && PartsPrefix(prefix, RowParts(def, idOf(acc[j]), acc[j]))
    ensures forall id :: id in docs && def.included(docs[id]) && PartsPrefix(prefix, RowParts(def, id, docs[id])) ==> docs[id] in acc
    ensures forall j, l :: 0 <= j < l < |acc| ==> Lex.Less(Row(def, idOf(acc[j]), acc[j]), Row(def, idOf(acc[l]), acc[l]))
  {
    forall j | 0 <= j < |acc|
      ensures idOf(acc[j]) in docs && docs[idOf(acc[j])] == acc[j] && def.included(acc[j])
      ensures PartsPrefix(prefix, RowParts(def, idOf(acc[j]), acc[j]))
    {
      QuerySound(t, docs, def, idOf, prefix, rows, acc, j);
    }
    forall id | id in docs && def.included(docs[id]) && PartsPrefix(prefix, RowParts(def, id, docs[id]))
      ensures docs[id] in acc
    {
      QueryComplete(t, docs, def, prefix, rows, acc, id);
    }
    FilterAscending(t, HasPrefix(EncodeKey(prefix)));
    forall j, l | 0 <= j < l < |acc|
      ensures Lex.Less(Row(def, idOf(acc[j]), acc[j]), Row(def, idOf(acc[l]), acc[l]))
    {
      QuerySound(t, docs, def, idOf, prefix, rows, acc, j);
      QuerySound(t, docs, def, idOf, prefix, rows, acc, l);
    }
  }

  /** The walk behind `get`: the documents of the rows of `t` that start with `prefix`, in table order. */
  method Collect<D>(t: seq<Entry<Uuid>>, docs: map<Uuid, D>, prefix: seq<KeyPart>) returns (acc: seq<D>, rows: seq<Entry<Uuid>>)
    requires forall j :: 0 <= j < |t| ==> t[j].value in docs
    ensures RowsOf(t, docs, prefix, rows, acc)
  {
    var keep := HasPrefix(EncodeKey(prefix));
    acc := [];
    rows := [];
    var k := 0;
    while k < |t|
      invariant 0 <= k <= |t|
      invariant rows == Filter(t[..k], keep)
      invariant |acc| == |rows|
      invariant forall j :: 0 <= j < |rows| ==> rows[j].value in docs && acc[j] == docs[rows[j].value]
    {
      FilterAppend(t[..k], [t[k]], keep);
      assert t[..k + 1] == t[..k] + [t[k]];
      if keep(t[k].key) {
        acc := acc + [docs[t[k].value]];
        rows := rows + [t[k]];
      }
      k := k + 1;
    }
    assert t[..k] == t;
  }

  /** A change is allowed when every changed field is marked writeable. */
  predicate Allowed(mask: map<string, bool>, changed: set<string>)
  {
    forall f :: f in changed ==> f in mask && mask[f]
  }

  /**
   * The repository invariant: every document is stored under its own id and meets the
   * schema, and every index table agrees with the documents.
   */
  ghost predicate Consistent<D>(idOf: D -> Uuid, indexes: seq<IndexDef<D>>, schema: Option<D -> bool>,
                                docs: map<Uuid, D>, tables: seq<seq<Entry<Uuid>>>)
  {
    && |tables| == |indexes|
    && (forall id :: id in docs ==> idOf(docs[id]) == id && (schema.None? || schema.value(docs[id])))
    && (forall i :: 0 <= i < |indexes| ==> TableAgrees(tables[i], docs, indexes[i]))
  }

  /** Every index table after document `id` changes from `prev` to `next`. */
  function ReindexAll<D>(indexes: seq<IndexDef<D>>, tables: seq<seq<Entry<Uuid>>>, id: Uuid, prev: Option<D>, next: D): (r: seq<seq<Entry<Uuid>>>)
    requires |tables| == |indexes| && forall j :: 0 <= j < |tables| ==> Ascending(tables[j])
    ensures |r| == |tables| && forall j :: 0 <= j < |r| ==> r[j] == Reindex(indexes[j], tables[j], id, prev, next)
  {
    seq(|tables|, j requires 0 <= j < |tables| => Reindex(indexes[j], tables[j], id, prev, next))
  }

  /** Storing a conforming document without a clash keeps the repository invariant. */
  lemma StoreConsistent<D>(idOf: D -> Uuid, indexes: seq<IndexDef<D>>, schema: Option<D -> bool>,
                           docs: map<Uuid, D>, tables: seq<seq<Entry<Uuid>>>, id: Uuid, d: D)
    requires Consistent(idOf, indexes, schema, docs, tables)
    requires idOf(d) == id && (schema.None? || schema.value(d))
    requires forall i :: 0 <= i < |indexes| ==> NoClash(indexes[i], docs, id, d)
    ensures forall j :: 0 <= j < |tables| ==> Ascending(tables[j])
    ensures Consistent(idOf, indexes, schema, docs[id := d], ReindexAll(indexes, tables, id, if id in docs then Some(docs[id]) else None, d))
  {
    var r := ReindexAll(indexes, tables, id, if id in docs then Some(docs[id]) else None, d);
    forall i | 0 <= i < |indexes| ensures TableAgrees(r[i], docs[id := d], indexes[i]) {
      ReindexAgrees(tables[i], docs, indexes[i], id, d);
    }
  }

  class DocRepo<D> {
    const idOf: D -> Uuid
    const indexes: seq<IndexDef<D>>
    const schema: Option<D -> bool>
    const updateChecker: Option<map<string, bool>>
    /** The names of the fields that differ between two versions of a document. */
    const changedFields: (D, D) -> set<string>

    var docs: map<Uuid, D>
    var tables: seq<seq<Entry<Uuid>>>

    predicate Conforms(d: D)
    {
      schema.None? || schema.value(d)
    }

    ghost predicate Valid()
      reads this
    {
      Consistent(idOf, indexes, schema, docs, tables)
    }

    constructor (idOf: D -> Uuid, indexes: seq<IndexDef<D>>, schema: Option<D -> bool>,
                 updateChecker: Option<map<string, bool>>, changedFields: (D, D) -> set<string>)
      ensures Valid() && docs == map[]
      ensures this.idOf == idOf && this.indexes == indexes && this.schema == schema
      ensures this.updateChecker == updateChecker && this.changedFields == changedFields
    {
      this.idOf := idOf;
      this.indexes := indexes;
      this.schema := schema;
      this.updateChecker := updateChecker;
      this.changedFields := changedFields;
      docs := map[];
      tables := seq(|indexes|, _ => []);
    }

    /** The first index, from `from` on, on which `d` (as document `id`) clashes. */
    ghost function FirstClash(docs: map<Uuid, D>, id: Uuid, d: D, from: nat): (r: Option<nat>)
      decreases |indexes| - from
      ensures r.Some? ==> from <= r.value < |indexes| && !NoClash(indexes[r.value], docs, id, d)
      ensures r.None? ==> forall i :: from <= i < |indexes| ==> NoClash(indexes[i], docs, id, d)
      ensures r.Some? ==> forall i :: from <= i < r.value ==> NoClash(indexes[i], docs, id, d)
    {
      if from >= |indexes| then None
      else if !NoClash(indexes[from], docs, id, d) then Some(from)
      else FirstClash(docs, id, d, from + 1)
    }

    /** What rejects writing `d` as document `id`: the schema, then the unique indexes in declaration order. */
    ghost function WriteError(docs: map<Uuid, D>, id: Uuid, d: D): Option<RepoError>
    {
      if !Conforms(d) then Some(ValidationError)
      else match FirstClash(docs, id, d, 0)
        case Some(i) => Some(UniqueError(indexes[i].name))
        case None => None
    }

    /** What rejects `create(d)`. */
    ghost function CreateError(docs: map<Uuid, D>, d: D): Option<RepoError>
    {
      if !Conforms(d) then Some(ValidationError)
      else if idOf(d) in docs then Some(DuplicateId)
      else WriteError(docs, idOf(d), d)
    }

    /** What rejects changing document `id` by `change` under `checker`. */
    ghost function ChangeError(docs: map<Uuid, D>, id: Uuid, change: D -> D, checker: Option<map<string, bool>>): Option<RepoError>
    {
      if id !in docs then Some(NotFound)
      else if idOf(change(docs[id])) != id then Some(IdChanged)
      else if checker.Some? && !Allowed(checker.value, changedFields(docs[id], change(docs[id]))) then Some(PermissionError)
      else WriteError(docs, id, change(docs[id]))
    }

    /** `getById`: the document, or undefined for an unknown id. */
    method GetById(id: Uuid) returns (r: Option<D>)
      ensures r.Some? <==> id in docs
      ensures r.Some? ==> r.value == docs[id]
    {
      if id in docs {
        return Some(docs[id]);
      }
      return None;
    }

    /** `getUnique(index, key)`: the one included document with that key, or undefined. */
    method GetUnique(i: nat, key: seq<KeyPart>) returns (r: Option<D>)
      requires Valid() && i < |indexes| && indexes[i].unique
      ensures r.None? ==> forall id :: id in docs && indexes[i].included(docs[id]) ==> indexes[i].key(docs[id]) != key
      ensures r.Some? ==> idOf(r.value) in docs && docs[idOf(r.value)] == r.value
      ensures r.Some? ==> indexes[i].included(r.value) && indexes[i].key(r.value) == key
    {
      var def := indexes[i];
      var t := tables[i];
      match Get(t, EncodeKey(key))
      case None =>
        forall id | id in docs && def.included(docs[id]) ensures def.key(docs[id]) != key {
          assert Get(t, Row(def, id, docs[id])) == Some(id);
        }
        return None;
      case Some(id) =>
        var j :| 0 <= j < |t| && t[j] == Entry(EncodeKey(key), id);
        EncodeKeyInjective(def.key(docs[id]), key);
        return Some(docs[id]);
    }

    /** `get(index, prefix)`: walk the index table, collecting the documents whose row starts with `prefix`. */
    method Query(i: nat, prefix: seq<KeyPart>) returns (r: seq<D>)
      requires Valid() && i < |indexes|
      ensures forall j :: 0 <= j < |r| ==>
        idOf(r[j]) in docs && docs[idOf(r[j])] == r[j] && indexes[i].included(r[j])
        && PartsPrefix(prefix, RowParts(indexes[i], idOf(r[j]), r[j]))
      ensures forall id :: id in docs && indexes[i].included(docs[id]) && PartsPrefix(prefix, RowParts(indexes[i], id, docs[id])) ==> docs[id] in r
      ensures forall j, l :: 0 <= j < l < |r| ==>
        Lex.Less(Row(indexes[i], idOf(r[j]), r[j]), Row(indexes[i], idOf(r[l]), r[l]))
    {
      ghost var rows;
      assert forall j :: 0 <= j < |tables[i]| ==> tables[i][j].value in docs;
      r, rows := Collect(tables[i], docs, prefix);
      QueryFacts(tables[i], docs, indexes[i], idOf, prefix, rows, r);
    }

    /** Scan the unique indexes through their tables for the first clash of `d` as document `id`. */
    method FindClash(id: Uuid, d: D) returns (r: Option<nat>)
      requires Valid()
      ensures r == FirstClash(docs, id, d, 0)
    {
      var i := 0;
      while i < |indexes|
        invariant 0 <= i <= |indexes|
        invariant FirstClash(docs, id, d, 0) == FirstClash(docs, id, d, i)
      {
        var def := indexes[i];
        if def.unique && def.included(d) {
          ClashViaTable(tables[i], docs, def, id, d);
          var g := Get(tables[i], Row(def, id, d));
          if g.Some? && g.value != id {
            return Some(i);
          }
        }
        i := i + 1;
      }
      return None;
    }

    /** Store `d` as document `id` and bring every index table up to date. */
    method Store(id: Uuid, d: D)
      requires Valid() && idOf(d) == id && Conforms(d)
      requires forall i :: 0 <= i < |indexes| ==> NoClash(indexes[i], docs, id, d)
      modifies this
      ensures Valid() && docs == old(docs)[id := d]
    {
      StoreConsistent(idOf, indexes, schema, docs, tables, id, d);
      tables := ReindexAll(indexes, tables, id, if id in docs then Some(docs[id]) else None, d);
      docs := docs[id := d];
    }

    /** `create(d)`: validate, reject a taken unique key, then store. */
    method Create(d: D) returns (r: Result<D, RepoError>)
      requires Valid()
      modifies this
      ensures Valid()
      ensures r.Err? <==> CreateError(old(docs), d).Some?
      ensures r.Err? ==> r.error == CreateError(old(docs), d).value && docs == old(docs) && tables == old(tables)
      ensures r.Ok? ==> r.value == d && docs == old(docs)[idOf(d) := d]
    {
      if !Conforms(d) {
        return Err(ValidationError);
      }
      if idOf(d) in docs {
        return Err(DuplicateId);
      }
      var clash := FindClash(idOf(d), d);
      if clash.Some? {
        return Err(UniqueError(indexes[clash.value].name));
      }
      Store(idOf(d), d);
      return Ok(d);
    }

    /** The shared path of `update` and `apply`: find, change, check the mask, validate, re-index. */
    method Change(id: Uuid, change: D -> D, checker: Option<map<string, bool>>) returns (r: Result<D, RepoError>)
      requires Valid()
      modifies this
      ensures Valid()
      ensures r.Err? <==> ChangeError(old(docs), id, change, checker).Some?
      ensures r.Err? ==> r.error == ChangeError(old(docs), id, change, checker).value && docs == old(docs) && tables == old(tables)
      ensures r.Ok? ==> r.value == change(old(docs)[id]) && docs == old(docs)[id := r.value]
    {
      if id !in docs {
        return Err(NotFound);
      }
      var next := change(docs[id]);
      if idOf(next) != id {
        return Err(IdChanged);
      }
      if checker.Some? && !Allowed(checker.value, changedFields(docs[id], next)) {
        return Err(PermissionError);
      }
      if !Conforms(next) {
        return Err(ValidationError);
      }
      var clash := FindClash(id, next);
      if clash.Some? {
        return Err(UniqueError(indexes[clash.value].name));
      }
      Store(id, next);
      return Ok(next);
    }

    /** `update(id, recipe)`: checked against the repository's own writeable mask; returns the new document. */
    method Update(id: Uuid, recipe: D -> D) returns (r: Result<D, RepoError>)
      requires Valid()
      modifies this
      ensures Valid()
      ensures r.Err? <==> ChangeError(old(docs), id, recipe, updateChecker).Some?
      ensures r.Err? ==> r.error == ChangeError(old(docs), id, recipe, updateChecker).value && docs == old(docs)
      ensures r.Ok? ==> r.value == recipe(old(docs)[id]) && docs == old(docs)[id := r.value]
    {
      r := Change(id, recipe, updateChecker);
    }

    /** `apply(id, diff, checker?)`: a given checker replaces the repository's own mask. */
    method Apply(id: Uuid, diff: D -> D, checker: Option<map<string, bool>>) returns (r: Result<D, RepoError>)
      requires Valid()
      modifies this
      ensures Valid()
      ensures var effective := if checker.Some? then checker else updateChecker;
        && (r.Err? <==> ChangeError(old(docs), id, diff, effective).Some?)
        && (r.Err? ==> r.error == ChangeError(old(docs), id, diff, effective).value && docs == old(docs))
        && (r.Ok? ==> r.value == diff(old(docs)[id]) && docs == old(docs)[id := r.value])
    {
      r := Change(id, diff, if checker.Some? then checker else updateChecker);
    }
  }

  /** After a successful write, every unique index holds at most one document per key. */
  lemma StoredUnique<D>(repo: DocRepo<D>, i: nat, a: Uuid, b: Uuid)
    requires repo.Valid() && i < |repo.indexes| && repo.indexes[i].unique
    requires a in repo.docs && b in repo.docs
    requires repo.indexes[i].included(repo.docs[a]) && repo.indexes[i].included(repo.docs[b])
    requires repo.indexes[i].key(repo.docs[a]) == repo.indexes[i].key(repo.docs[b])
    ensures a == b
  {
    UniqueIndexAtMostOne(repo.tables[i], repo.docs, repo.indexes[i], a, b);
  }

  /**
   * Rewriting a stored document without touching any index key or inclusion cannot clash
   * with another document: the unique indexes already held its keys.
   */
  lemma SameKeysNoClash<D>(repo: DocRepo<D>, id: Uuid, d: D)
    requires repo.Valid() && id in repo.docs
    requires forall i :: 0 <= i < |repo.indexes| ==>
      repo.indexes[i].key(d) == repo.indexes[i].key(repo.docs[id]) && repo.indexes[i].included(d) == repo.indexes[i].included(repo.docs[id])
    ensures repo.FirstClash(repo.docs, id, d, 0).None?
  {
    forall i | 0 <= i < |repo.indexes| ensures NoClash(repo.indexes[i], repo.docs, id, d) {
      var def := repo.indexes[i];
      if def.unique && def.included(d) {
        forall o | o in repo.docs && def.included(repo.docs[o]) && def.key(repo.docs[o]) == def.key(d) ensures o == id {
          UniqueIndexAtMostOne(repo.tables[i], repo.docs, def, o, id);
        }
      }
    }
  }
}
