/**
 * `TaskRepo` of packages/common/src/data/repos/task-repo.ts: tasks with a unique composite
 * index on (boardId, counter) and a writeable mask allowing only `deleted`, `text` and
 * `title` to change. There is no schema.
 */
module TaskRepos {
  import Lex
  import opened Wrappers
  import opened IndexKeys
  import opened DocRepos
  import IdentityRepos

  /** Rich text is carried as an opaque value. */
  type Richtext = seq<int>

  datatype Task = Task(
    id: Uuid,
    createdAt: IdentityRepos.Timestamp,
    updatedAt: IdentityRepos.Timestamp,
    authorId: Uuid,
    boardId: Uuid,
    counter: int,
    title: string,
    text: Richtext,
    deleted: bool)

  const BOARD_ID_COUNTER_INDEX: string := "boardId_counter"

  function TaskId(x: Task): Uuid { x.id }

  function BoardCounterKey(x: Task): seq<KeyPart> { [Id(x.boardId), Num(x.counter)] }

  predicate AnyTask(x: Task) { true }

  function Indexes(): seq<IndexDef<Task>>
  {
    [IndexDef(BOARD_ID_COUNTER_INDEX, BoardCounterKey, true, AnyTask)]
  }

  function Changes(a: Task, b: Task): set<string>
  {
    (if a.id != b.id then {"id"} else {})
    + (if a.createdAt != b.createdAt then {"createdAt"} else {})
    + (if a.updatedAt != b.updatedAt then {"updatedAt"} else {})
    + (if a.authorId != b.authorId then {"authorId"} else {})
    + (if a.boardId != b.boardId then {"boardId"} else {})
    + (if a.counter != b.counter then {"counter"} else {})
    + (if a.title != b.title then {"title"} else {})
    + (if a.text != b.text then {"text"} else {})
    + (if a.deleted != b.deleted then {"deleted"} else {})
  }

  const Mask: map<string, bool> := map["deleted" := true, "text" := true, "title" := true]

  /** Exactly the changes confined to `deleted`, `text` and `title` pass the mask. */
  lemma MaskAllows(a: Task, b: Task)
    ensures Allowed(Mask, Changes(a, b)) <==>
      a.id == b.id && a.createdAt == b.createdAt && a.updatedAt == b.updatedAt
      && a.authorId == b.authorId && a.boardId == b.boardId && a.counter == b.counter
  {
    if !(a.id == b.id && a.createdAt == b.createdAt && a.updatedAt == b.updatedAt
         && a.authorId == b.authorId && a.boardId == b.boardId && a.counter == b.counter) {
      var f :| f in Changes(a, b) && f in {"id", "createdAt", "updatedAt", "authorId", "boardId", "counter"};
      assert f !in Mask;
    }
  }

  /** The row of a `Task` starts with `[Id(b)]` exactly when it is on board `b`. */
  lemma BoardRow(x: Task, id: Uuid, b: Uuid)
    ensures PartsPrefix([Id(b)], RowParts(Indexes()[0], id, x)) <==> x.boardId == b
  {
    assert RowParts(Indexes()[0], id, x)[..1] == [Id(x.boardId)];
  }

  class TaskRepo {
    const store: DocRepo<Task>

    ghost predicate Valid()
      reads this, store
    {
      && store.Valid()
      && store.idOf == TaskId
      && store.indexes == Indexes()
      && store.schema == None
      && store.updateChecker == Some(Mask)
      && store.changedFields == Changes
    }

    constructor ()
      ensures Valid() && fresh(store) && store.docs == map[]
    {
      store := new DocRepo(TaskId, Indexes(), None, Some(Mask), Changes);
    }

    /** `getById`: undefined for an unknown id. */
    method GetById(id: Uuid) returns (r: Option<Task>)
      ensures r.Some? <==> id in store.docs
      ensures r.Some? ==> r.value == store.docs[id]
    {
      r := store.GetById(id);
    }

    /** `getByBoardId`: exactly the board's tasks, in increasing counter order. */
    method GetByBoardId(boardId: Uuid) returns (r: seq<Task>)
      requires Valid()
      ensures forall j :: 0 <= j < |r| ==> r[j].id in store.docs && store.docs[r[j].id] == r[j] && r[j].boardId == boardId
      ensures forall id :: id in store.docs && store.docs[id].boardId == boardId ==> store.docs[id] in r
      ensures forall j, l :: 0 <= j < l < |r| ==> r[j].counter < r[l].counter
    {
      r := store.Query(0, [Id(boardId)]);
      forall j | 0 <= j < |r| ensures r[j].boardId == boardId {
        BoardRow(r[j], r[j].id, boardId);
      }
      forall id | id in store.docs && store.docs[id].boardId == boardId ensures store.docs[id] in r {
        BoardRow(store.docs[id], id, boardId);
      }
      forall j, l | 0 <= j < l < |r| ensures r[j].counter < r[l].counter {
        CounterOrder(boardId, r[j], r[l]);
      }
    }

    method Create(task: Task) returns (r: Result<Task, RepoError>)
      requires Valid()
      modifies store
      ensures Valid()
      ensures r.Err? <==> store.CreateError(old(store.docs), task).Some?
      ensures r.Err? ==> r.error == store.CreateError(old(store.docs), task).value
      ensures r.Err? ==> store.docs == old(store.docs)
      ensures r.Ok? ==> store.docs == old(store.docs)[task.id := task]
    {
      r := store.Create(task);
    }

    /** `update(id, recipe)`: returns the `Task` after the change. */
    method Update(id: Uuid, recipe: Task -> Task) returns (r: Result<Task, RepoError>)
      requires Valid()
      modifies store
      ensures Valid()
      ensures r.Err? <==> store.ChangeError(old(store.docs), id, recipe, Some(Mask)).Some?
      ensures r.Err? ==> r.error == store.ChangeError(old(store.docs), id, recipe, Some(Mask)).value
      ensures r.Err? ==> store.docs == old(store.docs)
      ensures r.Ok? ==> r.value == recipe(old(store.docs)[id]) && store.docs == old(store.docs)[id := r.value]
    {
      r := store.Update(id, recipe);
    }
  }

  /** Two tasks of one board in strictly ascending row order have strictly ascending counters. */
  lemma CounterOrder(boardId: Uuid, a: Task, b: Task)
    requires a.boardId == boardId && b.boardId == boardId
    requires Lex.Less(Row(Indexes()[0], a.id, a), Row(Indexes()[0], b.id, b))
    ensures a.counter < b.counter
  {
    assert RowParts(Indexes()[0], a.id, a) == [Id(boardId)] + [Num(a.counter)] + [];
    assert RowParts(Indexes()[0], b.id, b) == [Id(boardId)] + [Num(b.counter)] + [];
    NumOrder([Id(boardId)], a.counter, b.counter, [], []);
    Lex.LessIrreflexive(Row(Indexes()[0], a.id, a));
  }

  /** At most one task per (board, counter). */
  lemma OneTaskPerCounter(repo: TaskRepo, a: Uuid, b: Uuid)
    requires repo.Valid() && a in repo.store.docs && b in repo.store.docs
    requires repo.store.docs[a].boardId == repo.store.docs[b].boardId
    requires repo.store.docs[a].counter == repo.store.docs[b].counter
    ensures a == b
  {
    StoredUnique(repo.store, 0, a, b);
  }

  /** A second task with a taken (board, counter) pair is refused by the unique index. */
  lemma CounterClashOnCreate(repo: TaskRepo, t: Task, other: Uuid)
    requires repo.Valid() && t.id !in repo.store.docs
    requires other in repo.store.docs
    requires repo.store.docs[other].boardId == t.boardId && repo.store.docs[other].counter == t.counter
    ensures repo.store.CreateError(repo.store.docs, t) == Some(UniqueError(BOARD_ID_COUNTER_INDEX))
  {
    CounterClash(repo.store, repo.store.docs, t, other);
  }

  lemma CounterClash(store: DocRepo<Task>, docs: map<Uuid, Task>, t: Task, other: Uuid)
    requires store.indexes == Indexes() && store.schema == None && store.idOf == TaskId
    requires t.id !in docs && other in docs
    requires docs[other].boardId == t.boardId && docs[other].counter == t.counter
    ensures store.CreateError(docs, t) == Some(UniqueError(BOARD_ID_COUNTER_INDEX))
  {
    assert other != t.id && BoardCounterKey(docs[other]) == BoardCounterKey(t);
    assert !NoClash(Indexes()[0], docs, t.id, t);
    assert store.FirstClash(docs, t.id, t, 0) == Some(0);
  }

  /** A change of `boardId`, `counter` or `authorId` is refused. */
  lemma ReadonlyFieldsRejected(repo: TaskRepo, id: Uuid, recipe: Task -> Task)
    requires repo.Valid() && id in repo.store.docs && recipe(repo.store.docs[id]).id == id
    requires var x, y := repo.store.docs[id], recipe(repo.store.docs[id]);
      x.boardId != y.boardId || x.counter != y.counter || x.authorId != y.authorId
    ensures repo.store.ChangeError(repo.store.docs, id, recipe, Some(Mask)) == Some(PermissionError)
  {
    MaskAllows(repo.store.docs[id], recipe(repo.store.docs[id]));
  }
}
