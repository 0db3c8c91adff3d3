/**
 * `MemberRepo` of packages/common/src/data/repos/member-repo.ts: board memberships with a
 * unique composite index on (userId, boardId), a non-unique index on boardId, a writeable
 * mask that marks boardId and userId as not writeable, and the member schema.
 */
module MemberRepos {
  import opened Wrappers
  import opened IndexKeys
  import opened DocRepos
  import IdentityRepos

  datatype Member = Member(id: Uuid, createdAt: IdentityRepos.Timestamp, updatedAt: IdentityRepos.Timestamp, userId: Uuid, boardId: Uuid)

  const USER_ID_BOARD_ID_INDEX: string := "userId_boardId"
  const BOARD_ID_INDEX: string := "boardId"

  function MemberId(x: Member): Uuid { x.id }

  function UserBoardKey(x: Member): seq<KeyPart> { [Id(x.userId), Id(x.boardId)] }

  function BoardKey(x: Member): seq<KeyPart> { [Id(x.boardId)] }

  predicate AnyMember(x: Member) { true }

  function Indexes(): seq<IndexDef<Member>>
  {
    [IndexDef(USER_ID_BOARD_ID_INDEX, UserBoardKey, true, AnyMember), IndexDef(BOARD_ID_INDEX, BoardKey, false, AnyMember)]
  }

  predicate Schema(x: Member)
  {
    IdentityRepos.IsUuid(x.id) && IdentityRepos.IsUuid(x.userId) && IdentityRepos.IsUuid(x.boardId)
  }

  function Changes(a: Member, b: Member): set<string>
  {
    (if a.id != b.id then {"id"} else {})
    + (if a.createdAt != b.createdAt then {"createdAt"} else {})
    + (if a.updatedAt != b.updatedAt then {"updatedAt"} else {})
    + (if a.userId != b.userId then {"userId"} else {})
    + (if a.boardId != b.boardId then {"boardId"} else {})
  }

  const Mask: map<string, bool> := map["boardId" := false, "userId" := false]

  /** The composite row of a membership starts with `[Id(u)]` exactly when the member is the user's. */
  lemma UserRow(x: Member, id: Uuid, u: Uuid)
    ensures PartsPrefix([Id(u)], RowParts(Indexes()[0], id, x)) <==> x.userId == u
  {
    assert RowParts(Indexes()[0], id, x)[..1] == [Id(x.userId)];
  }

  /** The board row of a membership starts with `[Id(b)]` exactly when the member is on board `b`. */
  lemma BoardRow(x: Member, id: Uuid, b: Uuid)
    ensures PartsPrefix([Id(b)], RowParts(Indexes()[1], id, x)) <==> x.boardId == b
  {
    assert RowParts(Indexes()[1], id, x)[..1] == [Id(x.boardId)];
  }

  class MemberRepo {
    const store: DocRepo<Member>

    ghost predicate Valid()
      reads this, store
    {
      && store.Valid()
      && store.idOf == MemberId
      && store.indexes == Indexes()
      && store.schema == Some(Schema)
      && store.updateChecker == Some(Mask)
      && store.changedFields == Changes
    }

    constructor ()
      ensures Valid() && fresh(store) && store.docs == map[]
    {
      store := new DocRepo(MemberId, Indexes(), Some(Schema), Some(Mask), Changes);
    }

    /** `apply(id, diff)`: checked against the repository's own mask. */
    method Apply(id: Uuid, diff: Member -> Member) returns (r: Result<Member, RepoError>)
      requires Valid()
      modifies store
      ensures Valid()
      ensures r.Err? <==> store.ChangeError(old(store.docs), id, diff, Some(Mask)).Some?
      ensures r.Err? ==> r.error == store.ChangeError(old(store.docs), id, diff, Some(Mask)).value
      ensures r.Err? ==> store.docs == old(store.docs)
      ensures r.Ok? ==> store.docs == old(store.docs)[id := diff(old(store.docs)[id])]
    {
      r := store.Apply(id, diff, None);
    }

    method Create(member: Member) returns (r: Result<Member, RepoError>)
      requires Valid()
      modifies store
      ensures Valid()
      ensures r.Err? <==> store.CreateError(old(store.docs), member).Some?
      ensures r.Err? ==> r.error == store.CreateError(old(store.docs), member).value
      ensures r.Err? ==> store.docs == old(store.docs)
      ensures r.Ok? ==> store.docs == old(store.docs)[member.id := member]
    {
      r := store.Create(member);
    }

    method GetById(id: Uuid) returns (r: Option<Member>)
      ensures r.Some? <==> id in store.docs
      ensures r.Some? ==> r.value == store.docs[id]
    {
      r := store.GetById(id);
    }

    /** `getByUserId`: every membership of the user (the composite key starts with the user id). */
    method GetByUserId(userId: Uuid) returns (r: seq<Member>)
      requires Valid()
      ensures forall j :: 0 <= j < |r| ==> r[j].id in store.docs && store.docs[r[j].id] == r[j] && r[j].userId == userId
      ensures forall id :: id in store.docs && store.docs[id].userId == userId ==> store.docs[id] in r
    {
      r := store.Query(0, [Id(userId)]);
      forall j | 0 <= j < |r| ensures r[j].userId == userId {
        UserRow(r[j], r[j].id, userId);
      }
      forall id | id in store.docs && store.docs[id].userId == userId ensures store.docs[id] in r {
        UserRow(store.docs[id], id, userId);
      }
    }

    /** `getByBoardId`: every membership of the board; several members may share a board. */
    method GetByBoardId(boardId: Uuid) returns (r: seq<Member>)
      requires Valid()
      ensures forall j :: 0 <= j < |r| ==> r[j].id in store.docs && store.docs[r[j].id] == r[j] && r[j].boardId == boardId
      ensures forall id :: id in store.docs && store.docs[id].boardId == boardId ==> store.docs[id] in r
    {
      r := store.Query(1, [Id(boardId)]);
      forall j | 0 <= j < |r| ensures r[j].boardId == boardId {
        BoardRow(r[j], r[j].id, boardId);
      }
      forall id | id in store.docs && store.docs[id].boardId == boardId ensures store.docs[id] in r {
        BoardRow(store.docs[id], id, boardId);
      }
    }

    /** `getByUserIdAndBoardId`: the one membership of the user on the board, or undefined. */
    method GetByUserIdAndBoardId(userId: Uuid, boardId: Uuid) returns (r: Option<Member>)
      requires Valid()
      ensures r.None? ==> forall id :: id in store.docs ==> store.docs[id].userId != userId || store.docs[id].boardId != boardId
      ensures r.Some? ==> r.value.id in store.docs && store.docs[r.value.id] == r.value
      ensures r.Some? ==> r.value.userId == userId && r.value.boardId == boardId
    {
      r := store.GetUnique(0, [Id(userId), Id(boardId)]);
    }

    method Update(id: Uuid, recipe: Member -> Member) returns (r: Result<Member, RepoError>)
      requires Valid()
      modifies store
      ensures Valid()
      ensures r.Err? <==> store.ChangeError(old(store.docs), id, recipe, Some(Mask)).Some?
      ensures r.Err? ==> r.error == store.ChangeError(old(store.docs), id, recipe, Some(Mask)).value
      ensures r.Err? ==> store.docs == old(store.docs)
      ensures r.Ok? ==> r.value == recipe(old(store.docs)[id]) && store.docs == old(store.docs)[id := r.value]
    {
      r := store.Update(id, recipe);
    }
  }

  /** At most one membership per (user, board) pair. */
  lemma OneMembershipPerPair(repo: MemberRepo, a: Uuid, b: Uuid)
    requires repo.Valid() && a in repo.store.docs && b in repo.store.docs
    requires repo.store.docs[a].userId == repo.store.docs[b].userId
    requires repo.store.docs[a].boardId == repo.store.docs[b].boardId
    ensures a == b
  {
    StoredUnique(repo.store, 0, a, b);
  }

  /** A change of `boardId` or `userId` is refused, and the stored member stays as it was. */
  lemma BoardAndUserImmutable(repo: MemberRepo, id: Uuid, recipe: Member -> Member)
    requires repo.Valid() && id in repo.store.docs && recipe(repo.store.docs[id]).id == id
    requires recipe(repo.store.docs[id]).boardId != repo.store.docs[id].boardId
      || recipe(repo.store.docs[id]).userId != repo.store.docs[id].userId
    ensures repo.store.ChangeError(repo.store.docs, id, recipe, Some(Mask)) == Some(PermissionError)
  {
    var changed := Changes(repo.store.docs[id], recipe(repo.store.docs[id]));
    assert "boardId" in changed || "userId" in changed;
  }
}
