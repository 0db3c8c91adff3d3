/**
 * `IdentityRepo` of packages/data/src/data/repos/identity-repo.ts: sign-in identities in a
 * document repository with a unique email index (only identities that have an email) and a
 * unique user-id index, the identity schema, the writeable mask of `apply`, and the
 * translation of an email clash on `create` into the domain error `identity_email_taken`.
 */
module IdentityRepos {
  import opened Wrappers
  import opened IndexKeys
  import opened DocRepos

  /** Milliseconds since the epoch. */
  type Timestamp = int

  datatype VerificationCode = VerificationCode(code: string, expires: Timestamp)

  datatype Identity = Identity(
    id: Uuid,
    createdAt: Timestamp,
    updatedAt: Timestamp,
    userId: Uuid,
    email: Option<string>,
    verificationCode: Option<VerificationCode>,
    authActivityLog: seq<Timestamp>)

  const EMAIL_INDEX: string := "email"
  const USER_ID_INDEX: string := "userId"
  const EMAIL_TAKEN_CODE: string := "identity_email_taken"

  function IdentityId(x: Identity): Uuid { x.id }

  function EmailKey(x: Identity): seq<KeyPart> { if x.email.Some? then [Str(x.email.value)] else [] }

  predicate HasEmail(x: Identity) { x.email.Some? }

  function UserIdKey(x: Identity): seq<KeyPart> { [Id(x.userId)] }

  predicate Always(x: Identity) { true }

  /** The two declared indexes, in declaration order. */
  function Indexes(): seq<IndexDef<Identity>>
  {
    [IndexDef(EMAIL_INDEX, EmailKey, true, HasEmail), IndexDef(USER_ID_INDEX, UserIdKey, true, Always)]
  }

  /** A UUID is sixteen bytes. */
  predicate IsUuid(u: Uuid) { |u| == 16 }

  /** The schema: ids are UUIDs, the email is a string and the verification code is present. */
  predicate Schema(x: Identity)
  {
    IsUuid(x.id) && IsUuid(x.userId) && x.email.Some? && x.verificationCode.Some?
  }

  /** The fields in which two identities differ. */
  function Changes(a: Identity, b: Identity): set<string>
  {
    (if a.id != b.id then {"id"} else {})
    + (if a.createdAt != b.createdAt then {"createdAt"} else {})
    + (if a.updatedAt != b.updatedAt then {"updatedAt"} else {})
    + (if a.userId != b.userId then {"userId"} else {})
    + (if a.email != b.email then {"email"} else {})
    + (if a.verificationCode != b.verificationCode then {"verificationCode"} else {})
    + (if a.authActivityLog != b.authActivityLog then {"authActivityLog"} else {})
  }

  /** The writeable checker `apply` passes. */
  const ApplyMask: map<string, bool> := map["email" := true, "verificationCode" := true, "authActivityLog" := true]

  /** `apply` accepts exactly the diffs that leave every field but the three writeable ones alone. */
  lemma ApplyMaskAllows(a: Identity, b: Identity)
    ensures Allowed(ApplyMask, Changes(a, b)) <==>
      a.id == b.id && a.createdAt == b.createdAt && a.updatedAt == b.updatedAt && a.userId == b.userId
  {
    if !(a.id == b.id && a.createdAt == b.createdAt && a.updatedAt == b.updatedAt && a.userId == b.userId) {
      var f :| f in Changes(a, b) && f in {"id", "createdAt", "updatedAt", "userId"};
      assert f !in ApplyMask;
    }
  }

  datatype IdentityError = EmailTaken(message: string, code: string) | Repo(error: RepoError)

  function EmailText(x: Identity): string
  {
    if x.email.Some? then x.email.value else "undefined"
  }

  class IdentityRepo {
    const store: DocRepo<Identity>

    ghost predicate Valid()
      reads this, store
    {
      && store.Valid()
      && store.idOf == IdentityId
      && store.indexes == Indexes()
      && store.schema == Some(Schema)
      && store.updateChecker == None
      && store.changedFields == Changes
    }

    constructor ()
      ensures Valid() && fresh(store) && store.docs == map[]
    {
      store := new DocRepo(IdentityId, Indexes(), Some(Schema), None, Changes);
    }

    /** `apply(id, diff)`: only email, verification code and activity log may change. */
    method Apply(id: Uuid, diff: Identity -> Identity) returns (r: Result<Identity, RepoError>)
      requires Valid()
      modifies store
      ensures Valid()
      ensures r.Err? <==> store.ChangeError(old(store.docs), id, diff, Some(ApplyMask)).Some?
      ensures r.Err? ==> r.error == store.ChangeError(old(store.docs), id, diff, Some(ApplyMask)).value
      ensures r.Err? ==> store.docs == old(store.docs)
      ensures r.Ok? ==> store.docs == old(store.docs)[id := diff(old(store.docs)[id])]
    {
      r := store.Apply(id, diff, Some(ApplyMask));
    }

    method GetById(id: Uuid) returns (r: Option<Identity>)
      ensures r.Some? <==> id in store.docs
      ensures r.Some? ==> r.value == store.docs[id]
    {
      r := store.GetById(id);
    }

    /** `getByEmail`: the identity with that email, or undefined. */
    method GetByEmail(email: string) returns (r: Option<Identity>)
      requires Valid()
      ensures r.None? ==> forall id :: id in store.docs ==> store.docs[id].email != Some(email)
      ensures r.Some? ==> r.value.id in store.docs && store.docs[r.value.id] == r.value && r.value.email == Some(email)
    {
      r := store.GetUnique(0, [Str(email)]);
    }

    /** `getByUserId`: the identity of that user, or undefined. */
    method GetByUserId(userId: Uuid) returns (r: Option<Identity>)
      requires Valid()
      ensures r.None? ==> forall id :: id in store.docs ==> store.docs[id].userId != userId
      ensures r.Some? ==> r.value.id in store.docs && store.docs[r.value.id] == r.value && r.value.userId == userId
    {
      r := store.GetUnique(1, [Id(userId)]);
    }

    /** The error `create(identity)` throws against the identities `docs`, if any. */
    ghost function CreateFailure(docs: map<Uuid, Identity>, identity: Identity): (e: Option<IdentityError>)
      ensures e.None? <==> store.CreateError(docs, identity).None?
      ensures store.CreateError(docs, identity) == Some(UniqueError(EMAIL_INDEX)) ==> e.Some? && e.value.EmailTaken?
      ensures e.Some? && !e.value.EmailTaken? ==> e == Some(Repo(store.CreateError(docs, identity).value))
    {
      match store.CreateError(docs, identity)
      case None => None
      case Some(err) =>
        if err == UniqueError(EMAIL_INDEX)
        then Some(EmailTaken("user with email " + EmailText(identity) + " already exists", EMAIL_TAKEN_CODE))
        else Some(Repo(err))
    }

    /** `create`: an email clash becomes `EmailTaken`; every other failure is passed on unchanged. */
    method Create(identity: Identity) returns (r: Result<Identity, IdentityError>)
      requires Valid()
      modifies store
      ensures Valid()
      ensures var e := store.CreateError(old(store.docs), identity);
        && (e.None? ==> r == Ok(identity) && store.docs == old(store.docs)[identity.id := identity])
        && (e == Some(UniqueError(EMAIL_INDEX)) ==>
              r == Err(EmailTaken("user with email " + EmailText(identity) + " already exists", EMAIL_TAKEN_CODE)))
        && (e.Some? && e != Some(UniqueError(EMAIL_INDEX)) ==> r == Err(Repo(e.value)))
        && (e.Some? ==> store.docs == old(store.docs))
      ensures r.Err? <==> CreateFailure(old(store.docs), identity).Some?
      ensures r.Err? ==> r.error == CreateFailure(old(store.docs), identity).value
    {
      var created := store.Create(identity);
      match created
      case Ok(x) =>
        return Ok(x);
      case Err(err) =>
        if err.UniqueError? && err.indexName == EMAIL_INDEX {
          return Err(EmailTaken("user with email " + EmailText(identity) + " already exists", EMAIL_TAKEN_CODE));
        }
        return Err(Repo(err));
    }

    /** `update(id, recipe)`: no writeable mask; returns the new identity. */
    method Update(id: Uuid, recipe: Identity -> Identity) returns (r: Result<Identity, RepoError>)
      requires Valid()
      modifies store
      ensures Valid()
      ensures r.Err? <==> store.ChangeError(old(store.docs), id, recipe, None).Some?
      ensures r.Err? ==> r.error == store.ChangeError(old(store.docs), id, recipe, None).value
      ensures r.Err? ==> store.docs == old(store.docs)
      ensures r.Ok? ==> r.value == recipe(old(store.docs)[id]) && store.docs == old(store.docs)[id := r.value]
    {
      r := store.Update(id, recipe);
    }
  }

  /** At most one identity has a given email. */
  lemma EmailUnique(repo: IdentityRepo, a: Uuid, b: Uuid)
    requires repo.Valid() && a in repo.store.docs && b in repo.store.docs
    requires repo.store.docs[a].email.Some? && repo.store.docs[a].email == repo.store.docs[b].email
    ensures a == b
  {
    StoredUnique(repo.store, 0, a, b);
  }

  /** At most one identity belongs to a given user. */
  lemma UserIdUnique(repo: IdentityRepo, a: Uuid, b: Uuid)
    requires repo.Valid() && a in repo.store.docs && b in repo.store.docs
    requires repo.store.docs[a].userId == repo.store.docs[b].userId
    ensures a == b
  {
    StoredUnique(repo.store, 1, a, b);
  }

  /** Creating an identity whose email another identity has fails with the email clash. */
  lemma EmailClashOnCreate(repo: IdentityRepo, x: Identity, other: Uuid)
    requires repo.Valid() && Schema(x) && x.id !in repo.store.docs
    requires other in repo.store.docs && repo.store.docs[other].email == x.email
    ensures repo.store.CreateError(repo.store.docs, x) == Some(UniqueError(EMAIL_INDEX))
  {
    EmailClash(repo.store, repo.store.docs, x, other);
  }

  lemma EmailClash(store: DocRepo<Identity>, docs: map<Uuid, Identity>, x: Identity, other: Uuid)
    requires store.indexes == Indexes() && store.schema == Some(Schema) && store.idOf == IdentityId
    requires Schema(x) && x.id !in docs
    requires other in docs && docs[other].email == x.email
    ensures store.CreateError(docs, x) == Some(UniqueError(EMAIL_INDEX))
  {
    assert other != x.id && EmailKey(docs[other]) == EmailKey(x);
    assert !NoClash(Indexes()[0], docs, x.id, x);
    assert store.FirstClash(docs, x.id, x, 0) == Some(0);
  }

  /** A user-id clash (with a fresh email) is a different error, which `create` rethrows as it is. */
  lemma UserIdClashOnCreate(repo: IdentityRepo, x: Identity, other: Uuid)
    requires repo.Valid() && Schema(x) && x.id !in repo.store.docs
    requires forall id :: id in repo.store.docs ==> repo.store.docs[id].email != x.email
    requires other in repo.store.docs && repo.store.docs[other].userId == x.userId
    ensures repo.store.CreateError(repo.store.docs, x) == Some(UniqueError(USER_ID_INDEX))
  {
    UserIdClash(repo.store, repo.store.docs, x, other);
  }

  lemma UserIdClash(store: DocRepo<Identity>, docs: map<Uuid, Identity>, x: Identity, other: Uuid)
    requires store.indexes == Indexes() && store.schema == Some(Schema) && store.idOf == IdentityId
    requires Schema(x) && x.id !in docs
    requires forall id :: id in docs ==> docs[id].email != x.email
    requires other in docs && docs[other].userId == x.userId
    ensures store.CreateError(docs, x) == Some(UniqueError(USER_ID_INDEX))
  {
    assert NoClash(Indexes()[0], docs, x.id, x) by {
      forall o | o in docs && o != x.id && HasEmail(docs[o]) ensures EmailKey(docs[o]) != EmailKey(x) {
        assert docs[o].email != x.email;
      }
    }
    assert !NoClash(Indexes()[1], docs, x.id, x) by {
      assert other != x.id && UserIdKey(docs[other]) == UserIdKey(x);
    }
    assert store.FirstClash(docs, x.id, x, 0) == Some(1);
  }

  /** An update that keeps the id, the email and the user id and respects the schema always succeeds. */
  lemma KeysKeptUpdateSucceeds(repo: IdentityRepo, id: Uuid, recipe: Identity -> Identity)
    requires repo.Valid() && id in repo.store.docs
    requires var x, y := repo.store.docs[id], recipe(repo.store.docs[id]);
      y.id == id && y.email == x.email && y.userId == x.userId && Schema(y)
    ensures repo.store.ChangeError(repo.store.docs, id, recipe, None).None?
  {
    SameKeysNoClash(repo.store, id, recipe(repo.store.docs[id]));
  }
}
