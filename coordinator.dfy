/**
 * The sign-in part of the `Coordinator` of packages/data/src/data/coordinator.ts: the
 * activity-window rate limit (`needsCooldown`, `pushActivityLog`), one-time codes
 * (`createVerificationCode`), the `sendSignInEmail` and `verifySignInCode` handlers over the
 * identity repository, and the effects queue that `handleConnection` resets per transaction
 * attempt and runs after it. The clock, the random bytes and fresh ids are parameters.
 */
module Coordinators {
  import opened Wrappers
  import opened Bytes
  import opened IndexKeys
  import opened DocRepos
  import opened IdentityRepos

  /** One hour in milliseconds. */
  const HOUR_MS: int := 3600000

  /** `addHours(t, h)`. */
  function AddHours(t: Timestamp, hours: int): Timestamp
  {
    t + hours * HOUR_MS
  }

  /** The log entries strictly after `cutoff`, in log order. */
  function Recent(log: seq<Timestamp>, cutoff: Timestamp): (r: seq<Timestamp>)
    ensures |r| <= |log|
    ensures forall x :: x in r <==> x in log && x > cutoff
  {
    if log == [] then []
    else (if log[0] > cutoff then [log[0]] else []) + Recent(log[1..], cutoff)
  }

  /** `needsCooldown`: at least `allowed` sign-in actions within the last `windowHours` hours. */
  predicate NeedsCooldown(log: seq<Timestamp>, now: Timestamp, windowHours: int, allowed: int)
  {
    |Recent(log, AddHours(now, -windowHours))| >= allowed
  }

  /** A later cutoff keeps no more entries. */
  lemma {:induction false} RecentShrinks(log: seq<Timestamp>, c1: Timestamp, c2: Timestamp)
    requires c1 <= c2
    ensures |Recent(log, c2)| <= |Recent(log, c1)|
  {
    if log != [] {
      RecentShrinks(log[1..], c1, c2);
    }
  }

  /** A cooldown at a later time was already a cooldown at any earlier time. */
  lemma CooldownMonotone(log: seq<Timestamp>, t1: Timestamp, t2: Timestamp, windowHours: int, allowed: int)
    requires t1 <= t2 && NeedsCooldown(log, t2, windowHours, allowed)
    ensures NeedsCooldown(log, t1, windowHours, allowed)
  {
    RecentShrinks(log, AddHours(t1, -windowHours), AddHours(t2, -windowHours));
  }

  /** A log whose entries are all after the cutoff is kept whole. */
  lemma {:induction false} RecentKeepsAll(log: seq<Timestamp>, cutoff: Timestamp)
    requires forall i :: 0 <= i < |log| ==> log[i] > cutoff
    ensures Recent(log, cutoff) == log
  {
    if log != [] {
      RecentKeepsAll(log[1..], cutoff);
    }
  }

  /** JavaScript's `s.slice(start)` for an integer `start`; a negative start counts from the end. */
  function Slice<T>(s: seq<T>, start: int): (r: seq<T>)
    ensures |r| <= |s| && r == s[|s| - |r|..]
    ensures start < 0 && -start <= |s| ==> |r| == -start
    ensures 0 <= start <= |s| ==> |r| == |s| - start
  {
    if start < 0 then (if -start >= |s| then s else s[|s| + start..])
    else if start >= |s| then [] else s[start..]
  }

  /**
   * `pushActivityLog`: append `now`, then, when the log is longer than `allowed`, keep
   * `slice(-allowed)`. For `allowed == 0` that slice is the whole log (`-0` is `0`).
   */
  function PushActivityLog(log: seq<Timestamp>, now: Timestamp, allowed: int): (r: seq<Timestamp>)
    ensures |r| <= |log| + 1 && r == (log + [now])[|log| + 1 - |r|..]
    ensures allowed >= 1 ==> 1 <= |r| <= allowed && r[|r| - 1] == now
    ensures allowed >= 1 ==> r == LastN(log + [now], allowed)
    ensures allowed >= 1 && |log| < allowed ==> r == log + [now]
    ensures allowed == 0 ==> r == log + [now]
  {
    var l := log + [now];
    if |l| > allowed then Slice(l, -allowed) else l
  }

  /** The last `n` entries of `s` (all of `s` when it is shorter). */
  function LastN<T>(s: seq<T>, n: nat): (r: seq<T>)
    ensures |r| <= n && |r| <= |s| && r == s[|s| - |r|..]
    ensures |s| >= n ==> |r| == n
  {
    if |s| > n then s[|s| - n..] else s
  }

  /** Successive pushes at the times `ts`. */
  function Pushes(log: seq<Timestamp>, ts: seq<Timestamp>, allowed: int): seq<Timestamp>
    decreases |ts|
  {
    if ts == [] then log else Pushes(PushActivityLog(log, ts[0], allowed), ts[1..], allowed)
  }

  lemma LastNOfLastN<T>(a: seq<T>, b: seq<T>, n: nat)
    ensures LastN(LastN(a, n) + b, n) == LastN(a + b, n)
  {
    var la := LastN(a, n);
    assert la == a[|a| - |la|..];
    if |la + b| > n {
      assert (la + b)[|la + b| - n..] == (a + b)[|a + b| - n..];
    } else if |a| > n {
      assert b == [] && a + b == a;
    } else {
      assert la == a;
    }
  }

  /** One push followed by the rest keeps the same last entries as the whole sequence. */
  lemma PushStep(log: seq<Timestamp>, ts: seq<Timestamp>, allowed: nat)
    requires allowed >= 1 && |log| <= allowed && ts != []
    ensures |PushActivityLog(log, ts[0], allowed)| <= allowed
    ensures LastN(PushActivityLog(log, ts[0], allowed) + ts[1..], allowed) == LastN(log + ts, allowed)
  {
    var l := log + [ts[0]];
    LastNOfLastN(l, ts[1..], allowed);
    assert log + [ts[0]] + ts[1..] == log + ([ts[0]] + ts[1..]);
    assert [ts[0]] + ts[1..] == ts;
  }

  /** With `allowed >= 1`, a log of at most `allowed` entries grows into the last `allowed` timestamps seen. */
  lemma {:induction false} PushesKeepLast(log: seq<Timestamp>, ts: seq<Timestamp>, allowed: nat)
    requires allowed >= 1 && |log| <= allowed
    ensures Pushes(log, ts, allowed) == LastN(log + ts, allowed)
    decreases |ts|
  {
    if ts == [] {
      assert log + ts == log;
    } else {
      PushStep(log, ts, allowed);
      PushesKeepLast(PushActivityLog(log, ts[0], allowed), ts[1..], allowed);
    }
  }

  /**
   * The rate limit holds: after `allowed` recorded attempts inside the window, the next
   * check is a cooldown.
   */
  lemma CooldownAfterAllowedAttempts(log: seq<Timestamp>, ts: seq<Timestamp>, now: Timestamp, windowHours: int, allowed: nat)
    requires allowed >= 1 && |log| <= allowed && |ts| >= allowed
    requires forall i :: 0 <= i < |ts| ==> ts[i] > AddHours(now, -windowHours)
    ensures NeedsCooldown(Pushes(log, ts, allowed), now, windowHours, allowed)
  {
    PushesKeepLast(log, ts, allowed);
    var r := LastN(log + ts, allowed);
    assert r == ts[|ts| - allowed..];
    RecentKeepsAll(r, AddHours(now, -windowHours));
  }

  /** The decimal digit `b % 10`. */
  function Digit(b: byte): (c: char)
    ensures '0' <= c <= '9' && c as int - '0' as int == b % 10
  {
    ('0' as int + b % 10) as char
  }

  /** `createVerificationCode`: one digit per random byte, valid for one hour. */
  function CreateVerificationCode(randomBytes: seq<byte>, now: Timestamp): (r: VerificationCode)
    ensures |r.code| == |randomBytes| && r.expires == now + HOUR_MS
    ensures forall i :: 0 <= i < |r.code| ==> '0' <= r.code[i] <= '9' && r.code[i] as int - '0' as int == randomBytes[i] % 10
  {
    VerificationCode(seq(|randomBytes|, i requires 0 <= i < |randomBytes| => Digit(randomBytes[i])), AddHours(now, 1))
  }

  /** Random bytes with the same residues modulo 10 give the same code, and only they do. */
  lemma CodeDeterminedByResidues(a: seq<byte>, b: seq<byte>, now: Timestamp)
    requires |a| == |b|
    ensures CreateVerificationCode(a, now) == CreateVerificationCode(b, now) <==> forall i :: 0 <= i < |a| ==> a[i] % 10 == b[i] % 10
  {
    var ca, cb := CreateVerificationCode(a, now).code, CreateVerificationCode(b, now).code;
    if forall i :: 0 <= i < |a| ==> a[i] % 10 == b[i] % 10 {
      assert forall i :: 0 <= i < |a| ==> ca[i] == cb[i];
      assert ca == cb;
    }
  }

  /** The identity `sendSignInEmail` creates for an unknown email: the log starts empty. */
  function NewIdentity(id: Uuid, userId: Uuid, email: string, code: VerificationCode, now: Timestamp): (r: Identity)
    ensures r.authActivityLog == [] && r.email == Some(email) && r.verificationCode == Some(code)
  {
    Identity(id, now, now, userId, Some(email), Some(code), [])
  }

  /** `x` is the stored identity with that email. */
  ghost predicate Owns(docs: map<Uuid, Identity>, email: string, x: Identity)
  {
    x.id in docs && docs[x.id] == x && x.email == Some(email)
  }

  ghost predicate Unknown(docs: map<Uuid, Identity>, email: string)
  {
    forall id :: id in docs ==> docs[id].email != Some(email)
  }

  /** The update `sendSignInEmail` makes: the new code, and the attempt recorded. */
  function Refreshed(x: Identity, code: VerificationCode, now: Timestamp, allowed: int): (y: Identity)
    ensures y.id == x.id && y.email == x.email && y.userId == x.userId && y.verificationCode == Some(code)
    ensures y.authActivityLog == PushActivityLog(x.authActivityLog, now, allowed)
  {
    x.(verificationCode := Some(code), authActivityLog := PushActivityLog(x.authActivityLog, now, allowed))
  }

  /** The update `verifySignInCode` makes: the attempt recorded, the code kept. */
  function Recorded(x: Identity, now: Timestamp, allowed: int): (y: Identity)
    ensures y.id == x.id && y.email == x.email && y.userId == x.userId && y.verificationCode == x.verificationCode
    ensures y.authActivityLog == PushActivityLog(x.authActivityLog, now, allowed)
  {
    x.(authActivityLog := PushActivityLog(x.authActivityLog, now, allowed))
  }

  /**
   * What `sendSignInEmail` does to the identities `D0`, ending in `D`. For an unknown email
   * a failed creation of `newcomer` is rethrown as its own error; otherwise the identity (the stored one, or the
   * newcomer once created) is left alone in cooldown, and out of cooldown gets the new code
   * and one more activity-log entry.
   */
  ghost predicate SignInOutcome(D0: map<Uuid, Identity>, D: map<Uuid, Identity>, email: string, newcomer: Identity, createError: Option<IdentityError>,
                                code: VerificationCode, now: Timestamp, windowHours: int, allowed: int, r: Result<SignInResponse, IdentityError>)
  {
    && (r.Err? <==> Unknown(D0, email) && createError.Some?)
    && (r.Err? ==> r.error == createError.value && D == D0)
    && (Unknown(D0, email) && createError.None? ==>
          if NeedsCooldown(newcomer.authActivityLog, now, windowHours, allowed)
          then r == Ok(SignInCooldown) && D == D0[newcomer.id := newcomer]
          else r == Ok(SignInSuccess) && D == D0[newcomer.id := Refreshed(newcomer, code, now, allowed)])
    && (forall x :: Owns(D0, email, x) ==>
          if NeedsCooldown(x.authActivityLog, now, windowHours, allowed)
          then r == Ok(SignInCooldown) && D == D0
          else r == Ok(SignInSuccess) && D == D0[x.id := Refreshed(x, code, now, allowed)])
  }

  /** The two steps of `sendSignInEmail`, find-or-create and then the known-identity step, compose to `SignInOutcome`. */
  lemma SignInComposes(D0: map<Uuid, Identity>, D1: map<Uuid, Identity>, D: map<Uuid, Identity>, email: string, newcomer: Identity,
                       createError: Option<IdentityError>, code: VerificationCode, now: Timestamp, windowHours: int, allowed: int,
                       found: Result<Identity, IdentityError>, r: Result<SignInResponse, IdentityError>)
    requires found.Err? <==> Unknown(D0, email) && createError.Some?
    requires found.Err? ==> found.error == createError.value && D1 == D0 && D == D0 && r == Err(found.error)
    requires Unknown(D0, email) && found.Ok? ==> found.value == newcomer && D1 == D0[newcomer.id := newcomer]
    requires forall x :: Owns(D0, email, x) ==> found == Ok(x) && D1 == D0
    requires found.Ok? ==> var x := found.value;
      if NeedsCooldown(x.authActivityLog, now, windowHours, allowed) then r == Ok(SignInCooldown) && D == D1
      else r == Ok(SignInSuccess) && D == D1[x.id := Refreshed(x, code, now, allowed)]
    ensures SignInOutcome(D0, D, email, newcomer, createError, code, now, windowHours, allowed, r)
  {
    if found.Err? {
      ComposeFailed(D0, D, email, newcomer, createError, code, now, windowHours, allowed, r);
    } else if Unknown(D0, email) {
      ComposeCreated(D0, D1, D, email, newcomer, createError, code, now, windowHours, allowed, found.value, r);
    } else {
      ComposeKnown(D0, D1, D, email, newcomer, createError, code, now, windowHours, allowed, found.value, r);
    }
  }

  /** The case of `SignInComposes` where the creation failed. */
  lemma ComposeFailed(D0: map<Uuid, Identity>, D: map<Uuid, Identity>, email: string, newcomer: Identity,
                      createError: Option<IdentityError>, code: VerificationCode, now: Timestamp, windowHours: int, allowed: int,
                      r: Result<SignInResponse, IdentityError>)
    requires Unknown(D0, email) && createError.Some? && r == Err(createError.value) && D == D0
    ensures SignInOutcome(D0, D, email, newcomer, createError, code, now, windowHours, allowed, r)
  {
  }

  /** The case of `SignInComposes` where the newcomer was created. */
  lemma ComposeCreated(D0: map<Uuid, Identity>, D1: map<Uuid, Identity>, D: map<Uuid, Identity>, email: string, newcomer: Identity,
                       createError: Option<IdentityError>, code: VerificationCode, now: Timestamp, windowHours: int, allowed: int,
                       y: Identity, r: Result<SignInResponse, IdentityError>)
    requires Unknown(D0, email) && createError.None?
    requires y == newcomer && D1 == D0[newcomer.id := newcomer]
    requires if NeedsCooldown(y.authActivityLog, now, windowHours, allowed)
      then r == Ok(SignInCooldown) && D == D1
      else r == Ok(SignInSuccess) && D == D1[y.id := Refreshed(y, code, now, allowed)]
    ensures SignInOutcome(D0, D, email, newcomer, createError, code, now, windowHours, allowed, r)
  {
    if NeedsCooldown(newcomer.authActivityLog, now, windowHours, allowed) {
      assert r == Ok(SignInCooldown) && D == D0[newcomer.id := newcomer];
    } else {
      var z := Refreshed(newcomer, code, now, allowed);
      assert D1[newcomer.id := z] == D0[newcomer.id := z];
      assert r == Ok(SignInSuccess) && D == D0[newcomer.id := z];
    }
    assert forall x :: !Owns(D0, email, x);
  }

  /** The case of `SignInComposes` where the email was already known. */
  lemma ComposeKnown(D0: map<Uuid, Identity>, D1: map<Uuid, Identity>, D: map<Uuid, Identity>, email: string, newcomer: Identity,
                     createError: Option<IdentityError>, code: VerificationCode, now: Timestamp, windowHours: int, allowed: int,
                     y: Identity, r: Result<SignInResponse, IdentityError>)
    requires !Unknown(D0, email)
    requires forall x :: Owns(D0, email, x) ==> y == x && D1 == D0
    requires if NeedsCooldown(y.authActivityLog, now, windowHours, allowed)
      then r == Ok(SignInCooldown) && D == D1
      else r == Ok(SignInSuccess) && D == D1[y.id := Refreshed(y, code, now, allowed)]
    ensures SignInOutcome(D0, D, email, newcomer, createError, code, now, windowHours, allowed, r)
  {
    forall x | Owns(D0, email, x)
      ensures if NeedsCooldown(x.authActivityLog, now, windowHours, allowed)
        then r == Ok(SignInCooldown) && D == D0
        else r == Ok(SignInSuccess) && D == D0[x.id := Refreshed(x, code, now, allowed)]
    {
      assert y == x && D1 == D0;
    }
  }

  /** An update of a stored identity that keeps its keys and its code present succeeds. */
  lemma KeysKeptSucceeds(repo: IdentityRepo, x: Identity, recipe: Identity -> Identity, y: Identity)
    requires repo.Valid() && x.id in repo.store.docs && repo.store.docs[x.id] == x
    requires recipe(x) == y && y.id == x.id && y.email == x.email && y.userId == x.userId && y.verificationCode.Some?
    ensures repo.store.ChangeError(repo.store.docs, x.id, recipe, None).None?
  {
    assert repo.store.Conforms(x);
    KeysKeptUpdateSucceeds(repo, x.id, recipe);
  }

  /** The email effect enqueued by a successful `sendSignInEmail`. */
  datatype Effect = SendEmail(recipient: string, code: string)

  datatype SignInResponse = SignInSuccess | SignInCooldown

  /** What signing the token would put in it: the identity as subject, and its user. */
  datatype TokenPayload = TokenPayload(sub: Uuid, uid: Uuid)

  datatype VerifyResponse = Success(token: TokenPayload) | InvalidCode | CodeExpired | Cooldown

  const NO_IDENTITY: string := "invalid email, no identity found"
  const NO_CODE: string := "verification code was not requested"

  class Coordinator {
    const identities: IdentityRepo
    /** `AUTH_ACTIVITY_WINDOW_HOURS` */
    const windowHours: int
    /** `AUTH_ACTIVITY_WINDOW_ALLOWED_ACTIONS_COUNT` */
    const allowed: int
    /** The effects enqueued in the current transaction attempt. */
    var effects: seq<Effect>

    ghost predicate Valid()
      reads this, identities, identities.store
    {
      identities.Valid()
    }

    constructor (windowHours: int, allowed: int)
      ensures Valid() && fresh(identities) && fresh(identities.store) && identities.store.docs == map[]
      ensures this.windowHours == windowHours && this.allowed == allowed && effects == []
    {
      identities := new IdentityRepo();
      this.windowHours := windowHours;
      this.allowed := allowed;
      effects := [];
    }

    /** The recipe `sendSignInEmail` passes to `update`. */
    function Refresh(code: VerificationCode, now: Timestamp): Identity -> Identity
    {
      (x: Identity) => Refreshed(x, code, now, allowed)
    }

    /** The recipe `verifySignInCode` passes to `update`. */
    function Record(now: Timestamp): Identity -> Identity
    {
      (x: Identity) => Recorded(x, now, allowed)
    }

    /** The first step of `sendSignInEmail`: the identity with the email, created as `newcomer` when there is none. */
    method FindOrCreate(email: string, newcomer: Identity) returns (r: Result<Identity, IdentityError>)
      requires Valid() && newcomer.email == Some(email)
      modifies identities.store
      ensures Valid()
      ensures var D0 := old(identities.store.docs);
        && (r.Err? <==> Unknown(D0, email) && identities.CreateFailure(D0, newcomer).Some?)
        && (r.Err? ==> r.error == identities.CreateFailure(D0, newcomer).value && identities.store.docs == D0)
        && (Unknown(D0, email) && r.Ok? ==> r.value == newcomer && identities.store.docs == D0[newcomer.id := newcomer])
        && (forall x :: Owns(D0, email, x) ==> r == Ok(x) && identities.store.docs == D0)
      ensures r.Ok? ==> Owns(identities.store.docs, email, r.value)
    {
      var found := identities.GetByEmail(email);
      if found.None? {
        var created := identities.Create(newcomer);
        if created.Err? {
          return Err(created.error);
        }
        return Ok(newcomer);
      }
      forall x | Owns(identities.store.docs, email, x) ensures x == found.value {
        EmailUnique(identities, x.id, found.value.id);
      }
      return Ok(found.value);
    }

    /**
     * `sendSignInEmail`: look the email up, creating an identity with an empty log when it is
     * unknown; in cooldown answer `cooldown` and touch nothing; otherwise store the new code,
     * record the attempt and enqueue one email.
     */
    method SendSignInEmail(email: string, now: Timestamp, randomBytes: seq<byte>, newIdentityId: Uuid, newUserId: Uuid)
      returns (r: Result<SignInResponse, IdentityError>)
      requires Valid() && |randomBytes| == 6
      modifies this, identities.store
      ensures Valid()
      ensures var code := CreateVerificationCode(randomBytes, now);
        var newcomer := NewIdentity(newIdentityId, newUserId, email, code, now);
        SignInOutcome(old(identities.store.docs), identities.store.docs, email, newcomer,
          identities.CreateFailure(old(identities.store.docs), newcomer), code, now, windowHours, allowed, r)
      ensures r == Ok(SignInSuccess) ==> effects == old(effects) + [SendEmail(email, CreateVerificationCode(randomBytes, now).code)]
      ensures r != Ok(SignInSuccess) ==> effects == old(effects)
    {
      var code := CreateVerificationCode(randomBytes, now);
      var newcomer := NewIdentity(newIdentityId, newUserId, email, code, now);
      ghost var D0 := identities.store.docs;
      ghost var createError := identities.CreateFailure(D0, newcomer);
      var found := FindOrCreate(email, newcomer);
      if found.Err? {
        r := Err(found.error);
        SignInComposes(D0, D0, D0, email, newcomer, createError, code, now, windowHours, allowed, found, r);
        return;
      }
      ghost var D1 := identities.store.docs;
      r := SignInKnown(email, found.value, code, now);
      SignInComposes(D0, D1, identities.store.docs, email, newcomer, createError, code, now, windowHours, allowed, found, r);
    }

    /** The rest of `sendSignInEmail`, once the identity is known. */
    method SignInKnown(email: string, identity: Identity, code: VerificationCode, now: Timestamp) returns (r: Result<SignInResponse, IdentityError>)
      requires Valid() && Owns(identities.store.docs, email, identity)
      modifies this, identities.store
      ensures Valid()
      ensures NeedsCooldown(identity.authActivityLog, now, windowHours, allowed) ==>
        r == Ok(SignInCooldown) && identities.store.docs == old(identities.store.docs) && effects == old(effects)
      ensures !NeedsCooldown(identity.authActivityLog, now, windowHours, allowed) ==>
        r == Ok(SignInSuccess) && identities.store.docs == old(identities.store.docs)[identity.id := Refreshed(identity, code, now, allowed)]
        && effects == old(effects) + [SendEmail(email, code.code)]
    {
      if NeedsCooldown(identity.authActivityLog, now, windowHours, allowed) {
        return Ok(SignInCooldown);
      }
      StoreRefreshed(identity, code, now);
      effects := effects + [SendEmail(email, code.code)];
      return Ok(SignInSuccess);
    }

    /** The `update` of `sendSignInEmail`: the stored identity gets the new code and one more log entry. */
    method StoreRefreshed(identity: Identity, code: VerificationCode, now: Timestamp)
      requires Valid() && identity.id in identities.store.docs && identities.store.docs[identity.id] == identity
      modifies identities.store
      ensures Valid()
      ensures identities.store.docs == old(identities.store.docs)[identity.id := Refreshed(identity, code, now, allowed)]
    {
      var recipe := Refresh(code, now);
      KeysKeptSucceeds(identities, identity, recipe, Refreshed(identity, code, now, allowed));
      var updated := identities.Update(identity.id, recipe);
    }

    /**
     * `verifySignInCode`: unknown email and a missing code throw; in cooldown, or with an
     * expired code, nothing is recorded; otherwise the attempt is recorded and the code compared.
     */
    method VerifySignInCode(email: string, code: string, now: Timestamp) returns (r: Result<VerifyResponse, string>)
      requires Valid()
      modifies identities.store
      ensures Valid()
      ensures var D0 := old(identities.store.docs);
        && (Unknown(D0, email) ==> r == Err(NO_IDENTITY) && identities.store.docs == D0)
        && (forall x :: Owns(D0, email, x) ==>
              if NeedsCooldown(x.authActivityLog, now, windowHours, allowed) then r == Ok(Cooldown) && identities.store.docs == D0
              else if x.verificationCode.None? then r == Err(NO_CODE) && identities.store.docs == D0
              else if now > x.verificationCode.value.expires then r == Ok(CodeExpired) && identities.store.docs == D0
              else (identities.store.docs == D0[x.id := Recorded(x, now, allowed)]
                && r == (if code != x.verificationCode.value.code then Ok(InvalidCode) else Ok(Success(TokenPayload(x.id, x.userId))))))
    {
      var found := identities.GetByEmail(email);
      if found.None? {
        return Err(NO_IDENTITY);
      }
      var identity := found.value;
      forall x | Owns(old(identities.store.docs), email, x) ensures x == identity {
        EmailUnique(identities, x.id, identity.id);
      }
      if NeedsCooldown(identity.authActivityLog, now, windowHours, allowed) {
        return Ok(Cooldown);
      }
      if identity.verificationCode.None? {
        return Err(NO_CODE);
      }
      if now > identity.verificationCode.value.expires {
        return Ok(CodeExpired);
      }
      var recipe := Record(now);
      KeysKeptSucceeds(identities, identity, recipe, Recorded(identity, now, allowed));
      var updated := identities.Update(identity.id, recipe);
      assert updated.Ok?;
      if code != identity.verificationCode.value.code {
        return Ok(InvalidCode);
      }
      return Ok(Success(TokenPayload(identity.id, identity.userId)));
    }

    /**
     * One transaction attempt of `handleConnection` serving `sendSignInEmail`: the effects list
     * starts empty, so an attempt that is retried never leaves effects behind, and the effects
     * handed back to run after the transaction are exactly those of this attempt.
     */
    method SendSignInEmailAttempt(email: string, now: Timestamp, randomBytes: seq<byte>, newIdentityId: Uuid, newUserId: Uuid)
      returns (r: Result<SignInResponse, IdentityError>, toRun: seq<Effect>)
      requires Valid() && |randomBytes| == 6
      modifies this, identities.store
      ensures Valid() && toRun == effects
      ensures toRun == if r == Ok(SignInSuccess) then [SendEmail(email, CreateVerificationCode(randomBytes, now).code)] else []
    {
      effects := [];
      r := SendSignInEmail(email, now, randomBytes, newIdentityId, newUserId);
      toRun := effects;
    }
  }
}
