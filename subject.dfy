/**
 * `Subject` of packages/data/src/utils.ts: an open/closed registry of subscriptions.
 * Observers' callbacks are external code; the model records which observers a call
 * reaches, in order, and which of their callbacks reject is a parameter. A subscription's scope cancellation is modelled by `CancelScope`,
 * the callback that `subscribe` registers on the scope.
 */
module Subjects {
  import opened Wrappers

  /** The identity of an observer object (its `next`, `throw` and `close` are external). */
  type ObserverId = nat

  /** The wrapper `{observer}` pushed by `subscribe`: `token` is its object identity. */
  datatype Sub = Sub(token: nat, observer: ObserverId)

  /** `ensureOpen` failed, or an observer's awaited callback rejected with its own error. */
  datatype SubjectError = SubjectClosed | ObserverRejected(observer: ObserverId)

  /** What a delivery hands to an observer: `next(value)`, `throw(error)` or `close()`. */
  datatype Signal<V> = NextOf(value: V) | ThrowOf(error: string) | CloseSignal

  /** One callback invocation: the observer called and what it was given. */
  datatype Call<V> = Call(observer: ObserverId, signal: Signal<V>)

  /** The calls made when `signal` is handed to each of `obs` in turn. */
  function CallsOf<V>(obs: seq<ObserverId>, signal: Signal<V>): (r: seq<Call<V>>)
    ensures |r| == |obs| && forall i :: 0 <= i < |obs| ==> r[i] == Call(obs[i], signal)
  {
    seq(|obs|, i requires 0 <= i < |obs| => Call(obs[i], signal))
  }

  /**
   * The observers an awaiting loop reaches when the callbacks of the observers in `fails`
   * reject: every observer up to and including the first that fails, or all of them.
   */
  function UntilFailure(obs: seq<ObserverId>, fails: ObserverId -> bool): (r: seq<ObserverId>)
    ensures |r| <= |obs| && r == obs[..|r|]
    ensures forall i :: 0 <= i < |r| - 1 ==> !fails(r[i])
    ensures r == obs || (r != [] && fails(r[|r| - 1]))
  {
    if obs == [] then []
    else if fails(obs[0]) then [obs[0]]
    else [obs[0]] + UntilFailure(obs[1..], fails)
  }

  /** When `obs[k]` is the first failing observer (or `k == |obs|`), the loop reaches `obs[..k + 1]`. */
  lemma {:induction false} UntilFailureAt(obs: seq<ObserverId>, fails: ObserverId -> bool, k: nat)
    requires k <= |obs| && forall j :: 0 <= j < k ==> !fails(obs[j])
    requires k < |obs| ==> fails(obs[k])
    ensures UntilFailure(obs, fails) == if k < |obs| then obs[..k + 1] else obs
  {
    if obs != [] && k > 0 {
      UntilFailureAt(obs[1..], fails, k - 1);
      if k < |obs| {
        assert obs[..k + 1] == [obs[0]] + obs[1..][..k];
      } else {
        assert obs == [obs[0]] + obs[1..];
      }
    }
  }

  /** The subscriptions left after the one with `token` is filtered out. */
  function Without(subs: seq<Sub>, token: nat): (r: seq<Sub>)
    ensures |r| <= |subs|
    ensures forall s :: s in r <==> s in subs && s.token != token
  {
    if subs == [] then []
    else (if subs[0].token == token then [] else [subs[0]]) + Without(subs[1..], token)
  }

  /** The observers of the subscriptions, in subscription order. */
  function Observers(subs: seq<Sub>): (r: seq<ObserverId>)
    ensures |r| == |subs| && forall i :: 0 <= i < |subs| ==> r[i] == subs[i].observer
  {
    seq(|subs|, i requires 0 <= i < |subs| => subs[i].observer)
  }

  /** Wrapper identities are distinct. */
  ghost predicate DistinctTokens(subs: seq<Sub>)
  {
    forall i, j :: 0 <= i < j < |subs| ==> subs[i].token != subs[j].token
  }

  /**
   * Cancelling the scope of one subscription removes exactly that wrapper and keeps the
   * others in order, even when the same observer was subscribed more than once.
   */
  lemma {:induction false} WithoutRemovesExactlyOne(subs: seq<Sub>, k: nat)
    requires DistinctTokens(subs) && k < |subs|
    ensures Without(subs, subs[k].token) == subs[..k] + subs[k + 1..]
  {
    var t := subs[k].token;
    if k == 0 {
      WithoutAbsent(subs[1..], t);
    } else {
      assert subs[0].token != t;
      assert DistinctTokens(subs[1..]) by {
        forall i, j | 0 <= i < j < |subs[1..]| ensures subs[1..][i].token != subs[1..][j].token {
          assert subs[1..][i] == subs[i + 1] && subs[1..][j] == subs[j + 1];
        }
      }
      WithoutRemovesExactlyOne(subs[1..], k - 1);
      assert subs[1..][k - 1] == subs[k];
      assert subs[..k] == [subs[0]] + subs[1..][..k - 1];
      assert subs[k + 1..] == subs[1..][k..];
    }
  }

  lemma {:induction false} WithoutAbsent(subs: seq<Sub>, token: nat)
    requires forall i :: 0 <= i < |subs| ==> subs[i].token != token
    ensures Without(subs, token) == subs
  {
    if subs != [] {
      WithoutAbsent(subs[1..], token);
    }
  }

  /** Filtering keeps wrapper identities distinct. */
  lemma {:induction false} WithoutDistinct(s: seq<Sub>, token: nat)
    requires DistinctTokens(s)
    ensures DistinctTokens(Without(s, token))
  {
    if s != [] {
      assert DistinctTokens(s[1..]) by {
        forall i, j | 0 <= i < j < |s[1..]| ensures s[1..][i].token != s[1..][j].token {
          assert s[1..][i] == s[i + 1] && s[1..][j] == s[j + 1];
        }
      }
      WithoutDistinct(s[1..], token);
      assert s[0] !in s[1..] by {
        forall i | 0 <= i < |s[1..]| ensures s[1..][i] != s[0] {
          assert s[1..][i] == s[i + 1];
        }
      }
    }
  }

  class Subject<V> {
    var subs: seq<Sub>
    var isOpen: bool
    /** Allocator of wrapper identities. */
    var nextToken: nat

    ghost predicate Valid()
      reads this
    {
      DistinctTokens(subs) && forall i :: 0 <= i < |subs| ==> subs[i].token < nextToken
    }

    constructor ()
      ensures Valid() && subs == [] && isOpen
    {
      subs := [];
      isOpen := true;
      nextToken := 0;
    }

    /** The `anyObservers` getter. */
    function AnyObservers(): (r: bool)
      reads this
      ensures r <==> subs != []
    {
      |subs| > 0
    }

    /** `subscribe`: throws on a closed subject; otherwise appends a fresh wrapper and returns its identity. */
    method Subscribe(observer: ObserverId) returns (r: Result<nat, SubjectError>)
      requires Valid()
      modifies this
      ensures Valid() && isOpen == old(isOpen)
      ensures !old(isOpen) ==> r == Err(SubjectClosed) && subs == old(subs)
      ensures old(isOpen) ==> r == Ok(old(nextToken)) && subs == old(subs) + [Sub(old(nextToken), observer)]
      ensures old(isOpen) ==> forall i :: 0 <= i < |old(subs)| ==> old(subs)[i].token != r.value
      ensures old(isOpen) ==> AnyObservers()
    {
      if !isOpen {
        return Err(SubjectClosed);
      }
      var sub := Sub(nextToken, observer);
      subs := subs + [sub];
      nextToken := nextToken + 1;
      return Ok(sub.token);
    }

    /** The callback registered on the subscription's scope: filter out that wrapper. */
    method CancelScope(token: nat)
      requires Valid()
      modifies this
      ensures Valid() && isOpen == old(isOpen) && nextToken == old(nextToken)
      ensures subs == Without(old(subs), token)
    {
      WithoutDistinct(subs, token);
      subs := Without(subs, token);
    }

    /**
     * Loop over a copy of the subscriptions, handing `signal` to each observer in turn and
     * awaiting it: the first observer whose callback rejects (per `fails`) ends the loop.
     */
    method Deliver(signal: Signal<V>, fails: ObserverId -> bool) returns (calls: seq<Call<V>>, r: Result<(), SubjectError>)
      ensures calls == CallsOf(UntilFailure(Observers(subs), fails), signal)
      ensures r.Ok? <==> forall i :: 0 <= i < |subs| ==> !fails(subs[i].observer)
      ensures r.Err? ==> calls != [] && r.error == ObserverRejected(calls[|calls| - 1].observer)
    {
      var copy := subs;
      calls := [];
      var i := 0;
      while i < |copy|
        invariant 0 <= i <= |copy|
        invariant |calls| == i && forall j :: 0 <= j < i ==> calls[j] == Call(copy[j].observer, signal)
        invariant forall j :: 0 <= j < i ==> !fails(copy[j].observer)
      {
        var o := copy[i].observer;
        calls := calls + [Call(o, signal)];
        if fails(o) {
          UntilFailureAt(Observers(copy), fails, i);
          assert calls == CallsOf(Observers(copy)[..i + 1], signal);
          return calls, Err(ObserverRejected(o));
        }
        i := i + 1;
      }
      UntilFailureAt(Observers(copy), fails, |copy|);
      assert calls == CallsOf(Observers(copy), signal);
      return calls, Ok(());
    }

    /** `next`: throws on a closed subject; otherwise awaits every observer's `next(value)` in subscription order, rethrowing the first rejection. */
    method Next(value: V, fails: ObserverId -> bool) returns (calls: seq<Call<V>>, r: Result<(), SubjectError>)
      ensures !isOpen ==> r == Err(SubjectClosed) && calls == []
      ensures isOpen ==> calls == CallsOf(UntilFailure(Observers(subs), fails), NextOf(value))
      ensures isOpen ==> (r.Ok? <==> forall i :: 0 <= i < |subs| ==> !fails(subs[i].observer))
      ensures isOpen && r.Err? ==> calls != [] && r.error == ObserverRejected(calls[|calls| - 1].observer)
    {
      if !isOpen {
        return [], Err(SubjectClosed);
      }
      calls, r := Deliver(NextOf(value), fails);
    }

    /** `throw`: like `next`, awaiting every observer's `throw(error)`. */
    method Throw(error: string, fails: ObserverId -> bool) returns (calls: seq<Call<V>>, r: Result<(), SubjectError>)
      ensures !isOpen ==> r == Err(SubjectClosed) && calls == []
      ensures isOpen ==> calls == CallsOf(UntilFailure(Observers(subs), fails), ThrowOf(error))
      ensures isOpen ==> (r.Ok? <==> forall i :: 0 <= i < |subs| ==> !fails(subs[i].observer))
      ensures isOpen && r.Err? ==> calls != [] && r.error == ObserverRejected(calls[|calls| - 1].observer)
    {
      if !isOpen {
        return [], Err(SubjectClosed);
      }
      calls, r := Deliver(ThrowOf(error), fails);
    }

    /** `close`: the first call closes the subject and calls every observer's `close`; later calls only warn. */
    method Close() returns (calls: seq<Call<V>>)
      requires Valid()
      modifies this
      ensures Valid() && !isOpen && subs == old(subs) && nextToken == old(nextToken)
      ensures calls == if old(isOpen) then CallsOf(Observers(subs), CloseSignal) else []
    {
      calls := [];
      if isOpen {
        isOpen := false;
        var never := (o: ObserverId) => false;
        UntilFailureAt(Observers(subs), never, |subs|);
        var r;
        calls, r := Deliver(CloseSignal, never);
      }
    }
  }
}
