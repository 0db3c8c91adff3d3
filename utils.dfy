/**
 * The sequence helpers of packages/data/src/utils.ts (`distinct`, `zip`, `arrayEqual`,
 * `pipe`) and the classification rule by which `whenAll` turns settled outcomes into a
 * value list or a thrown error.
 */
module Utils {
  import opened Wrappers

  /** Errors the helpers throw. */
  datatype UtilError = AssertionFailed

  // ----- distinct -----

  /** Index of the first occurrence of `x` in `s`. */
  function FirstIndex<T(==)>(s: seq<T>, x: T): (k: nat)
    requires x in s
    ensures k < |s| && s[k] == x && x !in s[..k]
  {
    if s[0] == x then 0 else 1 + FirstIndex(s[1..], x)
  }

  /** `distinct`: the elements of `items`, each once, in the order of their first occurrence (a JavaScript Set keeps insertion order). */
  function Distinct<T(==,!new)>(items: seq<T>): (r: seq<T>)
    ensures forall x :: x in r <==> x in items
    ensures forall i, j :: 0 <= i < j < |r| ==> r[i] != r[j]
    decreases |items|
  {
    if items == [] then []
    else
      var init := Distinct(items[..|items| - 1]);
      var last := items[|items| - 1];
      assert forall x :: x in items <==> x in items[..|items| - 1] || x == last by {
        assert items == items[..|items| - 1] + [last];
      }
      if last in init then init else init + [last]
  }

  /** Distinct keeps the first-occurrence order of its input. */
  lemma {:induction false} DistinctKeepsFirstOccurrenceOrder<T(!new)>(items: seq<T>, i: nat, j: nat)
    requires i < j < |Distinct(items)|
    ensures FirstIndex(items, Distinct(items)[i]) < FirstIndex(items, Distinct(items)[j])
    decreases |items|
  {
    var init := items[..|items| - 1];
    var last := items[|items| - 1];
    var d := Distinct(items);
    assert items == init + [last];
    FirstIndexOfPrefix(init, last, d[i]);
    if j < |Distinct(init)| {
      FirstIndexOfPrefix(init, last, d[j]);
      DistinctKeepsFirstOccurrenceOrder(init, i, j);
    } else {
      // d[j] is `last`, which does not occur in `init`
      assert d[j] == last && last !in Distinct(init);
      assert last !in init;
      assert items[|init|] == last && items[..|init|] == init;
      assert FirstIndex(items, last) == |init|;
      assert d[i] in init;
    }
  }

  lemma FirstIndexOfPrefix<T>(init: seq<T>, last: T, x: T)
    requires x in init
    ensures FirstIndex(init + [last], x) == FirstIndex(init, x)
  {
    var s := init + [last];
    var k := FirstIndex(init, x);
    var m := FirstIndex(s, x);
    assert s[..k] == init[..k];
    assert s[k] == x;
  }

  // ----- zip -----

  /** `zip`: asserts equal lengths (throws otherwise) and pairs the elements up. */
  method Zip<A, B>(a: seq<A>, b: seq<B>) returns (r: Result<seq<(A, B)>, UtilError>)
    ensures r.Err? <==> |a| != |b|
    ensures r.Ok? ==> |r.value| == |a| && forall i :: 0 <= i < |a| ==> r.value[i] == (a[i], b[i])
  {
    if |a| != |b| {
      return Err(AssertionFailed);
    }
    var result: seq<(A, B)> := [];
    var i := 0;
    while i < |a|
      invariant 0 <= i <= |a|
      invariant |result| == i
      invariant forall k :: 0 <= k < i ==> result[k] == (a[k], b[k])
    {
      result := result + [(a[i], b[i])];
      i := i + 1;
    }
    return Ok(result);
  }

  /** `zip` and projection are inverse: the two components of a zip are its inputs. */
  lemma ZipUnzip<A, B>(a: seq<A>, b: seq<B>, z: seq<(A, B)>)
    requires |a| == |b| == |z|
    requires forall i :: 0 <= i < |a| ==> z[i] == (a[i], b[i])
    ensures seq(|z|, i requires 0 <= i < |z| => z[i].0) == a
    ensures seq(|z|, i requires 0 <= i < |z| => z[i].1) == b
  {
  }

  // ----- arrayEqual -----

  /** `arrayEqual`: false on different lengths, otherwise compares element by element. */
  method ArrayEqual<T(==)>(a: seq<T>, b: seq<T>) returns (r: bool)
    ensures r <==> (|a| == |b| && forall i :: 0 <= i < |a| ==> a[i] == b[i])
    ensures r <==> a == b
  {
    if |a| != |b| {
      return false;
    }
    var i := 0;
    while i < |a|
      invariant 0 <= i <= |a|
      invariant forall k :: 0 <= k < i ==> a[k] == b[k]
    {
      if a[i] != b[i] {
        return false;
      }
      i := i + 1;
    }
    return true;
  }

  // ----- pipe -----

  /** `pipe`: feed `x` through the functions left to right (`fns.reduce((prev, fn) => fn(prev), x)`). */
  function Pipe<T>(x: T, fns: seq<T -> T>): T
    decreases |fns|
  {
    if fns == [] then x else Pipe(fns[0](x), fns[1..])
  }

  /** Adding one more stage applies it to the result of the earlier stages. */
  lemma {:induction false} PipeSnoc<T>(x: T, fns: seq<T -> T>, f: T -> T)
    ensures Pipe(x, fns + [f]) == f(Pipe(x, fns))
    decreases |fns|
  {
    if fns == [] {
      assert fns + [f] == [f];
    } else {
      assert (fns + [f])[1..] == fns[1..] + [f];
      PipeSnoc(fns[0](x), fns[1..], f);
    }
  }

  /** Piping through two stage lists in a row equals piping through their concatenation. */
  lemma {:induction false} PipeAppend<T>(x: T, fs: seq<T -> T>, gs: seq<T -> T>)
    ensures Pipe(x, fs + gs) == Pipe(Pipe(x, fs), gs)
    decreases |fs|
  {
    if fs == [] {
      assert fs + gs == gs;
    } else {
      assert (fs + gs)[1..] == fs[1..] + gs;
      PipeAppend(fs[0](x), fs[1..], gs);
    }
  }

  // ----- whenAll -----

  /** An error reason; `business` marks a BusinessError. */
  datatype Reason = Reason(business: bool, message: string)

  /** One outcome of `Promise.allSettled`. */
  datatype Settled<T> = Fulfilled(value: T) | Rejected(reason: Reason)

  /** What `whenAll` does with the settled outcomes: return the values or throw. */
  datatype AllOutcome<T> =
    | Values(values: seq<T>)
    | Rethrow(reason: Reason)
    | AggregateBusinessError(reasons: seq<Reason>)
    | AggregateError(reasons: seq<Reason>)

  /** The reasons of the rejected outcomes, in input order. */
  function Rejections<T>(results: seq<Settled<T>>): (r: seq<Reason>)
    ensures |r| <= |results|
    ensures r == [] <==> forall i :: 0 <= i < |results| ==> results[i].Fulfilled?
    ensures forall x :: x in r ==> exists i :: 0 <= i < |results| && results[i] == Rejected(x)
  {
    if results == [] then []
    else (if results[0].Rejected? then [results[0].reason] else []) + Rejections(results[1..])
  }

  /** The classification rule of `whenAll`. */
  function WhenAll<T>(results: seq<Settled<T>>): (r: AllOutcome<T>)
    ensures r.Values? <==> forall i :: 0 <= i < |results| ==> results[i].Fulfilled?
    ensures r.Values? ==> |r.values| == |results| && forall i :: 0 <= i < |results| ==> results[i] == Fulfilled(r.values[i])
    ensures r.Rethrow? ==> Rejections(results) == [r.reason]
    ensures (r.AggregateBusinessError? || r.AggregateError?) ==> r.reasons == Rejections(results) && |r.reasons| >= 2
    ensures r.AggregateBusinessError? ==> forall x :: x in r.reasons ==> x.business
    ensures r.AggregateError? ==> exists x :: x in r.reasons && !x.business
  {
    var rejected := Rejections(results);
    if |rejected| == 0 then
      Values(seq(|results|, i requires 0 <= i < |results| => results[i].value))
    else if |rejected| == 1 then
      Rethrow(rejected[0])
    else if forall x :: x in rejected ==> x.business then
      AggregateBusinessError(rejected)
    else
      AggregateError(rejected)
  }

  /** Exactly one rejection is rethrown unchanged, whatever else fulfilled. */
  lemma {:induction false} WhenAllSingleRejection<T>(before: seq<T>, reason: Reason, after: seq<T>)
    ensures WhenAll(seq(|before|, i requires 0 <= i < |before| => Fulfilled(before[i])) + [Rejected(reason)]
                    + seq(|after|, i requires 0 <= i < |after| => Fulfilled(after[i]))) == Rethrow(reason)
  {
    var pre := seq(|before|, i requires 0 <= i < |before| => Fulfilled(before[i]));
    var post := seq(|after|, i requires 0 <= i < |after| => Fulfilled(after[i]));
    RejectionsAppend(pre, [Rejected(reason)] + post);
    RejectionsAppend([Rejected(reason)], post);
    assert pre + [Rejected(reason)] + post == pre + ([Rejected(reason)] + post);
    assert Rejections(pre) == [];
    assert Rejections(post) == [];
  }

  lemma {:induction false} RejectionsAppend<T>(a: seq<Settled<T>>, b: seq<Settled<T>>)
    ensures Rejections(a + b) == Rejections(a) + Rejections(b)
    decreases |a|
  {
    if a == [] {
      assert a + b == b;
    } else {
      assert (a + b)[0] == a[0] && (a + b)[1..] == a[1..] + b;
      RejectionsAppend(a[1..], b);
    }
  }
}
