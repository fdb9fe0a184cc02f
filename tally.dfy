/**
 * Folding per-operation results into `(success_count, failure_count)`.
 *
 * A bulk transfer submits one operation per file to a pool and reads the results either in
 * completion order (`as_completed`) or in submission order (`asyncio.gather`). The completion
 * order is any permutation of the submitted operations; it is a parameter here.
 */
module Tally {

  /** What one operation produced: a returned value (truthy or not) or a raised exception. */
  datatype Outcome = Returned(truthy: bool) | Raised

  predicate Succeeded(o: Outcome)
  {
    o.Returned? && o.truthy
  }

  /** Reference count of successes, in submission order. */
  function Successes(os: seq<Outcome>): nat
  {
    if os == [] then 0 else (if Succeeded(os[0]) then 1 else 0) + Successes(os[1..])
  }

  /** Reference count of failures: a falsy result or an exception, in submission order. */
  function Failures(os: seq<Outcome>): nat
  {
    if os == [] then 0 else (if Succeeded(os[0]) then 0 else 1) + Failures(os[1..])
  }

  lemma {:induction false} CountsCover(os: seq<Outcome>)
    ensures Successes(os) + Failures(os) == |os|
  {
    if os != [] {
      CountsCover(os[1..]);
    }
  }

  lemma {:induction false} CountsAppend(a: seq<Outcome>, b: seq<Outcome>)
    ensures Successes(a + b) == Successes(a) + Successes(b)
    ensures Failures(a + b) == Failures(a) + Failures(b)
  {
    if a == [] {
      assert a + b == b;
    } else {
      assert (a + b)[1..] == a[1..] + b;
      CountsAppend(a[1..], b);
    }
  }

  /** Every operation succeeded exactly when the success count is the number of operations. */
  lemma {:induction false} AllSucceeded(os: seq<Outcome>)
    ensures Successes(os) == |os| <==> forall i :: 0 <= i < |os| ==> Succeeded(os[i])
  {
    if os != [] {
      AllSucceeded(os[1..]);
      assert Successes(os[1..]) <= |os[1..]| by {
        CountsCover(os[1..]);
      }
      if forall i :: 0 <= i < |os[1..]| ==> Succeeded(os[1..][i]) {
        if Succeeded(os[0]) {
          assert forall i :: 0 <= i < |os| ==> Succeeded(os[i]) by {
            forall i | 0 <= i < |os| ensures Succeeded(os[i]) {
              if i > 0 {
                assert os[i] == os[1..][i - 1];
              }
            }
          }
        }
      } else {
        var i :| 0 <= i < |os[1..]| && !Succeeded(os[1..][i]);
        assert !Succeeded(os[i + 1]);
      }
    }
  }

  /** The success count is the multiplicity of `Returned(true)`, so it ignores order. */
  lemma {:induction false} SuccessesMultiplicity(os: seq<Outcome>)
    ensures Successes(os) == multiset(os)[Returned(true)]
    ensures Failures(os) == |os| - multiset(os)[Returned(true)]
  {
    if os != [] {
      SuccessesMultiplicity(os[1..]);
      assert os == [os[0]] + os[1..];
      assert multiset(os) == multiset{os[0]} + multiset(os[1..]);
    }
  }

  /** Reading the same results in another order gives the same counts. */
  lemma CountsPermutation(a: seq<Outcome>, b: seq<Outcome>)
    requires multiset(a) == multiset(b)
    ensures Successes(a) == Successes(b) && Failures(a) == Failures(b)
  {
    SuccessesMultiplicity(a);
    SuccessesMultiplicity(b);
    assert |a| == |multiset(a)| == |multiset(b)| == |b|;
  }

  // ---------------------------------------------------------------------------
  // Completion orders
  // ---------------------------------------------------------------------------

  /** The indices 0, 1, ..., n-1 in submission order. */
  function Indices(n: nat): (r: seq<nat>)
    ensures |r| == n
    ensures forall i :: 0 <= i < n ==> r[i] == i
  {
    if n == 0 then [] else Indices(n - 1) + [n - 1]
  }

  /** `order` lists every submitted operation exactly once: it is a permutation of the indices. */
  predicate IsOrder(order: seq<nat>, n: nat)
  {
    InRange(order, n) && multiset(order) == multiset(Indices(n))
  }

  /** Every index in `idx` points into a sequence of length `n`. */
  predicate InRange(idx: seq<nat>, n: nat)
  {
    forall k :: 0 <= k < |idx| ==> idx[k] < n
  }

  lemma OrderFacts(order: seq<nat>, n: nat)
    requires IsOrder(order, n)
    ensures |order| == n
    ensures forall k :: 0 <= k < |order| ==> order[k] < n
    ensures forall i :: 0 <= i < n ==> i in order
  {
    assert |order| == |multiset(order)| == |multiset(Indices(n))| == n;
    forall k | 0 <= k < |order| ensures order[k] < n {
      assert order[k] in multiset(Indices(n));
    }
    forall i | 0 <= i < n ensures i in order {
      assert Indices(n)[i] == i;
      assert i in multiset(order);
    }
  }

  /** Submission order is one of the possible completion orders. */
  lemma SubmissionIsOrder(n: nat)
    ensures IsOrder(Indices(n), n)
  {
  }

  /** The elements of `xs` at the positions `idx`, in that order. */
  function Pick<T>(xs: seq<T>, idx: seq<nat>): (r: seq<T>)
    requires InRange(idx, |xs|)
    ensures |r| == |idx|
    ensures forall k :: 0 <= k < |idx| ==> r[k] == xs[idx[k]]
  {
    if idx == [] then [] else [xs[idx[0]]] + Pick(xs, idx[1..])
  }

  lemma PickAppend<T>(xs: seq<T>, a: seq<nat>, b: seq<nat>)
    requires InRange(a, |xs|) && InRange(b, |xs|)
    ensures Pick(xs, a + b) == Pick(xs, a) + Pick(xs, b)
  {
  }

  /** Removing the element at position `j`. */
  lemma RemoveAt<T>(b: seq<T>, j: nat)
    requires j < |b|
    ensures multiset(b[..j] + b[j + 1..]) == multiset(b) - multiset{b[j]}
  {
    assert b == b[..j] + [b[j]] + b[j + 1..];
    assert multiset(b) == multiset(b[..j]) + multiset{b[j]} + multiset(b[j + 1..]);
  }

  lemma PickRemoveAt<T>(xs: seq<T>, b: seq<nat>, j: nat)
    requires InRange(b, |xs|)
    requires j < |b|
    ensures multiset(Pick(xs, b[..j] + b[j + 1..])) == multiset(Pick(xs, b)) - multiset{xs[b[j]]}
  {
    var p := Pick(xs, b);
    var rest := b[..j] + b[j + 1..];
    assert Pick(xs, rest) == p[..j] + p[j + 1..];
    RemoveAt(p, j);
  }

  lemma RemoveAtInRange(b: seq<nat>, j: nat, n: nat)
    requires InRange(b, n) && j < |b|
    ensures InRange(b[..j] + b[j + 1..], n)
  {
    var rest := b[..j] + b[j + 1..];
    forall k | 0 <= k < |rest| ensures rest[k] < n {
      if k < j {
        assert rest[k] == b[k];
      } else {
        assert rest[k] == b[k + 1];
      }
    }
  }

  /** Matching the first element of `a` with position `j` of `b` leaves equal multisets. */
  lemma MatchHead<T>(a: seq<T>, b: seq<T>, j: nat)
    requires a != [] && j < |b| && b[j] == a[0]
    requires multiset(a) == multiset(b)
    ensures multiset(a[1..]) == multiset(b[..j] + b[j + 1..])
  {
    RemoveAt(b, j);
    assert a == [a[0]] + a[1..];
    assert multiset(a) == multiset{a[0]} + multiset(a[1..]);
  }

  /** Equal multisets of the remaining picks give equal multisets of all picks. */
  lemma PickMatchedHead<T>(xs: seq<T>, a: seq<nat>, b: seq<nat>, j: nat)
    requires InRange(a, |xs|) && InRange(b, |xs|)
    requires a != [] && j < |b| && b[j] == a[0]
    requires multiset(Pick(xs, a[1..])) == multiset(Pick(xs, b[..j] + b[j + 1..]))
    ensures multiset(Pick(xs, a)) == multiset(Pick(xs, b))
  {
    var v := xs[a[0]];
    PickRemoveAt(xs, b, j);
    PickCons(xs, a);
    var pb := Pick(xs, b);
    assert pb[j] == v;
    assert v in multiset(pb);
    CancelHead(multiset(Pick(xs, a)), multiset(pb), multiset(Pick(xs, a[1..])), v);
  }

  /** Multiset arithmetic: `{v} + r` equals any multiset holding `v` whose rest is `r`. */
  lemma CancelHead<T>(m1: multiset<T>, m2: multiset<T>, r: multiset<T>, v: T)
    requires m1 == multiset{v} + r && v in m2 && r == m2 - multiset{v}
    ensures m1 == m2
  {
    assert m2 == m2 - multiset{v} + multiset{v};
  }

  /** The first pick and the rest of them. */
  lemma PickCons<T>(xs: seq<T>, a: seq<nat>)
    requires InRange(a, |xs|) && a != []
    ensures multiset(Pick(xs, a)) == multiset{xs[a[0]]} + multiset(Pick(xs, a[1..]))
  {
    assert Pick(xs, a) == [xs[a[0]]] + Pick(xs, a[1..]);
  }

  lemma {:induction false} PickSameIndices<T>(xs: seq<T>, a: seq<nat>, b: seq<nat>)
    requires InRange(a, |xs|) && InRange(b, |xs|)
    requires multiset(a) == multiset(b)
    ensures multiset(Pick(xs, a)) == multiset(Pick(xs, b))
    decreases |a|
  {
    if a == [] {
      assert |b| == |multiset(b)| == 0;
    } else {
      assert a[0] in multiset(a);
      assert a[0] in multiset(b);
      var j :| 0 <= j < |b| && b[j] == a[0];
      MatchHead(a, b, j);
      RemoveAtInRange(b, j, |xs|);
      PickSameIndices(xs, a[1..], b[..j] + b[j + 1..]);
      PickMatchedHead(xs, a, b, j);
    }
  }

  lemma PickIndices<T>(xs: seq<T>)
    ensures Pick(xs, Indices(|xs|)) == xs
  {
  }

  /** The results read in a completion order are a permutation of the results. */
  lemma PickOrder<T>(xs: seq<T>, order: seq<nat>)
    requires IsOrder(order, |xs|)
    ensures forall k :: 0 <= k < |order| ==> order[k] < |xs|
    ensures multiset(Pick(xs, order)) == multiset(xs)
  {
    OrderFacts(order, |xs|);
    PickSameIndices(xs, order, Indices(|xs|));
    PickIndices(xs);
  }

  // ---------------------------------------------------------------------------
  // The counting loops
  // ---------------------------------------------------------------------------

  /**
   * `_process_operations`: read each future's result as it completes; a truthy result is a
   * success, a falsy result or an exception a failure, and the progress bar advances once in
   * every case. The counts do not depend on the completion order.
   */
  method ProcessOperations(outcomes: seq<Outcome>, order: seq<nat>)
    returns (success: nat, failure: nat, progress: nat)
    requires IsOrder(order, |outcomes|)
    ensures success == Successes(outcomes)
    ensures failure == Failures(outcomes)
    ensures success + failure == |outcomes|
    ensures progress == |outcomes|
  {
    PickOrder(outcomes, order);
    OrderFacts(order, |outcomes|);
    success, failure, progress := 0, 0, 0;
    var k := 0;
    while k < |order|
      invariant 0 <= k <= |order|
      invariant success == Successes(Pick(outcomes, order[..k]))
      invariant failure == Failures(Pick(outcomes, order[..k]))
      invariant progress == k
    {
      var result := outcomes[order[k]];
      match result {
        case Returned(truthy) =>
          if truthy {
            success := success + 1;
          } else {
            failure := failure + 1;
          }
        case Raised =>
          failure := failure + 1;
      }
      progress := progress + 1;
      CountStep(outcomes, order, k);
      k := k + 1;
    }
    assert order[..k] == order;
    CountsPermutation(Pick(outcomes, order), outcomes);
    CountsCover(outcomes);
  }

  /** Reading one more completed result adds it to exactly one of the two counts. */
  lemma CountStep(outcomes: seq<Outcome>, order: seq<nat>, k: nat)
    requires InRange(order, |outcomes|) && k < |order|
    ensures var before, now := Pick(outcomes, order[..k]), Pick(outcomes, order[..k + 1]);
      && Successes(now) == Successes(before) + (if Succeeded(outcomes[order[k]]) then 1 else 0)
      && Failures(now) == Failures(before) + (if Succeeded(outcomes[order[k]]) then 0 else 1)
  {
    var result := outcomes[order[k]];
    assert order[..k + 1] == order[..k] + [order[k]];
    PickAppend(outcomes, order[..k], [order[k]]);
    assert Pick(outcomes, [order[k]]) == [result];
    CountsAppend(Pick(outcomes, order[..k]), [result]);
    assert Successes([result]) == (if Succeeded(result) then 1 else 0);
    assert Failures([result]) == (if Succeeded(result) then 0 else 1);
  }

  /**
   * The tally after `asyncio.gather(..., return_exceptions=True)`: results arrive in
   * submission order; an exception or a falsy result is a failure.
   */
  method GatherTally(results: seq<Outcome>) returns (success: nat, failure: nat)
    ensures success == Successes(results)
    ensures failure == Failures(results)
    ensures success + failure == |results|
  {
    success, failure := 0, 0;
    var k := 0;
    while k < |results|
      invariant 0 <= k <= |results|
      invariant success == Successes(results[..k])
      invariant failure == Failures(results[..k])
    {
      var result := results[k];
      if result.Raised? || !result.truthy {
        failure := failure + 1;
      } else {
        success := success + 1;
      }
      assert results[..k + 1] == results[..k] + [result];
      CountsAppend(results[..k], [result]);
      assert Successes([result]) == (if Succeeded(result) then 1 else 0);
      k := k + 1;
    }
    assert results[..k] == results;
    CountsCover(results);
  }
}
