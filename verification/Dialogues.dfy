/** Conversations between a client and an adapter, for any adapter: `answer` is one call of
    it, giving the adapter afterwards and the reply. The wrapper that fails one call
    (reliability/injection.py) is described here, whatever it wraps. */
module Dialogues {
  import opened Sequences

  datatype Call<Q, R> = Call(request: Q, reply: R)

  /** A client decides its next request from the conversation so far; None means it is
      done. */
  type Client<!Q, !R> = seq<Call<Q, R>> -> Option<Q>

  datatype Transcript<A, Q, R> = Transcript(calls: seq<Call<Q, R>>, adapter: A)

  /** A run of at most `n` calls. */
  function Run<A, Q, R>(answer: (A, Q) -> (A, R), c: Client<Q, R>, a: A, n: nat): (t: Transcript<A, Q, R>)
    ensures |t.calls| <= n
  {
    if n == 0 then Transcript([], a)
    else
      var t := Run(answer, c, a, n - 1);
      match c(t.calls)
      case None => t
      case Some(q) => Transcript(t.calls + [Call(q, answer(t.adapter, q).1)], answer(t.adapter, q).0)
  }

  function Replies<Q, R>(calls: seq<Call<Q, R>>): (r: seq<R>)
    ensures |r| == |calls| && forall i :: 0 <= i < |calls| ==> r[i] == calls[i].reply
  {
    seq(|calls|, i requires 0 <= i < |calls| => calls[i].reply)
  }

  lemma {:induction false} RunStep<A, Q, R>(answer: (A, Q) -> (A, R), c: Client<Q, R>, a: A, n: nat)
    requires c(Run(answer, c, a, n).calls).Some?
    ensures var t := Run(answer, c, a, n);
            var q := c(t.calls).value;
            Run(answer, c, a, n + 1) == Transcript(t.calls + [Call(q, answer(t.adapter, q).1)], answer(t.adapter, q).0)
  {
  }

  /** The client still asks after its first `n` calls. */
  ghost predicate AsksAt<A, Q, R>(answer: (A, Q) -> (A, R), c: Client<Q, R>, a: A, n: nat) {
    |Run(answer, c, a, n).calls| == n && c(Run(answer, c, a, n).calls).Some?
  }

  lemma {:induction false} AskedBefore<A, Q, R>(answer: (A, Q) -> (A, R), c: Client<Q, R>, a: A, n: nat, j: nat)
    requires j <= n && AsksAt(answer, c, a, n)
    ensures AsksAt(answer, c, a, j)
    ensures Run(answer, c, a, j).calls == Run(answer, c, a, n).calls[..j]
    decreases n - j
  {
    if j < n {
      AskedBefore(answer, c, a, n, j + 1);
    }
  }

  lemma {:induction false} RunPrefix<A, Q, R>(answer: (A, Q) -> (A, R), c: Client<Q, R>, a: A, m: nat, n: nat)
    requires m <= n
    ensures Run(answer, c, a, m).calls <= Run(answer, c, a, n).calls
  {
    if m < n {
      RunPrefix(answer, c, a, m, n - 1);
    }
  }

  /** One call keeps `inv`. */
  ghost predicate KeptByCall<A, Q, R>(
      answer: (A, Q) -> (A, R), inv: Transcript<A, Q, R> -> bool, t: Transcript<A, Q, R>, q: Q)
  {
    inv(t) ==> inv(Transcript(t.calls + [Call(q, answer(t.adapter, q).1)], answer(t.adapter, q).0))
  }

  lemma {:induction false} Maintained<A, Q, R>(
      answer: (A, Q) -> (A, R), inv: Transcript<A, Q, R> -> bool, c: Client<Q, R>, a: A, n: nat)
    requires inv(Transcript([], a))
    requires forall t, q :: KeptByCall(answer, inv, t, q)
    ensures inv(Run(answer, c, a, n))
  {
    if n > 0 {
      Maintained(answer, inv, c, a, n - 1);
      var t := Run(answer, c, a, n - 1);
      if c(t.calls).Some? {
        assert KeptByCall(answer, inv, t, c(t.calls).value);
      }
    }
  }

  // ---------- Two adapters that answer alike ----------

  /** After the calls so far the adapters stand at `stateA` and `stateB`; on the next request
      they give the same reply, as long as the conversation stays `good`. */
  ghost predicate AlikeAt<A, B, Q, R>(
      f: (A, Q) -> (A, R), g: (B, Q) -> (B, R),
      stateA: seq<Call<Q, R>> -> A, stateB: seq<Call<Q, R>> -> B, good: seq<Call<Q, R>> -> bool,
      calls: seq<Call<Q, R>>, q: Q)
  {
    var next := calls + [Call(q, f(stateA(calls), q).1)];
    good(next) ==>
      && f(stateA(calls), q).0 == stateA(next)
      && g(stateB(calls), q) == (stateB(next), f(stateA(calls), q).1)
  }

  /** A client cannot tell such adapters apart. */
  lemma {:induction false} Simulation<A, B, Q, R>(
      f: (A, Q) -> (A, R), g: (B, Q) -> (B, R),
      stateA: seq<Call<Q, R>> -> A, stateB: seq<Call<Q, R>> -> B, good: seq<Call<Q, R>> -> bool,
      c: Client<Q, R>, n: nat)
    requires forall calls, q :: AlikeAt(f, g, stateA, stateB, good, calls, q)
    requires forall m: nat :: m <= n ==> good(Run(f, c, stateA([]), m).calls)
    ensures var t := Run(f, c, stateA([]), n);
            t.adapter == stateA(t.calls) && Run(g, c, stateB([]), n) == Transcript(t.calls, stateB(t.calls))
  {
    if n > 0 {
      Simulation(f, g, stateA, stateB, good, c, n - 1);
      var s := Run(f, c, stateA([]), n - 1);
      if c(s.calls).Some? {
        assert AlikeAt(f, g, stateA, stateB, good, s.calls, c(s.calls).value);
        assert good(Run(f, c, stateA([]), n).calls);
      }
    }
  }

  // ---------- An adapter that serves prepared replies ----------

  /** At position j the adapter serves reply j to an accepted request and moves on. */
  ghost predicate ServesAt<B, Q, R>(
      g: (B, Q) -> (B, R), state: nat -> B, replies: seq<R>, accepts: (nat, Q) -> bool, j: nat, q: Q)
  {
    j < |replies| && accepts(j, q) ==> g(state(j), q) == (state(j + 1), replies[j])
  }

  /** The client made `i` calls and all its requests were acceptable. */
  ghost predicate AsksAccepted<B, Q, R>(
      g: (B, Q) -> (B, R), b: B, accepts: (nat, Q) -> bool, d: Client<Q, R>, i: nat)
  {
    && |Run(g, d, b, i).calls| == i
    && forall j: nat | j < i :: accepts(j, Run(g, d, b, i).calls[j].request)
  }

  lemma {:induction false} Served<B, Q, R>(
      g: (B, Q) -> (B, R), state: nat -> B, replies: seq<R>, accepts: (nat, Q) -> bool, d: Client<Q, R>, i: nat)
    requires forall j, q :: ServesAt(g, state, replies, accepts, j, q)
    requires i <= |replies| && AsksAccepted(g, state(0), accepts, d, i)
    ensures var u := Run(g, d, state(0), i);
            u.adapter == state(i) && Replies(u.calls) == replies[..i]
  {
    if i > 0 {
      var u, v := Run(g, d, state(0), i), Run(g, d, state(0), i - 1);
      forall j: nat | j < i - 1 ensures accepts(j, v.calls[j].request) {
        assert u.calls[j] == v.calls[j];
      }
      Served(g, state, replies, accepts, d, i - 1);
      assert ServesAt(g, state, replies, accepts, i - 1, u.calls[i - 1].request);
      assert Replies(u.calls) == Replies(v.calls) + [replies[i - 1]];
    }
  }

  // ---------- Answering a list of requests, whoever asks ----------

  function Feed<A, Q, R>(answer: (A, Q) -> (A, R), a: A, qs: seq<Q>): (r: (A, seq<R>))
    ensures |r.1| == |qs|
  {
    if qs == [] then (a, [])
    else
      var before := Feed(answer, a, qs[..|qs| - 1]);
      var last := answer(before.0, qs[|qs| - 1]);
      (last.0, before.1 + [last.1])
  }

  lemma {:induction false} FeedSnoc<A, Q, R>(answer: (A, Q) -> (A, R), a: A, qs: seq<Q>, q: Q)
    ensures var before := Feed(answer, a, qs);
            Feed(answer, a, qs + [q]) == (answer(before.0, q).0, before.1 + [answer(before.0, q).1])
  {
    assert (qs + [q])[..|qs|] == qs;
  }

  lemma {:induction false} FeedConcat<A, Q, R>(answer: (A, Q) -> (A, R), a: A, x: seq<Q>, y: seq<Q>)
    ensures var first := Feed(answer, a, x);
            var rest := Feed(answer, first.0, y);
            Feed(answer, a, x + y) == (rest.0, first.1 + rest.1)
  {
    var first := Feed(answer, a, x);
    if y == [] {
      assert x + y == x && first.1 + [] == first.1;
    } else {
      var n := |y| - 1;
      FeedConcat(answer, a, x, y[..n]);
      FeedSnoc(answer, a, x + y[..n], y[n]);
      assert x + y == (x + y[..n]) + [y[n]];
      var f := Feed(answer, first.0, y[..n]);
      ConcatAssociative(first.1, f.1, [answer(f.0, y[n]).1]);
    }
  }

  // ---------- The wrapper that fails one call ----------

  type CallNumber = n: nat | n >= 1 witness 1

  /** Fail call `atCall`, counted from 1 by the wrapper itself, with this failure. */
  datatype Injection<R> = Injection(atCall: CallNumber, failure: R)

  datatype Wrapper<A> = Wrapper(inner: A, calls: nat)

  /** The call is counted first; at its number the inner adapter is not consulted. */
  function Through<A, Q, R>(answer: (A, Q) -> (A, R), spec: Option<Injection<R>>): (Wrapper<A>, Q) -> (Wrapper<A>, R) {
    (w: Wrapper<A>, q: Q) =>
      if spec.Some? && spec.value.atCall == w.calls + 1 then
        (Wrapper(w.inner, w.calls + 1), spec.value.failure)
      else
        (Wrapper(answer(w.inner, q).0, w.calls + 1), answer(w.inner, q).1)
  }

  /** While its call is not among them the wrapper passes requests and replies through. */
  lemma {:induction false} QuietWrapper<A, Q, R>(
      answer: (A, Q) -> (A, R), spec: Injection<R>, a: A, calls: nat, qs: seq<Q>)
    requires spec.atCall <= calls || calls + |qs| < spec.atCall
    ensures var inner := Feed(answer, a, qs);
            Feed(Through(answer, Some(spec)), Wrapper(a, calls), qs) == (Wrapper(inner.0, calls + |qs|), inner.1)
  {
    if qs != [] {
      QuietWrapper(answer, spec, a, calls, qs[..|qs| - 1]);
    }
  }

  /** `s` without the entry of call `k`, when it gets that far. */
  function WithoutCall<T>(s: seq<T>, k: CallNumber): seq<T> {
    if |s| < k then s else s[..k - 1] + s[k..]
  }

  /** The inner adapter sees every request but the injected call's, in order, whatever it is
      and whoever asks; the caller gets its replies unchanged around the failure. */
  lemma {:induction false} InjectionDeletesOneCall<A, Q, R>(
      answer: (A, Q) -> (A, R), spec: Injection<R>, a: A, qs: seq<Q>)
    ensures var inner := Feed(answer, a, WithoutCall(qs, spec.atCall));
            var outer := Feed(Through(answer, Some(spec)), Wrapper(a, 0), qs);
            && outer.0 == Wrapper(inner.0, |qs|)
            && WithoutCall(outer.1, spec.atCall) == inner.1
            && (|qs| >= spec.atCall ==> outer.1[spec.atCall - 1] == spec.failure)
  {
    hide Feed;
    var k: nat := spec.atCall;
    if |qs| < k {
      QuietWrapper(answer, spec, a, 0, qs);
    } else {
      var x, q, y := qs[..k - 1], qs[k - 1], qs[k..];
      var first := Feed(answer, a, x);
      var rest := Feed(answer, first.0, y);
      QuietWrapper(answer, spec, a, 0, x);
      FeedSnoc(Through(answer, Some(spec)), Wrapper(a, 0), x, q);
      QuietWrapper(answer, spec, first.0, k, y);
      FeedConcat(Through(answer, Some(spec)), Wrapper(a, 0), x + [q], y);
      FeedConcat(answer, a, x, y);
      assert qs == (x + [q]) + y;
      CutOut(first.1, spec.failure, rest.1);
    }
  }

  lemma {:induction false} CutOut<T>(x: seq<T>, t: T, y: seq<T>)
    ensures var s := (x + [t]) + y; s[..|x|] == x && s[|x|] == t && s[|x| + 1..] == y
  {
  }

  /** Without a specification the wrapper is transparent. */
  lemma {:induction false} NoSpecIsTransparent<A, Q, R>(answer: (A, Q) -> (A, R), c: Client<Q, R>, a: A, n: nat)
    ensures var t := Run(answer, c, a, n);
            Run(Through(answer, None), c, Wrapper(a, 0), n) == Transcript(t.calls, Wrapper(t.adapter, |t.calls|))
  {
    if n > 0 {
      NoSpecIsTransparent(answer, c, a, n - 1);
    }
  }

  /** Before its call is reached the wrapper is transparent too. */
  lemma {:induction false} BeforeItsCallIsTransparent<A, Q, R>(
      answer: (A, Q) -> (A, R), spec: Injection<R>, c: Client<Q, R>, a: A, n: nat)
    requires n < spec.atCall
    ensures var t := Run(answer, c, a, n);
            Run(Through(answer, Some(spec)), c, Wrapper(a, 0), n) == Transcript(t.calls, Wrapper(t.adapter, |t.calls|))
  {
    if n > 0 {
      BeforeItsCallIsTransparent(answer, spec, c, a, n - 1);
    }
  }

  /** A run up to the injected call: the unwrapped run, then the failure. */
  lemma {:induction false} RunUpToInjection<A, Q, R>(
      answer: (A, Q) -> (A, R), spec: Injection<R>, c: Client<Q, R>, a: A)
    requires AsksAt(answer, c, a, spec.atCall - 1)
    ensures var s := Run(answer, c, a, spec.atCall - 1);
            Run(Through(answer, Some(spec)), c, Wrapper(a, 0), spec.atCall)
            == Transcript(s.calls + [Call(c(s.calls).value, spec.failure)], Wrapper(s.adapter, spec.atCall))
  {
    var k: nat := spec.atCall - 1;
    BeforeItsCallIsTransparent(answer, spec, c, a, k);
    RunStep(Through(answer, Some(spec)), c, Wrapper(a, 0), k);
  }
}
