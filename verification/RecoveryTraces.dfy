/** What a supervised run leaves behind, told from its attempts: the breaker's counts, the
    decisions, the recorded failures and the trace (reliability/controller.py). */
module RecoveryTraces {
  import opened Sequences
  import E = Engine
  import W = WorkflowStates
  import opened Failures
  import opened Recovery
  import opened RecoveryRuns
  import opened RetryPolicy

  /** The boundary an attempt that raised is charged to. */
  function ChargedTo(a: Attempt): Boundary {
    if a.end.Raised? then ClassifyException(a.end.exception).boundary else AtModel
  }

  /** How many of the attempts n, ..., m - 1 failed at `b`. */
  function FailuresAt(attempts: nat -> Attempt, n: nat, m: nat, b: Boundary): nat
    decreases m - n
  {
    if n >= m then 0 else (if ChargedTo(attempts(n)) == b then 1 else 0) + FailuresAt(attempts, n + 1, m, b)
  }

  /** The attempts a run charged to a boundary are those before this one. */
  function ChargedBefore(e: Ending): nat {
    if Stopped(e) then e.attempts + 1 else e.attempts
  }

  // ---------- One step of the run ----------

  lemma {:induction false} RaiseCounts(
      policy: Policy, threshold: nat, traced: bool, a: Attempt, n: nat, p: Progress, b: Boundary)
    requires a.end.Raised?
    ensures var q := AfterRaise(policy, threshold, traced, p, a, n);
            && CountOf(q.counts, b) == CountOf(p.counts, b) + (if ChargedTo(a) == b then 1 else 0)
            && q.lastFailed == Some(ChargedTo(a))
  {
    hide Left, Sum, AttemptTrace, ClassifyException, Respond;
  }

  // ---------- The breaker ----------

  /** Where the last failure was; at the model when nothing failed. */
  function LastCharged(attempts: nat -> Attempt, n: nat, m: nat, before: Option<Boundary>): Boundary {
    if m > n then ChargedTo(attempts(m - 1)) else if before.Some? then before.value else AtModel
  }

  ghost predicate CountsTold(
      attempts: nat -> Attempt, n: nat, p: Progress, e: Ending, q: Progress, b: Boundary)
  {
    CountOf(q.counts, b)
    == if e.Result? && b == LastCharged(attempts, n, e.attempts, p.lastFailed) then 0
       else CountOf(p.counts, b) + FailuresAt(attempts, n, ChargedBefore(e), b)
  }

  /** After every run the breaker has counted each failure at its boundary; a run that ends in a
      result has closed the circuit where the last failure was, and no other. */
  lemma {:induction false} ResultClosesTheCircuit(
      policy: Policy, threshold: nat, traced: bool, attempts: nat -> Attempt, n: nat, p: Progress, b: Boundary)
    ensures var (e, q) := Execute(policy, threshold, traced, attempts, n, p);
            e.attempts >= n && CountsTold(attempts, n, p, e, q, b)
    decreases TotalRoom(p.counts, threshold)
  {
    hide Execute, AfterRaise, AfterReturn, TotalRoom, Scheduled, Stop, Left, CountOf, CountsTold;
    ExecuteStep(policy, threshold, traced, attempts, n, p);
    var a := attempts(n);
    var (e, end) := Execute(policy, threshold, traced, attempts, n, p);
    if a.end.Returned? {
      ReturnCounts(p, a, b);
      CountsAtOnce(attempts, n, p, e, end, b);
    } else if Discipline(a.end.exception) {
      CountsAtOnce(attempts, n, p, e, end, b);
    } else {
      var q := AfterRaise(policy, threshold, traced, p, a, n);
      RaiseCounts(policy, threshold, traced, a, n, p, b);
      if q.decisions[|q.decisions| - 1].action.Retry? {
        RetryLeavesRoom(policy, threshold, traced, p, a, n);
        ScheduleCounts(q);
        ResultClosesTheCircuit(policy, threshold, traced, attempts, n + 1, Scheduled(q), b);
        CountsCons(attempts, n, p, Scheduled(q), e, end, b);
      } else {
        StopCounts(traced, q, n);
        CountsAtStop(attempts, n, p, q, e, end, b);
      }
    }
  }

  lemma {:induction false} CountsAtOnce(
      attempts: nat -> Attempt, n: nat, p: Progress, e: Ending, end: Progress, b: Boundary)
    requires e.attempts == n && !Stopped(e)
    requires CountOf(end.counts, b)
             == if e.Result? && b == (if p.lastFailed.Some? then p.lastFailed.value else AtModel) then 0
                else CountOf(p.counts, b)
    ensures CountsTold(attempts, n, p, e, end, b)
  {
  }

  lemma {:induction false} CountsAtStop(
      attempts: nat -> Attempt, n: nat, p: Progress, q: Progress, e: Ending, end: Progress, b: Boundary)
    requires e.attempts == n && Stopped(e) && end.counts == q.counts
    requires CountOf(q.counts, b) == CountOf(p.counts, b) + (if ChargedTo(attempts(n)) == b then 1 else 0)
    ensures CountsTold(attempts, n, p, e, end, b)
  {
    hide ChargedTo, CountOf;
    assert FailuresAt(attempts, n + 1, n + 1, b) == 0;
  }

  lemma {:induction false} CountsCons(
      attempts: nat -> Attempt, n: nat, p: Progress, q: Progress, e: Ending, end: Progress, b: Boundary)
    requires CountOf(q.counts, b) == CountOf(p.counts, b) + (if ChargedTo(attempts(n)) == b then 1 else 0)
    requires q.lastFailed == Some(ChargedTo(attempts(n)))
    requires e.attempts >= n + 1 && CountsTold(attempts, n + 1, q, e, end, b)
    ensures CountsTold(attempts, n, p, e, end, b)
  {
    hide ChargedTo, CountOf;
  }

  lemma {:induction false} ScheduleCounts(q: Progress)
    requires q.decisions != [] && q.lastFailed.Some?
    ensures var p := Scheduled(q);
            p.counts == q.counts && p.lastFailed == q.lastFailed && p.decisions == q.decisions
  {
  }

  lemma {:induction false} ReturnCounts(p: Progress, a: Attempt, b: Boundary)
    ensures CountOf(AfterReturn(p, a).counts, b)
            == if b == (if p.lastFailed.Some? then p.lastFailed.value else AtModel) then 0 else CountOf(p.counts, b)
  {
  }

  lemma {:induction false} StopCounts(traced: bool, q: Progress, n: nat)
    requires q.decisions != []
    ensures Stop(traced, q, n).1.counts == q.counts && Stop(traced, q, n).1.decisions == q.decisions
    ensures Stop(traced, q, n).1.classified == q.classified && Stop(traced, q, n).0.attempts == n
    ensures Stopped(Stop(traced, q, n).0)
  {
  }

  // ---------- The decisions ----------

  /** The decision about attempt `n`: what the policy says of its failure, unless it would retry
      while the boundary, this failure counted, has reached the threshold. */
  ghost predicate DecidedBy(
      policy: Policy, threshold: nat, traced: bool, a: Attempt, n: nat, count: nat, d: RetryDecision)
  {
    && a.end.Raised?
    && var c := ClassifyException(a.end.exception);
       var said := DecideRetry(policy, c, n, false);
       && d.cls == c.cls && d.boundary == c.boundary && d.failedAttempt == n
       && d.observedCost == (if traced then Some(Sum(AttemptTrace(a))) else None)
       && (said.action.Retry? && count >= threshold ==>
             d.action == Escalate && d.mode == HumanEscalation && d.reason == BreakerOpen(count, c.boundary))
       && (said.action.Escalate? || count < threshold ==>
             d.action == said.action && d.mode == said.mode && d.reason == said.reason)
  }

  lemma {:induction false} RaiseDecides(
      policy: Policy, threshold: nat, traced: bool, a: Attempt, n: nat, p: Progress)
    requires a.end.Raised?
    ensures var q := AfterRaise(policy, threshold, traced, p, a, n);
            && q.decisions == p.decisions + [q.decisions[|p.decisions|]]
            && DecidedBy(policy, threshold, traced, a, n, CountOf(p.counts, ChargedTo(a)) + 1,
                         q.decisions[|p.decisions|])
  {
    hide Left, Sum, AttemptTrace, ClassifyException;
  }

  /** Decision `k` of the run: the policy's on its own attempt, with the breaker's word on the
      failures this run had at that boundary. */
  ghost predicate DecisionTold(
      policy: Policy, threshold: nat, traced: bool, attempts: nat -> Attempt, n: nat, p: Progress, e: Ending,
      q: Progress, k: nat)
    requires |p.decisions| <= k < |q.decisions|
  {
    var at := n + k - |p.decisions|;
    var b := ChargedTo(attempts(at));
    && at < ChargedBefore(e)
    && DecidedBy(policy, threshold, traced, attempts(at), at,
                 CountOf(p.counts, b) + FailuresAt(attempts, n, at + 1, b), q.decisions[k])
  }

  lemma {:induction false} OneDecisionEach(
      policy: Policy, threshold: nat, traced: bool, attempts: nat -> Attempt, n: nat, p: Progress)
    ensures var (e, q) := Execute(policy, threshold, traced, attempts, n, p);
            && p.decisions <= q.decisions && e.attempts >= n
            && |q.decisions| - |p.decisions| == ChargedBefore(e) - n
  {
    hide Execute;
    RunKeepsItsBooks(policy, threshold, traced, attempts, n, p);
  }

  /** Every decision of every run follows the policy, or the breaker where it has the word. */
  lemma {:induction false} DecisionsFollowThePolicy(
      policy: Policy, threshold: nat, traced: bool, attempts: nat -> Attempt, n: nat, p: Progress, k: nat)
    requires |p.decisions| <= k < |Execute(policy, threshold, traced, attempts, n, p).1.decisions|
    ensures var (e, q) := Execute(policy, threshold, traced, attempts, n, p);
            && p.decisions <= q.decisions
            && DecisionTold(policy, threshold, traced, attempts, n, p, e, q, k)
    decreases TotalRoom(p.counts, threshold)
  {
    hide Execute, AfterRaise, AfterReturn, TotalRoom, Scheduled, Stop, Left, CountOf, DecisionTold, DecidedBy;
    ExecuteStep(policy, threshold, traced, attempts, n, p);
    OneDecisionEach(policy, threshold, traced, attempts, n, p);
    var a := attempts(n);
    var (e, end) := Execute(policy, threshold, traced, attempts, n, p);
    if a.end.Raised? && !Discipline(a.end.exception) {
      var q := AfterRaise(policy, threshold, traced, p, a, n);
      RaiseDecides(policy, threshold, traced, a, n, p);
      if q.decisions[|q.decisions| - 1].action.Retry? {
        RetryLeavesRoom(policy, threshold, traced, p, a, n);
        ScheduleCounts(q);
        OneDecisionEach(policy, threshold, traced, attempts, n + 1, Scheduled(q));
        if k > |p.decisions| {
          DecisionsFollowThePolicy(policy, threshold, traced, attempts, n + 1, Scheduled(q), k);
          RaiseCounts(policy, threshold, traced, a, n, p, ChargedTo(attempts(n + k - |p.decisions|)));
          DecisionCons(policy, threshold, traced, attempts, n, p, Scheduled(q), e, end, k);
        } else {
          FirstDecision(policy, threshold, traced, attempts, n, p, e, end);
        }
      } else {
        StopCounts(traced, q, n);
        FirstDecision(policy, threshold, traced, attempts, n, p, e, end);
      }
    }
  }

  lemma {:induction false} FirstDecision(
      policy: Policy, threshold: nat, traced: bool, attempts: nat -> Attempt, n: nat, p: Progress, e: Ending,
      end: Progress)
    requires |p.decisions| < |end.decisions| && n < ChargedBefore(e)
    requires DecidedBy(policy, threshold, traced, attempts(n), n, CountOf(p.counts, ChargedTo(attempts(n))) + 1,
                       end.decisions[|p.decisions|])
    ensures DecisionTold(policy, threshold, traced, attempts, n, p, e, end, |p.decisions|)
  {
    hide ChargedTo, CountOf, DecidedBy;
    assert FailuresAt(attempts, n + 1, n + 1, ChargedTo(attempts(n))) == 0;
  }

  lemma {:induction false} DecisionCons(
      policy: Policy, threshold: nat, traced: bool, attempts: nat -> Attempt, n: nat, p: Progress, q: Progress,
      e: Ending, end: Progress, k: nat)
    requires |q.decisions| == |p.decisions| + 1 <= k < |end.decisions|
    requires var b := ChargedTo(attempts(n + k - |p.decisions|));
             CountOf(q.counts, b) == CountOf(p.counts, b) + (if ChargedTo(attempts(n)) == b then 1 else 0)
    requires DecisionTold(policy, threshold, traced, attempts, n + 1, q, e, end, k)
    ensures DecisionTold(policy, threshold, traced, attempts, n, p, e, end, k)
  {
    hide ChargedTo, CountOf, DecidedBy;
  }

  // ---------- The trace ----------

  /** What the trace shows of failure number `k`: its two artifacts and the checkpoint, and the
      retry if there is one, with the failures counted at the boundary. */
  function RoundEvents(k: nat, d: RetryDecision, count: nat): seq<Event> {
    [ArtifactCreated(FailureArtifact(k)), ArtifactCreated(RetryArtifact(k)), CheckpointCreated]
    + if d.action.Retry? then [RetryScheduled(d, count)] else []
  }

  /** How many of the decisions are about `b`. */
  function AboutBoundary(ds: seq<RetryDecision>, b: Boundary): nat {
    if ds == [] then 0
    else AboutBoundary(ds[..|ds| - 1], b) + if ds[|ds| - 1].boundary == b then 1 else 0
  }

  /** The rounds of the first `m` decisions, the failures numbered from `k` + 1. */
  function Told(counts: map<Boundary, nat>, k: nat, ds: seq<RetryDecision>): seq<Event> {
    if ds == [] then []
    else
      var init, d := ds[..|ds| - 1], ds[|ds| - 1];
      Told(counts, k, init)
      + RoundEvents(k + |ds|, d, CountOf(counts, d.boundary) + AboutBoundary(init, d.boundary) + 1)
  }

  /** How the trace ends: with the hand-off, with the one artifact of a terminal that the engine
      handled itself, or with nothing more. */
  function TraceEnd(e: Ending, q: Progress): seq<Event> {
    if e.HandedOff? && q.decisions != [] then
      var d := q.decisions[|q.decisions| - 1];
      [ArtifactCreated(AbortedRunArtifact), ArtifactCreated(EscalationArtifact),
       EscalationCreated(d.reason, d.cls, d.boundary), CheckpointCreated]
    else if e.Result? && Handled(q.state) then [ArtifactCreated(FailureArtifact(q.classified))]
    else []
  }

  /** The engine ended the workflow without completing it, and said why. */
  predicate Handled(s: StateView) {
    && s.status in {W.Failed, W.Escalated, W.Cancelled}
    && s.terminationReason.Some? && s.terminationReason.value.Stated?
  }

  lemma {:induction false} ToldCons(counts: map<Boundary, nat>, k: nat, d: RetryDecision, rest: seq<RetryDecision>)
    ensures var now := counts[d.boundary := CountOf(counts, d.boundary) + 1];
            Told(counts, k, [d] + rest)
            == RoundEvents(k + 1, d, CountOf(counts, d.boundary) + 1) + Told(now, k + 1, rest)
  {
    hide RoundEvents;
    var all, now := [d] + rest, counts[d.boundary := CountOf(counts, d.boundary) + 1];
    if rest == [] {
      assert all == [d] && all[..0] == [];
    } else {
      var init, last := rest[..|rest| - 1], rest[|rest| - 1];
      assert all[..|all| - 1] == [d] + init;
      ToldCons(counts, k, d, init);
      AboutCons(d, init, last.boundary);
    }
  }

  lemma {:induction false} AboutCons(d: RetryDecision, rest: seq<RetryDecision>, b: Boundary)
    ensures AboutBoundary([d] + rest, b) == AboutBoundary(rest, b) + if d.boundary == b then 1 else 0
  {
    var all := [d] + rest;
    if rest == [] {
      assert all[..0] == [];
    } else {
      assert all[..|all| - 1] == [d] + rest[..|rest| - 1];
      AboutCons(d, rest[..|rest| - 1], b);
    }
  }

  ghost predicate TraceTold(p: Progress, e: Ending, q: Progress) {
    && p.decisions <= q.decisions
    && q.events == p.events + Told(p.counts, p.classified, q.decisions[|p.decisions|..]) + TraceEnd(e, q)
    && q.classified == p.classified + |q.decisions| - |p.decisions| + (if e.Result? && Handled(q.state) then 1 else 0)
  }

  /** The trace of a run is its failures one after the other, each with its decision, its
      checkpoint and its retry, and then how it ended. A terminal that the engine handled itself
      leaves one artifact and no decision. */
  lemma {:induction false} TraceTellsTheRun(
      policy: Policy, threshold: nat, traced: bool, attempts: nat -> Attempt, n: nat, p: Progress)
    ensures var (e, q) := Execute(policy, threshold, traced, attempts, n, p); TraceTold(p, e, q)
    decreases TotalRoom(p.counts, threshold)
  {
    hide Execute, AfterRaise, AfterReturn, TotalRoom, Scheduled, Stop, TraceTold;
    ExecuteStep(policy, threshold, traced, attempts, n, p);
    var a := attempts(n);
    var (e, end) := Execute(policy, threshold, traced, attempts, n, p);
    if a.end.Returned? {
      ReturnTold(p, a, n);
    } else if Discipline(a.end.exception) {
      LoudTold(p, a, n);
    } else {
      var q := AfterRaise(policy, threshold, traced, p, a, n);
      RaiseDecides(policy, threshold, traced, a, n, p);
      if q.decisions[|q.decisions| - 1].action.Retry? {
        RetryLeavesRoom(policy, threshold, traced, p, a, n);
        TraceTellsTheRun(policy, threshold, traced, attempts, n + 1, Scheduled(q));
        RetryTold(policy, threshold, traced, a, n, p, e, end);
      } else {
        StopTold(policy, threshold, traced, a, n, p);
      }
    }
  }

  lemma {:induction false} ReturnTold(p: Progress, a: Attempt, n: nat)
    ensures var q := AfterReturn(p, a); TraceTold(p, Result(n, q.state.status == W.Escalated), q)
  {
    hide Left;
    var q := AfterReturn(p, a);
    assert q.decisions[|p.decisions|..] == [];
    HandledIsClassified(q.state);
  }

  lemma {:induction false} HandledIsClassified(s: StateView)
    ensures Handled(s) <==> ClassifyOutcome(s.status, Text(s.terminationReason)).Some?
  {
    hide FirstMatch;
  }

  lemma {:induction false} LoudTold(p: Progress, a: Attempt, n: nat)
    requires a.end.Raised?
    ensures TraceTold(p, Propagated(n, a.end.exception), p.(state := Left(p.state, a.stages)))
  {
    hide Left;
    assert p.decisions[|p.decisions|..] == [];
  }

  lemma {:induction false} RetryTold(
      policy: Policy, threshold: nat, traced: bool, a: Attempt, n: nat, p: Progress, e: Ending, end: Progress)
    requires a.end.Raised?
    requires var q := AfterRaise(policy, threshold, traced, p, a, n);
             && q.decisions != [] && q.lastFailed.Some? && q.decisions[|q.decisions| - 1].action.Retry?
             && TraceTold(Scheduled(q), e, end)
    ensures TraceTold(p, e, end)
  {
    hide Left, Respond, Sum, AttemptTrace, ClassifyException, Told, TraceEnd, Handled;
    RaiseDecides(policy, threshold, traced, a, n, p);
    var q := AfterRaise(policy, threshold, traced, p, a, n);
    var d, rest := q.decisions[|p.decisions|], end.decisions[|q.decisions|..];
    RaiseAdds(policy, threshold, traced, a, n, p);
    assert end.decisions[|p.decisions|..] == [d] + rest;
    ToldCons(p.counts, p.classified, d, rest);
    assert Scheduled(q).events == p.events + RoundEvents(p.classified + 1, d, CountOf(p.counts, d.boundary) + 1);
  }

  lemma {:induction false} RaiseAdds(policy: Policy, threshold: nat, traced: bool, a: Attempt, n: nat, p: Progress)
    requires a.end.Raised?
    ensures var q := AfterRaise(policy, threshold, traced, p, a, n);
            && |q.decisions| == |p.decisions| + 1 && q.classified == p.classified + 1
            && var d := q.decisions[|p.decisions|];
               && q.counts == p.counts[d.boundary := CountOf(p.counts, d.boundary) + 1]
               && q.lastFailed == Some(d.boundary)
               && q.events == p.events + [ArtifactCreated(FailureArtifact(q.classified)),
                                          ArtifactCreated(RetryArtifact(q.classified))]
  {
    hide Left, Sum, AttemptTrace, ClassifyException;
  }

  lemma {:induction false} StopTold(policy: Policy, threshold: nat, traced: bool, a: Attempt, n: nat, p: Progress)
    requires a.end.Raised?
    requires var q := AfterRaise(policy, threshold, traced, p, a, n);
             q.decisions != [] && q.decisions[|q.decisions| - 1].action.Escalate?
    ensures var (e, end) := Stop(traced, AfterRaise(policy, threshold, traced, p, a, n), n); TraceTold(p, e, end)
  {
    hide AfterRaise, Told, TraceEnd, Stop;
    RaiseDecides(policy, threshold, traced, a, n, p);
    var q := AfterRaise(policy, threshold, traced, p, a, n);
    RaiseAdds(policy, threshold, traced, a, n, p);
    StopCounts(traced, q, n);
    StopEvents(traced, q, n);
    var d := q.decisions[|p.decisions|];
    assert q.decisions[|p.decisions|..] == [d];
    OneTold(p.counts, p.classified, d);
    RoundGoesOn(p.events, q.classified, d, CountOf(p.counts, d.boundary) + 1);
  }

  lemma {:induction false} StopEvents(traced: bool, q: Progress, n: nat)
    requires q.decisions != []
    ensures var (e, end) := Stop(traced, q, n); end.events == q.events + [CheckpointCreated] + TraceEnd(e, end)
  {
    hide Handled;
  }

  lemma {:induction false} RoundGoesOn(events: seq<Event>, k: nat, d: RetryDecision, count: nat)
    requires d.action.Escalate?
    ensures events + [ArtifactCreated(FailureArtifact(k)), ArtifactCreated(RetryArtifact(k))] + [CheckpointCreated]
            == events + RoundEvents(k, d, count)
  {
  }

  lemma {:induction false} OneTold(counts: map<Boundary, nat>, k: nat, d: RetryDecision)
    ensures Told(counts, k, [d]) == RoundEvents(k + 1, d, CountOf(counts, d.boundary) + 1)
  {
    hide RoundEvents;
    assert [d] == [d] + [];
    ToldCons(counts, k, d, []);
    NothingTold(counts[d.boundary := CountOf(counts, d.boundary) + 1], k + 1);
  }

  lemma {:induction false} NothingTold(counts: map<Boundary, nat>, k: nat)
    ensures Told(counts, k, []) == []
  {
  }

  // ---------- The state ----------

  /** An attempt leaves the workflow where its last finished stage led, with the status and the
      reason that go with it. */
  lemma {:induction false} LeftWhereStagesLed(s: StateView, stages: seq<StageDone>)
    requires stages != []
    ensures var t, last := Left(s, stages), stages[|stages| - 1];
            && t.stage == last.to
            && (t.status == W.Completed <==> last.to == E.Completed)
            && (t.status == W.Failed <==> last.to == E.Failed)
            && (t.status == W.Cancelled <==> last.to == E.Cancelled)
            && (t.status == W.Escalated <==> last.to == E.Escalated)
            && (t.status == W.Running <==> last.to !in {E.Completed, E.Failed, E.Cancelled, E.Escalated})
            && (t.terminationReason == if last.reason.Some? then Some(Stated(last.reason.value)) else None)
  {
  }

  /** The stage the attempts n, ..., m - 1 got to, from `from` on. */
  function GotTo(from: E.Stage, attempts: nat -> Attempt, n: nat, m: nat): E.Stage
    decreases m - n
  {
    if n >= m then from
    else
      var stages := attempts(n).stages;
      GotTo(if stages == [] then from else stages[|stages| - 1].to, attempts, n + 1, m)
  }

  /** An error of the harness itself, not of the workflow. */
  predicate ReplayOrScriptError(e: Exception) {
    ReplayError in e.types || ScriptError in e.types
  }

  /** What the last attempt did: returned, raised a replay or script error, or failed. */
  ghost predicate LastAttemptTold(attempts: nat -> Attempt, e: Ending) {
    var last := attempts(e.attempts).end;
    match e
    case Result(_, _) => last.Returned?
    case Propagated(_, exception) => last.Raised? && last.exception == exception && ReplayOrScriptError(exception)
    case _ => last.Raised? && !ReplayOrScriptError(last.exception)
  }

  /** Failure `k` in the state: the class of its own attempt, at the stage the run had got to. */
  ghost predicate FailureTold(attempts: nat -> Attempt, n: nat, p: Progress, q: Progress, k: nat)
    requires |p.state.failures| <= k < |q.state.failures|
  {
    var at := n + k - |p.state.failures|;
    && attempts(at).end.Raised? && !ReplayOrScriptError(attempts(at).end.exception)
    && q.state.failures[k]
       == RecordedFailure(GotTo(p.state.stage, attempts, n, at + 1),
                          Classified(ClassifyException(attempts(at).end.exception)))
  }

  ghost predicate StateTold(attempts: nat -> Attempt, n: nat, p: Progress, e: Ending, q: Progress) {
    && p.state.failures <= q.state.failures
    && (forall k :: |p.state.failures| <= k < |q.state.failures| ==> FailureTold(attempts, n, p, q, k))
    && q.state.stage == (if e.HandedOff? then E.Escalated else GotTo(p.state.stage, attempts, n, e.attempts + 1))
    && (e.Result? ==> (e.escalated <==> q.state.status == W.Escalated))
    && LastAttemptTold(attempts, e)
  }

  /** The state after a run: each failure recorded where it happened and as what, and the stage
      the attempts got to, unless the run was handed off; a result says whether it escalated. */
  lemma {:induction false} StateTellsTheRun(
      policy: Policy, threshold: nat, traced: bool, attempts: nat -> Attempt, n: nat, p: Progress)
    ensures var (e, q) := Execute(policy, threshold, traced, attempts, n, p);
            e.attempts >= n && StateTold(attempts, n, p, e, q)
    decreases TotalRoom(p.counts, threshold)
  {
    hide Execute, AfterRaise, AfterReturn, TotalRoom, Scheduled, Stop, StateTold, Left, ClassifyException;
    ExecuteStep(policy, threshold, traced, attempts, n, p);
    var a := attempts(n);
    var (e, end) := Execute(policy, threshold, traced, attempts, n, p);
    LeftGotTo(p.state, attempts, n);
    if a.end.Returned? {
      ReturnState(p, a);
      StateAtOnce(attempts, n, p, e, end);
    } else if Discipline(a.end.exception) {
      StateAtOnce(attempts, n, p, e, end);
    } else {
      var q := AfterRaise(policy, threshold, traced, p, a, n);
      RaiseState(policy, threshold, traced, a, n, p);
      if q.decisions[|q.decisions| - 1].action.Retry? {
        RetryLeavesRoom(policy, threshold, traced, p, a, n);
        ScheduleKeepsState(q);
        StateTellsTheRun(policy, threshold, traced, attempts, n + 1, Scheduled(q));
        StateCons(attempts, n, p, Scheduled(q), e, end);
      } else {
        StopState(traced, q, n);
        StateAtStop(attempts, n, p, q, e, end);
      }
    }
  }

  lemma {:induction false} LeftGotTo(s: StateView, attempts: nat -> Attempt, n: nat)
    ensures Left(s, attempts(n).stages).stage == GotTo(s.stage, attempts, n, n + 1)
    ensures Left(s, attempts(n).stages).failures == s.failures
  {
    var stages := attempts(n).stages;
    LeftKeeps(s, stages);
    if stages != [] { LeftWhereStagesLed(s, stages); }
    assert GotTo(Left(s, stages).stage, attempts, n + 1, n + 1) == Left(s, stages).stage;
  }

  lemma {:induction false} ReturnState(p: Progress, a: Attempt)
    ensures AfterReturn(p, a).state == Left(p.state, a.stages)
  {
  }

  lemma {:induction false} RaiseState(policy: Policy, threshold: nat, traced: bool, a: Attempt, n: nat, p: Progress)
    requires a.end.Raised?
    ensures var left, q := Left(p.state, a.stages), AfterRaise(policy, threshold, traced, p, a, n);
            && q.state.stage == left.stage
            && q.state.failures
               == left.failures + [RecordedFailure(left.stage, Classified(ClassifyException(a.end.exception)))]
  {
    hide Left, Sum, AttemptTrace, ClassifyException, Respond;
  }

  lemma {:induction false} ScheduleKeepsState(q: Progress)
    requires q.decisions != [] && q.lastFailed.Some?
    ensures Scheduled(q).state.stage == q.state.stage && Scheduled(q).state.failures == q.state.failures
  {
  }

  lemma {:induction false} StopState(traced: bool, q: Progress, n: nat)
    requires q.decisions != []
    ensures var (e, end) := Stop(traced, q, n);
            && e.attempts == n && Stopped(e) && end.state.failures == q.state.failures
            && end.state.stage == if e.HandedOff? then E.Escalated else q.state.stage
  {
  }

  lemma {:induction false} StateAtOnce(attempts: nat -> Attempt, n: nat, p: Progress, e: Ending, end: Progress)
    requires e.attempts == n && !e.HandedOff? && end.state.failures == p.state.failures
    requires e.Result? ==> (e.escalated <==> end.state.status == W.Escalated)
    requires LastAttemptTold(attempts, e)
    requires end.state.stage == GotTo(p.state.stage, attempts, n, n + 1)
    ensures StateTold(attempts, n, p, e, end)
  {
  }

  lemma {:induction false} StateAtStop(
      attempts: nat -> Attempt, n: nat, p: Progress, q: Progress, e: Ending, end: Progress)
    requires e.attempts == n && !e.Result? && end.state.failures == q.state.failures && LastAttemptTold(attempts, e)
    requires attempts(n).end.Raised? && !ReplayOrScriptError(attempts(n).end.exception)
    requires q.state.stage == GotTo(p.state.stage, attempts, n, n + 1)
    requires q.state.failures
             == p.state.failures
                + [RecordedFailure(q.state.stage, Classified(ClassifyException(attempts(n).end.exception)))]
    requires end.state.stage == if e.HandedOff? then E.Escalated else q.state.stage
    ensures StateTold(attempts, n, p, e, end)
  {
    hide ClassifyException, GotTo;
  }

  lemma {:induction false} GotToCons(from: E.Stage, attempts: nat -> Attempt, n: nat, m: nat)
    requires n < m
    ensures GotTo(from, attempts, n, m) == GotTo(GotTo(from, attempts, n, n + 1), attempts, n + 1, m)
  {
    var stages := attempts(n).stages;
    var there := if stages == [] then from else stages[|stages| - 1].to;
    assert GotTo(there, attempts, n + 1, n + 1) == there;
  }

  lemma {:induction false} StateCons(
      attempts: nat -> Attempt, n: nat, p: Progress, q: Progress, e: Ending, end: Progress)
    requires e.attempts >= n + 1 && attempts(n).end.Raised? && !ReplayOrScriptError(attempts(n).end.exception)
    requires q.state.stage == GotTo(p.state.stage, attempts, n, n + 1)
    requires q.state.failures
             == p.state.failures
                + [RecordedFailure(q.state.stage, Classified(ClassifyException(attempts(n).end.exception)))]
    requires StateTold(attempts, n + 1, q, e, end)
    ensures StateTold(attempts, n, p, e, end)
  {
    hide ClassifyException, GotTo;
    forall k | |p.state.failures| <= k < |end.state.failures| ensures FailureTold(attempts, n, p, end, k) {
      if k > |p.state.failures| {
        assert FailureTold(attempts, n + 1, q, end, k);
        GotToCons(p.state.stage, attempts, n, n + k - |p.state.failures| + 1);
      }
    }
    GotToCons(p.state.stage, attempts, n, e.attempts + 1);
  }
}
