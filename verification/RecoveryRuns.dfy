/** What every supervised run keeps: bounded attempts, one escalation at most, honest
    bookkeeping and honest costs (reliability/controller.py). */
module RecoveryRuns {
  import opened Sequences
  import E = Engine
  import W = WorkflowStates
  import opened Failures
  import opened Recovery
  import opened RetryPolicy

  /** No rule allows more attempts than `m`. */
  ghost predicate AttemptsWithin(policy: Policy, m: int) {
    forall c :: c in policy ==> policy[c].maxAttempts <= m
  }

  lemma {:induction false} LeftKeeps(s: StateView, stages: seq<StageDone>)
    ensures Left(s, stages).retryCount == s.retryCount && Left(s, stages).failures == s.failures
  {
    if stages != [] {
      LeftKeeps(s, stages[..|stages| - 1]);
    }
  }

  // ---------- One failed attempt ----------

  /** What the failure of attempt `n` adds to the books. */
  ghost predicate Booked(p: Progress, q: Progress, n: nat) {
    && |q.decisions| == |p.decisions| + 1 && p.decisions <= q.decisions
    && q.decisions[|p.decisions|].failedAttempt == n
    && |q.state.failures| == |p.state.failures| + 1 && p.state.failures <= q.state.failures
    && q.state.retryCount == p.state.retryCount
    && q.report == p.report
  }

  lemma {:induction false} RaiseBooks(policy: Policy, threshold: nat, traced: bool, p: Progress, a: Attempt, n: nat)
    requires a.end.Raised?
    ensures Booked(p, AfterRaise(policy, threshold, traced, p, a, n), n)
  {
    LeftKeeps(p.state, a.stages);
  }

  lemma {:induction false} RetryIsWithin(
      policy: Policy, threshold: nat, traced: bool, p: Progress, a: Attempt, n: nat, m: int)
    requires a.end.Raised? && AttemptsWithin(policy, m)
    ensures var q := AfterRaise(policy, threshold, traced, p, a, n);
            q.decisions != [] && var d := q.decisions[|q.decisions| - 1];
            d.action.Retry? ==> d.action == Retry(n + 1) && n < m
  {
    hide Left, Sum, AttemptTrace;
    RetriedIff(policy, ClassifyException(a.end.exception), n, false);
    CrashIsNoDenial(a.end.exception);
  }

  lemma {:induction false} RetryNamesTheNext(
      policy: Policy, threshold: nat, traced: bool, p: Progress, a: Attempt, n: nat)
    requires a.end.Raised?
    ensures var q := AfterRaise(policy, threshold, traced, p, a, n);
            q.decisions != [] && var d := q.decisions[|q.decisions| - 1];
            d.action.Retry? ==> d.action == Retry(n + 1)
  {
    hide Left, Sum, AttemptTrace, ClassifyException;
  }

  lemma {:induction false} CrashIsNoDenial(e: Exception)
    ensures ClassifyException(e).cls != PolicyDenial
  {
  }

  // ---------- Attempts are bounded ----------

  /** From attempt `n` on: no more attempts than the table allows, nor than the boundaries
      can fail before one opens. */
  lemma {:induction false} AttemptsFrom(
      policy: Policy, threshold: nat, traced: bool, attempts: nat -> Attempt, n: nat, p: Progress, m: int)
    requires AttemptsWithin(policy, m)
    ensures var last := Execute(policy, threshold, traced, attempts, n, p).0.attempts;
            n <= last <= n + TotalRoom(p.counts, threshold) && (last == n || last <= m)
    decreases TotalRoom(p.counts, threshold)
  {
    hide Execute, AfterRaise, AfterReturn, TotalRoom;
    ExecuteStep(policy, threshold, traced, attempts, n, p);
    var a := attempts(n);
    if a.end.Raised? && !Discipline(a.end.exception) {
      var q := AfterRaise(policy, threshold, traced, p, a, n);
      if q.decisions[|q.decisions| - 1].action.Retry? {
        RetryLeavesRoom(policy, threshold, traced, p, a, n);
        RetryIsWithin(policy, threshold, traced, p, a, n, m);
        AttemptsFrom(policy, threshold, traced, attempts, n + 1, Scheduled(q), m);
      }
    }
  }

  /** Every run ends: after at most the largest number of attempts in the table, or one, and
      whatever the table says after at most 7 (t - 1) + 1 attempts for a breaker of
      threshold t, since seven boundaries can each fail t - 1 times. */
  lemma {:induction false} AttemptsAreBounded(
      policy: Policy, threshold: nat, traced: bool, attempts: nat -> Attempt, p: Progress, m: int)
    requires threshold >= 1 && AttemptsWithin(policy, m)
    ensures var last := Execute(policy, threshold, traced, attempts, 1, p).0.attempts;
            && 1 <= last <= 7 * (threshold - 1) + 1
            && last <= if m > 1 then m else 1
  {
    AttemptsFrom(policy, threshold, traced, attempts, 1, p, m);
    RoomIsLimited(p.counts, threshold);
  }

  // ---------- The bound is reached ----------

  /** A rule for every class an exception can have, with `m` attempts each. */
  function Generous(m: int): Policy {
    map[ModelProvider := RetryRule(RevisedContext, m), ToolFailure := RetryRule(RevisedContext, m),
        TransientInfrastructure := RetryRule(RevisedContext, m),
        ImplementationFailure := RetryRule(RevisedContext, m),
        PersistentUnknown := RetryRule(RevisedContext, m)]
  }

  /** An attempt that fails at the boundary. */
  function FailsAt(b: Boundary): (a: Attempt)
    ensures a.end.Raised? && !Discipline(a.end.exception)
    ensures ExceptionBoundary(b) ==>
              var c := ClassifyException(a.end.exception);
              c.boundary == b && c.cls in Generous(0)
  {
    var types :=
      match b
      case AtModel => {ProviderError}
      case AtTool => {ToolError}
      case AtSandbox => {SandboxError}
      case AtStateStore => {StateStoreError}
      case AtWorker => {WorkerError}
      case AtFilesystem => {OSError}
      case _ => {};
    Attempt([], Raised(Exception(types, false, ""), []))
  }

  /** The attempts a run has yet to make decide how it goes on. */
  lemma {:induction false} ExecuteLooksAhead(
      policy: Policy, threshold: nat, traced: bool, attempts: nat -> Attempt, others: nat -> Attempt, n: nat,
      p: Progress)
    requires forall k: nat :: k >= n ==> attempts(k) == others(k)
    ensures Execute(policy, threshold, traced, attempts, n, p) == Execute(policy, threshold, traced, others, n, p)
    decreases TotalRoom(p.counts, threshold)
  {
    hide Execute, AfterRaise, AfterReturn, TotalRoom;
    ExecuteStep(policy, threshold, traced, attempts, n, p);
    ExecuteStep(policy, threshold, traced, others, n, p);
    var a := attempts(n);
    if a.end.Raised? && !Discipline(a.end.exception) {
      var q := AfterRaise(policy, threshold, traced, p, a, n);
      RetryLeavesRoom(policy, threshold, traced, p, a, n);
      if q.decisions[|q.decisions| - 1].action.Retry? {
        ExecuteLooksAhead(policy, threshold, traced, attempts, others, n + 1, Scheduled(q));
      }
    }
  }

  lemma {:induction false} FailureIsRetriedWhileClosed(
      threshold: nat, m: int, traced: bool, p: Progress, b: Boundary, n: nat)
    requires ExceptionBoundary(b) && n < m
    ensures var q := AfterRaise(Generous(m), threshold, traced, p, FailsAt(b), n);
            && q.decisions != [] && q.lastFailed.Some? && q.counts == p.counts[b := CountOf(p.counts, b) + 1]
            && (q.decisions[|q.decisions| - 1].action.Retry? <==> CountOf(p.counts, b) + 1 < threshold)
  {
    hide Left, Sum, AttemptTrace, FailsAt, ClassifyException, Generous;
    var c := ClassifyException(FailsAt(b).end.exception);
    GenerousRules(m, c.cls);
    RetriedIff(Generous(m), c, n, false);
  }

  lemma {:induction false} GenerousRules(m: int, cls: FailureClass)
    requires cls in Generous(0)
    ensures cls in Generous(m) && Generous(m)[cls] == RetryRule(RevisedContext, m) && cls != PolicyDenial
  {
  }

  lemma {:induction false} SomeBoundaryHasRoom(counts: map<Boundary, nat>, threshold: nat) returns (b: Boundary)
    requires TotalRoom(counts, threshold) > 0
    ensures ExceptionBoundary(b) && CountOf(counts, b) + 1 < threshold
  {
    hide CountOf;
    b :| b in {AtModel, AtTool, AtSandbox, AtStateStore, AtWorker, AtFilesystem, AtUnknown}
         && Room(counts, b, threshold) > 0;
  }

  /** As long as any boundary has room some failure is retried: a run of failures can take up
      all the room there is. */
  lemma {:induction false} RoomIsUsedUp(threshold: nat, m: int, traced: bool, n: nat, p: Progress)
      returns (attempts: nat -> Attempt)
    requires n + TotalRoom(p.counts, threshold) < m
    ensures Execute(Generous(m), threshold, traced, attempts, n, p).0.attempts == n + TotalRoom(p.counts, threshold)
    decreases TotalRoom(p.counts, threshold)
  {
    hide Execute, AfterRaise, TotalRoom, FailsAt, Generous, Room, CountOf;
    var b := AtUnknown;
    if TotalRoom(p.counts, threshold) == 0 {
      attempts := (k: nat) => FailsAt(AtUnknown);
      NoRoomNoRetry(p.counts, threshold);
    } else {
      b := SomeBoundaryHasRoom(p.counts, threshold);
      FailureIsRetriedWhileClosed(threshold, m, traced, p, b, n);
      var next := Scheduled(AfterRaise(Generous(m), threshold, traced, p, FailsAt(b), n));
      FailureTakesRoom(p.counts, b, threshold);
      var later := RoomIsUsedUp(threshold, m, traced, n + 1, next);
      attempts := (k: nat) => if k == n then FailsAt(b) else later(k);
      ExecuteLooksAhead(Generous(m), threshold, traced, attempts, later, n + 1, next);
    }
    FailureIsRetriedWhileClosed(threshold, m, traced, p, b, n);
    ExecuteStep(Generous(m), threshold, traced, attempts, n, p);
  }

  lemma {:induction false} NoRoomNoRetry(counts: map<Boundary, nat>, threshold: nat)
    requires TotalRoom(counts, threshold) == 0
    ensures CountOf(counts, AtUnknown) + 1 >= threshold
  {
  }

  /** The breaker's bound is exact: from closed circuits some run takes 7 (t - 1) + 1 attempts. */
  lemma {:induction false} BreakerBoundIsReached(threshold: nat, traced: bool, p: Progress)
      returns (attempts: nat -> Attempt)
    requires threshold >= 1 && p.counts == map[]
    ensures Execute(Generous(7 * threshold), threshold, traced, attempts, 1, p).0.attempts == 7 * (threshold - 1) + 1
  {
    hide Execute;
    attempts := RoomIsUsedUp(threshold, 7 * threshold, traced, 1, p);
  }

  // ---------- Decisions and bookkeeping ----------

  /** The run stopped because of its last decision. */
  predicate Stopped(e: Ending) {
    e.HandedOff? || e.InvalidTransition?
  }

  /** `decisions` are retries of attempts n, n + 1, ... and, when the run stopped, one last
      escalation. */
  ghost predicate RetriesThenStop(decisions: seq<RetryDecision>, e: Ending, n: nat) {
    && e.attempts >= n
    && |decisions| == e.attempts - n + (if Stopped(e) then 1 else 0)
    && (forall i :: 0 <= i < |decisions| ==> decisions[i].failedAttempt == n + i)
    && (forall i :: 0 <= i < e.attempts - n ==> decisions[i].action == Retry(n + i + 1))
    && (Stopped(e) ==> decisions[e.attempts - n].action == Escalate)
  }

  lemma {:induction false} RetriesThenStopCons(d: RetryDecision, rest: seq<RetryDecision>, e: Ending, n: nat)
    requires d.failedAttempt == n && d.action == Retry(n + 1) && RetriesThenStop(rest, e, n + 1)
    ensures RetriesThenStop([d] + rest, e, n)
  {
    var all := [d] + rest;
    forall i | 0 <= i < |all| ensures all[i].failedAttempt == n + i {
      if i > 0 { assert all[i] == rest[i - 1]; }
    }
    forall i | 0 <= i < e.attempts - n ensures all[i].action == Retry(n + i + 1) {
      if i > 0 { assert all[i] == rest[i - 1]; }
    }
  }

  /** What a run from attempt `n` on adds: its decisions, one failure event for each, one
      retry counted for each attempt after the first. */
  ghost predicate Ledger(p: Progress, e: Ending, q: Progress, n: nat) {
    && p.decisions <= q.decisions
    && RetriesThenStop(q.decisions[|p.decisions|..], e, n)
    && q.state.retryCount == p.state.retryCount + (e.attempts - n)
    && |q.state.failures| == |p.state.failures| + |q.decisions| - |p.decisions|
    && p.state.failures <= q.state.failures
  }

  lemma {:induction false} LedgerStep(p: Progress, r: Progress, e: Ending, q: Progress, n: nat)
    requires Booked(p, r, n) && r.decisions[|p.decisions|].action == Retry(n + 1) && r.lastFailed.Some?
    requires Ledger(Scheduled(r), e, q, n + 1)
    ensures Ledger(p, e, q, n)
  {
    var d := r.decisions[|p.decisions|];
    RetriesThenStopCons(d, q.decisions[|r.decisions|..], e, n);
    assert q.decisions[|p.decisions|] == d;
    assert q.decisions[|p.decisions|..] == [d] + q.decisions[|r.decisions|..];
  }

  lemma {:induction false} LedgerStop(traced: bool, p: Progress, r: Progress, n: nat)
    requires Booked(p, r, n) && r.decisions[|p.decisions|].action == Escalate
    ensures Ledger(p, Stop(traced, r, n).0, Stop(traced, r, n).1, n)
  {
    assert r.decisions[|p.decisions|..] == [r.decisions[|p.decisions|]];
  }

  lemma {:induction false} LedgerUnchanged(p: Progress, e: Ending, q: Progress, n: nat)
    requires e.attempts == n && !Stopped(e) && q.decisions == p.decisions
    requires q.state.retryCount == p.state.retryCount && q.state.failures == p.state.failures
    ensures Ledger(p, e, q, n)
  {
    assert q.decisions[|p.decisions|..] == [];
  }

  /** Every decision but the last is a retry; a run the controller stops ends in exactly one
      escalation, any other run in none; the retry count grows by the attempts after the
      first, and every classified crash leaves one failure event. */
  lemma {:induction false} RunKeepsItsBooks(
      policy: Policy, threshold: nat, traced: bool, attempts: nat -> Attempt, n: nat, p: Progress)
    ensures var run := Execute(policy, threshold, traced, attempts, n, p); Ledger(p, run.0, run.1, n)
    decreases TotalRoom(p.counts, threshold)
  {
    hide Execute, AfterRaise, TotalRoom, Ledger, Left, Scheduled, Stop, DecideRetry, ClassifyOutcome;
    ExecuteStep(policy, threshold, traced, attempts, n, p);
    var a := attempts(n);
    LeftKeeps(p.state, a.stages);
    var run := Execute(policy, threshold, traced, attempts, n, p);
    if a.end.Returned? || Discipline(a.end.exception) {
      LedgerUnchanged(p, run.0, run.1, n);
    } else {
      var q := AfterRaise(policy, threshold, traced, p, a, n);
      RaiseBooks(policy, threshold, traced, p, a, n);
      RetryNamesTheNext(policy, threshold, traced, p, a, n);
      if q.decisions[|q.decisions| - 1].action.Retry? {
        RetryLeavesRoom(policy, threshold, traced, p, a, n);
        RunKeepsItsBooks(policy, threshold, traced, attempts, n + 1, Scheduled(q));
        LedgerStep(p, q, run.0, run.1, n);
      } else {
        LedgerStop(traced, p, q, n);
      }
    }
  }

  // ---------- How runs end ----------

  /** A stopped run is handed to a person exactly when the last failure left the workflow in
      a model-driven stage; the terminal then names the escalation's reason and the report
      carries the failures. Anywhere else the transition table refuses: nothing is reported
      and the workflow stays where it was. */
  lemma {:induction false} StopHandsOffIff(traced: bool, r: Progress, n: nat)
    requires r.decisions != []
    ensures var (e, q) := Stop(traced, r, n);
            && (e.HandedOff? <==> r.state.stage in {E.Investigate, E.Plan, E.Implement})
            && (e.HandedOff? ==> q.state.stage == E.Escalated && q.state.status == W.Escalated)
            && (e.HandedOff? ==> q.report.Some? && q.report.value.failures == q.state.failures)
            && (e.HandedOff? ==> q.report.value.retryCount == q.state.retryCount
                                 && q.report.value.monetaryUsed == q.state.monetaryUsed
                                 && q.report.value.reason == r.decisions[|r.decisions| - 1].reason
                                 && (q.report.value.unaccounted.Some? <==> traced))
            && (e.HandedOff? ==> q.state.terminationReason == Some(Decided(r.decisions[|r.decisions| - 1].reason)))
            && (e.InvalidTransition? ==> e.stage == r.state.stage && q.state == r.state && q.report == r.report)
  {
    E.WhoMayStop(r.state.stage);
  }

  lemma {:induction false} EscalationNeedsAModelDrivenStage(
      policy: Policy, threshold: nat, traced: bool, attempts: nat -> Attempt, n: nat, p: Progress)
    ensures var (e, q) := Execute(policy, threshold, traced, attempts, n, p);
            && (Stopped(e) ==> q.state.failures != [])
            && (Stopped(e) ==>
                  (e.HandedOff? <==>
                     q.state.failures[|q.state.failures| - 1].stage in {E.Investigate, E.Plan, E.Implement}))
            && (e.HandedOff? ==> q.state.stage == E.Escalated && q.state.status == W.Escalated)
            && (e.HandedOff? ==> q.report.Some? && q.report.value.failures == q.state.failures)
            && (e.InvalidTransition? ==> q.state.stage == e.stage && q.report == p.report)
    decreases TotalRoom(p.counts, threshold)
  {
    hide Execute, TotalRoom, Left, Stop, DecideRetry, ClassifyOutcome, ClassifyException, AttemptTrace, Sum;
    ExecuteStep(policy, threshold, traced, attempts, n, p);
    var a := attempts(n);
    if a.end.Raised? && !Discipline(a.end.exception) {
      var q := AfterRaise(policy, threshold, traced, p, a, n);
      if q.decisions[|q.decisions| - 1].action.Retry? {
        RetryLeavesRoom(policy, threshold, traced, p, a, n);
        EscalationNeedsAModelDrivenStage(policy, threshold, traced, attempts, n + 1, Scheduled(q));
      } else {
        StopHandsOffIff(traced, q, n);
        StopKeepsFailures(traced, q, n);
      }
    }
  }

  lemma {:induction false} StopKeepsFailures(traced: bool, r: Progress, n: nat)
    requires r.decisions != []
    ensures Stop(traced, r, n).1.state.failures == r.state.failures
  {
  }

  lemma {:induction false} UnknownCrashStops(threshold: nat, traced: bool, p: Progress, calls: seq<nat>, n: nat)
    ensures var a := Attempt([], Raised(Exception({}, false, ""), calls));
            var q := AfterRaise(DEFAULT_RETRY_POLICY, threshold, traced, p, a, n);
            && !Discipline(a.end.exception)
            && q.decisions != [] && q.decisions[|q.decisions| - 1].action == Escalate
            && q.state.stage == p.state.stage
  {
    hide Sum, AttemptTrace;
  }

  /** A concrete run the documentation would hand to a person: the very first attempt meets
      an unknown error at intake, and the hand-off is refused. */
  lemma {:induction false} CrashAtIntakeCannotEscalate(threshold: nat, p: Progress)
    requires threshold >= 1 && p.state.stage == E.Intake
    ensures var unknown: nat -> Attempt := _ => Attempt([], Raised(Exception({}, false, ""), []));
            Execute(DEFAULT_RETRY_POLICY, threshold, false, unknown, 1, p).0 == InvalidTransition(1, E.Intake)
  {
    var unknown: nat -> Attempt := _ => Attempt([], Raised(Exception({}, false, ""), []));
    hide Execute, AfterRaise, TotalRoom, Discipline, HandOff;
    UnknownCrashStops(threshold, false, p, [], 1);
    ExecuteStep(DEFAULT_RETRY_POLICY, threshold, false, unknown, 1, p);
  }

  /** A replay or script error escapes the controller untouched: nothing is classified,
      decided, counted or reported for that attempt. */
  lemma {:induction false} DisciplineErrorsStayLoud(
      policy: Policy, threshold: nat, traced: bool, attempts: nat -> Attempt, n: nat, p: Progress)
    requires attempts(n).end.Raised?
    requires ReplayError in attempts(n).end.exception.types || ScriptError in attempts(n).end.exception.types
    ensures var (e, q) := Execute(policy, threshold, traced, attempts, n, p);
            && e == Propagated(n, attempts(n).end.exception)
            && q == p.(state := Left(p.state, attempts(n).stages))
            && q.state.failures == p.state.failures && q.state.retryCount == p.state.retryCount
  {
    hide Execute;
    ExecuteStep(policy, threshold, traced, attempts, n, p);
    LeftKeeps(p.state, attempts(n).stages);
  }

  // ---------- What the breaker and the trace say ----------

  ghost predicate AllClosed(counts: map<Boundary, nat>, threshold: nat) {
    forall b :: CountOf(counts, b) < threshold
  }

  /** Failure `n` of a boundary whose circuit was closed: it stays closed after a retry, and
      if the breaker stops the run it does so at the threshold. */
  lemma {:induction false} RaiseAtTheThreshold(
      policy: Policy, threshold: nat, traced: bool, p: Progress, a: Attempt, n: nat)
    requires a.end.Raised? && AllClosed(p.counts, threshold)
    ensures var q := AfterRaise(policy, threshold, traced, p, a, n);
            q.decisions != [] && var d := q.decisions[|q.decisions| - 1];
            && (d.action.Retry? ==> AllClosed(q.counts, threshold))
            && (d.reason.BreakerOpen? ==> d.reason.count == threshold && d.reason.boundary == d.boundary)
  {
    hide Left, Sum, AttemptTrace, ClassifyException;
    var c := ClassifyException(a.end.exception);
    var counts := p.counts[c.boundary := CountOf(p.counts, c.boundary) + 1];
    forall b | b != c.boundary ensures CountOf(counts, b) < threshold {
      assert CountOf(counts, b) == CountOf(p.counts, b);
    }
  }

  /** A breaker that was closed at the start stops a run exactly at its threshold, never
      late. */
  lemma {:induction false} BreakerOpensOnTime(
      policy: Policy, threshold: nat, traced: bool, attempts: nat -> Attempt, n: nat, p: Progress)
    requires AllClosed(p.counts, threshold)
    ensures var (e, q) := Execute(policy, threshold, traced, attempts, n, p);
            Stopped(e) ==>
              && q.decisions != []
              && var d := q.decisions[|q.decisions| - 1];
                 d.reason.BreakerOpen? ==> d.reason.count == threshold && d.reason.boundary == d.boundary
    decreases TotalRoom(p.counts, threshold)
  {
    hide Execute, AfterRaise, TotalRoom, AllClosed;
    ExecuteStep(policy, threshold, traced, attempts, n, p);
    var a := attempts(n);
    if a.end.Raised? && !Discipline(a.end.exception) {
      var q := AfterRaise(policy, threshold, traced, p, a, n);
      RaiseAtTheThreshold(policy, threshold, traced, p, a, n);
      if q.decisions[|q.decisions| - 1].action.Retry? {
        RetryLeavesRoom(policy, threshold, traced, p, a, n);
        BreakerOpensOnTime(policy, threshold, traced, attempts, n + 1, Scheduled(q));
      }
    }
  }

  /** The decisions the retry_scheduled events announce, in order. */
  function Announced(events: seq<Event>): seq<RetryDecision> {
    if events == [] then []
    else
      var last := events[|events| - 1];
      Announced(events[..|events| - 1]) + if last.RetryScheduled? then [last.decision] else []
  }

  lemma {:induction false} AnnouncedQuiet(events: seq<Event>, more: seq<Event>)
    requires forall i :: 0 <= i < |more| ==> !more[i].RetryScheduled?
    ensures Announced(events + more) == Announced(events)
  {
    if more == [] {
      assert events + more == events;
    } else {
      var k := |more| - 1;
      AnnouncedQuiet(events, more[..k]);
      assert (events + more)[..|events| + k] == events + more[..k];
    }
  }

  lemma {:induction false} RaiseIsQuiet(policy: Policy, threshold: nat, traced: bool, p: Progress, a: Attempt, n: nat)
    requires a.end.Raised?
    ensures Announced(AfterRaise(policy, threshold, traced, p, a, n).events) == Announced(p.events)
  {
    var k := p.classified + 1;
    AnnouncedQuiet(p.events, [ArtifactCreated(FailureArtifact(k)), ArtifactCreated(RetryArtifact(k))]);
  }

  lemma {:induction false} ReturnIsQuiet(p: Progress, a: Attempt)
    ensures Announced(AfterReturn(p, a).events) == Announced(p.events)
    ensures AfterReturn(p, a).decisions == p.decisions
  {
    AnnouncedQuiet(p.events, [ArtifactCreated(FailureArtifact(p.classified + 1))]);
  }

  lemma {:induction false} ScheduleAnnounces(q: Progress)
    requires q.decisions != [] && q.lastFailed.Some?
    ensures Announced(Scheduled(q).events) == Announced(q.events) + [q.decisions[|q.decisions| - 1]]
  {
    var event := RetryScheduled(q.decisions[|q.decisions| - 1], CountOf(q.counts, q.lastFailed.value));
    var events := Scheduled(q).events;
    assert events == (q.events + [CheckpointCreated]) + [event];
    assert events[..|events| - 1] == q.events + [CheckpointCreated];
    AnnouncedQuiet(q.events, [CheckpointCreated]);
  }

  lemma {:induction false} StopIsQuiet(traced: bool, q: Progress, n: nat)
    requires q.decisions != []
    ensures Announced(Stop(traced, q, n).1.events) == Announced(q.events)
    ensures Stop(traced, q, n).1.decisions == q.decisions
  {
    var d := q.decisions[|q.decisions| - 1];
    AnnouncedQuiet(q.events, [CheckpointCreated]);
    AnnouncedQuiet(q.events + [CheckpointCreated],
                   [ArtifactCreated(AbortedRunArtifact), ArtifactCreated(EscalationArtifact),
                    EscalationCreated(d.reason, d.cls, d.boundary), CheckpointCreated]);
  }

  /** Those of the decisions that are retries. */
  function Retries(decisions: seq<RetryDecision>): seq<RetryDecision> {
    if decisions == [] then []
    else
      var last := decisions[|decisions| - 1];
      Retries(decisions[..|decisions| - 1]) + if last.action.Retry? then [last] else []
  }

  /** The trace announces every retry once, in order and with its decision, and nothing
      else. */
  lemma {:induction false} EveryRetryIsAnnounced(
      policy: Policy, threshold: nat, traced: bool, attempts: nat -> Attempt, n: nat, p: Progress)
    requires Announced(p.events) == Retries(p.decisions)
    ensures var q := Execute(policy, threshold, traced, attempts, n, p).1;
            Announced(q.events) == Retries(q.decisions)
    decreases TotalRoom(p.counts, threshold)
  {
    hide Execute, AfterRaise, AfterReturn, TotalRoom, Announced, Stop;
    ExecuteStep(policy, threshold, traced, attempts, n, p);
    var a := attempts(n);
    if a.end.Returned? {
      ReturnIsQuiet(p, a);
    } else if !Discipline(a.end.exception) {
      var q := AfterRaise(policy, threshold, traced, p, a, n);
      RaiseBooks(policy, threshold, traced, p, a, n);
      RaiseIsQuiet(policy, threshold, traced, p, a, n);
      assert q.decisions[..|q.decisions| - 1] == p.decisions;
      if q.decisions[|q.decisions| - 1].action.Retry? {
        RetryLeavesRoom(policy, threshold, traced, p, a, n);
        ScheduleAnnounces(q);
        EveryRetryIsAnnounced(policy, threshold, traced, attempts, n + 1, Scheduled(q));
      } else {
        StopIsQuiet(traced, q, n);
        assert Retries(p.decisions) + [] == Retries(p.decisions);
      }
    }
  }

  // ---------- Costs ----------

  lemma {:induction false} SumConcat(a: seq<nat>, b: seq<nat>)
    ensures Sum(a + b) == Sum(a) + Sum(b)
  {
    if b == [] {
      assert a + b == a;
    } else {
      SumConcat(a, b[..|b| - 1]);
      assert (a + b)[..|a + b| - 1] == a + b[..|b| - 1];
    }
  }

  lemma {:induction false} StagesFoldTheirCosts(s: StateView, stages: seq<StageDone>)
    ensures Left(s, stages).monetaryUsed == s.monetaryUsed + Sum(TraceCosts(stages))
  {
    if stages != [] {
      var init, last := stages[..|stages| - 1], stages[|stages| - 1];
      StagesFoldTheirCosts(s, init);
      SumConcat(TraceCosts(init), last.calls);
    }
  }

  /** What an attempt spent in the stage it never completed. */
  function Unfinished(a: Attempt): nat {
    if a.end.Raised? then Sum(a.end.calls) else 0
  }

  /** An attempt's trace holds what its completed stages folded into the budgets and what its
      unfinished stage spent. */
  lemma {:induction false} TraceSplits(s: StateView, a: Attempt)
    ensures Sum(AttemptTrace(a)) == (Left(s, a.stages).monetaryUsed - s.monetaryUsed) + Unfinished(a)
  {
    StagesFoldTheirCosts(s, a.stages);
    SumConcat(TraceCosts(a.stages), if a.end.Raised? then a.end.calls else []);
  }

  /** Spent by attempts n to m in stages that never completed. */
  function Lost(attempts: nat -> Attempt, n: nat, m: nat): nat
    decreases m + 1 - n
  {
    if n > m then 0 else Unfinished(attempts(n)) + Lost(attempts, n + 1, m)
  }

  lemma {:induction false} RaiseSplits(policy: Policy, threshold: nat, traced: bool, p: Progress, a: Attempt, n: nat)
    requires a.end.Raised?
    ensures var q := AfterRaise(policy, threshold, traced, p, a, n);
            q.spent - q.state.monetaryUsed == p.spent - p.state.monetaryUsed + Unfinished(a)
  {
    hide Left, Sum, AttemptTrace, DecideRetry, ClassifyException;
    TraceSplits(p.state, a);
  }

  lemma {:induction false} ReportedCost(
      policy: Policy, threshold: nat, attempts: nat -> Attempt, n: nat, p: Progress)
    requires Execute(policy, threshold, true, attempts, n, p).0.HandedOff?
    ensures var (e, q) := Execute(policy, threshold, true, attempts, n, p);
            && q.report.Some?
            && q.report.value.unaccounted == Some(p.spent - p.state.monetaryUsed + Lost(attempts, n, e.attempts))
    decreases TotalRoom(p.counts, threshold)
  {
    hide Execute, AfterRaise, TotalRoom, Unfinished;
    ExecuteStep(policy, threshold, true, attempts, n, p);
    RunKeepsItsBooks(policy, threshold, true, attempts, n, p);
    var a := attempts(n);
    var q := AfterRaise(policy, threshold, true, p, a, n);
    RaiseSplits(policy, threshold, true, p, a, n);
    if q.decisions[|q.decisions| - 1].action.Retry? {
      RetryLeavesRoom(policy, threshold, true, p, a, n);
      RunKeepsItsBooks(policy, threshold, true, attempts, n + 1, Scheduled(q));
      ReportedCost(policy, threshold, attempts, n + 1, Scheduled(q));
    }
  }

  /** Over a whole crashed and resumed run the reported unaccounted cost is what the attempts
      spent in stages that never completed, each once, exactly when the budgets were empty at
      the start; whatever they already held is subtracted from it. */
  lemma {:induction false} UnaccountedIsUnfinished(
      policy: Policy, threshold: nat, attempts: nat -> Attempt, p: Progress)
    requires p.spent == 0
    requires Execute(policy, threshold, true, attempts, 1, p).0.HandedOff?
    ensures var (e, q) := Execute(policy, threshold, true, attempts, 1, p);
            && q.report.Some? && q.report.value.unaccounted.Some?
            && q.report.value.unaccounted.value == Lost(attempts, 1, e.attempts) - p.state.monetaryUsed
            && (q.report.value.unaccounted.value == Lost(attempts, 1, e.attempts) <==> p.state.monetaryUsed == 0)
            && (p.state.monetaryUsed == 0 ==> q.report.value.unaccounted.value >= 0)
  {
    ReportedCost(policy, threshold, attempts, 1, p);
  }

  lemma {:induction false} LoneCost(cost: nat)
    ensures Sum([cost]) == cost
  {
    assert [cost][..0] == [];
  }

  /** A workflow that had spent something before: the very first attempt of the controller
      crashes, and the report is short of what that attempt spent. */
  lemma {:induction false} EarlierSpendingIsSubtracted(threshold: nat, p: Progress, cost: nat)
    requires threshold >= 1 && p.state.stage == E.Investigate && p.spent == 0 && p.state.monetaryUsed > 0
    ensures var crash: nat -> Attempt := _ => Attempt([], Raised(Exception({}, false, ""), [cost]));
            var (e, q) := Execute(DEFAULT_RETRY_POLICY, threshold, true, crash, 1, p);
            && e == HandedOff(1) && q.report.Some? && Lost(crash, 1, 1) == cost
            && q.report.value.unaccounted == Some(cost - p.state.monetaryUsed)
            && cost - p.state.monetaryUsed < cost
  {
    var crash: nat -> Attempt := _ => Attempt([], Raised(Exception({}, false, ""), [cost]));
    hide Execute, AfterRaise, TotalRoom, Discipline, HandOff;
    UnknownCrashStops(threshold, true, p, [cost], 1);
    ExecuteStep(DEFAULT_RETRY_POLICY, threshold, true, crash, 1, p);
    LoneCost(cost);
    assert Lost(crash, 2, 1) == 0;
    UnaccountedIsUnfinished(DEFAULT_RETRY_POLICY, threshold, crash, p);
  }
}
