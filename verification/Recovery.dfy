/** Driving a workflow through failure: attempts, breaker, retry decisions and the hand-off
    to a human (reliability/controller.py, reliability/breaker.py). */
module Recovery {
  import opened Sequences
  import E = Engine
  import W = WorkflowStates
  import opened Failures
  import opened RetryPolicy

  // ---------- The persisted state ----------

  datatype Why = Stated(text: string) | Decided(reason: Reason) | Classified(c: Classification)

  datatype RecordedFailure = RecordedFailure(stage: E.Stage, reason: Why)

  /** The blocks of the workflow state that reliability reads or writes. */
  datatype StateView = StateView(
    stage: E.Stage,
    status: W.WorkflowStatus,
    terminationReason: Option<Why>,
    monetaryUsed: int,
    retryCount: nat,
    failures: seq<RecordedFailure>
  )

  // ---------- One attempt, as the engine leaves it ----------

  function Sum(costs: seq<nat>): nat {
    if costs == [] then 0 else Sum(costs[..|costs| - 1]) + costs[|costs| - 1]
  }

  /** A stage that reached its boundary: where it went, what its model calls cost, and the
      reason if it ended the workflow. */
  datatype StageDone = StageDone(to: E.Stage, calls: seq<nat>, reason: Option<string>)

  /** How an attempt ended: with a result, or by an exception out of an unfinished stage
      that had already made some calls. */
  datatype End = Returned | Raised(exception: Exception, calls: seq<nat>)

  datatype Attempt = Attempt(stages: seq<StageDone>, end: End)

  function StatusOf(stage: E.Stage): W.WorkflowStatus {
    match stage
    case Completed => W.Completed
    case Failed => W.Failed
    case Cancelled => W.Cancelled
    case Escalated => W.Escalated
    case _ => W.Running
  }

  /** Only a stage that completes folds its cost into the budgets. */
  function AfterStage(s: StateView, d: StageDone): StateView {
    s.(stage := d.to, status := StatusOf(d.to), monetaryUsed := s.monetaryUsed + Sum(d.calls),
       terminationReason := match d.reason case None => None case Some(t) => Some(Stated(t)))
  }

  /** The latest snapshot once the stages are done. */
  function Left(s: StateView, stages: seq<StageDone>): StateView {
    if stages == [] then s else AfterStage(Left(s, stages[..|stages| - 1]), stages[|stages| - 1])
  }

  /** The costs of the budget events in the attempt's trace: every call, completed stage or
      not. */
  function TraceCosts(stages: seq<StageDone>): seq<nat> {
    if stages == [] then [] else TraceCosts(stages[..|stages| - 1]) + stages[|stages| - 1].calls
  }

  function AttemptTrace(a: Attempt): seq<nat> {
    TraceCosts(a.stages) + if a.end.Raised? then a.end.calls else []
  }

  method ObservedCost(trace: seq<nat>) returns (total: nat)
    ensures total == Sum(trace)
  {
    total := 0;
    for i := 0 to |trace|
      invariant total == Sum(trace[..i])
    {
      assert trace[..i + 1][..i] == trace[..i];
      total := total + trace[i];
    }
    assert trace[..|trace|] == trace;
  }

  // ---------- The breaker ----------

  function CountOf(counts: map<Boundary, nat>, b: Boundary): nat {
    if b in counts then counts[b] else 0
  }

  class CircuitBreaker {
    const threshold: nat
    var consecutive: map<Boundary, nat>

    constructor (threshold: nat)
      requires threshold >= 1
      ensures this.threshold == threshold && consecutive == map[]
    {
      this.threshold, consecutive := threshold, map[];
    }

    function Count(b: Boundary): nat
      reads this
    {
      CountOf(consecutive, b)
    }

    predicate IsOpen(b: Boundary)
      reads this
    {
      Count(b) >= threshold
    }

    /** Failures at one boundary never open another's circuit. */
    method RecordFailure(b: Boundary)
      modifies this
      ensures consecutive == old(consecutive)[b := old(Count(b)) + 1]
      ensures forall other | other != b :: IsOpen(other) == old(IsOpen(other))
    {
      consecutive := consecutive[b := Count(b) + 1];
    }

    method RecordSuccess(b: Boundary)
      modifies this
      ensures consecutive == old(consecutive)[b := 0]
      ensures threshold >= 1 ==> !IsOpen(b)
    {
      consecutive := consecutive[b := 0];
    }
  }

  /** How many more failures the boundaries can take before one opens. */
  function Room(counts: map<Boundary, nat>, b: Boundary, threshold: nat): nat {
    if CountOf(counts, b) + 1 <= threshold then threshold - 1 - CountOf(counts, b) else 0
  }

  function TotalRoom(counts: map<Boundary, nat>, threshold: nat): nat {
    Room(counts, AtModel, threshold) + Room(counts, AtTool, threshold) + Room(counts, AtSandbox, threshold)
    + Room(counts, AtStateStore, threshold) + Room(counts, AtWorker, threshold)
    + Room(counts, AtFilesystem, threshold) + Room(counts, AtUnknown, threshold)
  }

  lemma {:induction false} RoomAfterFailure(counts: map<Boundary, nat>, b: Boundary, threshold: nat, other: Boundary)
    requires CountOf(counts, b) + 1 < threshold
    ensures Room(counts[b := CountOf(counts, b) + 1], other, threshold)
            == Room(counts, other, threshold) - if other == b then 1 else 0
  {
  }

  lemma {:induction false} FailureTakesRoom(counts: map<Boundary, nat>, b: Boundary, threshold: nat)
    requires ExceptionBoundary(b) && CountOf(counts, b) + 1 < threshold
    ensures TotalRoom(counts[b := CountOf(counts, b) + 1], threshold) == TotalRoom(counts, threshold) - 1
  {
    hide Room;
    forall other
      ensures Room(counts[b := CountOf(counts, b) + 1], other, threshold)
              == Room(counts, other, threshold) - if other == b then 1 else 0
    {
      RoomAfterFailure(counts, b, threshold, other);
    }
  }

  lemma {:induction false} RoomIsLimited(counts: map<Boundary, nat>, threshold: nat)
    requires threshold >= 1
    ensures TotalRoom(counts, threshold) <= 7 * (threshold - 1)
  {
  }

  // ---------- The run ----------

  datatype ArtifactId = FailureArtifact(n: nat) | RetryArtifact(n: nat) | AbortedRunArtifact | EscalationArtifact

  datatype Event =
    | ArtifactCreated(id: ArtifactId)
    | CheckpointCreated
    | RetryScheduled(decision: RetryDecision, consecutive: nat)
    | EscalationCreated(reason: Reason, cls: FailureClass, boundary: Boundary)

  /** The aborted-run report. */
  datatype Report = Report(
    reason: Reason,
    failures: seq<RecordedFailure>,
    monetaryUsed: int,
    retryCount: nat,
    unaccounted: Option<int>
  )

  /** Where a run stands between attempts. */
  datatype Progress = Progress(
    state: StateView,
    counts: map<Boundary, nat>,
    decisions: seq<RetryDecision>,
    classified: nat,
    lastFailed: Option<Boundary>,
    spent: nat,
    events: seq<Event>,
    report: Option<Report>
  )

  /** How a run ends: an attempt returned, a person takes over, a replay or script error is
      raised again, or the hand-off is not a legal transition. */
  datatype Ending =
    | Result(attempts: nat, escalated: bool)
    | HandedOff(attempts: nat)
    | Propagated(attempts: nat, exception: Exception)
    | InvalidTransition(attempts: nat, stage: E.Stage)

  predicate Discipline(e: Exception) {
    ReplayError in e.types || ScriptError in e.types
  }

  function Text(w: Option<Why>): Option<string> {
    if w.Some? && w.value.Stated? then Some(w.value.text) else None
  }

  /** An attempt returned: close the circuit and classify what the engine handled. */
  function AfterReturn(p: Progress, a: Attempt): Progress {
    var left := Left(p.state, a.stages);
    var boundary := if p.lastFailed.Some? then p.lastFailed.value else AtModel;
    var closed := p.(state := left, counts := p.counts[boundary := 0]);
    if ClassifyOutcome(left.status, Text(left.terminationReason)).None? then closed
    else closed.(classified := p.classified + 1,
                 events := p.events + [ArtifactCreated(FailureArtifact(p.classified + 1))])
  }

  /** The decision about attempt `n`'s failure, the breaker having counted it. */
  function Respond(
      policy: Policy, threshold: nat, counts: map<Boundary, nat>, c: Classification, n: nat): RetryDecision {
    var d := DecideRetry(policy, c, n, false);
    if d.action.Retry? && CountOf(counts, c.boundary) >= threshold then
      Decision(Escalate, HumanEscalation, c, n, BreakerOpen(CountOf(counts, c.boundary), c.boundary))
    else d
  }

  /** An attempt raised: everything up to and including the persisted decision. */
  function AfterRaise(policy: Policy, threshold: nat, traced: bool, p: Progress, a: Attempt, n: nat): Progress
    requires a.end.Raised?
  {
    var left := Left(p.state, a.stages);
    var c := ClassifyException(a.end.exception);
    var counts := p.counts[c.boundary := CountOf(p.counts, c.boundary) + 1];
    var k := p.classified + 1;
    var cost := Sum(AttemptTrace(a));
    var d := Respond(policy, threshold, counts, c, n).(observedCost := if traced then Some(cost) else None);
    Progress(
      left.(failures := left.failures + [RecordedFailure(left.stage, Classified(c))]),
      counts,
      p.decisions + [d],
      k,
      Some(c.boundary),
      p.spent + cost,
      p.events + [ArtifactCreated(FailureArtifact(k)), ArtifactCreated(RetryArtifact(k))],
      p.report)
  }

  function Scheduled(p: Progress): Progress
    requires p.decisions != [] && p.lastFailed.Some?
  {
    p.(state := p.state.(retryCount := p.state.retryCount + 1),
       events := p.events + [CheckpointCreated,
                             RetryScheduled(p.decisions[|p.decisions| - 1], CountOf(p.counts, p.lastFailed.value))])
  }

  /** The hand-off: report, request, terminal state. */
  function HandOff(traced: bool, p: Progress): Progress
    requires p.decisions != []
  {
    var d := p.decisions[|p.decisions| - 1];
    p.(report := Some(Report(d.reason, p.state.failures, p.state.monetaryUsed, p.state.retryCount,
                             if traced then Some(p.spent - p.state.monetaryUsed) else None)),
       state := p.state.(stage := E.Escalated, status := W.Escalated, terminationReason := Some(Decided(d.reason))),
       events := p.events + [ArtifactCreated(AbortedRunArtifact), ArtifactCreated(EscalationArtifact),
                             EscalationCreated(d.reason, d.cls, d.boundary), CheckpointCreated])
  }

  lemma {:induction false} RetryLeavesRoom(
      policy: Policy, threshold: nat, traced: bool, p: Progress, a: Attempt, n: nat)
    requires a.end.Raised?
    ensures var q := AfterRaise(policy, threshold, traced, p, a, n);
            && q.decisions != [] && q.lastFailed.Some?
            && (q.decisions[|q.decisions| - 1].action.Retry? ==>
                  TotalRoom(q.counts, threshold) == TotalRoom(p.counts, threshold) - 1)
  {
    hide TotalRoom;
    var c := ClassifyException(a.end.exception);
    var counts := p.counts[c.boundary := CountOf(p.counts, c.boundary) + 1];
    if Respond(policy, threshold, counts, c, n).action.Retry? {
      FailureTakesRoom(p.counts, c.boundary, threshold);
    }
  }

  /** The decision was to stop: checkpoint, then hand off where the table allows it. */
  function Stop(traced: bool, p: Progress, n: nat): (Ending, Progress)
    requires p.decisions != []
  {
    var saved := p.(events := p.events + [CheckpointCreated]);
    if E.Allowed(p.state.stage, E.Escalated) then (HandedOff(n), HandOff(traced, saved))
    else (InvalidTransition(n, p.state.stage), saved)
  }

  /** The run from attempt `n` on. */
  function Execute(
      policy: Policy, threshold: nat, traced: bool, attempts: nat -> Attempt, n: nat, p: Progress): (Ending, Progress)
    decreases TotalRoom(p.counts, threshold)
  {
    var a := attempts(n);
    if a.end.Returned? then
      var q := AfterReturn(p, a);
      (Result(n, q.state.status == W.Escalated), q)
    else if Discipline(a.end.exception) then
      (Propagated(n, a.end.exception), p.(state := Left(p.state, a.stages)))
    else
      RetryLeavesRoom(policy, threshold, traced, p, a, n);
      var q := AfterRaise(policy, threshold, traced, p, a, n);
      if q.decisions[|q.decisions| - 1].action.Retry? then
        Execute(policy, threshold, traced, attempts, n + 1, Scheduled(q))
      else Stop(traced, q, n)
  }

  lemma {:induction false} ExecuteStep(
      policy: Policy, threshold: nat, traced: bool, attempts: nat -> Attempt, n: nat, p: Progress)
    ensures var a := attempts(n);
            var run := Execute(policy, threshold, traced, attempts, n, p);
            if a.end.Returned? then
              run == (Result(n, AfterReturn(p, a).state.status == W.Escalated), AfterReturn(p, a))
            else if Discipline(a.end.exception) then
              run == (Propagated(n, a.end.exception), p.(state := Left(p.state, a.stages)))
            else
              var q := AfterRaise(policy, threshold, traced, p, a, n);
              && q.decisions != [] && q.lastFailed.Some?
              && TotalRoom(Scheduled(q).counts, threshold) == TotalRoom(q.counts, threshold)
              && run == if q.decisions[|q.decisions| - 1].action.Retry? then
                          Execute(policy, threshold, traced, attempts, n + 1, Scheduled(q))
                        else Stop(traced, q, n)
  {
    if attempts(n).end.Raised? {
      RetryLeavesRoom(policy, threshold, traced, p, attempts(n), n);
    }
  }

  /** Supervises one workflow. The store is seen as the latest snapshot; the events are what
      was written to the trace. */
  class ReliabilityController {
    const policy: Policy
    const breaker: CircuitBreaker
    var state: StateView
    var classified: nat
    var events: seq<Event>
    var report: Option<Report>

    constructor (policy: Policy, breaker: CircuitBreaker, state: StateView)
      ensures this.policy == policy && this.breaker == breaker && this.state == state
      ensures classified == 0 && events == [] && report == None
    {
      this.policy, this.breaker, this.state := policy, breaker, state;
      classified, events, report := 0, [], None;
    }

    function Standing(decisions: seq<RetryDecision>, lastFailed: Option<Boundary>, spent: nat): Progress
      reads this, breaker
    {
      Progress(state, breaker.consecutive, decisions, classified, lastFailed, spent, events, report)
    }

    method Run(attempts: nat -> Attempt, traced: bool) returns (ending: Ending, decisions: seq<RetryDecision>)
      modifies this, breaker
      ensures exists lastFailed, spent ::
                Execute(policy, breaker.threshold, traced, attempts, 1, old(Standing([], None, 0)))
                == (ending, Standing(decisions, lastFailed, spent))
    {
      hide Execute, AfterRaise, AfterReturn, Scheduled, HandOff, TotalRoom, Left;
      decisions := [];
      var lastFailed, spent, n := None, 0, 1;
      ghost var start := Standing([], None, 0);
      while true
        invariant Execute(policy, breaker.threshold, traced, attempts, n, Standing(decisions, lastFailed, spent))
                  == Execute(policy, breaker.threshold, traced, attempts, 1, start)
        decreases TotalRoom(breaker.consecutive, breaker.threshold)
      {
        ghost var p := Standing(decisions, lastFailed, spent);
        ExecuteStep(policy, breaker.threshold, traced, attempts, n, p);
        var a := attempts(n);
        if a.end.Returned? {
          Close(a, decisions, lastFailed, spent);
          return Result(n, state.status == W.Escalated), decisions;
        }
        if Discipline(a.end.exception) {
          state := Left(state, a.stages);
          assert Standing(decisions, lastFailed, spent) == p.(state := Left(p.state, a.stages));
          return Propagated(n, a.end.exception), decisions;
        }
        RetryLeavesRoom(policy, breaker.threshold, traced, p, a, n);
        decisions, lastFailed, spent := Fail(a, n, decisions, lastFailed, spent, traced);
        if decisions[|decisions| - 1].action.Escalate? {
          ending := Finish(decisions, lastFailed, spent, traced, n);
          return;
        }
        Schedule(decisions, lastFailed, spent);
        n := n + 1;
      }
    }

    /** Attempt returned: the circuit closes and a handled failure is recorded. */
    method Close(a: Attempt, ghost decisions: seq<RetryDecision>, lastFailed: Option<Boundary>, ghost spent: nat)
      modifies this, breaker
      ensures Standing(decisions, lastFailed, spent) == AfterReturn(old(Standing(decisions, lastFailed, spent)), a)
    {
      state := Left(state, a.stages);
      breaker.RecordSuccess(if lastFailed.Some? then lastFailed.value else AtModel);
      if ClassifyOutcome(state.status, Text(state.terminationReason)).Some? {
        classified := classified + 1;
        events := events + [ArtifactCreated(FailureArtifact(classified))];
      }
    }

    /** Attempt `n` raised: count the failure, record it and persist the decision. */
    method Fail(
        a: Attempt, n: nat, decisions: seq<RetryDecision>, ghost lastFailed: Option<Boundary>, spent: nat, traced: bool)
      returns (decisions': seq<RetryDecision>, lastFailed': Option<Boundary>, spent': nat)
      requires a.end.Raised?
      modifies this, breaker
      ensures Standing(decisions', lastFailed', spent')
              == AfterRaise(policy, breaker.threshold, traced, old(Standing(decisions, lastFailed, spent)), a, n)
    {
      hide Left, DecideRetry, ClassifyException, Sum, AttemptTrace;
      state := Left(state, a.stages);
      var c := ClassifyException(a.end.exception);
      breaker.RecordFailure(c.boundary);
      state := state.(failures := state.failures + [RecordedFailure(state.stage, Classified(c))]);
      var cost := ObservedCost(AttemptTrace(a));
      classified := classified + 1;
      events := events + [ArtifactCreated(FailureArtifact(classified))];
      var d := DecideRetry(policy, c, n, false);
      if d.action.Retry? && breaker.IsOpen(c.boundary) {
        d := Decision(Escalate, HumanEscalation, c, n, BreakerOpen(breaker.Count(c.boundary), c.boundary));
      }
      d := d.(observedCost := if traced then Some(cost) else None);
      ghost var before := events;
      events := events + [ArtifactCreated(RetryArtifact(classified))];
      assert before == old(events) + [ArtifactCreated(FailureArtifact(classified))];
      assert events == old(events) + [ArtifactCreated(FailureArtifact(classified)),
                                      ArtifactCreated(RetryArtifact(classified))];
      return decisions + [d], Some(c.boundary), spent + cost;
    }

    method Schedule(decisions: seq<RetryDecision>, lastFailed: Option<Boundary>, ghost spent: nat)
      requires decisions != [] && lastFailed.Some?
      modifies this`state, this`events
      ensures Standing(decisions, lastFailed, spent) == Scheduled(old(Standing(decisions, lastFailed, spent)))
    {
      state := state.(retryCount := state.retryCount + 1);
      events := events + [CheckpointCreated,
                          RetryScheduled(decisions[|decisions| - 1], breaker.Count(lastFailed.value))];
    }

    /** Checkpoint, then the hand-off where the table allows it. */
    method Finish(decisions: seq<RetryDecision>, ghost lastFailed: Option<Boundary>, spent: nat, traced: bool, n: nat)
      returns (ending: Ending)
      requires decisions != []
      modifies this`state, this`events, this`report
      ensures (ending, Standing(decisions, lastFailed, spent))
              == Stop(traced, old(Standing(decisions, lastFailed, spent)), n)
    {
      var d := decisions[|decisions| - 1];
      events := events + [CheckpointCreated];
      if !E.Allowed(state.stage, E.Escalated) { return InvalidTransition(n, state.stage); }
      var unaccounted := if traced then Some(spent - state.monetaryUsed) else None;
      report := Some(Report(d.reason, state.failures, state.monetaryUsed, state.retryCount, unaccounted));
      state := state.(stage := E.Escalated, status := W.Escalated, terminationReason := Some(Decided(d.reason)));
      events := events + [ArtifactCreated(AbortedRunArtifact), ArtifactCreated(EscalationArtifact),
                          EscalationCreated(d.reason, d.cls, d.boundary), CheckpointCreated];
      return HandedOff(n);
    }
  }
}
