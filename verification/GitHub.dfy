/** Draft pull requests through the approval gate and the offline transport
    (integrations/github.py, integrations/local_double.py). */
module GitHub {
  import opened Numerals
  import opened Payloads
  import opened Sequences

  // ---------- The transport double ----------

  datatype Request =
    | ReadIssue(number: int)
    | ReadCiStatus(ref: string)
    | CreateDraftPr(key: Option<string>, title: string, head: string, base: string, draft: bool)

  datatype PullRequest = PullRequest(number: nat, draft: bool, state: string, htmlUrl: string, title: string)

  datatype Response =
    | IssueData(issue: Json)
    | CiData(report: Json)
    | PrData(status: nat, pr: PullRequest, deduped: bool)

  datatype Failure = Timeout | Refused | NotFound | NotApproved | CancelledBeforeSend

  predicate Retryable(f: Failure) {
    f == Timeout
  }

  type Outcome = Result<Response, Failure>

  datatype Fixtures = Fixtures(issues: map<int, Json>, ci: map<string, Json>)

  datatype Double = Double(prs: map<string, PullRequest>, nextPr: nat, sent: seq<Request>)

  const UNKNOWN_CI := JObj(map["state" := JStr("unknown"), "total_count" := JNum(0)])

  function KeyOf(q: Request): string
    requires q.CreateDraftPr?
  {
    if q.key.Some? then q.key.value else ""
  }

  function NewPr(number: nat, title: string): PullRequest {
    PullRequest(number, true, "open", "https://github.invalid/pull/" + Digits(number), title)
  }

  /** One send: recorded, then perhaps a timeout, then served. */
  function SendTo(f: Fixtures, d: Double, timeout: bool, q: Request): (Double, Outcome) {
    var d' := d.(sent := d.sent + [q]);
    if timeout then (d', Err(Timeout))
    else
      match q
      case ReadIssue(number) => (d', if number in f.issues then Ok(IssueData(f.issues[number])) else Err(NotFound))
      case ReadCiStatus(ref) => (d', Ok(CiData(if ref in f.ci then f.ci[ref] else UNKNOWN_CI)))
      case CreateDraftPr(_, title, _, _, draft) =>
        if KeyOf(q) in d.prs then (d', Ok(PrData(200, d.prs[KeyOf(q)], true)))
        else if !draft then (d', Err(Refused))
        else
          var pr := NewPr(d.nextPr, title);
          (d'.(prs := d.prs[KeyOf(q) := pr], nextPr := d.nextPr + 1), Ok(PrData(201, pr, false)))
  }

  class LocalGitHubDouble {
    const fixtures: Fixtures
    var prsByKey: map<string, PullRequest>
    var nextPr: nat
    var sent: seq<Request>
    var raiseTimeout: bool

    constructor (fixtures: Fixtures)
      ensures this.fixtures == fixtures && State() == FRESH && !raiseTimeout
    {
      this.fixtures, prsByKey, nextPr, sent, raiseTimeout := fixtures, map[], 101, [], false;
    }

    function State(): Double
      reads this
    {
      Double(prsByKey, nextPr, sent)
    }

    method Send(q: Request) returns (r: Outcome)
      modifies this`prsByKey, this`nextPr, this`sent
      ensures (State(), r) == SendTo(fixtures, old(State()), raiseTimeout, q)
      ensures sent == old(sent) + [q]
      ensures raiseTimeout ==> r == Err(Timeout) && prsByKey == old(prsByKey) && nextPr == old(nextPr)
      ensures !q.CreateDraftPr? ==> prsByKey == old(prsByKey) && nextPr == old(nextPr)
      ensures q.CreateDraftPr? && r.Ok? ==> r.value.PrData?
      ensures !raiseTimeout && q.ReadIssue? ==>
                r == if q.number in fixtures.issues then Ok(IssueData(fixtures.issues[q.number])) else Err(NotFound)
      ensures !raiseTimeout && q.ReadCiStatus? ==>
                r == Ok(CiData(if q.ref in fixtures.ci then fixtures.ci[q.ref]
                               else JObj(map["state" := JStr("unknown"), "total_count" := JNum(0)])))
    {
      sent := sent + [q];
      if raiseTimeout { return Err(Timeout); }
      match q {
        case ReadIssue(number) =>
          if number !in fixtures.issues { return Err(NotFound); }
          return Ok(IssueData(fixtures.issues[number]));
        case ReadCiStatus(ref) =>
          return Ok(CiData(if ref in fixtures.ci then fixtures.ci[ref] else UNKNOWN_CI));
        case CreateDraftPr(key, title, head, base, draft) =>
          var k := if key.Some? then key.value else "";
          if k in prsByKey { return Ok(PrData(200, prsByKey[k], true)); }
          if !draft { return Err(Refused); }
          var pr := NewPr(nextPr, title);
          nextPr := nextPr + 1;
          prsByKey := prsByKey[k := pr];
          return Ok(PrData(201, pr, false));
      }
    }
  }

  const FRESH := Double(map[], 101, [])

  // ---------- The adapter ----------

  datatype Decision = Approved | Rejected | ApprovedWithConditions | Expired | EscalatedDecision

  datatype AuditOutcome = Completed | Deduplicated | RejectedOutcome | CancelledOutcome | FailedOutcome

  datatype Audit = Audit(key: string, approved: bool, outcome: AuditOutcome, status: Option<nat>)

  datatype Event =
    | ApprovalRequested(key: string)
    | ApprovalResolved(key: string, decision: Decision)
    | ToolRequested(q: Request)
    | ToolCompleted(r: Response)
    | ToolCancelled(key: string)
    | ArtifactCreated(audit: Audit)

  datatype Create = Create(
    taskId: string,
    workflowId: string,
    artifactVersion: string,
    title: string,
    head: string,
    base: string,
    diff: string
  )

  /** The evidence an approver decides on; it does not hold the idempotency key. */
  datatype ApprovalRequest = ApprovalRequest(action: string, risk: string, diff: string, validationOk: bool)

  const CREATE_ACTION := "create_draft_pr"
  const DRAFT_PR_RISK := "external-reversible (class 3)"

  function ApprovalOf(c: Create): ApprovalRequest {
    ApprovalRequest(CREATE_ACTION, DRAFT_PR_RISK, c.diff, true)
  }

  type ReadRequest = q: Request | !q.CreateDraftPr? witness ReadCiStatus("")

  /** How idempotency keys are derived; nothing is known about it. */
  type KeyFunction = (string, string, string) -> string

  function CreateRequest(derive: KeyFunction, c: Create): Request {
    CreateDraftPr(Some(derive(c.taskId, c.workflowId, c.artifactVersion)), c.title, c.head, c.base, true)
  }

  /** One call of the adapter: with what the resolver will answer and whether the transport
      times out. */
  datatype Op =
    | Read(q: ReadRequest, timeout: bool)
    | Prepare(c: Create, decision: Decision, cancel: bool, timeout: bool)

  datatype Platform = Platform(double: Double, gateLog: seq<(ApprovalRequest, Decision)>, trace: seq<Event>)

  function AuditOf(key: string, r: Outcome): Audit {
    match r
    case Ok(PrData(status, _, deduped)) => Audit(key, true, if deduped then Deduplicated else Completed, Some(status))
    case Ok(_) => Audit(key, true, Completed, None)
    case Err(_) => Audit(key, true, FailedOutcome, None)
  }

  function Done(r: Outcome): seq<Event> {
    match r case Ok(response) => [ToolCompleted(response)] case Err(_) => []
  }

  /** The events a call adds to the trace, given how it ended. */
  function CallEvents(derive: KeyFunction, op: Op, r: Outcome): seq<Event> {
    match op
    case Read(q, _) => [ToolRequested(q)] + Done(r)
    case Prepare(c, decision, cancel, _) =>
      var q := CreateRequest(derive, c);
      var key := KeyOf(q);
      [ApprovalRequested(key), ApprovalResolved(key, decision)]
      + if decision != Approved then [ArtifactCreated(Audit(key, false, RejectedOutcome, None))]
        else if cancel then [ToolCancelled(key), ArtifactCreated(Audit(key, true, CancelledOutcome, None))]
        else [ToolRequested(q)] + Done(r) + [ArtifactCreated(AuditOf(key, r))]
  }

  function Perform(f: Fixtures, derive: KeyFunction, p: Platform, op: Op): (Platform, Outcome) {
    match op
    case Read(q, timeout) =>
      var (d, r) := SendTo(f, p.double, timeout, q);
      (Platform(d, p.gateLog, p.trace + CallEvents(derive, op, r)), r)
    case Prepare(c, decision, cancel, timeout) =>
      var q := CreateRequest(derive, c);
      var (d, r) :=
        if decision != Approved then (p.double, Err(NotApproved))
        else if cancel then (p.double, Err(CancelledBeforeSend))
        else SendTo(f, p.double, timeout, q);
      (Platform(d, p.gateLog + [(ApprovalOf(c), decision)], p.trace + CallEvents(derive, op, r)), r)
  }

  class ApprovalGate {
    const resolver: ApprovalRequest -> Decision
    var log: seq<(ApprovalRequest, Decision)>

    constructor (resolver: ApprovalRequest -> Decision)
      ensures this.resolver == resolver && log == []
    {
      this.resolver, log := resolver, [];
    }

    method Ask(q: ApprovalRequest) returns (decision: Decision)
      modifies this
      ensures decision == resolver(q) && log == old(log) + [(q, decision)]
    {
      decision := resolver(q);
      log := log + [(q, decision)];
    }
  }

  class GitHubAdapter {
    const transport: LocalGitHubDouble
    const gate: ApprovalGate
    const derive: KeyFunction
    var trace: seq<Event>

    constructor (transport: LocalGitHubDouble, gate: ApprovalGate, derive: KeyFunction)
      ensures this.transport == transport && this.gate == gate && this.derive == derive && trace == []
    {
      this.transport, this.gate, this.derive, trace := transport, gate, derive, [];
    }

    function State(): Platform
      reads this, transport, gate
    {
      Platform(transport.State(), gate.log, trace)
    }

    /** The two reads; neither asks for approval. */
    method ReadThrough(q: ReadRequest) returns (r: Outcome)
      modifies this, transport`prsByKey, transport`nextPr, transport`sent
      ensures (State(), r) == Perform(transport.fixtures, derive, old(State()), Read(q, transport.raiseTimeout))
      ensures trace == old(trace) + [ToolRequested(q)] + (if r.Ok? then [ToolCompleted(r.value)] else [])
      ensures transport.sent == old(transport.sent) + [q]
    {
      trace := trace + [ToolRequested(q)];
      r := transport.Send(q);
      if r.Ok? { trace := trace + [ToolCompleted(r.value)]; }
      assert trace == old(trace) + ([ToolRequested(q)] + Done(r));
    }

    method PrepareDraftPr(c: Create, cancel: bool) returns (r: Outcome)
      modifies this, gate, transport`prsByKey, transport`nextPr, transport`sent
      ensures var decision := gate.resolver(ApprovalOf(c));
              (State(), r)
              == Perform(transport.fixtures, derive, old(State()), Prepare(c, decision, cancel, transport.raiseTimeout))
      // What the call leaves in the trace and at the transport, case by case.
      ensures var decision := gate.resolver(ApprovalRequest("create_draft_pr", DRAFT_PR_RISK, c.diff, true));
              var key := derive(c.taskId, c.workflowId, c.artifactVersion);
              var asked := [ApprovalRequested(key), ApprovalResolved(key, decision)];
              if decision != Approved then
                && r == Err(NotApproved) && transport.sent == old(transport.sent)
                && trace == old(trace) + (asked + [ArtifactCreated(Audit(key, false, RejectedOutcome, None))])
              else if cancel then
                && r == Err(CancelledBeforeSend) && transport.sent == old(transport.sent)
                && trace == old(trace) + (asked + [ToolCancelled(key),
                                                   ArtifactCreated(Audit(key, true, CancelledOutcome, None))])
              else
                var q := CreateDraftPr(Some(key), c.title, c.head, c.base, true);
                && transport.sent == old(transport.sent) + [q]
                && (r.Ok? ==> r.value.PrData?)
                && var done := if r.Ok? then [ToolCompleted(r.value)] else [];
                   var audit :=
                     if r.Err? then Audit(key, true, FailedOutcome, None)
                     else Audit(key, true, if r.value.deduped then Deduplicated else Completed, Some(r.value.status));
                   trace == old(trace) + (asked + ([ToolRequested(q)] + done + [ArtifactCreated(audit)]))
    {
      hide SendTo;
      var key := derive(c.taskId, c.workflowId, c.artifactVersion);
      var q := CreateDraftPr(Some(key), c.title, c.head, c.base, true);
      var decision := gate.Ask(ApprovalRequest(CREATE_ACTION, DRAFT_PR_RISK, c.diff, true));
      ghost var op := Prepare(c, decision, cancel, transport.raiseTimeout);
      trace := trace + [ApprovalRequested(key), ApprovalResolved(key, decision)];
      if decision != Approved {
        trace := trace + [ArtifactCreated(Audit(key, false, RejectedOutcome, None))];
        assert trace == old(trace) + CallEvents(derive, op, Err(NotApproved));
        return Err(NotApproved);
      }
      if cancel {
        trace := trace + [ToolCancelled(key), ArtifactCreated(Audit(key, true, CancelledOutcome, None))];
        assert trace == old(trace) + CallEvents(derive, op, Err(CancelledBeforeSend));
        return Err(CancelledBeforeSend);
      }
      trace := trace + [ToolRequested(q)];
      r := transport.Send(q);
      if r.Ok? { trace := trace + [ToolCompleted(r.value)]; }
      trace := trace + [ArtifactCreated(AuditOf(key, r))];
      assert trace == old(trace) + CallEvents(derive, op, r);
    }
  }

  // ---------- The double over any requests ----------

  /** Numbers 101, 102, ... in the order the keys were created, all of them drafts. */
  ghost predicate Numbered(d: Double, keys: seq<string>) {
    && Distinct(keys)
    && (forall k :: k in d.prs <==> k in keys)
    && d.nextPr == 101 + |keys|
    && forall i :: 0 <= i < |keys| ==> d.prs[keys[i]].number == 101 + i && d.prs[keys[i]].draft
  }

  /** The keys once this request was sent. */
  function KeysAfter(keys: seq<string>, timeout: bool, q: Request): seq<string> {
    if !timeout && q.CreateDraftPr? && q.draft && KeyOf(q) !in keys then keys + [KeyOf(q)] else keys
  }

  /** Whatever is sent, numbers stay consecutive, one to a key, and no stored pull request is
      anything but a draft. */
  lemma {:induction false} SendKeepsNumbers(f: Fixtures, d: Double, keys: seq<string>, timeout: bool, q: Request)
    requires Numbered(d, keys)
    ensures Numbered(SendTo(f, d, timeout, q).0, KeysAfter(keys, timeout, q))
  {
    var d', keys' := SendTo(f, d, timeout, q).0, KeysAfter(keys, timeout, q);
    if keys' != keys {
      forall i | 0 <= i < |keys'| ensures d'.prs[keys'[i]].number == 101 + i && d'.prs[keys'[i]].draft {
        if i < |keys| { assert keys[i] in d.prs && keys[i] != KeyOf(q); }
      }
    }
  }

  /** What a create returns: the number of its key, fresh exactly when the key is new; a new
      key without the draft flag is refused for good. */
  lemma {:induction false} CreateAnswers(f: Fixtures, d: Double, keys: seq<string>, q: Request, i: nat)
    requires Numbered(d, keys) && q.CreateDraftPr? && i <= |keys|
    requires if KeyOf(q) in keys then i < |keys| && keys[i] == KeyOf(q) else i == |keys|
    ensures var r := SendTo(f, d, false, q).1;
            if i < |keys| then
              r.Ok? && r.value.PrData? && r.value.deduped && r.value.status == 200 && r.value.pr.number == 101 + i
            else if q.draft then
              r.Ok? && r.value.PrData? && !r.value.deduped && r.value.status == 201 && r.value.pr.number == 101 + i
            else r == Err(Refused) && !Retryable(r.error)
  {
  }

  // ---------- Whole runs of the adapter ----------

  function RunOps(f: Fixtures, derive: KeyFunction, ops: seq<Op>): (r: (Platform, seq<Outcome>))
    ensures |r.1| == |ops|
  {
    if ops == [] then (Platform(FRESH, [], []), [])
    else
      var before := RunOps(f, derive, ops[..|ops| - 1]);
      var last := Perform(f, derive, before.0, ops[|ops| - 1]);
      (last.0, before.1 + [last.1])
  }

  lemma {:induction false} RunStep(f: Fixtures, derive: KeyFunction, ops: seq<Op>)
    requires ops != []
    ensures var k := |ops| - 1;
            var before := RunOps(f, derive, ops[..k]);
            var last := Perform(f, derive, before.0, ops[k]);
            RunOps(f, derive, ops) == (last.0, before.1 + [last.1])
  {
  }

  /** The call reaches the transport with a create. */
  predicate Sends(op: Op) {
    op.Prepare? && op.decision == Approved && !op.cancel
  }

  function KeyOfOp(derive: KeyFunction, op: Op): string
    requires op.Prepare?
  {
    KeyOf(CreateRequest(derive, op.c))
  }

  /** The keys of the pull requests a run creates, in order. */
  function CreatedKeys(derive: KeyFunction, ops: seq<Op>): seq<string> {
    if ops == [] then []
    else
      var before, op := CreatedKeys(derive, ops[..|ops| - 1]), ops[|ops| - 1];
      if Sends(op) && !op.timeout && KeyOfOp(derive, op) !in before then before + [KeyOfOp(derive, op)] else before
  }

  lemma {:induction false} RunIsNumbered(f: Fixtures, derive: KeyFunction, ops: seq<Op>)
    ensures Numbered(RunOps(f, derive, ops).0.double, CreatedKeys(derive, ops))
  {
    hide SendTo;
    if ops != [] {
      var k := |ops| - 1;
      RunIsNumbered(f, derive, ops[..k]);
      RunStep(f, derive, ops);
      var before := RunOps(f, derive, ops[..k]).0.double;
      if ops[k].Read? {
        SendKeepsNumbers(f, before, CreatedKeys(derive, ops[..k]), ops[k].timeout, ops[k].q);
      } else if Sends(ops[k]) {
        SendKeepsNumbers(f, before, CreatedKeys(derive, ops[..k]), ops[k].timeout, CreateRequest(derive, ops[k].c));
      }
    }
  }

  /** Call `i` of a run is answered from where the calls before it left the platform. */
  lemma {:induction false} ReplyAt(f: Fixtures, derive: KeyFunction, ops: seq<Op>, i: nat)
    requires i < |ops|
    ensures RunOps(f, derive, ops).1[i] == Perform(f, derive, RunOps(f, derive, ops[..i]).0, ops[i]).1
  {
    hide Perform, RunOps;
    var k := |ops| - 1;
    RunStep(f, derive, ops);
    if i < k {
      ReplyAt(f, derive, ops[..k], i);
      assert ops[..k][..i] == ops[..i];
    }
  }

  lemma {:induction false} KeysOnlyGrow(derive: KeyFunction, ops: seq<Op>, i: nat)
    requires i <= |ops|
    ensures CreatedKeys(derive, ops[..i]) <= CreatedKeys(derive, ops)
    decreases |ops|
  {
    if i < |ops| {
      var k := |ops| - 1;
      KeysOnlyGrow(derive, ops[..k], i);
      assert ops[..k][..i] == ops[..i];
    } else {
      assert ops[..i] == ops;
    }
  }

  /** A create that reached the transport and did not time out returns the number its key was
      given when it was first created, whatever came between. */
  lemma {:induction false} NumberOfReply(f: Fixtures, derive: KeyFunction, ops: seq<Op>, i: nat) returns (j: nat)
    requires i < |ops| && Sends(ops[i]) && !ops[i].timeout
    ensures j < |CreatedKeys(derive, ops)| && CreatedKeys(derive, ops)[j] == KeyOfOp(derive, ops[i])
    ensures var r := RunOps(f, derive, ops).1[i];
            && r.Ok? && r.value.PrData? && r.value.pr.number == 101 + j
            && (r.value.deduped <==> KeyOfOp(derive, ops[i]) in CreatedKeys(derive, ops[..i]))
  {
    hide SendTo, RunOps, Numbered, CallEvents;
    var before, keys := RunOps(f, derive, ops[..i]).0.double, CreatedKeys(derive, ops[..i]);
    var key := KeyOfOp(derive, ops[i]);
    ReplyAt(f, derive, ops, i);
    RunIsNumbered(f, derive, ops[..i]);
    KeysOnlyGrow(derive, ops, i + 1);
    assert ops[..i + 1][..i] == ops[..i];
    if key in keys {
      j :| 0 <= j < |keys| && keys[j] == key;
    } else {
      j := |keys|;
    }
    CreateAnswers(f, before, keys, CreateRequest(derive, ops[i].c), j);
  }

  /** Two creates answered with numbers got the same number exactly when their keys are the
      same. */
  lemma {:induction false} OneNumberPerKey(f: Fixtures, derive: KeyFunction, ops: seq<Op>, i: nat, k: nat)
    requires i < |ops| && Sends(ops[i]) && !ops[i].timeout
    requires k < |ops| && Sends(ops[k]) && !ops[k].timeout
    ensures var replies := RunOps(f, derive, ops).1;
            && replies[i].Ok? && replies[i].value.PrData? && replies[k].Ok? && replies[k].value.PrData?
            && (replies[i].value.pr.number == replies[k].value.pr.number
                <==> KeyOfOp(derive, ops[i]) == KeyOfOp(derive, ops[k]))
  {
    var a := NumberOfReply(f, derive, ops, i);
    var b := NumberOfReply(f, derive, ops, k);
    RunIsNumbered(f, derive, ops);
    assert Distinct(CreatedKeys(derive, ops));
  }

  // ---------- Approvals and audits ----------

  function CreatesAmong(sent: seq<Request>): seq<Request> {
    if sent == [] then []
    else
      var last := sent[|sent| - 1];
      CreatesAmong(sent[..|sent| - 1]) + if last.CreateDraftPr? then [last] else []
  }

  /** The create requests of the calls that were approved and not cancelled, in order. */
  function ApprovedCreates(derive: KeyFunction, ops: seq<Op>): seq<Request> {
    if ops == [] then []
    else
      var last := ops[|ops| - 1];
      ApprovedCreates(derive, ops[..|ops| - 1]) + if Sends(last) then [CreateRequest(derive, last.c)] else []
  }

  lemma {:induction false} CreatesSnoc(sent: seq<Request>, q: Request)
    ensures CreatesAmong(sent + [q]) == CreatesAmong(sent) + if q.CreateDraftPr? then [q] else []
  {
    assert (sent + [q])[..|sent|] == sent;
  }

  lemma {:induction false} SendRecords(f: Fixtures, d: Double, timeout: bool, q: Request)
    ensures SendTo(f, d, timeout, q).0.sent == d.sent + [q]
  {
  }

  /** The creates that reached the transport are exactly, and in order, those whose own
      request was answered APPROVED and then not cancelled; each approval sends once. */
  lemma {:induction false} EverySendWasApproved(f: Fixtures, derive: KeyFunction, ops: seq<Op>)
    ensures CreatesAmong(RunOps(f, derive, ops).0.double.sent) == ApprovedCreates(derive, ops)
  {
    hide SendTo;
    if ops != [] {
      var k := |ops| - 1;
      EverySendWasApproved(f, derive, ops[..k]);
      RunStep(f, derive, ops);
      var before := RunOps(f, derive, ops[..k]).0.double;
      var creates := CreatesAmong(before.sent);
      assert creates + [] == creates;
      if ops[k].Read? {
        SendRecords(f, before, ops[k].timeout, ops[k].q);
        CreatesSnoc(before.sent, ops[k].q);
      } else if Sends(ops[k]) {
        SendRecords(f, before, ops[k].timeout, CreateRequest(derive, ops[k].c));
        CreatesSnoc(before.sent, CreateRequest(derive, ops[k].c));
      }
    }
  }

  function AuditsIn(trace: seq<Event>): seq<Audit> {
    if trace == [] then []
    else
      var last := trace[|trace| - 1];
      AuditsIn(trace[..|trace| - 1]) + if last.ArtifactCreated? then [last.audit] else []
  }

  lemma {:induction false} AuditsConcat(a: seq<Event>, b: seq<Event>)
    ensures AuditsIn(a + b) == AuditsIn(a) + AuditsIn(b)
  {
    if b == [] {
      assert a + b == a;
    } else {
      AuditsConcat(a, b[..|b| - 1]);
      assert (a + b)[..|a + b| - 1] == a + b[..|b| - 1];
    }
  }

  /** What the audit of a create call must say of its outcome. */
  function ExpectedAudit(derive: KeyFunction, op: Op, r: Outcome): Audit
    requires op.Prepare?
  {
    var key := KeyOfOp(derive, op);
    if op.decision != Approved then Audit(key, false, RejectedOutcome, None)
    else if op.cancel then Audit(key, true, CancelledOutcome, None)
    else AuditOf(key, r)
  }

  function ExpectedAudits(derive: KeyFunction, ops: seq<Op>, replies: seq<Outcome>): seq<Audit>
    requires |ops| == |replies|
  {
    if ops == [] then []
    else
      var k := |ops| - 1;
      ExpectedAudits(derive, ops[..k], replies[..k])
      + if ops[k].Prepare? then [ExpectedAudit(derive, ops[k], replies[k])] else []
  }

  lemma {:induction false} AuditsOfCall(derive: KeyFunction, op: Op, r: Outcome)
    ensures AuditsIn(CallEvents(derive, op, r)) == if op.Prepare? then [ExpectedAudit(derive, op, r)] else []
  {
    hide AuditsIn, AuditOf;
    FewAudits(CallEvents(derive, op, r));
  }

  lemma {:induction false} CallLeavesOneAudit(f: Fixtures, derive: KeyFunction, p: Platform, op: Op)
    ensures var (p', r) := Perform(f, derive, p, op);
            AuditsIn(p'.trace) == AuditsIn(p.trace) + if op.Prepare? then [ExpectedAudit(derive, op, r)] else []
  {
    hide SendTo, CallEvents, AuditsIn, ExpectedAudit;
    var r := Perform(f, derive, p, op).1;
    AuditsConcat(p.trace, CallEvents(derive, op, r));
    AuditsOfCall(derive, op, r);
  }

  /** In a list that ends with its only audit, or has none. */
  lemma {:induction false} FewAudits(events: seq<Event>)
    ensures (forall i :: 0 <= i < |events| ==> !events[i].ArtifactCreated?) ==> AuditsIn(events) == []
    ensures events != [] && events[|events| - 1].ArtifactCreated?
            && (forall i :: 0 <= i < |events| - 1 ==> !events[i].ArtifactCreated?) ==>
              AuditsIn(events) == [events[|events| - 1].audit]
  {
    if events != [] {
      FewAudits(events[..|events| - 1]);
    }
  }

  lemma {:induction false} AuditsFollowReplies(f: Fixtures, derive: KeyFunction, ops: seq<Op>)
    ensures var (p, replies) := RunOps(f, derive, ops);
            AuditsIn(p.trace) == ExpectedAudits(derive, ops, replies)
  {
    hide Perform;
    if ops != [] {
      var k := |ops| - 1;
      AuditsFollowReplies(f, derive, ops[..k]);
      RunStep(f, derive, ops);
      var (p, replies) := RunOps(f, derive, ops[..k]);
      CallLeavesOneAudit(f, derive, p, ops[k]);
      assert RunOps(f, derive, ops).1[..k] == replies;
    }
  }

  /** Call `j` creates a pull request for the key, unless there is one. */
  ghost predicate CreatesKey(derive: KeyFunction, ops: seq<Op>, j: nat, key: string)
    requires j < |ops|
  {
    && ops[j].Prepare? && ops[j].decision == Approved && !ops[j].cancel && !ops[j].timeout
    && derive(ops[j].c.taskId, ops[j].c.workflowId, ops[j].c.artifactVersion) == key
  }

  ghost predicate KeyCreated(derive: KeyFunction, ops: seq<Op>, key: string) {
    exists j: nat :: j < |ops| && CreatesKey(derive, ops, j, key)
  }

  lemma {:induction false} KeyCreatedSnoc(derive: KeyFunction, ops: seq<Op>, key: string)
    requires ops != []
    ensures KeyCreated(derive, ops, key)
            <==> KeyCreated(derive, ops[..|ops| - 1], key) || CreatesKey(derive, ops, |ops| - 1, key)
  {
    var init := ops[..|ops| - 1];
    if j: nat :| j < |ops| && CreatesKey(derive, ops, j, key) {
      assert j < |init| ==> CreatesKey(derive, init, j, key);
    }
    if j: nat :| j < |init| && CreatesKey(derive, init, j, key) {
      assert CreatesKey(derive, ops, j, key);
    }
  }

  lemma {:induction false} CreatedKeysIff(derive: KeyFunction, ops: seq<Op>, key: string)
    ensures key in CreatedKeys(derive, ops) <==> KeyCreated(derive, ops, key)
  {
    if ops != [] {
      CreatedKeysIff(derive, ops[..|ops| - 1], key);
      KeyCreatedSnoc(derive, ops, key);
    }
  }

  /** What the audit of a create call says, given the calls before it: rejected, cancelled or
      failed as the call went, and of those that went through the first for its key is the one
      that completed. */
  ghost function AuditFor(derive: KeyFunction, before: seq<Op>, op: Op): Audit
    requires op.Prepare?
  {
    var key := derive(op.c.taskId, op.c.workflowId, op.c.artifactVersion);
    if op.decision != Approved then Audit(key, false, RejectedOutcome, None)
    else if op.cancel then Audit(key, true, CancelledOutcome, None)
    else if op.timeout then Audit(key, true, FailedOutcome, None)
    else if KeyCreated(derive, before, key) then Audit(key, true, Deduplicated, Some(200))
    else Audit(key, true, Completed, Some(201))
  }

  ghost function AuditsFor(derive: KeyFunction, ops: seq<Op>): seq<Audit> {
    if ops == [] then []
    else
      var init, op := ops[..|ops| - 1], ops[|ops| - 1];
      AuditsFor(derive, init) + if op.Prepare? then [AuditFor(derive, init, op)] else []
  }

  lemma {:induction false} AuditIsExpected(f: Fixtures, derive: KeyFunction, ops: seq<Op>)
    requires ops != [] && ops[|ops| - 1].Prepare?
    ensures var k := |ops| - 1;
            ExpectedAudit(derive, ops[k], RunOps(f, derive, ops).1[k]) == AuditFor(derive, ops[..k], ops[k])
  {
    hide RunOps, Numbered, CallEvents, KeyCreated;
    var k := |ops| - 1;
    var before, keys := RunOps(f, derive, ops[..k]).0.double, CreatedKeys(derive, ops[..k]);
    ReplyAt(f, derive, ops, k);
    RunIsNumbered(f, derive, ops[..k]);
    var key := KeyOfOp(derive, ops[k]);
    CreatedKeysIff(derive, ops[..k], key);
    var i: nat := |keys|;
    if key in keys {
      i :| 0 <= i < |keys| && keys[i] == key;
    }
    CreateAnswers(f, before, keys, CreateRequest(derive, ops[k].c), i);
  }

  /** Every create call leaves exactly one audit record, in order, and what it says follows from
      the calls alone; reads leave none. */
  lemma {:induction false} EveryCreateIsAuditedOnce(f: Fixtures, derive: KeyFunction, ops: seq<Op>)
    ensures AuditsIn(RunOps(f, derive, ops).0.trace) == AuditsFor(derive, ops)
  {
    hide RunOps, AuditsIn, ExpectedAudit, AuditFor;
    AuditsFollowReplies(f, derive, ops);
    AuditsAreExpected(f, derive, ops);
  }

  lemma {:induction false} AuditsAreExpected(f: Fixtures, derive: KeyFunction, ops: seq<Op>)
    ensures ExpectedAudits(derive, ops, RunOps(f, derive, ops).1) == AuditsFor(derive, ops)
  {
    hide Perform, ExpectedAudit, AuditFor;
    if ops != [] {
      var k := |ops| - 1;
      AuditsAreExpected(f, derive, ops[..k]);
      RunStep(f, derive, ops);
      assert RunOps(f, derive, ops).1[..k] == RunOps(f, derive, ops[..k]).1;
      if ops[k].Prepare? { AuditIsExpected(f, derive, ops); }
    }
  }

  // ---------- What the stored pull requests hold ----------

  /** Call `j` is the first that creates a pull request for the key. */
  ghost predicate FirstCreates(derive: KeyFunction, ops: seq<Op>, j: nat, key: string) {
    j < |ops| && CreatesKey(derive, ops, j, key) && forall k: nat :: k < j ==> !CreatesKey(derive, ops, k, key)
  }

  /** What is stored for a key: an open draft under its number, with the title of the first call
      that created it. */
  ghost predicate StoredFor(derive: KeyFunction, ops: seq<Op>, key: string, pr: PullRequest) {
    && pr.draft && pr.state == "open" && pr.htmlUrl == "https://github.invalid/pull/" + Digits(pr.number)
    && exists j: nat :: FirstCreates(derive, ops, j, key) && pr.title == ops[j].c.title
  }

  lemma {:induction false} StoredStays(derive: KeyFunction, ops: seq<Op>, key: string, pr: PullRequest)
    requires ops != [] && StoredFor(derive, ops[..|ops| - 1], key, pr)
    ensures StoredFor(derive, ops, key, pr)
  {
    var init := ops[..|ops| - 1];
    var j: nat :| FirstCreates(derive, init, j, key) && pr.title == init[j].c.title;
    forall k: nat | k <= j ensures CreatesKey(derive, ops, k, key) <==> CreatesKey(derive, init, k, key) {}
    assert FirstCreates(derive, ops, j, key);
  }

  /** Later calls with a key never change the pull request that the first one made: all that is
      stored is an open draft with the first call's title. */
  lemma {:induction false} StoredIsTheFirst(f: Fixtures, derive: KeyFunction, ops: seq<Op>, key: string)
    requires key in RunOps(f, derive, ops).0.double.prs
    ensures StoredFor(derive, ops, key, RunOps(f, derive, ops).0.double.prs[key])
  {
    hide CallEvents, StoredFor, RunOps;
    if ops == [] {
      NothingStored(f, derive);
      assert false;
    } else {
      var k := |ops| - 1;
      RunStep(f, derive, ops);
      var before := RunOps(f, derive, ops[..k]).0.double;
      if key in before.prs {
        StoredIsTheFirst(f, derive, ops[..k], key);
        StoredStays(derive, ops, key, before.prs[key]);
      } else {
        RunIsNumbered(f, derive, ops[..k]);
        CreatedKeysIff(derive, ops[..k], key);
        StoredAtLast(derive, ops, key, NewPr(before.nextPr, ops[k].c.title));
      }
    }
  }

  lemma {:induction false} StoredAtLast(derive: KeyFunction, ops: seq<Op>, key: string, pr: PullRequest)
    requires ops != [] && CreatesKey(derive, ops, |ops| - 1, key) && !KeyCreated(derive, ops[..|ops| - 1], key)
    requires pr == NewPr(pr.number, ops[|ops| - 1].c.title)
    ensures StoredFor(derive, ops, key, pr)
  {
    var k := |ops| - 1;
    forall j: nat | j < k ensures !CreatesKey(derive, ops, j, key) {
      assert CreatesKey(derive, ops[..k], j, key) <==> CreatesKey(derive, ops, j, key);
    }
    assert FirstCreates(derive, ops, k, key);
  }

  lemma {:induction false} NothingStored(f: Fixtures, derive: KeyFunction)
    ensures RunOps(f, derive, []).0.double.prs == map[]
  {
  }

  // ---------- The trace against the gate's log ----------

  /** The resolutions a trace shows, in order. */
  function ResolutionsIn(trace: seq<Event>): seq<(string, Decision)> {
    if trace == [] then []
    else
      var last := trace[|trace| - 1];
      ResolutionsIn(trace[..|trace| - 1]) + if last.ApprovalResolved? then [(last.key, last.decision)] else []
  }

  lemma {:induction false} ResolutionsConcat(a: seq<Event>, b: seq<Event>)
    ensures ResolutionsIn(a + b) == ResolutionsIn(a) + ResolutionsIn(b)
  {
    if b == [] {
      assert a + b == a;
    } else {
      ResolutionsConcat(a, b[..|b| - 1]);
      assert (a + b)[..|a + b| - 1] == a + b[..|b| - 1];
    }
  }

  lemma {:induction false} NoResolutions(events: seq<Event>)
    requires forall e :: e in events ==> !e.ApprovalResolved?
    ensures ResolutionsIn(events) == []
  {
    if events != [] {
      assert events[|events| - 1] in events;
      NoResolutions(events[..|events| - 1]);
    }
  }

  /** The gate's answer to a create whose transport request is `q`. */
  ghost predicate Answers(derive: KeyFunction, entry: (ApprovalRequest, Decision), q: Request, decision: Decision) {
    exists c :: CreateRequest(derive, c) == q && entry == (ApprovalOf(c), decision)
  }

  /** If event `i` asks the transport for a pull request, the event before it is the APPROVED
      resolution of the same key, and the gate logged that answer to that create's request. */
  ghost predicate Vouched(derive: KeyFunction, p: Platform, i: nat)
    requires i < |p.trace|
  {
    p.trace[i].ToolRequested? && p.trace[i].q.CreateDraftPr? ==>
      var q, n := p.trace[i].q, |ResolutionsIn(p.trace[..i])|;
      && i > 0 && p.trace[i - 1] == ApprovalResolved(KeyOf(q), Approved)
      && 0 < n <= |p.gateLog| && Answers(derive, p.gateLog[n - 1], q, Approved)
  }

  /** Every resolution in the trace is one the gate logged, and no create goes unvouched. */
  ghost predicate AllVouched(derive: KeyFunction, p: Platform) {
    |ResolutionsIn(p.trace)| == |p.gateLog| && forall i: nat :: i < |p.trace| ==> Vouched(derive, p, i)
  }

  lemma {:induction false} ResolutionsOfCall(derive: KeyFunction, op: Op, r: Outcome)
    ensures |ResolutionsIn(CallEvents(derive, op, r))| == if op.Prepare? then 1 else 0
    ensures op.Prepare? ==> |ResolutionsIn(CallEvents(derive, op, r)[..2])| == 1
  {
    hide ResolutionsIn, AuditOf;
    var events := CallEvents(derive, op, r);
    if op.Read? {
      NoResolutions(events);
    } else {
      assert events == events[..2] + events[2..];
      ResolutionsConcat(events[..2], events[2..]);
      NoResolutions(events[2..]);
      FirstTwo(events[..2]);
    }
  }

  lemma {:induction false} FirstTwo(events: seq<Event>)
    requires |events| == 2 && events[0].ApprovalRequested? && events[1].ApprovalResolved?
    ensures |ResolutionsIn(events)| == 1
  {
    assert events[..1][..0] == [];
    assert ResolutionsIn(events[..1]) == [];
  }

  lemma {:induction false} CallIsVouched(f: Fixtures, derive: KeyFunction, p: Platform, op: Op)
    requires AllVouched(derive, p)
    ensures AllVouched(derive, Perform(f, derive, p, op).0)
  {
    hide SendTo, ResolutionsIn, AuditOf, CallEvents;
    var (p', r) := Perform(f, derive, p, op);
    var events := CallEvents(derive, op, r);
    ResolutionsConcat(p.trace, events);
    ResolutionsOfCall(derive, op, r);
    forall i: nat | i < |p'.trace| ensures Vouched(derive, p', i) {
      if i < |p.trace| {
        assert Vouched(derive, p, i) && p'.trace[..i] == p.trace[..i];
      } else {
        NewEventIsVouched(derive, p, op, r, p', i);
      }
    }
  }

  lemma {:induction false} NewEventIsVouched(
      derive: KeyFunction, p: Platform, op: Op, r: Outcome, p': Platform, i: nat)
    requires |ResolutionsIn(p.trace)| == |p.gateLog| && p'.trace == p.trace + CallEvents(derive, op, r)
    requires op.Prepare? ==> p'.gateLog == p.gateLog + [(ApprovalOf(op.c), op.decision)]
    requires |p.trace| <= i < |p'.trace|
    ensures Vouched(derive, p', i)
  {
    hide ResolutionsIn, AuditOf;
    var events, k := CallEvents(derive, op, r), i - |p.trace|;
    assert p'.trace[i] == events[k];
    if op.Prepare? && events[k].ToolRequested? {
      assert k == 2 && op.decision == Approved;
      assert Answers(derive, (ApprovalOf(op.c), Approved), CreateRequest(derive, op.c), Approved);
      assert p'.trace[..i] == p.trace + events[..2];
      ResolutionsConcat(p.trace, events[..2]);
      ResolutionsOfCall(derive, op, r);
      assert p'.trace[i - 1] == events[1];
    }
  }

  /** In any run of the adapter, every create that asks the transport is directly preceded by
      its own APPROVED resolution, and the gate's log holds that answer. */
  lemma {:induction false} EveryRequestIsVouched(f: Fixtures, derive: KeyFunction, ops: seq<Op>)
    ensures AllVouched(derive, RunOps(f, derive, ops).0)
  {
    hide Perform, AllVouched;
    if ops == [] {
      assert AllVouched(derive, Platform(FRESH, [], [])) by { NothingToVouch(derive); }
    } else {
      EveryRequestIsVouched(f, derive, ops[..|ops| - 1]);
      RunStep(f, derive, ops);
      CallIsVouched(f, derive, RunOps(f, derive, ops[..|ops| - 1]).0, ops[|ops| - 1]);
    }
  }

  lemma {:induction false} NothingToVouch(derive: KeyFunction)
    ensures AllVouched(derive, Platform(FRESH, [], []))
  {
  }

  /** The requests of the trace that ask for a pull request, in order. */
  function CreatesRequested(trace: seq<Event>): seq<Request> {
    if trace == [] then []
    else
      var last := trace[|trace| - 1];
      CreatesRequested(trace[..|trace| - 1]) + if last.ToolRequested? && last.q.CreateDraftPr? then [last.q] else []
  }

  lemma {:induction false} RequestedConcat(a: seq<Event>, b: seq<Event>)
    ensures CreatesRequested(a + b) == CreatesRequested(a) + CreatesRequested(b)
  {
    if b == [] {
      assert a + b == a;
    } else {
      RequestedConcat(a, b[..|b| - 1]);
      assert (a + b)[..|a + b| - 1] == a + b[..|b| - 1];
    }
  }

  lemma {:induction false} NoneRequested(events: seq<Event>)
    requires forall e :: e in events ==> !(e.ToolRequested? && e.q.CreateDraftPr?)
    ensures CreatesRequested(events) == []
  {
    if events != [] {
      assert events[|events| - 1] in events;
      NoneRequested(events[..|events| - 1]);
    }
  }

  lemma {:induction false} RequestedByCall(derive: KeyFunction, op: Op, r: Outcome)
    ensures CreatesRequested(CallEvents(derive, op, r)) == if Sends(op) then [CreateRequest(derive, op.c)] else []
  {
    hide CreatesRequested, AuditOf;
    var events := CallEvents(derive, op, r);
    if Sends(op) {
      assert events == (events[..2] + [events[2]]) + events[3..];
      RequestedConcat(events[..2] + [events[2]], events[3..]);
      RequestedConcat(events[..2], [events[2]]);
      NoneRequested(events[..2]);
      NoneRequested(events[3..]);
      OneRequested(events[2]);
    } else {
      NoneRequested(events);
    }
  }

  lemma {:induction false} OneRequested(e: Event)
    requires e.ToolRequested? && e.q.CreateDraftPr?
    ensures CreatesRequested([e]) == [e.q]
  {
    assert [e][..0] == [];
  }

  /** The creates in the trace are, in order, the ones the transport received. */
  lemma {:induction false} TraceShowsEverySend(f: Fixtures, derive: KeyFunction, ops: seq<Op>)
    ensures var p := RunOps(f, derive, ops).0;
            CreatesRequested(p.trace) == CreatesAmong(p.double.sent)
  {
    EverySendWasApproved(f, derive, ops);
    RequestedInRun(f, derive, ops);
  }

  lemma {:induction false} RequestedInRun(f: Fixtures, derive: KeyFunction, ops: seq<Op>)
    ensures CreatesRequested(RunOps(f, derive, ops).0.trace) == ApprovedCreates(derive, ops)
  {
    hide SendTo, CallEvents, CreateRequest, Sends;
    if ops != [] {
      var k := |ops| - 1;
      RequestedInRun(f, derive, ops[..k]);
      RunStep(f, derive, ops);
      var before := RunOps(f, derive, ops[..k]).0;
      var r := Perform(f, derive, before, ops[k]).1;
      RequestedConcat(before.trace, CallEvents(derive, ops[k], r));
      RequestedByCall(derive, ops[k], r);
    }
  }
}
