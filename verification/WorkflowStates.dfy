/** One workflow's explicit, versioned state and its serialized form
    (workflows/state.py). */
module WorkflowStates {
  import opened Payloads
  import opened Sequences

  const SCHEMA_VERSION := "1"

  datatype WorkflowStatus = Pending | Running | AwaitingApproval | Completed | Failed | Cancelled | Escalated

  datatype TaskRef = TaskRef(taskId: string, specificationArtifactId: Option<string>)

  datatype StatusBlock = StatusBlock(state: WorkflowStatus, currentStage: string, terminationReason: Option<string>)

  datatype PoliciesBlock = PoliciesBlock(terminationPolicy: string, approvalPolicy: string)

  datatype ArtifactsBlock = ArtifactsBlock(
    plan: Option<string>,
    patches: seq<string>,
    validationReports: seq<string>,
    reviewFindings: seq<string>,
    consolidatedReview: Option<string>,
    pullRequest: Option<string>
  )

  datatype WorkerInvocation = WorkerInvocation(runId: string, workerType: string, stage: string, status: string)

  datatype BudgetsBlock = BudgetsBlock(
    monetaryUsed: int,
    tokenUsed: int,
    elapsedSeconds: int,
    workerCount: int,
    retryCount: int
  )

  datatype ApprovalRecord = ApprovalRecord(action: string, stage: string, decision: string)

  datatype FailureEvent = FailureEvent(stage: string, reason: string)

  datatype WorkflowState = WorkflowState(
    workflowId: string,
    workflowType: string,
    workflowVersion: string,
    task: TaskRef,
    status: StatusBlock,
    policies: PoliciesBlock,
    artifacts: ArtifactsBlock,
    invocations: seq<WorkerInvocation>,
    budgets: BudgetsBlock,
    pending: seq<ApprovalRecord>,
    resolved: seq<ApprovalRecord>,
    failures: seq<FailureEvent>,
    latestCheckpoint: Option<string>,
    schemaVersion: string
  )

  // ---------- Encoding ----------

  function OptionalPayload(o: Option<string>): Json {
    if o.Some? then JStr(o.value) else JNull
  }

  function StatusName(s: WorkflowStatus): string {
    match s
    case Pending => "pending"
    case Running => "running"
    case AwaitingApproval => "awaiting_approval"
    case Completed => "completed"
    case Failed => "failed"
    case Cancelled => "cancelled"
    case Escalated => "escalated"
  }

  function TaskPayload(t: TaskRef): Json {
    JObj(map["task_id" := JStr(t.taskId), "specification_artifact_id" := OptionalPayload(t.specificationArtifactId)])
  }

  function StatusPayload(s: StatusBlock): Json {
    JObj(map["state" := JStr(StatusName(s.state)), "current_stage" := JStr(s.currentStage),
             "termination_reason" := OptionalPayload(s.terminationReason)])
  }

  function PoliciesPayload(p: PoliciesBlock): Json {
    JObj(map["termination_policy" := JStr(p.terminationPolicy), "approval_policy" := JStr(p.approvalPolicy)])
  }

  function ArtifactsPayload(a: ArtifactsBlock): Json {
    JObj(map["plan" := OptionalPayload(a.plan), "patches" := JArr(StringsPayload(a.patches)),
             "validation_reports" := JArr(StringsPayload(a.validationReports)),
             "review_findings" := JArr(StringsPayload(a.reviewFindings)),
             "consolidated_review" := OptionalPayload(a.consolidatedReview),
             "pull_request" := OptionalPayload(a.pullRequest)])
  }

  function InvocationPayload(w: WorkerInvocation): Json {
    JObj(map["run_id" := JStr(w.runId), "worker_type" := JStr(w.workerType),
             "stage" := JStr(w.stage), "status" := JStr(w.status)])
  }

  function BudgetsPayload(b: BudgetsBlock): Json {
    JObj(map["monetary_used" := JNum(b.monetaryUsed), "token_used" := JNum(b.tokenUsed),
             "elapsed_seconds" := JNum(b.elapsedSeconds), "worker_count" := JNum(b.workerCount),
             "retry_count" := JNum(b.retryCount)])
  }

  function ApprovalPayload(r: ApprovalRecord): Json {
    JObj(map["action" := JStr(r.action), "stage" := JStr(r.stage), "decision" := JStr(r.decision)])
  }

  function FailurePayload(e: FailureEvent): Json {
    JObj(map["stage" := JStr(e.stage), "reason" := JStr(e.reason)])
  }

  function EncodeAll<T>(encode: T -> Json, values: seq<T>): (r: seq<Json>)
    ensures |r| == |values| && forall i :: 0 <= i < |r| ==> r[i] == encode(values[i])
  {
    seq(|values|, i requires 0 <= i < |values| => encode(values[i]))
  }

  /** All blocks but the schema version. */
  function BlockFields(s: WorkflowState): map<string, Json> {
    map["workflow_id" := JStr(s.workflowId),
        "workflow_type" := JStr(s.workflowType),
        "workflow_version" := JStr(s.workflowVersion),
        "task" := TaskPayload(s.task),
        "status" := StatusPayload(s.status),
        "policies" := PoliciesPayload(s.policies),
        "artifacts" := ArtifactsPayload(s.artifacts),
        "workers" := JObj(map["invocations" := JArr(EncodeAll(InvocationPayload, s.invocations))]),
        "budgets" := BudgetsPayload(s.budgets),
        "approvals" := JObj(map["pending" := JArr(EncodeAll(ApprovalPayload, s.pending)),
                                "resolved" := JArr(EncodeAll(ApprovalPayload, s.resolved))]),
        "failures" := JObj(map["events" := JArr(EncodeAll(FailurePayload, s.failures))]),
        "checkpoints" := JObj(map["latest" := OptionalPayload(s.latestCheckpoint)])]
  }

  function ToPayload(s: WorkflowState): Json {
    JObj(BlockFields(s)["schema_version" := JStr(s.schemaVersion)])
  }

  // ---------- Decoding ----------

  function Within(j: Option<Json>, key: string): Option<Json> {
    if j.Some? then Field(j.value, key) else None
  }

  function WithinOr(j: Option<Json>, key: string, default: Json): Option<Json> {
    if j.Some? then FieldOr(j.value, key, default) else None
  }

  function StringFrom(j: Json): Option<string> {
    if j.JStr? then Some(j.s) else None
  }

  function ListFrom<T>(decode: Json -> Option<T>, j: Option<Json>): Option<seq<T>> {
    var items := Items(j);
    if items.None? then None else DecodeAll(decode, items.value)
  }

  function StatusFromName(name: Option<string>): Option<WorkflowStatus> {
    match name
    case Some("pending") => Some(Pending)
    case Some("running") => Some(Running)
    case Some("awaiting_approval") => Some(AwaitingApproval)
    case Some("completed") => Some(Completed)
    case Some("failed") => Some(Failed)
    case Some("cancelled") => Some(Cancelled)
    case Some("escalated") => Some(Escalated)
    case _ => None
  }

  function TaskFrom(j: Option<Json>): Option<TaskRef> {
    var id, spec := Text(Within(j, "task_id")), OptionalText(WithinOr(j, "specification_artifact_id", JNull));
    if id.Some? && spec.Some? then Some(TaskRef(id.value, spec.value)) else None
  }

  function StatusFrom(j: Option<Json>): Option<StatusBlock> {
    var state, stage := StatusFromName(Text(Within(j, "state"))), Text(Within(j, "current_stage"));
    var reason := OptionalText(WithinOr(j, "termination_reason", JNull));
    if state.Some? && stage.Some? && reason.Some? then
      Some(StatusBlock(state.value, stage.value, reason.value))
    else None
  }

  function PoliciesFrom(j: Option<Json>): Option<PoliciesBlock> {
    var t, a := Text(Within(j, "termination_policy")), Text(Within(j, "approval_policy"));
    if t.Some? && a.Some? then Some(PoliciesBlock(t.value, a.value)) else None
  }

  function ArtifactsFrom(j: Option<Json>): Option<ArtifactsBlock> {
    var plan := OptionalText(WithinOr(j, "plan", JNull));
    var review := OptionalText(WithinOr(j, "consolidated_review", JNull));
    var pull := OptionalText(WithinOr(j, "pull_request", JNull));
    var patches := ListFrom(StringFrom, WithinOr(j, "patches", JArr([])));
    var reports := ListFrom(StringFrom, WithinOr(j, "validation_reports", JArr([])));
    var findings := ListFrom(StringFrom, WithinOr(j, "review_findings", JArr([])));
    if plan.Some? && review.Some? && pull.Some? && patches.Some? && reports.Some? && findings.Some? then
      Some(ArtifactsBlock(plan.value, patches.value, reports.value, findings.value, review.value, pull.value))
    else None
  }

  function InvocationFrom(j: Json): Option<WorkerInvocation> {
    var id, kind := Text(Field(j, "run_id")), Text(Field(j, "worker_type"));
    var stage, status := Text(Field(j, "stage")), Text(Field(j, "status"));
    if id.Some? && kind.Some? && stage.Some? && status.Some? then
      Some(WorkerInvocation(id.value, kind.value, stage.value, status.value))
    else None
  }

  function BudgetsFrom(j: Option<Json>): Option<BudgetsBlock> {
    var money, tokens := Number(Within(j, "monetary_used")), Number(Within(j, "token_used"));
    var seconds := Number(Within(j, "elapsed_seconds"));
    var workers, retries := Number(Within(j, "worker_count")), Number(Within(j, "retry_count"));
    if money.Some? && tokens.Some? && seconds.Some? && workers.Some? && retries.Some? then
      Some(BudgetsBlock(money.value, tokens.value, seconds.value, workers.value, retries.value))
    else None
  }

  function ApprovalFrom(j: Json): Option<ApprovalRecord> {
    var action, stage, decision := Text(Field(j, "action")), Text(Field(j, "stage")), Text(Field(j, "decision"));
    if action.Some? && stage.Some? && decision.Some? then
      Some(ApprovalRecord(action.value, stage.value, decision.value))
    else None
  }

  function FailureFrom(j: Json): Option<FailureEvent> {
    var stage, reason := Text(Field(j, "stage")), Text(Field(j, "reason"));
    if stage.Some? && reason.Some? then Some(FailureEvent(stage.value, reason.value)) else None
  }

  datatype LoadError = SchemaMismatch | Malformed

  /** The version check compares text, so the number 1 passes too. */
  predicate SchemaMatches(j: Json) {
    var version := FieldOr(j, "schema_version", JNull);
    version == Some(JStr(SCHEMA_VERSION)) || version == Some(JNum(1))
  }

  function Blocks(j: Json): Option<WorkflowState> {
    var id, kind := Text(Field(j, "workflow_id")), Text(Field(j, "workflow_type"));
    var version, task := Text(Field(j, "workflow_version")), TaskFrom(Field(j, "task"));
    var status, policies := StatusFrom(Field(j, "status")), PoliciesFrom(Field(j, "policies"));
    var artifacts, budgets := ArtifactsFrom(Field(j, "artifacts")), BudgetsFrom(Field(j, "budgets"));
    var invocations := ListFrom(InvocationFrom, WithinOr(Field(j, "workers"), "invocations", JArr([])));
    var pending := ListFrom(ApprovalFrom, WithinOr(Field(j, "approvals"), "pending", JArr([])));
    var resolved := ListFrom(ApprovalFrom, WithinOr(Field(j, "approvals"), "resolved", JArr([])));
    var failures := ListFrom(FailureFrom, WithinOr(Field(j, "failures"), "events", JArr([])));
    var latest := OptionalText(WithinOr(Field(j, "checkpoints"), "latest", JNull));
    if id.Some? && kind.Some? && version.Some? && task.Some? && status.Some? && policies.Some? && artifacts.Some?
       && budgets.Some? && invocations.Some? && pending.Some? && resolved.Some? && failures.Some? && latest.Some? then
      Some(WorkflowState(id.value, kind.value, version.value, task.value, status.value, policies.value, artifacts.value,
                         invocations.value, budgets.value, pending.value, resolved.value, failures.value, latest.value,
                         SCHEMA_VERSION))
    else None
  }

  function FromPayload(j: Json): Result<WorkflowState, LoadError> {
    if !SchemaMatches(j) then Err(SchemaMismatch)
    else
      var s := Blocks(j);
      if s.Some? then Ok(s.value) else Err(Malformed)
  }

  // ---------- The round trip ----------

  lemma {:induction false} ListRoundTrip<T>(encode: T -> Json, decode: Json -> Option<T>, values: seq<T>)
    requires forall v :: decode(encode(v)) == Some(v)
    ensures ListFrom(decode, Some(JArr(EncodeAll(encode, values)))) == Some(values)
  {
    DecodeAllInverts(decode, EncodeAll(encode, values), values);
  }

  lemma {:induction false} StringsRoundTrip(values: seq<string>)
    ensures ListFrom(StringFrom, Some(JArr(StringsPayload(values)))) == Some(values)
  {
    DecodeAllInverts(StringFrom, StringsPayload(values), values);
  }

  lemma {:induction false} TaskRoundTrip(t: TaskRef)
    ensures TaskFrom(Some(TaskPayload(t))) == Some(t)
  {
  }

  lemma {:induction false} StatusRoundTrip(s: StatusBlock)
    ensures StatusFrom(Some(StatusPayload(s))) == Some(s)
  {
    assert StatusFromName(Some(StatusName(s.state))) == Some(s.state);
  }

  lemma {:induction false} PoliciesRoundTrip(p: PoliciesBlock)
    ensures PoliciesFrom(Some(PoliciesPayload(p))) == Some(p)
  {
  }

  lemma {:induction false} ArtifactsRoundTrip(a: ArtifactsBlock)
    ensures ArtifactsFrom(Some(ArtifactsPayload(a))) == Some(a)
  {
    StringsRoundTrip(a.patches);
    StringsRoundTrip(a.validationReports);
    StringsRoundTrip(a.reviewFindings);
    var j := Some(ArtifactsPayload(a));
    hide ListFrom;
    assert WithinOr(j, "patches", JArr([])) == Some(JArr(StringsPayload(a.patches)));
    assert WithinOr(j, "validation_reports", JArr([])) == Some(JArr(StringsPayload(a.validationReports)));
    assert WithinOr(j, "review_findings", JArr([])) == Some(JArr(StringsPayload(a.reviewFindings)));
  }

  lemma {:induction false} BudgetsRoundTrip(b: BudgetsBlock)
    ensures BudgetsFrom(Some(BudgetsPayload(b))) == Some(b)
  {
  }

  lemma {:induction false} InvocationsRoundTrip(ws: seq<WorkerInvocation>)
    ensures ListFrom(InvocationFrom, Some(JArr(EncodeAll(InvocationPayload, ws)))) == Some(ws)
  {
    forall w ensures InvocationFrom(InvocationPayload(w)) == Some(w) {}
    ListRoundTrip(InvocationPayload, InvocationFrom, ws);
  }

  lemma {:induction false} ApprovalsRoundTrip(rs: seq<ApprovalRecord>)
    ensures ListFrom(ApprovalFrom, Some(JArr(EncodeAll(ApprovalPayload, rs)))) == Some(rs)
  {
    forall r ensures ApprovalFrom(ApprovalPayload(r)) == Some(r) {}
    ListRoundTrip(ApprovalPayload, ApprovalFrom, rs);
  }

  lemma {:induction false} FailuresRoundTrip(es: seq<FailureEvent>)
    ensures ListFrom(FailureFrom, Some(JArr(EncodeAll(FailurePayload, es)))) == Some(es)
  {
    forall e ensures FailureFrom(FailurePayload(e)) == Some(e) {}
    ListRoundTrip(FailurePayload, FailureFrom, es);
  }

  /** Each block is found under its own key. */
  lemma {:induction false} TopFields(s: WorkflowState)
    ensures var j := ToPayload(s);
            && Field(j, "workflow_id") == Some(JStr(s.workflowId))
            && Field(j, "workflow_type") == Some(JStr(s.workflowType))
            && Field(j, "workflow_version") == Some(JStr(s.workflowVersion))
            && Field(j, "task") == Some(TaskPayload(s.task))
            && Field(j, "status") == Some(StatusPayload(s.status))
            && Field(j, "policies") == Some(PoliciesPayload(s.policies))
            && Field(j, "artifacts") == Some(ArtifactsPayload(s.artifacts))
            && Field(j, "budgets") == Some(BudgetsPayload(s.budgets))
  {
    hide TaskPayload, StatusPayload, PoliciesPayload, ArtifactsPayload, BudgetsPayload, EncodeAll;
  }

  lemma {:induction false} NestedFields(s: WorkflowState)
    ensures var j := ToPayload(s);
            && WithinOr(Field(j, "workers"), "invocations", JArr([]))
              == Some(JArr(EncodeAll(InvocationPayload, s.invocations)))
            && WithinOr(Field(j, "approvals"), "pending", JArr([])) == Some(JArr(EncodeAll(ApprovalPayload, s.pending)))
            && WithinOr(Field(j, "approvals"), "resolved", JArr([]))
              == Some(JArr(EncodeAll(ApprovalPayload, s.resolved)))
            && WithinOr(Field(j, "failures"), "events", JArr([])) == Some(JArr(EncodeAll(FailurePayload, s.failures)))
            && OptionalText(WithinOr(Field(j, "checkpoints"), "latest", JNull)) == Some(s.latestCheckpoint)
  {
    hide TaskPayload, StatusPayload, PoliciesPayload, ArtifactsPayload, BudgetsPayload, EncodeAll;
  }

  lemma {:induction false} BlocksRoundTrip(s: WorkflowState)
    ensures Blocks(ToPayload(s)) == Some(s.(schemaVersion := SCHEMA_VERSION))
  {
    TopFields(s);
    NestedFields(s);
    TaskRoundTrip(s.task);
    StatusRoundTrip(s.status);
    PoliciesRoundTrip(s.policies);
    ArtifactsRoundTrip(s.artifacts);
    BudgetsRoundTrip(s.budgets);
    InvocationsRoundTrip(s.invocations);
    ApprovalsRoundTrip(s.pending);
    ApprovalsRoundTrip(s.resolved);
    FailuresRoundTrip(s.failures);
    hide ToPayload, Field, WithinOr, OptionalText, TaskFrom, TaskPayload, StatusFrom, StatusPayload, PoliciesFrom,
      PoliciesPayload, ArtifactsFrom, ArtifactsPayload, BudgetsFrom, BudgetsPayload, ListFrom, EncodeAll;
  }

  /** A state written under the expected schema version reads back exactly as it was; one
      written under any other is refused for its version. */
  lemma {:induction false} StateRoundTrip(s: WorkflowState)
    ensures FromPayload(ToPayload(s)) == if s.schemaVersion == SCHEMA_VERSION then Ok(s) else Err(SchemaMismatch)
  {
    hide Blocks;
    BlocksRoundTrip(s);
  }
}
