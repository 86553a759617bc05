/** The retry table and the decision it leads to (reliability/policy.py). */
module RetryPolicy {
  import opened Failures
  import opened Sequences

  datatype RetryMode = SameInput | RevisedContext | Replan | FallbackModel | HumanEscalation

  /** `maxAttempts` counts all attempts, the first included; 0 means never retried. */
  datatype RetryRule = RetryRule(mode: RetryMode, maxAttempts: int)

  type Policy = map<FailureClass, RetryRule>

  const DEFAULT_RETRY_POLICY: Policy := map[
    TransientInfrastructure := RetryRule(SameInput, 3),
    ModelProvider := RetryRule(SameInput, 3),
    MalformedOutput := RetryRule(FallbackModel, 2),
    ToolFailure := RetryRule(RevisedContext, 2),
    ContextFailure := RetryRule(RevisedContext, 2),
    PlanningFailure := RetryRule(Replan, 2),
    ImplementationFailure := RetryRule(Replan, 2),
    ValidationFailure := RetryRule(RevisedContext, 2),
    PolicyDenial := RetryRule(HumanEscalation, 0),
    ReviewFailure := RetryRule(HumanEscalation, 0),
    IntegrationConflict := RetryRule(HumanEscalation, 0),
    BudgetExhaustion := RetryRule(HumanEscalation, 0),
    ApprovalTimeout := RetryRule(HumanEscalation, 0),
    InsufficientEvidence := RetryRule(HumanEscalation, 0),
    PersistentUnknown := RetryRule(HumanEscalation, 0)
  ]

  datatype Reason =
    | NoRule(cls: FailureClass)
    | ApprovalChanged
    | DenialNotRetried
    | EscalatesByPolicy(cls: FailureClass)
    | WouldReproduce
    | BudgetUsedUp(attempt: nat, maxAttempts: int)
    | Permitted(mode: RetryMode, next: nat, maxAttempts: int)
    | BreakerOpen(count: nat, boundary: Boundary)

  datatype Action = Retry(next: nat) | Escalate

  datatype RetryDecision = RetryDecision(
    action: Action,
    mode: RetryMode,
    cls: FailureClass,
    boundary: Boundary,
    failedAttempt: nat,
    reason: Reason,
    observedCost: Option<int>
  )

  function Decision(action: Action, mode: RetryMode, c: Classification, attempt: nat, reason: Reason): RetryDecision {
    RetryDecision(action, mode, c.cls, c.boundary, attempt, reason, None)
  }

  /** The six checks, in order; the first that applies decides. */
  function DecideRetry(policy: Policy, c: Classification, attempt: nat, approvalChanged: bool): RetryDecision {
    if c.cls !in policy then Decision(Escalate, HumanEscalation, c, attempt, NoRule(c.cls))
    else
      var rule := policy[c.cls];
      if c.cls == PolicyDenial then
        if approvalChanged then Decision(Retry(attempt + 1), SameInput, c, attempt, ApprovalChanged)
        else Decision(Escalate, HumanEscalation, c, attempt, DenialNotRetried)
      else if rule.mode == HumanEscalation || rule.maxAttempts == 0 then
        Decision(Escalate, HumanEscalation, c, attempt, EscalatesByPolicy(c.cls))
      else if !c.retryable && rule.mode == SameInput then
        Decision(Escalate, HumanEscalation, c, attempt, WouldReproduce)
      else if attempt >= rule.maxAttempts then
        Decision(Escalate, HumanEscalation, c, attempt, BudgetUsedUp(attempt, rule.maxAttempts))
      else
        Decision(Retry(attempt + 1), rule.mode, c, attempt, Permitted(rule.mode, attempt + 1, rule.maxAttempts))
  }

  /** Whatever the table says, a denial is retried only after an approval changed; any other
      class only while attempts are left, never in place of a human, and on the same input
      only when that could succeed. */
  lemma {:induction false} RetriedIff(policy: Policy, c: Classification, attempt: nat, approvalChanged: bool)
    ensures DecideRetry(policy, c, attempt, approvalChanged).action.Retry?
            <==> && c.cls in policy
                 && if c.cls == PolicyDenial then approvalChanged
                    else
                      && attempt < policy[c.cls].maxAttempts
                      && policy[c.cls].maxAttempts != 0
                      && policy[c.cls].mode != HumanEscalation
                      && (policy[c.cls].mode == SameInput ==> c.retryable)
  {
  }

  /** The checks, in the order in which they apply, and what each of them answers. */
  ghost function Checks(policy: Policy, c: Classification, attempt: nat, approvalChanged: bool): (r: seq<bool>)
    ensures |r| == 7
  {
    var rule := if c.cls in policy then policy[c.cls] else RetryRule(HumanEscalation, 0);
    [c.cls !in policy,
     c.cls == PolicyDenial && approvalChanged,
     c.cls == PolicyDenial && !approvalChanged,
     rule.mode == HumanEscalation || rule.maxAttempts == 0,
     rule.mode == SameInput && !c.retryable,
     attempt >= rule.maxAttempts,
     true]
  }

  ghost function Reasons(policy: Policy, c: Classification, attempt: nat): (r: seq<Reason>)
    ensures |r| == 7
  {
    var rule := if c.cls in policy then policy[c.cls] else RetryRule(HumanEscalation, 0);
    [NoRule(c.cls), ApprovalChanged, DenialNotRetried, EscalatesByPolicy(c.cls), WouldReproduce,
     BudgetUsedUp(attempt, rule.maxAttempts), Permitted(rule.mode, attempt + 1, rule.maxAttempts)]
  }

  /** The first check that applies gives the reason; a retry is of the next attempt and in the
      table's mode, on the same input after a changed approval, and anything else goes to a human. */
  lemma {:induction false} FirstCheckDecides(
      policy: Policy, c: Classification, attempt: nat, approvalChanged: bool, k: nat)
    requires k < 7 && Checks(policy, c, attempt, approvalChanged)[k]
    requires forall j :: 0 <= j < k ==> !Checks(policy, c, attempt, approvalChanged)[j]
    ensures var d := DecideRetry(policy, c, attempt, approvalChanged);
            && d.reason == Reasons(policy, c, attempt)[k]
            && d.action == (if k in {1, 6} then Retry(attempt + 1) else Escalate)
            && d.mode == (if k == 6 then policy[c.cls].mode else if k == 1 then SameInput else HumanEscalation)
            && d.cls == c.cls && d.boundary == c.boundary && d.failedAttempt == attempt && d.observedCost == None
  {
    var given := Checks(policy, c, attempt, approvalChanged);
    assert k > 0 ==> !given[0];
    assert k > 1 ==> !given[1];
    assert k > 2 ==> !given[2];
    assert k > 3 ==> !given[3];
    assert k > 4 ==> !given[4];
    assert k > 5 ==> !given[5];
  }

  /** How many attempts classification and default table together give an exception: transient
      faults three, tool and worker errors two, the state store and the unknown none. */
  lemma {:induction false} DefaultCrashAttempts(e: Exception, attempt: nat)
    ensures var attempts :=
              if ModelTimeoutError in e.types then 3
              else if ProviderError in e.types then if e.retryable then 3 else 0
              else if ToolError in e.types then 2
              else if SandboxError in e.types then 3
              else if StateSchemaError in e.types || StateStoreError in e.types then 0
              else if WorkerError in e.types then 2
              else if OSError in e.types then 3
              else 0;
            var decision := DecideRetry(DEFAULT_RETRY_POLICY, ClassifyException(e), attempt, false);
            decision.action.Retry? <==> attempt < attempts
  {
    RetriedIff(DEFAULT_RETRY_POLICY, ClassifyException(e), attempt, false);
  }
}
