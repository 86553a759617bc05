/** The model adapters a run can be wired to: a script (models/scripted.py), the replay of a
    trace (models/replay.py), and the wrapper that injects a provider failure at one call
    (reliability/injection.py). */
module Adapters {
  import opened Dialogues
  import opened Payloads
  import opened Sequences
  import opened Traces

  datatype FailureKind = ModelTimeout | ProviderErrorRetryable | ProviderErrorPermanent

  datatype Fault =
    | ScriptExhausted
    | ScriptMismatch
    | ReplayExhausted
    | ReplayMismatch
    | Injected(kind: FailureKind)

  datatype Reply = Response(response: ModelResponse) | Raised(fault: Fault)

  datatype ScriptStep = ScriptStep(response: ModelResponse, expectSubstring: Option<string>)

  /** The state of a scripted or replaying adapter. */
  datatype Adapter =
    | Scripted(steps: seq<ScriptStep>, position: nat)
    | Replaying(interactions: seq<Interaction>, position: nat)

  function LastContent(q: ModelRequest): string {
    if q.messages == [] then "" else q.messages[|q.messages| - 1].content
  }

  function CompleteScripted(steps: seq<ScriptStep>, position: nat, q: ModelRequest): Reply {
    if position >= |steps| then Raised(ScriptExhausted)
    else if steps[position].expectSubstring.Some?
      && !Occurs(steps[position].expectSubstring.value, LastContent(q)) then
      Raised(ScriptMismatch)
    else Response(steps[position].response)
  }

  function CompleteReplay(interactions: seq<Interaction>, position: nat, q: ModelRequest): Reply {
    if position >= |interactions| then Raised(ReplayExhausted)
    else if ComparedAll(MessagesPayload(q.messages)) != ComparedAll(interactions[position].recordedMessages) then
      Raised(ReplayMismatch)
    else Response(interactions[position].response)
  }

  /** One call: the adapter afterwards and what the caller gets. A refusal leaves the
      script or replay position where it was. */
  function Answer(a: Adapter, q: ModelRequest): (Adapter, Reply) {
    match a
    case Scripted(steps, position) =>
      var r := CompleteScripted(steps, position, q);
      (if r.Response? then Scripted(steps, position + 1) else a, r)
    case Replaying(interactions, position) =>
      var r := CompleteReplay(interactions, position, q);
      (if r.Response? then Replaying(interactions, position + 1) else a, r)
  }

  /** The last message's content, nothing when there is none, holds the text a step expects. */
  ghost predicate Expected(step: ScriptStep, q: ModelRequest) {
    step.expectSubstring.Some? ==>
      exists pre, post ::
        (if q.messages == [] then "" else q.messages[|q.messages| - 1].content)
        == pre + step.expectSubstring.value + post
  }

  /** A script answers with the step it has come to as long as there is one and the request
      meets its expectation; a mismatch is told from a script that is used up, and only an
      answer moves the script on. */
  lemma {:induction false} ScriptAnswers(steps: seq<ScriptStep>, position: nat, q: ModelRequest)
    ensures var (a, r) := Answer(Scripted(steps, position), q);
            && (r == Raised(ScriptExhausted) <==> position >= |steps|)
            && (r == Raised(ScriptMismatch) <==> position < |steps| && !Expected(steps[position], q))
            && (position < |steps| && Expected(steps[position], q) ==> r == Response(steps[position].response))
            && a == Scripted(steps, if r.Response? then position + 1 else position)
  {
    hide Occurs;
    if position < |steps| && steps[position].expectSubstring.Some? {
      OccursIff(steps[position].expectSubstring.value, LastContent(q));
    }
  }

  datatype InjectionSpec = InjectionSpec(atCall: CallNumber, failure: FailureKind)

  /** The injection a specification configures: the call raises its provider failure. */
  function ToInject(spec: Option<InjectionSpec>): Option<Injection<Reply>> {
    if spec.None? then None else Some(Injection(spec.value.atCall, Raised(Injected(spec.value.failure))))
  }

  /** One call through the injection wrapper. */
  function AnswerThrough(spec: Option<InjectionSpec>): (Wrapper<Adapter>, ModelRequest) -> (Wrapper<Adapter>, Reply) {
    Through(Answer, ToInject(spec))
  }

  class ScriptedAdapter {
    const steps: seq<ScriptStep>
    var position: nat

    constructor (steps: seq<ScriptStep>)
      ensures State() == Scripted(steps, 0)
    {
      this.steps, position := steps, 0;
    }

    function State(): Adapter
      reads this
    {
      Scripted(steps, position)
    }

    method Complete(request: ModelRequest) returns (reply: Reply)
      modifies this
      ensures (State(), reply) == Answer(old(State()), request)
    {
      hide Occurs;
      if position >= |steps| { return Raised(ScriptExhausted); }
      var step := steps[position];
      if step.expectSubstring.Some? {
        var last := if request.messages != [] then request.messages[|request.messages| - 1].content else "";
        if !Occurs(step.expectSubstring.value, last) { return Raised(ScriptMismatch); }
      }
      position := position + 1;
      return Response(step.response);
    }
  }

  class ReplayAdapter {
    const interactions: seq<Interaction>
    var position: nat

    constructor (interactions: seq<Interaction>)
      ensures State() == Replaying(interactions, 0)
    {
      this.interactions, position := interactions, 0;
    }

    function State(): Adapter
      reads this
    {
      Replaying(interactions, position)
    }

    method Complete(request: ModelRequest) returns (reply: Reply)
      modifies this
      ensures (State(), reply) == Answer(old(State()), request)
    {
      hide ComparedAll, MessagesPayload;
      if position >= |interactions| { return Raised(ReplayExhausted); }
      var interaction := interactions[position];
      var incoming := MessagesToPayload(request.messages);
      if ComparedAll(incoming) != ComparedAll(interaction.recordedMessages) { return Raised(ReplayMismatch); }
      position := position + 1;
      return Response(interaction.response);
    }
  }

  /** The adapter a wrapper was built around. */
  datatype Wrapped = OverScript(script: ScriptedAdapter) | OverReplay(replay: ReplayAdapter)

  class FailureInjectionAdapter {
    const inner: Wrapped
    const spec: Option<InjectionSpec>
    var calls: nat

    constructor (inner: Wrapped, spec: Option<InjectionSpec>)
      ensures this.inner == inner && this.spec == spec && calls == 0
    {
      this.inner, this.spec, calls := inner, spec, 0;
    }

    function InnerObject(): object {
      match inner case OverScript(s) => s case OverReplay(r) => r
    }

    function State(): Wrapper<Adapter>
      reads this, InnerObject()
    {
      Wrapper(match inner case OverScript(s) => s.State() case OverReplay(r) => r.State(), calls)
    }

    method Complete(request: ModelRequest) returns (reply: Reply)
      modifies this, InnerObject()
      ensures (State(), reply) == AnswerThrough(spec)(old(State()), request)
    {
      calls := calls + 1;
      if spec.Some? && spec.value.atCall == calls {
        return Raised(Injected(spec.value.failure));
      }
      match inner {
        case OverScript(s) => reply := s.Complete(request);
        case OverReplay(r) => reply := r.Complete(request);
      }
    }
  }
}
