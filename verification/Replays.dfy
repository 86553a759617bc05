/** The promises of record and replay: the recorded conversation comes back exactly, a
    client that departs from it is stopped at that call, and an injected failure needs its
    specification to replay (models/replay.py, models/scripted.py,
    reliability/injection.py). */
module Replays {
  import opened Adapters
  import opened Conversations
  import opened Dialogues
  import opened Payloads
  import opened Sequences
  import opened Traces

  type ModelClient = Client<ModelRequest, Reply>

  // ---------- Record and replay ----------

  /** No call was refused; one may have met an injected failure. */
  ghost predicate OnlyInjected(calls: seq<ModelCall>) {
    forall i :: 0 <= i < |calls| && calls[i].reply.Raised? ==> calls[i].reply.fault.Injected?
  }

  /** Where a script stands after answering these calls, and where a replay does. */
  function ScriptAfter(steps: seq<ScriptStep>): seq<ModelCall> -> Wrapper<Adapter> {
    calls => Wrapper(Scripted(steps, |Answered(calls)|), |calls|)
  }

  function ReplayAfter(recorded: seq<Interaction>): seq<ModelCall> -> Wrapper<Adapter> {
    calls => Wrapper(Replaying(recorded, |Answered(calls)|), |calls|)
  }

  ghost function RecordedIn(recorded: seq<Interaction>): seq<ModelCall> -> bool {
    calls => OnlyInjected(calls) && Answered(calls) <= recorded
  }

  /** What the wrapper makes of one call: the injected failure, or the inner adapter's reply. */
  lemma {:induction false} CallThrough(spec: Option<InjectionSpec>, a: Adapter, calls: nat, q: ModelRequest)
    ensures AnswerThrough(spec)(Wrapper(a, calls), q)
            == if spec.Some? && spec.value.atCall == calls + 1 then
                 (Wrapper(a, calls + 1), Raised(Injected(spec.value.failure)))
               else
                 (Wrapper(Answer(a, q).0, calls + 1), Answer(a, q).1)
  {
  }

  /** A script and its replay at the same position give the same reply, unless the script
      refuses or the recording holds something else there. */
  lemma {:induction false} ScriptAndReplay(steps: seq<ScriptStep>, recorded: seq<Interaction>, k: nat, q: ModelRequest)
    requires var reply := Answer(Scripted(steps, k), q).1;
             reply.Response? ==>
               k < |recorded| && recorded[k] == Interaction(MessagesPayload(q.messages), reply.response)
    ensures var reply := Answer(Scripted(steps, k), q).1;
            if reply.Response? then
              && Answer(Scripted(steps, k), q).0 == Scripted(steps, k + 1)
              && Answer(Replaying(recorded, k), q) == (Replaying(recorded, k + 1), reply)
            else !reply.fault.Injected?
  {
  }

  /** One call to a script and to its replay, both through the same wrapper. */
  lemma {:induction false} ReplayFollowsCall(
      steps: seq<ScriptStep>, spec: Option<InjectionSpec>, recorded: seq<Interaction>,
      calls: seq<ModelCall>, q: ModelRequest)
    ensures AlikeAt(AnswerThrough(spec), AnswerThrough(spec), ScriptAfter(steps), ReplayAfter(recorded),
                    RecordedIn(recorded), calls, q)
  {
    var k := |Answered(calls)|;
    var call := Call(q, AnswerThrough(spec)(ScriptAfter(steps)(calls), q).1);
    if RecordedIn(recorded)(calls + [call]) {
      AnsweredSnoc(calls, call);
      assert Answered(calls) + [] == Answered(calls);
      assert (calls + [call])[|calls|] == call;
      CallThrough(spec, Scripted(steps, k), |calls|, q);
      CallThrough(spec, Replaying(recorded, k), |calls|, q);
      if call.reply.Response? {
        assert recorded[k] == Answered(calls + [call])[k];
      }
      if spec.Some? && spec.value.atCall == |calls| + 1 {
      } else {
        ScriptAndReplay(steps, recorded, k, q);
      }
    }
  }

  lemma {:induction false} AnsweredPrefix(part: seq<ModelCall>, calls: seq<ModelCall>)
    requires part <= calls
    ensures Answered(part) <= Answered(calls)
  {
    if part == calls {
    } else {
      AnsweredPrefix(part, calls[..|calls| - 1]);
    }
  }

  /** The same client, wired to a replay whose interactions begin with the recorded ones and
      under the same injection, asks the same and hears the same. */
  lemma {:induction false} ReplayFollowsRecording(
      c: ModelClient, steps: seq<ScriptStep>, spec: Option<InjectionSpec>, n: nat, recorded: seq<Interaction>)
    requires var t := Run(AnswerThrough(spec), c, Wrapper(Scripted(steps, 0), 0), n);
             OnlyInjected(t.calls) && Answered(t.calls) <= recorded
    ensures var t := Run(AnswerThrough(spec), c, Wrapper(Scripted(steps, 0), 0), n);
            && t.adapter == ScriptAfter(steps)(t.calls)
            && Run(AnswerThrough(spec), c, Wrapper(Replaying(recorded, 0), 0), n)
               == Transcript(t.calls, ReplayAfter(recorded)(t.calls))
  {
    forall calls, q
      ensures AlikeAt(AnswerThrough(spec), AnswerThrough(spec), ScriptAfter(steps), ReplayAfter(recorded),
                      RecordedIn(recorded), calls, q)
    {
      ReplayFollowsCall(steps, spec, recorded, calls, q);
    }
    forall m: nat | m <= n
      ensures RecordedIn(recorded)(Run(AnswerThrough(spec), c, ScriptAfter(steps)([]), m).calls)
    {
      RunPrefix(AnswerThrough(spec), c, Wrapper(Scripted(steps, 0), 0), m, n);
      AnsweredPrefix(Run(AnswerThrough(spec), c, Wrapper(Scripted(steps, 0), 0), m).calls,
                     Run(AnswerThrough(spec), c, Wrapper(Scripted(steps, 0), 0), n).calls);
    }
    Simulation(AnswerThrough(spec), AnswerThrough(spec), ScriptAfter(steps), ReplayAfter(recorded),
               RecordedIn(recorded), c, n);
  }

  /** The trace of a scripted run, with or without an injected failure, replays to the same
      client under the same specification as the identical conversation, and then holds
      nothing more. */
  lemma {:induction false} RecordedRunReplays(
      c: ModelClient, steps: seq<ScriptStep>, spec: Option<InjectionSpec>, n: nat,
      events: seq<TraceEvent>, name: Naming, next: ModelRequest)
    requires var t := Run(AnswerThrough(spec), c, Wrapper(Scripted(steps, 0), 0), n);
             OnlyInjected(t.calls) && IsTraceOf(events, name, t.calls)
    ensures var t := Run(AnswerThrough(spec), c, Wrapper(Scripted(steps, 0), 0), n);
            var pairs := PairAll(Requests(events), events);
            && pairs.Some?
            && var end := Replaying(pairs.value, |pairs.value|);
               && Run(AnswerThrough(spec), c, Wrapper(Replaying(pairs.value, 0), 0), n)
                  == Transcript(t.calls, Wrapper(end, |t.calls|))
               && Answer(end, next) == (end, Raised(ReplayExhausted))
  {
    var t := Run(AnswerThrough(spec), c, Wrapper(Scripted(steps, 0), 0), n);
    TracePairsToAnswered(events, name, t.calls);
    ReplayFollowsRecording(c, steps, spec, n, Answered(t.calls));
  }

  /** The same for the bare adapters, when the script answered every call. */
  lemma {:induction false} ScriptedRunReplays(
      c: ModelClient, steps: seq<ScriptStep>, n: nat, events: seq<TraceEvent>, name: Naming, next: ModelRequest)
    requires var t := Run(Answer, c, Scripted(steps, 0), n);
             AllAnswered(t.calls) && IsTraceOf(events, name, t.calls)
    ensures var t := Run(Answer, c, Scripted(steps, 0), n);
            var pairs := PairAll(Requests(events), events);
            && pairs.Some?
            && var end := Replaying(pairs.value, |pairs.value|);
               && Run(Answer, c, Replaying(pairs.value, 0), n) == Transcript(t.calls, end)
               && Answer(end, next) == (end, Raised(ReplayExhausted))
  {
    NoSpecIsTransparent(Answer, c, Scripted(steps, 0), n);
    RecordedRunReplays(c, steps, None, n, events, name, next);
    NoSpecIsTransparent(Answer, c, Replaying(PairAll(Requests(events), events).value, 0), n);
  }

  // ---------- A client that departs from the recording ----------

  function ReplayAt(recorded: seq<Interaction>): nat -> Adapter {
    (j: nat) => Replaying(recorded, j)
  }

  /** The messages of call j are the recorded ones. */
  function SameMessages(calls: seq<ModelCall>): (nat, ModelRequest) -> bool {
    (j: nat, q: ModelRequest) =>
      j < |calls| && ComparedMessages(q.messages) == ComparedMessages(calls[j].request.messages)
  }

  /** Call j of a replay: served exactly when its messages are the recorded ones. */
  lemma {:induction false} ReplayOfCall(calls: seq<ModelCall>, j: nat, q: ModelRequest)
    requires AllAnswered(calls) && j < |calls|
    ensures Answer(Replaying(Answered(calls), j), q)
            == if SameMessages(calls)(j, q) then (Replaying(Answered(calls), j + 1), calls[j].reply)
               else (Replaying(Answered(calls), j), Raised(ReplayMismatch))
  {
    AnsweredAt(calls, j);
    PayloadsCompareEqualIff(q.messages, calls[j].request.messages);
  }

  /** A client whose first calls ask what was recorded, message for message, hears what was
      recorded. */
  lemma {:induction false} ReplayServesRecordedPrefix(d: ModelClient, calls: seq<ModelCall>, i: nat)
    requires AllAnswered(calls) && i <= |calls|
    requires AsksAccepted(Answer, Replaying(Answered(calls), 0), SameMessages(calls), d, i)
    ensures var u := Run(Answer, d, Replaying(Answered(calls), 0), i);
            u.adapter == Replaying(Answered(calls), i) && Replies(u.calls) == Replies(calls)[..i]
  {
    forall j: nat, q
      ensures ServesAt(Answer, ReplayAt(Answered(calls)), Replies(calls), SameMessages(calls), j, q)
    {
      if j < |calls| { ReplayOfCall(calls, j, q); }
    }
    Served(Answer, ReplayAt(Answered(calls)), Replies(calls), SameMessages(calls), d, i);
  }

  /** A client that has asked as recorded up to call i is served at that call exactly when
      its messages are the recorded ones; otherwise it gets a mismatch there and the replay
      position stays. Tools, schema and token limit are not compared. */
  lemma {:induction false} DepartureIsCaughtAtItsCall(d: ModelClient, calls: seq<ModelCall>, i: nat, q: ModelRequest)
    requires AllAnswered(calls) && i < |calls|
    requires AsksAccepted(Answer, Replaying(Answered(calls), 0), SameMessages(calls), d, i)
    requires d(Run(Answer, d, Replaying(Answered(calls), 0), i).calls) == Some(q)
    ensures var before := Run(Answer, d, Replaying(Answered(calls), 0), i);
            && Replies(before.calls) == Replies(calls)[..i]
            && Run(Answer, d, Replaying(Answered(calls), 0), i + 1)
               == if ComparedMessages(q.messages) == ComparedMessages(calls[i].request.messages) then
                    Transcript(before.calls + [Call(q, calls[i].reply)], Replaying(Answered(calls), i + 1))
                  else
                    Transcript(before.calls + [Call(q, Raised(ReplayMismatch))], Replaying(Answered(calls), i))
  {
    ReplayServesRecordedPrefix(d, calls, i);
    ReplayOfCall(calls, i, q);
    RunStep(Answer, d, Replaying(Answered(calls), 0), i);
  }

  /** A request that departs only in what is not compared is served the recorded reply: more
      tools, another schema or token limit, or a true where the recording has a one. */
  lemma {:induction false} UncomparedDepartureIsServed(calls: seq<ModelCall>, j: nat, q: ModelRequest)
    requires AllAnswered(calls) && j < |calls|
    requires ComparedMessages(q.messages) == ComparedMessages(calls[j].request.messages)
    ensures Answer(Replaying(Answered(calls), j), q) == (Replaying(Answered(calls), j + 1), calls[j].reply)
    ensures exists other: ModelRequest :: other.messages == q.messages && other != q
    ensures var one, yes := ToolCall("id", "f", map["x" := JNum(1)]), ToolCall("id", "f", map["x" := JBool(true)]);
            && one != yes
            && ComparedMessage(MessageFields("assistant", "", None, [one]))
               == ComparedMessage(MessageFields("assistant", "", None, [yes]))
  {
    ReplayOfCall(calls, j, q);
    var other := q.(maxTokens := q.maxTokens + 1);
    assert other.messages == q.messages && other != q;
    var one, yes := ToolCall("id", "f", map["x" := JNum(1)]), ToolCall("id", "f", map["x" := JBool(true)]);
    assert one.arguments["x"] != yes.arguments["x"];
    assert ComparedCall(one).arguments == map["x" := JNum(1)] == ComparedCall(yes).arguments;
    assert ComparedCalls([one]) == ComparedCalls([yes]);
  }

  /** An interaction as the comparison sees it. */
  function ComparedInteraction(i: Interaction): Interaction {
    Interaction(ComparedAll(i.recordedMessages), i.response)
  }

  function ComparedInteractions(s: seq<Interaction>): (r: seq<Interaction>)
    ensures |r| == |s| && forall k :: 0 <= k < |s| ==> r[k] == ComparedInteraction(s[k])
  {
    seq(|s|, k requires 0 <= k < |s| => ComparedInteraction(s[k]))
  }

  /** A replay that serves a call serves the interaction it stands at. */
  lemma {:induction false} ReplayCall(recorded: seq<Interaction>, k: nat, q: ModelRequest)
    ensures var r := Answer(Replaying(recorded, k), q);
            var served := AnsweredCall(Call(q, r.1));
            if r.1.Response? then
              && k < |recorded| && r.0 == Replaying(recorded, k + 1)
              && |served| == 1 && ComparedInteraction(served[0]) == ComparedInteraction(recorded[k])
            else r.0 == Replaying(recorded, k) && served == []
  {
  }

  ghost function ServedInOrder(recorded: seq<Interaction>): Transcript<Adapter, ModelRequest, Reply> -> bool {
    (u: Transcript<Adapter, ModelRequest, Reply>) =>
      && ComparedInteractions(Answered(u.calls)) <= ComparedInteractions(recorded)
      && u.adapter == Replaying(recorded, |Answered(u.calls)|)
  }

  lemma {:induction false} NothingServed(recorded: seq<Interaction>)
    ensures ComparedInteractions(Answered([])) <= ComparedInteractions(recorded) && Answered([]) == []
  {
  }

  lemma {:induction false} ServedOneMore(recorded: seq<Interaction>, calls: seq<ModelCall>, q: ModelRequest)
    requires ComparedInteractions(Answered(calls)) <= ComparedInteractions(recorded)
    ensures var k := |Answered(calls)|;
            var (a, reply) := Answer(Replaying(recorded, k), q);
            var now := Answered(calls + [Call(q, reply)]);
            a == Replaying(recorded, |now|) && ComparedInteractions(now) <= ComparedInteractions(recorded)
  {
    hide Answer, AnsweredCall, ComparedInteraction, Answered;
    var k := |Answered(calls)|;
    var call := Call(q, Answer(Replaying(recorded, k), q).1);
    ReplayCall(recorded, k, q);
    AnsweredSnoc(calls, call);
    var now := Answered(calls) + AnsweredCall(call);
    forall i | 0 <= i < |now|
      ensures i < |recorded| && ComparedInteraction(now[i]) == ComparedInteraction(recorded[i])
    {
      if i < k { assert ComparedInteractions(Answered(calls))[i] == ComparedInteractions(recorded)[i]; }
    }
  }

  /** Whatever the client asks, in whatever order: what a replay has served is the recording
      up to its position, in order and under messages that compare equal to the recorded. */
  lemma {:induction false} ReplayServesInOrder(d: ModelClient, recorded: seq<Interaction>, n: nat)
    ensures ServedInOrder(recorded)(Run(Answer, d, Replaying(recorded, 0), n))
  {
    hide Answer, ComparedInteractions;
    forall u, q ensures KeptByCall(Answer, ServedInOrder(recorded), u, q) {
      if ServedInOrder(recorded)(u) {
        ServedOneMore(recorded, u.calls, q);
      }
    }
    NothingServed(recorded);
    Maintained(Answer, ServedInOrder(recorded), d, Replaying(recorded, 0), n);
  }

  // ---------- A trace recorded up to an injected failure ----------

  /** A run recorded up to the failure injected at call k leaves k requests and k - 1
      responses. Replayed under the specification it is the same conversation; without it the
      first k - 1 calls are answered as recorded and call k finds the trace exhausted. */
  lemma {:induction false} InjectedTraceNeedsItsSpec(
      c: ModelClient, steps: seq<ScriptStep>, spec: InjectionSpec, events: seq<TraceEvent>, name: Naming)
    requires AsksAt(Answer, c, Scripted(steps, 0), spec.atCall - 1)
    requires AllAnswered(Run(Answer, c, Scripted(steps, 0), spec.atCall - 1).calls)
    requires var t := Run(AnswerThrough(Some(spec)), c, Wrapper(Scripted(steps, 0), 0), spec.atCall);
             IsTraceOf(events, name, t.calls)
    ensures CountType(ModelEvents(events), REQUESTED) == spec.atCall
    ensures CountType(ModelEvents(events), RESPONDED) == spec.atCall - 1
    ensures var pairs := PairAll(Requests(events), events);
            var answered := Run(Answer, c, Scripted(steps, 0), spec.atCall - 1).calls;
            && pairs.Some? && |pairs.value| == spec.atCall - 1
            && Run(AnswerThrough(Some(spec)), c, Wrapper(Replaying(pairs.value, 0), 0), spec.atCall).calls
               == answered + [Call(c(answered).value, Raised(Injected(spec.failure)))]
            && Run(Answer, c, Replaying(pairs.value, 0), spec.atCall).calls
               == answered + [Call(c(answered).value, Raised(ReplayExhausted))]
  {
    hide Run, Answer, Record, Answered, CountType, PairAll, Requests, ModelEvents;
    var k: nat := spec.atCall - 1;
    var s := Run(Answer, c, Scripted(steps, 0), k);
    var last := Call(c(s.calls).value, Raised(Injected(spec.failure)));
    RunUpToInjection(Answer, ToInject(Some(spec)).value, c, Scripted(steps, 0));
    assert Run(AnswerThrough(Some(spec)), c, Wrapper(Scripted(steps, 0), 0), spec.atCall).calls == s.calls + [last];
    TracePairsToAnswered(events, name, s.calls + [last]);
    RaiseLeavesNoResponse(name, s.calls, last);
    TraceCensus(name, s.calls);
    AllAnsweredRaisesNothing(s.calls);
    ReplayWithItsSpec(c, steps, spec, s.calls);
    ReplayWithoutItsSpec(c, steps, k);
  }

  lemma {:induction false} ReplayWithItsSpec(
      c: ModelClient, steps: seq<ScriptStep>, spec: InjectionSpec, answered: seq<ModelCall>)
    requires AllAnswered(answered) && c(answered).Some?
    requires var last := Call(c(answered).value, Raised(Injected(spec.failure)));
             Run(AnswerThrough(Some(spec)), c, Wrapper(Scripted(steps, 0), 0), spec.atCall).calls == answered + [last]
    ensures var last := Call(c(answered).value, Raised(Injected(spec.failure)));
            Run(AnswerThrough(Some(spec)), c, Wrapper(Replaying(Answered(answered), 0), 0), spec.atCall).calls
              == answered + [last]
  {
    var last := Call(c(answered).value, Raised(Injected(spec.failure)));
    AnsweredSnoc(answered, last);
    assert Answered(answered) + [] == Answered(answered);
    ReplayFollowsRecording(c, steps, Some(spec), spec.atCall, Answered(answered));
  }

  lemma {:induction false} ReplayWithoutItsSpec(c: ModelClient, steps: seq<ScriptStep>, k: nat)
    requires AsksAt(Answer, c, Scripted(steps, 0), k) && AllAnswered(Run(Answer, c, Scripted(steps, 0), k).calls)
    ensures var s := Run(Answer, c, Scripted(steps, 0), k);
            Run(Answer, c, Replaying(Answered(s.calls), 0), k + 1).calls
            == s.calls + [Call(c(s.calls).value, Raised(ReplayExhausted))]
  {
    var s := Run(Answer, c, Scripted(steps, 0), k);
    NoSpecIsTransparent(Answer, c, Scripted(steps, 0), k);
    ReplayFollowsRecording(c, steps, None, k, Answered(s.calls));
    NoSpecIsTransparent(Answer, c, Replaying(Answered(s.calls), 0), k);
    RunStep(Answer, c, Replaying(Answered(s.calls), 0), k);
  }
}
