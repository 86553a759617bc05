/** What a conversation leaves in its trace, and what pairing reads back out of it
    (models/replay.py, docs/trace-events.md). */
module Conversations {
  import opened Adapters
  import opened Dialogues
  import opened Payloads
  import opened Sequences
  import opened Traces

  type ModelCall = Call<ModelRequest, Reply>

  // ---------- Recording ----------

  /** The ids a recorder gives out, whatever they are; no two are the same. */
  type Naming = nat -> string

  ghost predicate NamesDiffer(name: Naming) {
    forall i, j :: name(i) == name(j) ==> i == j
  }

  function RequestEvent(name: Naming, i: nat, q: ModelRequest): TraceEvent {
    TraceEvent(name(2 * i), REQUESTED, None, JObj(map["request" := RequestPayload(q)]))
  }

  function ResponseEvent(name: Naming, i: nat, r: ModelResponse): TraceEvent {
    TraceEvent(name(2 * i + 1), RESPONDED, Some(name(2 * i)), JObj(map["response" := ResponsePayload(r)]))
  }

  function RecordCall(name: Naming, trace: seq<TraceEvent>, i: nat, call: ModelCall): seq<TraceEvent> {
    var asked := trace + [RequestEvent(name, i, call.request)];
    if call.reply.Response? then asked + [ResponseEvent(name, i, call.reply.response)] else asked
  }

  /** The model events of calls: a request event each, and a response event for each call
      that did not raise. */
  function Record(name: Naming, calls: seq<ModelCall>): seq<TraceEvent> {
    if calls == [] then []
    else
      var i := |calls| - 1;
      RecordCall(name, Record(name, calls[..i]), i, calls[i])
  }

  /** What pairing should recover of a call. */
  function AnsweredCall(call: ModelCall): seq<Interaction> {
    if call.reply.Response? then [Interaction(MessagesPayload(call.request.messages), call.reply.response)] else []
  }

  /** The answered calls, in order. */
  function Answered(calls: seq<ModelCall>): seq<Interaction> {
    if calls == [] then [] else Answered(calls[..|calls| - 1]) + AnsweredCall(calls[|calls| - 1])
  }

  lemma {:induction false} AnsweredSnoc(calls: seq<ModelCall>, call: ModelCall)
    ensures Answered(calls + [call]) == Answered(calls) + AnsweredCall(call)
  {
    assert (calls + [call])[..|calls|] == calls;
  }

  /** The calls that raised. */
  function Raises(calls: seq<ModelCall>): nat {
    if calls == [] then 0 else Raises(calls[..|calls| - 1]) + if calls[|calls| - 1].reply.Raised? then 1 else 0
  }

  function CountType(events: seq<TraceEvent>, eventType: string): nat {
    if events == [] then 0
    else CountType(events[..|events| - 1], eventType) + if events[|events| - 1].eventType == eventType then 1 else 0
  }

  // ---------- Pairing reads the answered calls back ----------

  lemma {:induction false} RequestsOfCall(name: Naming, trace: seq<TraceEvent>, i: nat, call: ModelCall)
    ensures Requests(RecordCall(name, trace, i, call))
            == Requests(trace)[name(2 * i) := RequestEvent(name, i, call.request)]
  {
    RequestsSnoc(trace, RequestEvent(name, i, call.request));
    if call.reply.Response? {
      RequestsSnoc(trace + [RequestEvent(name, i, call.request)], ResponseEvent(name, i, call.reply.response));
    }
  }

  /** Request i of the calls is found in the table under its own id. */
  ghost predicate Found(name: Naming, table: map<string, TraceEvent>, calls: seq<ModelCall>, i: nat)
    requires i < |calls|
  {
    name(2 * i) in table && table[name(2 * i)] == RequestEvent(name, i, calls[i].request)
  }

  lemma {:induction false} RequestsOfLast(name: Naming, calls: seq<ModelCall>)
    requires calls != []
    ensures var k := |calls| - 1;
            Requests(Record(name, calls))
            == Requests(Record(name, calls[..k]))[name(2 * k) := RequestEvent(name, k, calls[k].request)]
  {
    hide Requests, RecordCall, RequestEvent;
    RequestsOfCall(name, Record(name, calls[..|calls| - 1]), |calls| - 1, calls[|calls| - 1]);
  }

  lemma {:induction false} RecordedRequests(name: Naming, calls: seq<ModelCall>, i: nat)
    requires NamesDiffer(name) && i < |calls|
    ensures Found(name, Requests(Record(name, calls)), calls, i)
  {
    hide Record, Requests, RecordCall, RequestEvent;
    var k := |calls| - 1;
    RequestsOfLast(name, calls);
    if i < k {
      RecordedRequests(name, calls[..k], i);
      assert name(2 * i) != name(2 * k);
    }
  }

  lemma {:induction false} PairOfCall(
      name: Naming, table: map<string, TraceEvent>, i: nat, q: ModelRequest, r: ModelResponse)
    requires name(2 * i) in table && table[name(2 * i)] == RequestEvent(name, i, q)
    ensures Pair(table, ResponseEvent(name, i, r)) == Some(Interaction(MessagesPayload(q.messages), r))
  {
    ResponseRoundTrip(r);
    assert RecordedMessages(RequestEvent(name, i, q)) == Some(MessagesPayload(q.messages));
    assert RecordedResponse(ResponseEvent(name, i, r)) == Some(r);
  }

  lemma {:induction false} PairingOfCall(
      name: Naming, table: map<string, TraceEvent>, trace: seq<TraceEvent>, i: nat, call: ModelCall)
    requires name(2 * i) in table && table[name(2 * i)] == RequestEvent(name, i, call.request)
    requires PairAll(table, trace).Some?
    ensures PairAll(table, RecordCall(name, trace, i, call)) == Some(PairAll(table, trace).value + AnsweredCall(call))
  {
    PairAllSnoc(table, trace, RequestEvent(name, i, call.request));
    if call.reply.Response? {
      PairOfCall(name, table, i, call.request, call.reply.response);
      PairAllSnoc(table, trace + [RequestEvent(name, i, call.request)], ResponseEvent(name, i, call.reply.response));
    } else {
      var pairs := PairAll(table, trace).value;
      assert pairs + [] == pairs;
    }
  }

  lemma {:induction false} PairingRecoversAnswered(name: Naming, table: map<string, TraceEvent>, calls: seq<ModelCall>)
    requires forall i: nat | i < |calls| :: Found(name, table, calls, i)
    ensures PairAll(table, Record(name, calls)) == Some(Answered(calls))
  {
    if calls != [] {
      var k := |calls| - 1;
      forall i: nat | i < k ensures Found(name, table, calls[..k], i) {
        assert Found(name, table, calls, i);
      }
      PairingRecoversAnswered(name, table, calls[..k]);
      assert Found(name, table, calls, k);
      PairingOfCall(name, table, Record(name, calls[..k]), k, calls[k]);
    }
  }

  /** The recorded trace of some calls: any event list whose model events are theirs. */
  ghost predicate IsTraceOf(events: seq<TraceEvent>, name: Naming, calls: seq<ModelCall>) {
    NamesDiffer(name) && ModelEvents(events) == Record(name, calls)
  }

  /** Pairing a recorded trace recovers exactly the answered calls, in order. */
  lemma {:induction false} TracePairsToAnswered(events: seq<TraceEvent>, name: Naming, calls: seq<ModelCall>)
    requires IsTraceOf(events, name, calls)
    ensures PairAll(Requests(events), events) == Some(Answered(calls))
  {
    RequestsIgnoreOthers(events);
    PairAllIgnoresOthers(Requests(events), events);
    forall i: nat | i < |calls| ensures Found(name, Requests(events), calls, i) {
      RecordedRequests(name, calls, i);
    }
    PairingRecoversAnswered(name, Requests(events), calls);
  }

  // ---------- How many events ----------

  lemma {:induction false} CountSnoc(a: seq<TraceEvent>, e: TraceEvent, eventType: string)
    ensures CountType(a + [e], eventType) == CountType(a, eventType) + if e.eventType == eventType then 1 else 0
  {
    assert (a + [e])[..|a|] == a;
  }

  lemma {:induction false} CensusOfCall(name: Naming, trace: seq<TraceEvent>, i: nat, call: ModelCall)
    ensures CountType(RecordCall(name, trace, i, call), REQUESTED) == CountType(trace, REQUESTED) + 1
    ensures CountType(RecordCall(name, trace, i, call), RESPONDED)
            == CountType(trace, RESPONDED) + if call.reply.Response? then 1 else 0
  {
    var asked := RequestEvent(name, i, call.request);
    CountSnoc(trace, asked, REQUESTED);
    CountSnoc(trace, asked, RESPONDED);
    if call.reply.Response? {
      CountSnoc(trace + [asked], ResponseEvent(name, i, call.reply.response), REQUESTED);
      CountSnoc(trace + [asked], ResponseEvent(name, i, call.reply.response), RESPONDED);
    }
  }

  /** The trace holds one request a call and one response a call that did not raise. */
  lemma {:induction false} TraceCensus(name: Naming, calls: seq<ModelCall>)
    ensures CountType(Record(name, calls), REQUESTED) == |calls|
    ensures CountType(Record(name, calls), RESPONDED) == |calls| - Raises(calls)
    ensures |Answered(calls)| == |calls| - Raises(calls)
  {
    if calls != [] {
      var k := |calls| - 1;
      TraceCensus(name, calls[..k]);
      CensusOfCall(name, Record(name, calls[..k]), k, calls[k]);
    }
  }

  // ---------- Calls that were all answered ----------

  ghost predicate AllAnswered(calls: seq<ModelCall>) {
    forall i :: 0 <= i < |calls| ==> calls[i].reply.Response?
  }

  lemma {:induction false} AnsweredAt(calls: seq<ModelCall>, j: nat)
    requires AllAnswered(calls) && j < |calls|
    ensures |Answered(calls)| == |calls|
    ensures Answered(calls)[j] == Interaction(MessagesPayload(calls[j].request.messages), calls[j].reply.response)
  {
    var k := |calls| - 1;
    if k > 0 {
      AnsweredAt(calls[..k], if j < k then j else 0);
    }
  }

  lemma {:induction false} AllAnsweredRaisesNothing(calls: seq<ModelCall>)
    requires AllAnswered(calls)
    ensures Raises(calls) == 0
  {
    if calls != [] {
      AllAnsweredRaisesNothing(calls[..|calls| - 1]);
    }
  }

  /** Calls all answered but the last leave one request more than responses. */
  lemma {:induction false} RaiseLeavesNoResponse(name: Naming, calls: seq<ModelCall>, last: ModelCall)
    requires AllAnswered(calls) && last.reply.Raised?
    ensures CountType(Record(name, calls + [last]), REQUESTED) == |calls| + 1
    ensures CountType(Record(name, calls + [last]), RESPONDED) == |calls|
    ensures Answered(calls + [last]) == Answered(calls)
  {
    TraceCensus(name, calls + [last]);
    AllAnsweredRaisesNothing(calls);
    assert (calls + [last])[..|calls|] == calls;
    AnsweredSnoc(calls, last);
  }
}
