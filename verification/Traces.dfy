/** Trace events and the pairing of recorded model calls (models/replay.py,
    tracing/events.py). Only the event fields that replay reads are kept. */
module Traces {
  import opened Numerals
  import opened Payloads
  import opened Sequences

  datatype TraceEvent = TraceEvent(eventId: string, eventType: string, parent: Option<string>, payload: Json)

  /** The n-th id a workflow's own event recorder gives out. */
  function EngineId(n: nat): string {
    "evt-wf-" + Padded(n)
  }

  const REQUESTED := "model_requested"
  const RESPONDED := "model_responded"

  datatype Interaction = Interaction(recordedMessages: seq<Json>, response: ModelResponse)

  /** The request events by id; a later event takes the place of an earlier one. */
  function Requests(events: seq<TraceEvent>): map<string, TraceEvent> {
    if events == [] then map[]
    else
      var last := events[|events| - 1];
      var before := Requests(events[..|events| - 1]);
      if last.eventType == REQUESTED then before[last.eventId := last] else before
  }

  function RecordedMessages(request: TraceEvent): Option<seq<Json>> {
    var body := FieldOr(request.payload, "request", JObj(map[]));
    if body.None? then None else Items(FieldOr(body.value, "messages", JArr([])))
  }

  function RecordedResponse(event: TraceEvent): Option<ModelResponse> {
    var body := FieldOr(event.payload, "response", JObj(map[]));
    if body.None? then None else ResponseFromPayload(body.value)
  }

  /** The interaction a response event closes; None when its parent is missing or a payload
      cannot be decoded. */
  function Pair(requests: map<string, TraceEvent>, event: TraceEvent): Option<Interaction> {
    if event.parent.None? || event.parent.value !in requests then None
    else
      var messages, response := RecordedMessages(requests[event.parent.value]), RecordedResponse(event);
      if messages.Some? && response.Some? then Some(Interaction(messages.value, response.value)) else None
  }

  /** The interactions the response events close, in order. */
  function PairAll(requests: map<string, TraceEvent>, events: seq<TraceEvent>): Option<seq<Interaction>> {
    if events == [] then Some([])
    else
      match PairAll(requests, events[..|events| - 1])
      case None => None
      case Some(pairs) =>
        var last := events[|events| - 1];
        if last.eventType != RESPONDED then Some(pairs)
        else
          match Pair(requests, last)
          case None => None
          case Some(p) => Some(pairs + [p])
  }

  method PairInteractions(events: seq<TraceEvent>) returns (r: Option<seq<Interaction>>)
    ensures r == PairAll(Requests(events), events)
  {
    var requests := map[];
    for i := 0 to |events|
      invariant requests == Requests(events[..i])
    {
      assert events[..i + 1][..i] == events[..i];
      if events[i].eventType == REQUESTED {
        requests := requests[events[i].eventId := events[i]];
      }
    }
    assert events[..|events|] == events;
    var interactions := [];
    for i := 0 to |events|
      invariant PairAll(requests, events[..i]) == Some(interactions)
    {
      assert events[..i + 1][..i] == events[..i];
      if events[i].eventType != RESPONDED { continue; }
      var p := Pair(requests, events[i]);
      if p.None? {
        PairFailureStays(requests, events, i + 1);
        return None;
      }
      interactions := interactions + [p.value];
    }
    return Some(interactions);
  }

  lemma {:induction false} PairFailureStays(requests: map<string, TraceEvent>, events: seq<TraceEvent>, n: nat)
    requires n <= |events| && PairAll(requests, events[..n]).None?
    ensures PairAll(requests, events).None?
    decreases |events| - n
  {
    if n < |events| {
      assert events[..n + 1][..n] == events[..n];
      PairFailureStays(requests, events, n + 1);
    } else {
      assert events[..n] == events;
    }
  }

  lemma {:induction false} RequestsSnoc(events: seq<TraceEvent>, e: TraceEvent)
    ensures Requests(events + [e])
            == if e.eventType == REQUESTED then Requests(events)[e.eventId := e] else Requests(events)
  {
    assert (events + [e])[..|events|] == events;
  }

  lemma {:induction false} PairAllSnoc(requests: map<string, TraceEvent>, events: seq<TraceEvent>, e: TraceEvent)
    requires PairAll(requests, events).Some?
    ensures PairAll(requests, events + [e])
            == if e.eventType != RESPONDED then PairAll(requests, events)
               else if Pair(requests, e).None? then None
               else Some(PairAll(requests, events).value + [Pair(requests, e).value])
  {
    assert (events + [e])[..|events|] == events;
  }

  // ---------- What pairing finds ----------

  /** Event `q` is the last request with this id. */
  ghost predicate LastRequest(events: seq<TraceEvent>, q: nat, id: string) {
    && q < |events| && events[q].eventType == REQUESTED && events[q].eventId == id
    && forall k :: q < k < |events| ==> !(events[k].eventType == REQUESTED && events[k].eventId == id)
  }

  lemma {:induction false} RequestsLast(events: seq<TraceEvent>, id: string)
    ensures id in Requests(events) <==> exists q: nat :: LastRequest(events, q, id)
    ensures forall q: nat :: LastRequest(events, q, id) ==> id in Requests(events) && Requests(events)[id] == events[q]
  {
    if events != [] {
      var n := |events| - 1;
      var init := events[..n];
      RequestsLast(init, id);
      if events[n].eventType == REQUESTED && events[n].eventId == id {
        assert LastRequest(events, n, id);
      } else {
        forall q: nat ensures LastRequest(events, q, id) <==> LastRequest(init, q, id) {
          if LastRequest(init, q, id) {
            forall k | q < k < |events| ensures !(events[k].eventType == REQUESTED && events[k].eventId == id) {
              assert k < n ==> events[k] == init[k];
            }
          } else if LastRequest(events, q, id) {
            forall k | q < k < n ensures !(init[k].eventType == REQUESTED && init[k].eventId == id) {
              assert events[k] == init[k];
            }
          }
        }
      }
    }
  }

  /** Event `i` answers the request that its parent names, the last one with that id, and both
      payloads can be read. */
  ghost predicate Closes(events: seq<TraceEvent>, i: nat, p: Interaction)
    requires i < |events|
  {
    && events[i].parent.Some? && RecordedResponse(events[i]) == Some(p.response)
    && exists q: nat :: LastRequest(events, q, events[i].parent.value)
                        && RecordedMessages(events[q]) == Some(p.recordedMessages)
  }

  lemma {:induction false} PairCloses(events: seq<TraceEvent>, i: nat, p: Interaction)
    requires i < |events|
    ensures Pair(Requests(events), events[i]) == Some(p) <==> Closes(events, i, p)
  {
    hide Requests, RecordedMessages, RecordedResponse, LastRequest;
    if events[i].parent.Some? {
      RequestsLast(events, events[i].parent.value);
    }
  }

  /** The interactions found are those the responses close, one for each, in order. */
  ghost predicate PairsUp(events: seq<TraceEvent>, found: seq<Interaction>, at: seq<nat>) {
    && Increasing(at) && |at| == |found|
    && (forall i: nat :: i in at <==> i < |events| && events[i].eventType == RESPONDED)
    && forall k :: 0 <= k < |at| ==> at[k] < |events| && Closes(events, at[k], found[k])
  }

  /** Response `i` has no readable request to answer, or cannot be read itself. */
  ghost predicate Unpaired(events: seq<TraceEvent>, i: nat)
    requires i < |events|
  {
    events[i].eventType == RESPONDED && forall p :: !Closes(events, i, p)
  }

  ghost predicate SomeUnpaired(events: seq<TraceEvent>, n: nat)
    requires n <= |events|
  {
    exists i: nat :: i < n && Unpaired(events, i)
  }

  lemma {:induction false} UnpairedIsNone(events: seq<TraceEvent>, i: nat)
    requires i < |events| && events[i].eventType == RESPONDED
    ensures Unpaired(events, i) <==> Pair(Requests(events), events[i]).None?
    ensures Pair(Requests(events), events[i]).Some? ==> Closes(events, i, Pair(Requests(events), events[i]).value)
  {
    hide Requests, Pair, Closes;
    forall p ensures Pair(Requests(events), events[i]) == Some(p) <==> Closes(events, i, p) {
      PairCloses(events, i, p);
    }
  }

  lemma {:induction false} PairUpTo(events: seq<TraceEvent>, n: nat) returns (at: seq<nat>)
    requires n <= |events|
    ensures PairAll(Requests(events), events[..n]).None? <==> SomeUnpaired(events, n)
    ensures var found := PairAll(Requests(events), events[..n]);
            found.Some? ==>
              && Increasing(at) && |at| == |found.value|
              && (forall i: nat :: i in at <==> i < n && events[i].eventType == RESPONDED)
              && forall k :: 0 <= k < |at| ==> at[k] < |events| && Closes(events, at[k], found.value[k])
  {
    hide Requests, Pair, Closes, Unpaired;
    if n == 0 {
      at := [];
    } else {
      var e := events[n - 1];
      var init := PairUpTo(events, n - 1);
      assert events[..n][..n - 1] == events[..n - 1];
      if e.eventType == RESPONDED {
        UnpairedIsNone(events, n - 1);
        at := init + [n - 1];
        forall i: nat ensures i in at <==> i in init || i == n - 1 {
          InConcat(init, [n - 1], i);
        }
        assert forall k :: 0 <= k < |init| ==> init[k] in init;
      } else {
        at := init;
        assert !Unpaired(events, n - 1) by { OnlyResponsesPair(events, n - 1); }
      }
    }
  }

  lemma {:induction false} OnlyResponsesPair(events: seq<TraceEvent>, i: nat)
    requires i < |events| && events[i].eventType != RESPONDED
    ensures !Unpaired(events, i)
  {
  }

  /** Pairing fails exactly when some response has no request to answer or one of the two cannot
      be read; otherwise it finds one interaction for every response, in order. */
  lemma {:induction false} PairingExact(events: seq<TraceEvent>) returns (at: seq<nat>)
    ensures var found := PairAll(Requests(events), events);
            && (found.None? <==> SomeUnpaired(events, |events|))
            && (found.Some? ==> PairsUp(events, found.value, at))
  {
    hide Requests, PairAll, Closes;
    at := PairUpTo(events, |events|);
    assert events[..|events|] == events;
  }

  // ---------- Other events do not matter ----------

  predicate IsModelEvent(e: TraceEvent) {
    e.eventType == REQUESTED || e.eventType == RESPONDED
  }

  function ModelEvents(events: seq<TraceEvent>): seq<TraceEvent> {
    if events == [] then []
    else
      var last := events[|events| - 1];
      ModelEvents(events[..|events| - 1]) + if IsModelEvent(last) then [last] else []
  }

  lemma {:induction false} RequestsIgnoreOthers(events: seq<TraceEvent>)
    ensures Requests(ModelEvents(events)) == Requests(events)
  {
    if events != [] {
      var init, last := events[..|events| - 1], events[|events| - 1];
      RequestsIgnoreOthers(init);
      if IsModelEvent(last) {
        assert (ModelEvents(init) + [last])[..|ModelEvents(init)|] == ModelEvents(init);
      } else {
        assert ModelEvents(events) == ModelEvents(init);
      }
    }
  }

  lemma {:induction false} PairAllIgnoresOthers(requests: map<string, TraceEvent>, events: seq<TraceEvent>)
    ensures PairAll(requests, ModelEvents(events)) == PairAll(requests, events)
  {
    if events != [] {
      var init, last := events[..|events| - 1], events[|events| - 1];
      PairAllIgnoresOthers(requests, init);
      if IsModelEvent(last) {
        assert (ModelEvents(init) + [last])[..|ModelEvents(init)|] == ModelEvents(init);
      } else {
        assert ModelEvents(events) == ModelEvents(init);
      }
    }
  }
}
