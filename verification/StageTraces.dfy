/** Several stages writing one trace file (workflows/engine.py). Each inner loop numbers its
    events from zero, so a stage's view of the file puts the stage's run id before its ids;
    the engine's recorder writes its own ids as they are. */
module StageTraces {
  import opened Gains
  import opened Numerals
  import opened Payloads
  import opened Sequences
  import opened Traces

  // ---------- Namespaces ----------

  /** Who wrote an event: the engine's recorder, or a stage through its view. */
  datatype Source = Engine | Stage(run: string)

  function Namespace(s: Source): string {
    match s case Engine => "" case Stage(run) => run + ":"
  }

  function FileId(s: Source, id: string): string {
    Namespace(s) + id
  }

  function InFile(s: Source, e: TraceEvent): TraceEvent {
    e.(eventId := FileId(s, e.eventId),
       parent := match e.parent case None => None case Some(p) => Some(FileId(s, p)))
  }

  /** A stage may use any id; the engine's have no colon. */
  predicate MayUse(s: Source, id: string) {
    s.Stage? || ':' !in id
  }

  /** No id of one source is, in the file, an id of the other. */
  ghost predicate Apart(s: Source, t: Source) {
    forall a, b :: MayUse(s, a) && MayUse(t, b) ==> FileId(s, a) != FileId(t, b)
  }

  /** Two stages can collide exactly when one run id and a colon begin the other run id. */
  lemma {:induction false} StagesApartIff(r1: string, r2: string)
    requires r1 != r2
    ensures Apart(Stage(r1), Stage(r2)) <==> !(r1 + ":" <= r2) && !(r2 + ":" <= r1)
  {
    if r1 + ":" <= r2 {
      RestCollides(r1 + ":", r2, ":");
      assert FileId(Stage(r1), r2[|r1| + 1..] + ":") == FileId(Stage(r2), "");
    } else if r2 + ":" <= r1 {
      RestCollides(r2 + ":", r1, ":");
      assert FileId(Stage(r1), "") == FileId(Stage(r2), r1[|r2| + 1..] + ":");
    } else {
      forall a, b ensures FileId(Stage(r1), a) != FileId(Stage(r2), b) {
        if FileId(Stage(r1), a) == FileId(Stage(r2), b) {
          if |r1| <= |r2| {
            ShorterBegins(r1, r2, a, b);
          } else {
            ShorterBegins(r2, r1, b, a);
          }
        }
      }
    }
  }

  lemma {:induction false} RestCollides(p: string, r: string, tail: string)
    requires p <= r
    ensures p + (r[|p|..] + tail) == (r + tail) + ""
  {
  }

  lemma {:induction false} ShorterBegins(r1: string, r2: string, a: string, b: string)
    requires |r1| <= |r2| && r1 != r2 && (r1 + ":") + a == (r2 + ":") + b
    ensures r1 + ":" <= r2
  {
    var s := (r1 + ":") + a;
    assert s[..|r1|] == r1 && s[..|r2|] == r2;
    if |r1| == |r2| {
      assert false;
    } else {
      assert s[|r1|] == ':' && r2[|r1|] == s[|r1|];
      assert r2[..|r1| + 1] == r1 + ":";
    }
  }

  lemma {:induction false} ColonFreeRunsAreApart(r1: string, r2: string)
    requires r1 != r2 && ':' !in r1 && ':' !in r2
    ensures Apart(Stage(r1), Stage(r2))
  {
    StagesApartIff(r1, r2);
    ColonFollows(r1, r2);
    ColonFollows(r2, r1);
  }

  lemma {:induction false} ColonFollows(r1: string, r2: string)
    ensures r1 + ":" <= r2 ==> ':' in r2
  {
    if r1 + ":" <= r2 {
      assert r2[|r1|] == ':';
    }
  }

  /** The engine's ids meet no stage's, whatever the run id. */
  lemma {:induction false} EngineIsApart(run: string)
    ensures Apart(Engine, Stage(run)) && Apart(Stage(run), Engine)
  {
    forall a, b | ':' !in a ensures FileId(Engine, a) != FileId(Stage(run), b) {
      assert FileId(Stage(run), b)[|run|] == ':';
      assert FileId(Engine, a) == a;
    }
  }

  /** However far the recorder counts, its ids stay distinct and colon-free. */
  lemma {:induction false} EngineIdsAreDistinct(m: nat, n: nat)
    ensures MayUse(Engine, EngineId(m))
    ensures EngineId(m) == EngineId(n) <==> m == n
  {
    ValueOfPadded(m);
    assert EngineId(m)[7..] == Padded(m) && EngineId(n)[7..] == Padded(n);
    PaddedInjective(m, n);
    forall c | c in EngineId(m) ensures c != ':' {
      InConcat("evt-wf-", Padded(m), c);
    }
  }

  // ---------- The shared file ----------

  /** One written event: who wrote it and the event before its ids were rewritten. */
  datatype Entry = Entry(source: Source, event: TraceEvent)

  function File(entries: seq<Entry>): (r: seq<TraceEvent>)
    ensures |r| == |entries| && forall i :: 0 <= i < |r| ==> r[i] == InFile(entries[i].source, entries[i].event)
  {
    seq(|entries|, i requires 0 <= i < |entries| => InFile(entries[i].source, entries[i].event))
  }

  function EntrySource(): Entry -> Source {
    (e: Entry) => e.source
  }

  function Events(entries: seq<Entry>): (r: seq<TraceEvent>)
    ensures |r| == |entries| && forall i :: 0 <= i < |r| ==> r[i] == entries[i].event
  {
    seq(|entries|, i requires 0 <= i < |entries| => entries[i].event)
  }

  /** A stage's own trace: its events, in order and with their own ids. */
  function Own(entries: seq<Entry>, s: Source): seq<TraceEvent> {
    Events(From(EntrySource(), entries, s))
  }

  predicate UsesItsIds(e: Entry) {
    MayUse(e.source, e.event.eventId) && (e.event.parent.Some? ==> MayUse(e.source, e.event.parent.value))
  }

  /** One run id followed by a colon begins the other. */
  predicate Prefixes(s: Source, t: Source) {
    s.Stage? && t.Stage? && s.run + ":" <= t.run
  }

  /** No run id followed by a colon begins another: what the namespaces need. */
  ghost predicate WellSeparated(entries: seq<Entry>) {
    && (forall i :: 0 <= i < |entries| ==> UsesItsIds(entries[i]))
    && forall i, j :: 0 <= i < |entries| && 0 <= j < |entries| ==> !Prefixes(entries[i].source, entries[j].source)
  }

  lemma {:induction false} WellSeparatedIsApart(entries: seq<Entry>, i: nat, j: nat)
    requires WellSeparated(entries) && i < |entries| && j < |entries| && entries[i].source != entries[j].source
    ensures Apart(entries[i].source, entries[j].source)
  {
    hide Apart;
    var s, t := entries[i].source, entries[j].source;
    assert !Prefixes(s, t) && !Prefixes(t, s);
    if s.Stage? && t.Stage? {
      StagesApartIff(s.run, t.run);
    } else {
      EngineIsApart(if s.Stage? then s.run else t.run);
    }
  }

  /** Run ids without a colon are always separated. */
  lemma {:induction false} ColonFreeRunsAreSeparated(entries: seq<Entry>)
    requires forall i :: 0 <= i < |entries| ==>
               UsesItsIds(entries[i]) && (entries[i].source.Stage? ==> ':' !in entries[i].source.run)
    ensures WellSeparated(entries)
  {
    forall i, j | 0 <= i < |entries| && 0 <= j < |entries| ensures !Prefixes(entries[i].source, entries[j].source) {
      var s, t := entries[i].source, entries[j].source;
      if s.Stage? && t.Stage? { ColonFollows(s.run, t.run); }
    }
  }

  // ---------- Ids in the file ----------

  predicate HasId(events: seq<TraceEvent>, id: string) {
    exists e | e in events :: e.eventId == id
  }

  ghost predicate DistinctIds(events: seq<TraceEvent>) {
    forall i, j :: 0 <= i < j < |events| ==> events[i].eventId != events[j].eventId
  }

  lemma {:induction false} HasIdSnoc(events: seq<TraceEvent>, e: TraceEvent, id: string)
    ensures HasId(events + [e], id) <==> HasId(events, id) || e.eventId == id
    ensures DistinctIds(events + [e]) <==> DistinctIds(events) && !HasId(events, e.eventId)
  {
    var all := events + [e];
    assert forall x :: x in all <==> x in events || x == e;
    if DistinctIds(all) {
      forall x | x in events ensures x.eventId != e.eventId {
        var i :| 0 <= i < |events| && events[i] == x;
        assert all[i].eventId != all[|events|].eventId;
      }
      forall i, j | 0 <= i < j < |events| ensures events[i].eventId != events[j].eventId {
        assert all[i].eventId != all[j].eventId;
      }
    }
  }

  lemma {:induction false} FileSnoc(entries: seq<Entry>, e: Entry)
    ensures File(entries + [e]) == File(entries) + [InFile(e.source, e.event)]
  {
  }

  lemma {:induction false} NoIds(s: Source, id: string)
    ensures !HasId(File([]), id) && !HasId(Own([], s), id)
    ensures DistinctIds(File([])) && DistinctIds(Own([], s))
  {
  }

  /** A file id is taken exactly when its source has used the id. */
  lemma {:induction false} FileIdTaken(entries: seq<Entry>, s: Source, id: string)
    requires ApartFromOthers(entries, s) && MayUse(s, id)
    ensures HasId(File(entries), FileId(s, id)) <==> HasId(Own(entries, s), id)
  {
    hide *;
    if entries == [] {
      NoIds(s, FileId(s, id));
      NoIds(s, id);
    } else {
      var init, last := entries[..|entries| - 1], entries[|entries| - 1];
      OthersIdsDiffer(entries, s, id);
      FileIdTaken(init, s, id);
      assert init + [last] == entries;
      FileSnoc(init, last);
      OwnSnoc(init, last, s);
      HasIdSnoc(File(init), InFile(last.source, last.event), FileId(s, id));
      HasIdSnoc(Own(init, s), last.event, id);
      assert Own(init, s) + [] == Own(init, s);
      InFileId(last.source, last.event);
      SameId(s, last.event.eventId, id);
    }
  }

  lemma {:induction false} InFileId(s: Source, e: TraceEvent)
    ensures InFile(s, e).eventId == FileId(s, e.eventId)
  {
  }

  lemma {:induction false} LastIsApart(entries: seq<Entry>)
    requires WellSeparated(entries) && entries != []
    ensures var last := entries[|entries| - 1];
            && WellSeparated(entries[..|entries| - 1])
            && ApartFromOthers(entries[..|entries| - 1], last.source) && MayUse(last.source, last.event.eventId)
  {
    hide Prefixes, Apart;
    var k := |entries| - 1;
    assert UsesItsIds(entries[k]);
    forall i | 0 <= i < k && entries[i].source != entries[k].source
      ensures Apart(entries[k].source, entries[i].source)
    {
      WellSeparatedIsApart(entries, k, i);
    }
  }

  /** All ids in the merged file are unique exactly when each writer's own are. */
  lemma {:induction false} FileIdsAreUniqueIff(entries: seq<Entry>)
    requires WellSeparated(entries)
    ensures DistinctIds(File(entries)) <==> forall s :: DistinctIds(Own(entries, s))
  {
    hide *;
    if entries == [] {
      forall s ensures DistinctIds(Own(entries, s)) { NoIds(s, ""); }
      NoIds(Engine, "");
    } else {
      var init, last := entries[..|entries| - 1], entries[|entries| - 1];
      LastIsApart(entries);
      FileIdsAreUniqueIff(init);
      assert init + [last] == entries;
      FileSnoc(init, last);
      InFileId(last.source, last.event);
      HasIdSnoc(File(init), InFile(last.source, last.event), "");
      FileIdTaken(init, last.source, last.event.eventId);
      forall s ensures DistinctIds(Own(entries, s)) <==>
                         DistinctIds(Own(init, s)) && (s == last.source ==> !HasId(Own(init, s), last.event.eventId))
      {
        OwnSnoc(init, last, s);
        HasIdSnoc(Own(init, s), last.event, "");
        assert Own(init, s) + [] == Own(init, s);
      }
    }
  }

  class TraceFile {
    var events: seq<TraceEvent>

    constructor ()
      ensures events == []
    {
      events := [];
    }

    method Write(event: TraceEvent)
      modifies this
      ensures events == old(events) + [event]
    {
      events := events + [event];
    }
  }

  class StageTraceWriter {
    const inner: TraceFile
    const runPrefix: string

    constructor (inner: TraceFile, runId: string)
      ensures this.inner == inner && runPrefix == runId
    {
      this.inner, runPrefix := inner, runId;
    }

    /** Appends the event under the stage's namespace to the shared file. */
    method Write(event: TraceEvent)
      modifies inner
      ensures inner.events == old(inner.events) + [InFile(Stage(runPrefix), event)]
    {
      var parent := event.parent;
      inner.Write(event.(
        eventId := runPrefix + ":" + event.eventId,
        parent := if parent.None? then None else Some(runPrefix + ":" + parent.value)));
    }
  }

  class Recorder {
    const writer: TraceFile?
    var seqNo: nat

    constructor (writer: TraceFile?)
      ensures this.writer == writer && seqNo == 0
    {
      this.writer, seqNo := writer, 0;
    }

    /** Ids are given out whether or not a trace is written. */
    method Emit(eventType: string, payload: Json, parent: Option<string>) returns (id: string)
      modifies this, writer
      ensures id == EngineId(old(seqNo)) && seqNo == old(seqNo) + 1
      ensures writer != null ==> writer.events == old(writer.events) + [TraceEvent(id, eventType, parent, payload)]
    {
      id := "evt-wf-" + Padded(seqNo);
      seqNo := seqNo + 1;
      if writer != null {
        writer.Write(TraceEvent(id, eventType, parent, payload));
      }
    }
  }

  // ---------- Pairing a shared file ----------

  /** The stage's own request under `id` is the file's under its file id. */
  ghost predicate SameRequest(
      table: map<string, TraceEvent>, own: map<string, TraceEvent>, s: Source, id: string)
  {
    && (id in own <==> FileId(s, id) in table)
    && (id in own ==> table[FileId(s, id)] == InFile(s, own[id]))
  }

  ghost predicate ApartFromOthers(entries: seq<Entry>, s: Source) {
    forall i :: 0 <= i < |entries| ==>
      UsesItsIds(entries[i]) && (entries[i].source == s || Apart(s, entries[i].source))
  }

  lemma {:induction false} SameId(s: Source, a: string, b: string)
    ensures FileId(s, a) == FileId(s, b) <==> a == b
  {
    assert FileId(s, a)[|Namespace(s)|..] == a && FileId(s, b)[|Namespace(s)|..] == b;
  }

  lemma {:induction false} OwnSnoc(entries: seq<Entry>, e: Entry, s: Source)
    ensures Own(entries + [e], s) == Own(entries, s) + if e.source == s then [e.event] else []
  {
    FromSnoc(EntrySource(), entries, e, s);
  }

  function Noted(table: map<string, TraceEvent>, e: TraceEvent): map<string, TraceEvent> {
    if e.eventType == REQUESTED then table[e.eventId := e] else table
  }

  lemma {:induction false} NotedAlike(
      table: map<string, TraceEvent>, own: map<string, TraceEvent>, s: Source, id: string, e: Entry)
    requires SameRequest(table, own, s, id)
    requires e.source != s ==> FileId(s, id) != FileId(e.source, e.event.eventId)
    ensures var own' := if e.source == s then Noted(own, e.event) else own;
            SameRequest(Noted(table, InFile(e.source, e.event)), own', s, id)
  {
    if e.source == s {
      SameId(s, id, e.event.eventId);
    }
  }

  lemma {:induction false} FileRequestsSnoc(entries: seq<Entry>, e: Entry)
    ensures Requests(File(entries + [e])) == Noted(Requests(File(entries)), InFile(e.source, e.event))
  {
    assert File(entries + [e]) == File(entries) + [InFile(e.source, e.event)];
    RequestsSnoc(File(entries), InFile(e.source, e.event));
  }

  lemma {:induction false} OwnRequestsSnoc(entries: seq<Entry>, e: Entry, s: Source)
    ensures Requests(Own(entries + [e], s))
            == if e.source == s then Noted(Requests(Own(entries, s)), e.event) else Requests(Own(entries, s))
  {
    OwnSnoc(entries, e, s);
    RequestsSnoc(Own(entries, s), e.event);
    assert Own(entries, s) + [] == Own(entries, s);
  }

  lemma {:induction false} PrefixedRunsShareAnId(r: string, x: string, id: string)
    ensures Prefixes(Stage(r), Stage(r + ":" + x)) && Stage(r) != Stage(r + ":" + x)
    ensures FileId(Stage(r), x + ":" + id) == FileId(Stage(r + ":" + x), id)
  {
    assert r + ":" <= r + ":" + x && |r| < |r + ":" + x|;
    assert (r + ":") + (x + ":" + id) == ((r + ":" + x) + ":") + id;
  }

  /** One run id a prefix of the other: both stages use an id of their own that is one id in
      the file, and there the request of the one is replaced by the other's. */
  lemma {:induction false} PrefixedRunsMixRequests(r: string, x: string, id: string, a: TraceEvent, b: TraceEvent)
    requires a.eventType == REQUESTED && b.eventType == REQUESTED && a.eventId == x + ":" + id && b.eventId == id
    ensures var s, t := Stage(r), Stage(r + ":" + x);
            var entries := [Entry(s, a)] + [Entry(t, b)];
            && !WellSeparated(entries)
            && Requests(Own(entries, s)) == map[a.eventId := a]
            && Requests(File(entries)) == map[FileId(s, a.eventId) := InFile(t, b)]
  {
    hide Requests, Own, File, FileId, Prefixes;
    var s, t := Stage(r), Stage(r + ":" + x);
    var first: seq<Entry> := [Entry(s, a)];
    var entries := first + [Entry(t, b)];
    PrefixedRunsShareAnId(r, x, id);
    assert Prefixes(entries[0].source, entries[1].source);
    assert [] + first == first;
    OwnRequestsSnoc(first, Entry(t, b), s);
    OwnRequestsSnoc([], Entry(s, a), s);
    FileRequestsSnoc(first, Entry(t, b));
    FileRequestsSnoc([], Entry(s, a));
    NoEntries(s);
    InFileId(s, a);
    InFileId(t, b);
  }

  lemma {:induction false} NoEntries(s: Source)
    ensures Requests(Own([], s)) == map[] && Requests(File([])) == map[]
  {
  }

  lemma {:induction false} OthersIdsDiffer(entries: seq<Entry>, s: Source, id: string)
    requires entries != [] && ApartFromOthers(entries, s) && MayUse(s, id)
    ensures ApartFromOthers(entries[..|entries| - 1], s)
    ensures var last := entries[|entries| - 1];
            last.source != s ==> FileId(s, id) != FileId(last.source, last.event.eventId)
  {
  }

  lemma {:induction false} NoRequests(entries: seq<Entry>, s: Source, id: string)
    requires entries == []
    ensures SameRequest(Requests(File(entries)), Requests(Own(entries, s)), s, id)
  {
  }

  lemma {:induction false} OwnRequests(entries: seq<Entry>, s: Source, id: string)
    requires ApartFromOthers(entries, s) && MayUse(s, id)
    ensures SameRequest(Requests(File(entries)), Requests(Own(entries, s)), s, id)
  {
    hide *;
    if entries == [] {
      NoRequests(entries, s, id);
    } else {
      var init, last := entries[..|entries| - 1], entries[|entries| - 1];
      OthersIdsDiffer(entries, s, id);
      OwnRequests(init, s, id);
      FileRequestsSnoc(init, last);
      OwnRequestsSnoc(init, last, s);
      NotedAlike(Requests(File(init)), Requests(Own(init, s)), s, id, last);
      assert init + [last] == entries;
    }
  }

  /** What one event adds to a pairing. */
  function EventGain(table: map<string, TraceEvent>): TraceEvent -> Option<seq<Interaction>> {
    (e: TraceEvent) =>
      if e.eventType != RESPONDED then Some([])
      else if Pair(table, e).None? then None
      else Some([Pair(table, e).value])
  }

  /** What one entry adds to the pairing of the whole file. */
  function FileGain(entries: seq<Entry>): Entry -> Option<seq<Interaction>> {
    (e: Entry) => EventGain(Requests(File(entries)))(InFile(e.source, e.event))
  }

  lemma {:induction false} PairAllIsTotal(table: map<string, TraceEvent>, events: seq<TraceEvent>)
    ensures PairAll(table, events) == Total(EventGain(table), events)
  {
    if events != [] {
      PairAllIsTotal(table, events[..|events| - 1]);
      JoinNothing(PairAll(table, events[..|events| - 1]));
    }
  }

  /** Pairing in the file what a stage wrote is pairing it in the stage's own trace. */
  lemma {:induction false} SameGain(
      table: map<string, TraceEvent>, own: map<string, TraceEvent>, s: Source, e: TraceEvent)
    requires e.parent.Some? ==> SameRequest(table, own, s, e.parent.value)
    ensures EventGain(table)(InFile(s, e)) == EventGain(own)(e)
  {
    assert Pair(table, InFile(s, e)) == Pair(own, e);
  }

  lemma {:induction false} GainInFile(entries: seq<Entry>, e: Entry)
    requires WellSeparated(entries) && e in entries
    ensures FileGain(entries)(e) == EventGain(Requests(Own(entries, e.source)))(e.event)
  {
    forall i | 0 <= i < |entries| && entries[i].source != e.source ensures Apart(e.source, entries[i].source) {
      var j :| 0 <= j < |entries| && entries[j] == e;
      WellSeparatedIsApart(entries, j, i);
    }
    assert ApartFromOthers(entries, e.source);
    if e.event.parent.Some? {
      OwnRequests(entries, e.source, e.event.parent.value);
    }
    SameGain(Requests(File(entries)), Requests(Own(entries, e.source)), e.source, e.event);
  }

  lemma {:induction false} FileTotal(entries: seq<Entry>, part: seq<Entry>)
    ensures PairAll(Requests(File(entries)), File(part)) == Total(FileGain(entries), part)
  {
    PairAllIsTotal(Requests(File(entries)), File(part));
    TotalAlike(EventGain(Requests(File(entries))), File(part), FileGain(entries), part);
  }

  lemma {:induction false} OwnTotal(entries: seq<Entry>, s: Source)
    requires WellSeparated(entries)
    ensures PairAll(Requests(Own(entries, s)), Own(entries, s))
            == Total(FileGain(entries), From(EntrySource(), entries, s))
  {
    var part := From(EntrySource(), entries, s);
    PairAllIsTotal(Requests(Own(entries, s)), Own(entries, s));
    forall i | 0 <= i < |part|
      ensures EventGain(Requests(Own(entries, s)))(Own(entries, s)[i]) == FileGain(entries)(part[i])
    {
      FromIsPart(EntrySource(), entries, s, part[i]);
      GainInFile(entries, part[i]);
    }
    TotalAlike(EventGain(Requests(Own(entries, s))), Own(entries, s), FileGain(entries), part);
  }

  // ---------- Any interleaving ----------

  /** Who wrote each interaction of the file, in file order. */
  function Writers(entries: seq<Entry>): seq<Source> {
    Origins(FileGain(entries), EntrySource(), entries)
  }

  /** Namespacing keeps every stage's pairing, however the stages' writes interleave: the
      file's interactions restricted to a stage are those of the stage's own trace. */
  lemma {:induction false} FilePairsByStage(entries: seq<Entry>, s: Source)
    requires WellSeparated(entries)
    requires PairAll(Requests(File(entries)), File(entries)).Some?
    ensures var pairs := PairAll(Requests(File(entries)), File(entries)).value;
            && |pairs| == |Writers(entries)|
            && PairAll(Requests(Own(entries, s)), Own(entries, s)) == Some(Select(pairs, Writers(entries), s))
  {
    FileTotal(entries, entries);
    OwnTotal(entries, s);
    SourceTotal(FileGain(entries), EntrySource(), entries, s);
  }

  ghost predicate StagePairs(entries: seq<Entry>, s: Source) {
    PairAll(Requests(Own(entries, s)), Own(entries, s)).Some?
  }

  /** The file pairs exactly when every stage's own trace does. */
  lemma {:induction false} FilePairsIffStagesDo(entries: seq<Entry>)
    requires WellSeparated(entries)
    ensures PairAll(Requests(File(entries)), File(entries)).Some?
            <==> forall s :: StagePairs(entries, s)
  {
    FileTotal(entries, entries);
    TotalIffEverySource(FileGain(entries), EntrySource(), entries);
    forall s ensures StagePairs(entries, s) <==> SourceHolds(FileGain(entries), EntrySource(), entries, s) {
      OwnTotal(entries, s);
    }
  }

  // ---------- Stages one after another ----------

  datatype Block = Block(source: Source, events: seq<TraceEvent>)

  function AllFrom(b: Block): (r: seq<Entry>)
    ensures |r| == |b.events| && forall i :: 0 <= i < |r| ==> r[i] == Entry(b.source, b.events[i])
  {
    seq(|b.events|, i requires 0 <= i < |b.events| => Entry(b.source, b.events[i]))
  }

  /** The entries when each stage writes all its events before the next begins. */
  function InTurn(blocks: seq<Block>): seq<Entry> {
    if blocks == [] then [] else InTurn(blocks[..|blocks| - 1]) + AllFrom(blocks[|blocks| - 1])
  }

  /** The stages' own pairings, one after another. */
  function JoinedPairs(blocks: seq<Block>): Option<seq<Interaction>> {
    if blocks == [] then Some([])
    else
      var last := blocks[|blocks| - 1];
      Join(JoinedPairs(blocks[..|blocks| - 1]), PairAll(Requests(last.events), last.events))
  }

  ghost predicate OneBlockEach(blocks: seq<Block>) {
    forall i, j :: 0 <= i < j < |blocks| ==> blocks[i].source != blocks[j].source
  }

  lemma {:induction false} InTurnFromOthers(blocks: seq<Block>, s: Source)
    requires forall i :: 0 <= i < |blocks| ==> blocks[i].source != s
    ensures forall i :: 0 <= i < |InTurn(blocks)| ==> InTurn(blocks)[i].source != s
  {
    if blocks != [] {
      InTurnFromOthers(blocks[..|blocks| - 1], s);
    }
  }

  lemma {:induction false} InTurnSnoc(blocks: seq<Block>)
    requires blocks != []
    ensures InTurn(blocks) == InTurn(blocks[..|blocks| - 1]) + AllFrom(blocks[|blocks| - 1])
  {
    hide AllFrom;
  }

  lemma {:induction false} FromInTurn(blocks: seq<Block>, i: nat)
    requires OneBlockEach(blocks) && i < |blocks|
    ensures From(EntrySource(), InTurn(blocks), blocks[i].source) == AllFrom(blocks[i])
  {
    hide From, AllFrom, InTurn;
    var k, s := |blocks| - 1, blocks[i].source;
    var before, block := InTurn(blocks[..k]), AllFrom(blocks[k]);
    InTurnSnoc(blocks);
    FromConcat(EntrySource(), before, block, s);
    if i == k {
      InTurnFromOthers(blocks[..k], s);
      FromNone(EntrySource(), before, s);
      FromAll(EntrySource(), block, s);
      assert [] + block == block;
    } else {
      FromInTurn(blocks[..k], i);
      FromNone(EntrySource(), block, s);
      assert AllFrom(blocks[i]) + [] == AllFrom(blocks[i]);
    }
  }

  lemma {:induction false} FirstBlocksConcatenate(blocks: seq<Block>, n: nat)
    requires OneBlockEach(blocks) && WellSeparated(InTurn(blocks)) && n <= |blocks|
    ensures Total(FileGain(InTurn(blocks)), InTurn(blocks[..n])) == JoinedPairs(blocks[..n])
  {
    if n > 0 {
      var b := blocks[n - 1];
      FirstBlocksConcatenate(blocks, n - 1);
      assert blocks[..n][..n - 1] == blocks[..n - 1];
      TotalConcat(FileGain(InTurn(blocks)), InTurn(blocks[..n - 1]), AllFrom(b));
      FromInTurn(blocks, n - 1);
      OwnTotal(InTurn(blocks), b.source);
      assert Events(AllFrom(b)) == b.events;
    }
  }

  /** Stages that write one after another pair to the concatenation of their own pairings. */
  lemma {:induction false} SequentialStagesConcatenate(blocks: seq<Block>)
    requires OneBlockEach(blocks) && WellSeparated(InTurn(blocks))
    ensures PairAll(Requests(File(InTurn(blocks))), File(InTurn(blocks))) == JoinedPairs(blocks)
  {
    FileTotal(InTurn(blocks), InTurn(blocks));
    FirstBlocksConcatenate(blocks, |blocks|);
    assert blocks[..|blocks|] == blocks;
  }
}
