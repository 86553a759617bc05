/** The append-only store of workflow snapshots (state/store.py) and the injection that
    tampers with its latest file (reliability/injection.py). A file is seen as the document
    its text encodes. */
module StateStore {
  import opened Numerals
  import opened Payloads
  import opened Sequences
  import opened SnapshotNames
  import opened WorkflowStates

  /** A file by workflow directory and name. */
  datatype Key = Key(workflow: string, name: string)

  type Files = map<Key, Json>

  datatype Snapshot = Snapshot(version: int, savedAt: string, revision: string, state: WorkflowState)

  datatype StoreError = Missing | SchemaRefused | Unreadable

  function Envelope(version: nat, savedAt: string, revision: string, state: WorkflowState): Json {
    JObj(map["snapshot_version" := JNum(version), "saved_at" := JStr(savedAt),
             "repository_revision" := JStr(revision), "state" := ToPayload(state)])
  }

  function Open(document: Json): Result<Snapshot, StoreError> {
    var version, savedAt := Number(Field(document, "snapshot_version")), Text(Field(document, "saved_at"));
    var revision, payload := Text(Field(document, "repository_revision")), Field(document, "state");
    if version.None? || savedAt.None? || revision.None? || payload.None? then Err(Unreadable)
    else
      match FromPayload(payload.value)
      case Err(SchemaMismatch) => Err(SchemaRefused)
      case Err(Malformed) => Err(Unreadable)
      case Ok(state) => Ok(Snapshot(version.value, savedAt.value, revision.value, state))
  }

  function Load(files: Files, workflow: string, version: nat): Result<Snapshot, StoreError> {
    var key := Key(workflow, SnapshotName(version));
    if key in files then Open(files[key]) else Err(Missing)
  }

  /** The version numbers of the files that look like snapshots. */
  function VersionSet(files: Files, workflow: string): set<int> {
    set key | key in files.Keys && key.workflow == workflow && IsSnapshotName(key.name) :: VersionOf(key.name)
  }

  ghost predicate AscendingListOf(r: seq<int>, s: set<int>) {
    && (forall i, j :: 0 <= i < j < |r| ==> r[i] < r[j])
    && (forall x :: x in r <==> x in s)
  }

  ghost predicate IsNext(next: nat, s: set<int>) {
    if s == {} then next == 1 else next - 1 in s && forall x :: x in s ==> x < next
  }

  // ---------- Histories ----------

  datatype SaveOp = SaveOp(state: WorkflowState, revision: string, savedAt: string)

  /** The saves of one workflow, in order. */
  function Of(ops: seq<SaveOp>, workflow: string): seq<SaveOp> {
    if ops == [] then []
    else
      var last := ops[|ops| - 1];
      Of(ops[..|ops| - 1], workflow) + if last.state.workflowId == workflow then [last] else []
  }

  /** The k-th file of the workflow is the k-th save's envelope, and there are no others. */
  ghost predicate Holds(files: Files, workflow: string, saves: seq<SaveOp>) {
    && (forall k: nat :: 1 <= k <= |saves| ==>
          && Key(workflow, SnapshotName(k)) in files
          && files[Key(workflow, SnapshotName(k))]
             == Envelope(k, saves[k - 1].savedAt, saves[k - 1].revision, saves[k - 1].state))
    && (forall name :: Key(workflow, name) in files ==> exists k: nat :: 1 <= k <= |saves| && name == SnapshotName(k))
  }

  /** The files are what these saves left. */
  ghost predicate After(files: Files, ops: seq<SaveOp>) {
    forall workflow :: Holds(files, workflow, Of(ops, workflow))
  }

  // ---------- Tampering with the latest file ----------

  /** What the injection looks for: the prefix, anything, the suffix. */
  predicate Globbed(name: string) {
    |name| >= 12 && name[..7] == PREFIX && name[|name| - 5..] == SUFFIX
  }

  /** A name of the directory that no other follows in name order. */
  ghost predicate LastByName(files: Files, workflow: string, name: string) {
    && Key(workflow, name) in files && Globbed(name)
    && forall other :: Key(workflow, other) in files && Globbed(other) ==> !StrLess(name, other)
  }

  function GlobbedNames(files: Files, workflow: string): (r: set<string>)
    ensures forall name :: name in r <==> Key(workflow, name) in files && Globbed(name)
  {
    assert forall name :: Key(workflow, name) in files <==> Key(workflow, name) in files.Keys;
    set key | key in files.Keys && key.workflow == workflow && Globbed(key.name) :: key.name
  }

  /** The document with its state's schema version replaced. */
  function Tampered(document: Json, schemaVersion: string): Json {
    var payload := Field(document, "state");
    if payload.Some? && payload.value.JObj? && document.JObj? then
      JObj(document.fields["state" := JObj(payload.value.fields["schema_version" := JStr(schemaVersion)])])
    else document
  }

  /** The name that sorts last. */
  method LastOf(names: set<string>) returns (last: string)
    requires names != {}
    ensures last in names && forall other :: other in names ==> !StrLess(last, other)
  {
    hide StrLess;
    last :| last in names;
    var rest := names - {last};
    StrTotal(last, last);
    while rest != {}
      invariant rest <= names && last in names
      invariant forall other :: other in names - rest ==> !StrLess(last, other)
      decreases |rest|
    {
      var name :| name in rest;
      StrTotal(last, name);
      StrTotal(name, name);
      if StrLess(last, name) {
        forall seen | seen in names - rest ensures !StrLess(name, seen) {
          if StrLess(name, seen) { StrTransitive(last, name, seen); }
        }
        last := name;
      }
      rest := rest - {name};
    }
  }

  // ---------- The store ----------

  class WorkflowStateStore {
    var files: Files
    var artifacts: map<Key, map<string, Json>>

    constructor ()
      ensures files == map[] && artifacts == map[] && After(files, [])
    {
      files, artifacts := map[], map[];
    }

    /** Every persisted version, ascending. */
    method Versions(workflow: string) returns (r: seq<int>)
      ensures AscendingListOf(r, VersionSet(files, workflow))
    {
      hide VersionSet, AscendingListOf, Separates;
      var all := VersionSet(files, workflow);
      var rest := all;
      r := [];
      NoneAscending(all);
      assert all - rest == {};
      while rest != {}
        invariant rest <= all && AscendingListOf(r, all - rest)
        invariant Separates(all - rest, rest)
        decreases |rest|
      {
        ghost var lowest := Least(rest);
        var least :| least in rest && forall x :: x in rest ==> least <= x;
        LeastMoves(all - rest, rest, least);
        AscendingSnoc(r, all - rest, least);
        assert all - (rest - {least}) == (all - rest) + {least};
        r := r + [least];
        rest := rest - {least};
      }
      assert all - {} == all;
    }

    method NextVersion(workflow: string) returns (next: nat)
      ensures IsNext(next, VersionSet(files, workflow))
    {
      var existing := Versions(workflow);
      if existing == [] { return 1; }
      var last := existing[|existing| - 1];
      assert last in VersionSet(files, workflow);
      VersionsAreNotNegative(files, workflow, last);
      return last + 1;
    }

    /** Assigns the next version. Its file cannot exist yet, so nothing is overwritten. */
    method Save(state: WorkflowState, revision: string, now: string) returns (r: Snapshot)
      modifies this`files
      ensures exists next: nat | IsNext(next, old(VersionSet(files, state.workflowId))) ::
                var key := Key(state.workflowId, SnapshotName(next));
                && r == Snapshot(next, now, revision, state)
                && key !in old(files) && files == old(files)[key := Envelope(next, now, revision, state)]
      ensures forall ops :: After(old(files), ops) ==> After(files, ops + [SaveOp(state, revision, now)])
    {
      var next := NextVersion(state.workflowId);
      var key := Key(state.workflowId, SnapshotName(next));
      NextIsFree(files, state.workflowId, next);
      forall ops | After(files, ops)
        ensures After(files[key := Envelope(next, now, revision, state)], ops + [SaveOp(state, revision, now)])
      {
        SaveExtends(files, ops, SaveOp(state, revision, now), next);
      }
      files := files[key := Envelope(next, now, revision, state)];
      return Snapshot(next, now, revision, state);
    }

    method LoadLatest(workflow: string) returns (r: Result<Snapshot, StoreError>)
      ensures if VersionSet(files, workflow) == {} then r == Err(Missing)
              else exists newest: nat | IsNext(newest + 1, VersionSet(files, workflow)) ::
                     r == Load(files, workflow, newest)
    {
      var existing := Versions(workflow);
      if existing == [] { return Err(Missing); }
      var newest := existing[|existing| - 1];
      VersionsAreNotNegative(files, workflow, newest);
      var version: nat := newest;
      assert IsNext(version + 1, VersionSet(files, workflow));
      r := Load(files, workflow, version);
    }

    /** The injection: rewrites the file whose name sorts last. */
    method CorruptLatestSnapshot(workflow: string, schemaVersion: string) returns (name: Option<string>)
      modifies this`files
      ensures name.None? ==> files == old(files) && GlobbedNames(files, workflow) == {}
      ensures name.Some? ==>
                && LastByName(old(files), workflow, name.value)
                && var key := Key(workflow, name.value);
                   files == old(files)[key := Tampered(old(files)[key], schemaVersion)]
    {
      hide StrLess, Tampered, Globbed;
      var names := GlobbedNames(files, workflow);
      if names == {} { return None; }
      var last := LastOf(names);
      files := files[Key(workflow, last) := Tampered(files[Key(workflow, last)], schemaVersion)];
      return Some(last);
    }

    method SaveArtifact(workflow: string, id: string, payload: map<string, Json>)
      modifies this`artifacts
      ensures artifacts == old(artifacts)[Key(workflow, id) := payload]
    {
      artifacts := artifacts[Key(workflow, id) := payload];
    }

    method LoadArtifact(workflow: string, id: string) returns (r: Result<map<string, Json>, StoreError>)
      ensures r.Ok? <==> Key(workflow, id) in artifacts
      ensures r.Ok? ==> r.value == artifacts[Key(workflow, id)]
      ensures r.Err? ==> r.error == Missing
    {
      if Key(workflow, id) in artifacts { return Ok(artifacts[Key(workflow, id)]); }
      return Err(Missing);
    }
  }

  ghost predicate Separates(lower: set<int>, upper: set<int>) {
    forall x, y :: x in lower && y in upper ==> x < y
  }

  lemma {:induction false} LeastMoves(lower: set<int>, upper: set<int>, least: int)
    requires Separates(lower, upper) && least in upper && forall x :: x in upper ==> least <= x
    ensures Separates(lower + {least}, upper - {least}) && forall y :: y in lower ==> y < least
  {
  }

  lemma {:induction false} NoneAscending(all: set<int>)
    ensures AscendingListOf([], {}) && Separates({}, all)
  {
  }

  lemma {:induction false} AscendingSnoc(r: seq<int>, s: set<int>, x: int)
    requires AscendingListOf(r, s) && forall y :: y in s ==> y < x
    ensures AscendingListOf(r + [x], s + {x})
  {
    forall i, j | 0 <= i < j < |r + [x]| ensures (r + [x])[i] < (r + [x])[j] {
      assert r[i] in r;
    }
  }

  lemma {:induction false} SomeMember<T>(s: set<T>) returns (x: T)
    requires s != {}
    ensures x in s
  {
    x :| x in s;
  }

  lemma {:induction false} Least(s: set<int>) returns (least: int)
    requires s != {}
    ensures least in s && forall x :: x in s ==> least <= x
    decreases |s|
  {
    least := SomeMember(s);
    var rest := s - {least};
    if rest != {} {
      var other := Least(rest);
      assert forall y :: y in s ==> y == least || y in rest;
      if other < least { least := other; }
    } else {
      assert s == {least};
    }
  }

  lemma {:induction false} VersionsAreNotNegative(files: Files, workflow: string, version: int)
    requires version in VersionSet(files, workflow)
    ensures version >= 0
  {
    var key :| && key in files.Keys && key.workflow == workflow
               && IsSnapshotName(key.name) && VersionOf(key.name) == version;
    NumeralsAreNotNegative(Middle(key.name));
  }

  lemma {:induction false} FileHasVersion(files: Files, workflow: string, n: nat)
    requires Key(workflow, SnapshotName(n)) in files
    ensures n in VersionSet(files, workflow)
  {
    VersionOfName(n);
    var key := Key(workflow, SnapshotName(n));
    assert key in files.Keys && VersionOf(key.name) == n;
  }

  /** The next version's file cannot be there already. */
  lemma {:induction false} NextIsFree(files: Files, workflow: string, next: nat)
    requires IsNext(next, VersionSet(files, workflow))
    ensures Key(workflow, SnapshotName(next)) !in files
  {
    hide VersionSet, SnapshotName;
    if Key(workflow, SnapshotName(next)) in files {
      FileHasVersion(files, workflow, next);
    }
  }

  // ---------- What a history of saves guarantees ----------

  /** The versions are exactly 1 to the number of saves. */
  lemma {:induction false} VersionsOfHistory(files: Files, workflow: string, saves: seq<SaveOp>)
    requires Holds(files, workflow, saves)
    ensures forall x :: x in VersionSet(files, workflow) <==> 1 <= x <= |saves|
  {
    hide SnapshotName, Envelope, VersionSet;
    forall x ensures x in VersionSet(files, workflow) <==> 1 <= x <= |saves| {
      if 1 <= x <= |saves| {
        FileHasVersion(files, workflow, x);
      }
      if x in VersionSet(files, workflow) {
        var name := VersionHasFile(files, workflow, x);
        var k: nat :| 1 <= k <= |saves| && name == SnapshotName(k);
        VersionOfName(k);
      }
    }
  }

  lemma {:induction false} VersionHasFile(files: Files, workflow: string, x: int) returns (name: string)
    requires x in VersionSet(files, workflow)
    ensures Key(workflow, name) in files && IsSnapshotName(name) && VersionOf(name) == x
  {
    var key :| key in files.Keys && key.workflow == workflow && IsSnapshotName(key.name) && VersionOf(key.name) == x;
    name := key.name;
    assert key == Key(workflow, name);
  }

  lemma {:induction false} NextOfHistory(files: Files, workflow: string, saves: seq<SaveOp>, next: nat)
    requires Holds(files, workflow, saves) && IsNext(next, VersionSet(files, workflow))
    ensures next == |saves| + 1
  {
    VersionsOfHistory(files, workflow, saves);
    var s := VersionSet(files, workflow);
    if s != {} {
      assert 1 <= next - 1 <= |saves| && |saves| in s;
    } else {
      assert |saves| !in s;
    }
  }

  lemma {:induction false} HoldsMore(files: Files, workflow: string, saves: seq<SaveOp>, op: SaveOp)
    requires Holds(files, workflow, saves)
    ensures var n := |saves| + 1;
            var document := Envelope(n, op.savedAt, op.revision, op.state);
            Holds(files[Key(workflow, SnapshotName(n)) := document], workflow, saves + [op])
  {
    hide SnapshotName, Envelope;
    var n := |saves| + 1;
    var all := saves + [op];
    var after := files[Key(workflow, SnapshotName(n)) := Envelope(n, op.savedAt, op.revision, op.state)];
    forall k: nat | 1 <= k <= |all|
      ensures Key(workflow, SnapshotName(k)) in after
      ensures after[Key(workflow, SnapshotName(k))]
              == Envelope(k, all[k - 1].savedAt, all[k - 1].revision, all[k - 1].state)
    {
      NamesDiffer(k, n);
    }
    forall name | Key(workflow, name) in after ensures exists k: nat :: 1 <= k <= |all| && name == SnapshotName(k) {
      if name == SnapshotName(n) {
        assert 1 <= n <= |all|;
      } else {
        assert Key(workflow, name) in files;
        var k: nat :| 1 <= k <= |saves| && name == SnapshotName(k);
        assert 1 <= k <= |all|;
      }
    }
  }

  lemma {:induction false} HoldsElsewhere(files: Files, workflow: string, saves: seq<SaveOp>, key: Key, document: Json)
    requires Holds(files, workflow, saves) && key.workflow != workflow
    ensures Holds(files[key := document], workflow, saves)
  {
    hide SnapshotName, Envelope;
    forall name | Key(workflow, name) in files[key := document]
      ensures exists k: nat :: 1 <= k <= |saves| && name == SnapshotName(k)
    {
      assert Key(workflow, name) in files;
    }
  }

  /** A save appends to its own workflow's history and leaves every other alone. */
  lemma {:induction false} SaveExtends(files: Files, ops: seq<SaveOp>, op: SaveOp, next: nat)
    requires After(files, ops) && IsNext(next, VersionSet(files, op.state.workflowId))
    ensures next == |Of(ops, op.state.workflowId)| + 1
    ensures var document := Envelope(next, op.savedAt, op.revision, op.state);
            After(files[Key(op.state.workflowId, SnapshotName(next)) := document], ops + [op])
  {
    var w := op.state.workflowId;
    hide Holds, SnapshotName, Envelope, VersionSet;
    assert Holds(files, w, Of(ops, w));
    NextOfHistory(files, w, Of(ops, w), next);
    var key, document := Key(w, SnapshotName(next)), Envelope(next, op.savedAt, op.revision, op.state);
    assert (ops + [op])[..|ops|] == ops;
    forall workflow ensures Holds(files[key := document], workflow, Of(ops + [op], workflow)) {
      assert Holds(files, workflow, Of(ops, workflow));
      if workflow == w {
        HoldsMore(files, w, Of(ops, w), op);
      } else {
        HoldsElsewhere(files, workflow, Of(ops, workflow), key, document);
        assert Of(ops, workflow) + [] == Of(ops, workflow);
      }
    }
  }

  lemma {:induction false} OpenEnvelope(version: nat, op: SaveOp)
    ensures Open(Envelope(version, op.savedAt, op.revision, op.state))
            == if op.state.schemaVersion == SCHEMA_VERSION then Ok(Snapshot(version, op.savedAt, op.revision, op.state))
               else Err(SchemaRefused)
  {
    hide FromPayload, ToPayload;
    StateRoundTrip(op.state);
  }

  /** After any saves of any workflows: version k of a workflow loads as that workflow's k-th
      save, exactly, whatever was saved since; a state of another schema version is refused;
      any other version is missing. */
  lemma {:induction false} LoadReturnsTheSave(files: Files, ops: seq<SaveOp>, workflow: string, k: nat)
    requires After(files, ops)
    ensures var saves := Of(ops, workflow);
            Load(files, workflow, k)
            == if !(1 <= k <= |saves|) then Err(Missing)
               else
                 var op := saves[k - 1];
                 if op.state.schemaVersion == SCHEMA_VERSION then Ok(Snapshot(k, op.savedAt, op.revision, op.state))
                 else Err(SchemaRefused)
  {
    hide Open, Envelope, SnapshotName;
    var saves := Of(ops, workflow);
    assert Holds(files, workflow, saves);
    if 1 <= k <= |saves| {
      OpenEnvelope(k, saves[k - 1]);
    } else if Key(workflow, SnapshotName(k)) in files {
      var j: nat :| 1 <= j <= |saves| && SnapshotName(k) == SnapshotName(j);
      NamesDiffer(k, j);
    }
  }

  /** The latest snapshot is the last save's. */
  lemma {:induction false} LatestIsTheLastSave(files: Files, ops: seq<SaveOp>, workflow: string, newest: nat)
    requires After(files, ops) && VersionSet(files, workflow) != {} && IsNext(newest + 1, VersionSet(files, workflow))
    ensures newest == |Of(ops, workflow)|
  {
    assert Holds(files, workflow, Of(ops, workflow));
    NextOfHistory(files, workflow, Of(ops, workflow), newest + 1);
  }

  /** Earlier saves keep their place among the later ones. */
  lemma {:induction false} HistoryOnlyGrows(ops: seq<SaveOp>, more: seq<SaveOp>, workflow: string)
    ensures Of(ops, workflow) <= Of(ops + more, workflow)
  {
    if more == [] {
      assert ops + more == ops;
    } else {
      var n := |more| - 1;
      HistoryOnlyGrows(ops, more[..n], workflow);
      assert (ops + more)[..|ops| + n] == ops + more[..n];
    }
  }

  // ---------- Whether tampering is noticed ----------

  /** Tampering is storing the same state under another schema version. */
  lemma {:induction false} TamperedIsRestamped(version: nat, op: SaveOp, schemaVersion: string)
    ensures Tampered(Envelope(version, op.savedAt, op.revision, op.state), schemaVersion)
            == Envelope(version, op.savedAt, op.revision, op.state.(schemaVersion := schemaVersion))
  {
    hide ToPayload;
    var d := Envelope(version, op.savedAt, op.revision, op.state);
    PayloadRestamped(op.state, schemaVersion);
    assert Field(d, "state") == Some(ToPayload(op.state));
    assert d.fields["state" := ToPayload(op.state.(schemaVersion := schemaVersion))]
      == Envelope(version, op.savedAt, op.revision, op.state.(schemaVersion := schemaVersion)).fields;
  }

  lemma {:induction false} PayloadRestamped(s: WorkflowState, schemaVersion: string)
    ensures ToPayload(s).JObj?
    ensures JObj(ToPayload(s).fields["schema_version" := JStr(schemaVersion)])
            == ToPayload(s.(schemaVersion := schemaVersion))
  {
    hide BlockFields;
    SameBlocks(s, schemaVersion);
  }

  lemma {:induction false} SameBlocks(s: WorkflowState, schemaVersion: string)
    ensures BlockFields(s) == BlockFields(s.(schemaVersion := schemaVersion))
  {
    hide TaskPayload, StatusPayload, PoliciesPayload, ArtifactsPayload, BudgetsPayload, EncodeAll, OptionalPayload;
  }

  /** The last name is the newest version's exactly when name order agrees with version
      order. */
  lemma {:induction false} LastNameIsNewestIff(files: Files, workflow: string, saves: seq<SaveOp>, name: string)
    requires Holds(files, workflow, saves) && saves != [] && LastByName(files, workflow, name)
    ensures name == SnapshotName(|saves|) <==> NewestSortsLast(|saves|)
  {
    hide SnapshotName, Envelope, StrLess;
    var n := |saves|;
    var k: nat :| 1 <= k <= n && name == SnapshotName(k);
    assert Key(workflow, SnapshotName(n)) in files;
    VersionOfName(n);
    StrTotal(name, SnapshotName(n));
    if name == SnapshotName(n) {
      forall j: nat | 1 <= j < n ensures StrLess(SnapshotName(j), SnapshotName(n)) {
        assert Key(workflow, SnapshotName(j)) in files;
        VersionOfName(j);
        NamesDiffer(j, n);
        StrTotal(SnapshotName(j), SnapshotName(n));
      }
    }
  }

  /** Tampering with the file that sorts last makes the latest snapshot unreadable exactly
      while name order finds the newest version (for up to 9999 snapshots, and beyond only when
      every digit of their number but the last is a nine) and the version written is not the
      current one. Otherwise the latest snapshot still loads. */
  lemma {:induction false} TamperingIsNoticedIff(
      files: Files, ops: seq<SaveOp>, workflow: string, name: string, schemaVersion: string)
    requires After(files, ops) && Of(ops, workflow) != [] && LastByName(files, workflow, name)
    ensures var n := |Of(ops, workflow)|;
            var op, key := Of(ops, workflow)[n - 1], Key(workflow, name);
            var found := n <= 9999 || NinesButTheLast(n);
            Load(files[key := Tampered(files[key], schemaVersion)], workflow, n)
            == if !found then Load(files, workflow, n)
               else if schemaVersion != SCHEMA_VERSION then Err(SchemaRefused)
               else Ok(Snapshot(n, op.savedAt, op.revision, op.state.(schemaVersion := SCHEMA_VERSION)))
  {
    hide SnapshotName, Envelope, Open, Tampered, StrLess, NinesButTheLast;
    var saves := Of(ops, workflow);
    var n := |saves|;
    var op := saves[n - 1];
    assert Holds(files, workflow, saves);
    LastNameIsNewestIff(files, workflow, saves, name);
    NewestSortsLastIff(n);
    TamperedIsRestamped(n, op, schemaVersion);
    OpenEnvelope(n, op.(state := op.state.(schemaVersion := schemaVersion)));
  }

  /** Stamped with the current version, a snapshot that had it loads as if nothing happened. */
  lemma {:induction false} CurrentVersionGoesUnnoticed(
      files: Files, ops: seq<SaveOp>, workflow: string, name: string)
    requires After(files, ops) && Of(ops, workflow) != [] && LastByName(files, workflow, name)
    requires Of(ops, workflow)[|Of(ops, workflow)| - 1].state.schemaVersion == SCHEMA_VERSION
    ensures var n, key := |Of(ops, workflow)|, Key(workflow, name);
            Load(files[key := Tampered(files[key], SCHEMA_VERSION)], workflow, n) == Load(files, workflow, n)
  {
    hide Load, Tampered, NinesButTheLast;
    var op := Of(ops, workflow)[|Of(ops, workflow)| - 1];
    TamperingIsNoticedIff(files, ops, workflow, name, SCHEMA_VERSION);
    LoadReturnsTheSave(files, ops, workflow, |Of(ops, workflow)|);
    assert op.state.(schemaVersion := SCHEMA_VERSION) == op.state;
  }
}
