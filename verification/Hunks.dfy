/** Hunks of a unified diff: where they go in a text and what they make of it
    (workflows/integration.py). */
module Hunks {
  import opened Sequences

  /** One line of a hunk body. */
  datatype HunkLine = Context(text: string) | Removed(text: string) | Added(text: string)

  function Before(hunk: seq<HunkLine>): seq<string> {
    if hunk == [] then []
    else (if hunk[0].Added? then [] else [hunk[0].text]) + Before(hunk[1..])
  }

  function After(hunk: seq<HunkLine>): seq<string> {
    if hunk == [] then []
    else (if hunk[0].Removed? then [] else [hunk[0].text]) + After(hunk[1..])
  }

  /** The first place at or after `at` where `part` occurs in `lines`. */
  function FindLines(lines: seq<string>, part: seq<string>, at: nat): Option<nat>
    decreases |lines| - at
  {
    if at + |part| > |lines| then None
    else if lines[at..at + |part|] == part then Some(at)
    else FindLines(lines, part, at + 1)
  }

  /** Where a hunk goes: without context before its changes it is tied to the beginning of the
      file, without context after them to the end. */
  function Place(lines: seq<string>, hunk: seq<HunkLine>): (at: Option<nat>)
    ensures at.Some? ==>
              var n := |Before(hunk)|; at.value + n <= |lines| && lines[at.value..at.value + n] == Before(hunk)
  {
    var part := Before(hunk);
    var leads, trails := hunk != [] && hunk[0].Context?, hunk != [] && hunk[|hunk| - 1].Context?;
    if leads && trails then
      FoundThere(lines, part, 0);
      FindLines(lines, part, 0)
    else
      var at := if leads then |lines| - |part| else 0;
      if |part| <= |lines| && lines[at..at + |part|] == part && (trails || at + |part| == |lines|) then Some(at)
      else None
  }

  lemma {:induction false} FoundThere(lines: seq<string>, part: seq<string>, at: nat)
    ensures var found := FindLines(lines, part, at);
            found.Some? ==>
              found.value + |part| <= |lines| && lines[found.value..found.value + |part|] == part
    decreases |lines| - at
  {
    if at + |part| <= |lines| && lines[at..at + |part|] != part {
      FoundThere(lines, part, at + 1);
    }
  }

  function ApplyHunks(lines: seq<string>, hunks: seq<seq<HunkLine>>): Option<seq<string>>
    decreases |hunks|
  {
    if hunks == [] then Some(lines)
    else
      match Place(lines, hunks[0])
      case None => None
      case Some(at) =>
        ApplyHunks(lines[..at] + After(hunks[0]) + lines[at + |Before(hunks[0])|..], hunks[1..])
  }

  function AllContext(lines: seq<string>): seq<HunkLine> {
    seq(|lines|, i requires 0 <= i < |lines| => Context(lines[i]))
  }

  function AllRemoved(lines: seq<string>): seq<HunkLine> {
    seq(|lines|, i requires 0 <= i < |lines| => Removed(lines[i]))
  }

  function AllAdded(lines: seq<string>): seq<HunkLine> {
    seq(|lines|, i requires 0 <= i < |lines| => Added(lines[i]))
  }

  // ---------- The two sides of a hunk ----------

  lemma {:induction false} BeforeConcat(a: seq<HunkLine>, b: seq<HunkLine>)
    ensures Before(a + b) == Before(a) + Before(b)
  {
    if a == [] {
      assert a + b == b;
    } else {
      BeforeConcat(a[1..], b);
      assert (a + b)[0] == a[0] && (a + b)[1..] == a[1..] + b;
      ConcatAssociative(if a[0].Added? then [] else [a[0].text], Before(a[1..]), Before(b));
    }
  }

  lemma {:induction false} AfterConcat(a: seq<HunkLine>, b: seq<HunkLine>)
    ensures After(a + b) == After(a) + After(b)
  {
    if a == [] {
      assert a + b == b;
    } else {
      AfterConcat(a[1..], b);
      assert (a + b)[0] == a[0] && (a + b)[1..] == a[1..] + b;
      ConcatAssociative(if a[0].Removed? then [] else [a[0].text], After(a[1..]), After(b));
    }
  }

  lemma {:induction false} SidesOfRemoved(lines: seq<string>)
    ensures Before(AllRemoved(lines)) == lines && After(AllRemoved(lines)) == []
  {
    if lines != [] {
      SidesOfRemoved(lines[1..]);
      assert AllRemoved(lines)[1..] == AllRemoved(lines[1..]);
    }
  }

  lemma {:induction false} SidesOfAdded(lines: seq<string>)
    ensures Before(AllAdded(lines)) == [] && After(AllAdded(lines)) == lines
  {
    if lines != [] {
      SidesOfAdded(lines[1..]);
      assert AllAdded(lines)[1..] == AllAdded(lines[1..]);
    }
  }

  lemma {:induction false} SidesOfContext(lines: seq<string>)
    ensures Before(AllContext(lines)) == lines && After(AllContext(lines)) == lines
  {
    if lines != [] {
      SidesOfContext(lines[1..]);
      assert AllContext(lines)[1..] == AllContext(lines[1..]);
    }
  }

  // ---------- What a hunk does, read off its lines ----------

  /** A stretch of a hunk: lines it keeps, then lines it replaces by others. */
  datatype Strip = Strip(kept: seq<string>, removed: seq<string>, added: seq<string>)

  function StripLines(s: Strip): seq<HunkLine> {
    AllContext(s.kept) + AllRemoved(s.removed) + AllAdded(s.added)
  }

  /** The hunk that shows these strips and ends in the kept lines `trail`. */
  function Written(strips: seq<Strip>, trail: seq<string>): seq<HunkLine> {
    if strips == [] then AllContext(trail) else StripLines(strips[0]) + Written(strips[1..], trail)
  }

  function OldText(strips: seq<Strip>, trail: seq<string>): seq<string> {
    if strips == [] then trail else strips[0].kept + strips[0].removed + OldText(strips[1..], trail)
  }

  function NewText(strips: seq<Strip>, trail: seq<string>): seq<string> {
    if strips == [] then trail else strips[0].kept + strips[0].added + NewText(strips[1..], trail)
  }

  /** `part` stands in `text` behind the first `k` lines. */
  ghost predicate StandsAt(text: seq<string>, part: seq<string>, k: nat) {
    k + |part| <= |text| && text[k..k + |part|] == part
  }

  predicate Leads(hunk: seq<HunkLine>) {
    hunk != [] && hunk[0].Context?
  }

  predicate Trails(hunk: seq<HunkLine>) {
    hunk != [] && hunk[|hunk| - 1].Context?
  }

  /** Behind `pre` and before `post` is where a hunk goes that looks for `part`: at the
      beginning of the text if it begins with a change, at the end if it ends with one, and
      otherwise where `part` first stands. */
  ghost predicate Tied(hunk: seq<HunkLine>, pre: seq<string>, part: seq<string>, post: seq<string>) {
    && (!Leads(hunk) ==> pre == [])
    && (!Trails(hunk) ==> post == [])
    && (Leads(hunk) && Trails(hunk) ==> forall j: nat :: j < |pre| ==> !StandsAt(pre + part + post, part, j))
  }

  datatype Fit = Fit(pre: seq<string>, strips: seq<Strip>, trail: seq<string>, post: seq<string>)

  ghost predicate FitsAt(a: seq<string>, hunk: seq<HunkLine>, b: seq<string>, f: Fit) {
    && hunk == Written(f.strips, f.trail)
    && a == f.pre + OldText(f.strips, f.trail) + f.post
    && b == f.pre + NewText(f.strips, f.trail) + f.post
    && Tied(hunk, f.pre, OldText(f.strips, f.trail), f.post)
  }

  /** The hunk turns one text into the other: the lines it keeps and removes stand where it
      goes, and there the lines it keeps and adds stand afterwards. */
  ghost predicate Turns(a: seq<string>, hunk: seq<HunkLine>, b: seq<string>) {
    exists f: Fit :: FitsAt(a, hunk, b, f)
  }

  lemma {:induction false} SidesOfWritten(strips: seq<Strip>, trail: seq<string>)
    ensures Before(Written(strips, trail)) == OldText(strips, trail)
    ensures After(Written(strips, trail)) == NewText(strips, trail)
  {
    hide Before, After, AllContext, StripLines;
    if strips == [] {
      SidesOfContext(trail);
    } else {
      SidesOfStrip(strips[0]);
      SidesOfWritten(strips[1..], trail);
      BeforeConcat(StripLines(strips[0]), Written(strips[1..], trail));
      AfterConcat(StripLines(strips[0]), Written(strips[1..], trail));
    }
  }

  lemma {:induction false} SidesOfStrip(s: Strip)
    ensures Before(StripLines(s)) == s.kept + s.removed && After(StripLines(s)) == s.kept + s.added
  {
    hide Before, After, AllContext, AllRemoved, AllAdded;
    var c, r, a := AllContext(s.kept), AllRemoved(s.removed), AllAdded(s.added);
    SidesOfContext(s.kept);
    SidesOfRemoved(s.removed);
    SidesOfAdded(s.added);
    BeforeConcat(c + r, a);
    BeforeConcat(c, r);
    AfterConcat(c + r, a);
    AfterConcat(c, r);
  }

  /** Every hunk shows some strips. */
  lemma {:induction false} EveryHunkIsWritten(hunk: seq<HunkLine>) returns (strips: seq<Strip>)
    ensures Written(strips, []) == hunk
  {
    if hunk == [] {
      strips := [];
    } else {
      var rest := EveryHunkIsWritten(hunk[1..]);
      var text := hunk[0].text;
      var s :=
        match hunk[0]
        case Context(_) => Strip([text], [], [])
        case Removed(_) => Strip([], [text], [])
        case Added(_) => Strip([], [], [text]);
      assert StripLines(s) == [hunk[0]];
      strips := [s] + rest;
      assert strips[1..] == rest;
    }
  }

  lemma {:induction false} FindsFirst(lines: seq<string>, part: seq<string>, at: nat, k: nat)
    ensures FindLines(lines, part, at) == Some(k)
            <==> at <= k && StandsAt(lines, part, k) && forall j: nat :: at <= j < k ==> !StandsAt(lines, part, j)
    decreases |lines| - at
  {
    if at + |part| <= |lines| && lines[at..at + |part|] != part {
      FindsFirst(lines, part, at + 1, k);
      assert !StandsAt(lines, part, at);
    } else if at + |part| <= |lines| {
      assert StandsAt(lines, part, at);
    }
  }

  lemma {:induction false} PlaceExact(hunk: seq<HunkLine>, pre: seq<string>, post: seq<string>)
    ensures Place(pre + Before(hunk) + post, hunk) == Some(|pre|) <==> Tied(hunk, pre, Before(hunk), post)
  {
    hide Before, FindLines;
    var part := Before(hunk);
    var lines := pre + part + post;
    assert lines[|pre|..|pre| + |part|] == part;
    FindsFirst(lines, part, 0, |pre|);
    assert StandsAt(lines, part, |pre|);
  }

  lemma {:induction false} OneHunk(lines: seq<string>, hunk: seq<HunkLine>)
    ensures ApplyHunks(lines, [hunk])
            == match Place(lines, hunk)
               case None => None
               case Some(at) => Some(lines[..at] + After(hunk) + lines[at + |Before(hunk)|..])
  {
    hide Before, After, Place;
    assert [hunk][1..] == [];
  }

  lemma {:induction false} TurnsApplies(a: seq<string>, hunk: seq<HunkLine>, b: seq<string>, f: Fit)
    requires FitsAt(a, hunk, b, f)
    ensures ApplyHunks(a, [hunk]) == Some(b)
  {
    hide Before, After, Place, Tied, ApplyHunks, Written, OldText, NewText;
    SidesOfWritten(f.strips, f.trail);
    PlaceExact(hunk, f.pre, f.post);
    OneHunk(a, hunk);
    assert a[..|f.pre|] == f.pre && a[|f.pre| + |Before(hunk)|..] == f.post;
  }

  /** A hunk applies to a text with a certain outcome exactly when it turns the one into the
      other: its context stays, what it removes is gone, and what it adds is there. */
  lemma {:induction false} HunkAppliesIff(a: seq<string>, hunk: seq<HunkLine>, b: seq<string>)
    ensures ApplyHunks(a, [hunk]) == Some(b) <==> Turns(a, hunk, b)
  {
    hide Before, After, Place, Tied, ApplyHunks, Written, OldText, NewText, FitsAt;
    if f: Fit :| FitsAt(a, hunk, b, f) {
      TurnsApplies(a, hunk, b, f);
    }
    OneHunk(a, hunk);
    if ApplyHunks(a, [hunk]) == Some(b) {
      var strips := EveryHunkIsWritten(hunk);
      AppliedFits(a, hunk, b, strips);
    }
  }

  lemma {:induction false} AppliedFits(a: seq<string>, hunk: seq<HunkLine>, b: seq<string>, strips: seq<Strip>)
    requires hunk == Written(strips, []) && Place(a, hunk).Some?
    requires var at := Place(a, hunk).value; b == a[..at] + After(hunk) + a[at + |Before(hunk)|..]
    ensures Turns(a, hunk, b)
  {
    hide Before, After, Place, Tied, Written, OldText, NewText;
    var at := Place(a, hunk).value;
    var f := Fit(a[..at], strips, [], a[at + |Before(hunk)|..]);
    SidesOfWritten(strips, []);
    PlaceExact(hunk, f.pre, f.post);
    assert a == f.pre + Before(hunk) + f.post;
    assert FitsAt(a, hunk, b, f);
  }

  /** A hunk of leading context, lines removed, lines added and trailing context. */
  datatype Change = Change(lead: seq<string>, was: seq<string>, now: seq<string>, trail: seq<string>)

  function ChangeLines(c: Change): seq<HunkLine> {
    AllContext(c.lead) + AllRemoved(c.was) + AllAdded(c.now) + AllContext(c.trail)
  }

  /** Where the lines removed stand between their context, the lines added stand afterwards,
      and nothing else changes. */
  ghost predicate ReplacedAt(
      lines: seq<string>, r: seq<string>, c: Change, pre: seq<string>, post: seq<string>) {
    var Change(lead, was, now, trail) := c;
    && lines == pre + (lead + was + trail) + post
    && r == pre + (lead + now + trail) + post
    && (lead == [] ==> pre == [])
    && (trail == [] ==> post == [])
    && (lead != [] && trail != [] ==> forall j: nat :: j < |pre| ==> !StandsAt(lines, lead + was + trail, j))
  }

  /** A hunk in context applies exactly where its context and the lines it removes stand
      together, and puts the lines it adds in the place of those. */
  lemma {:induction false} ChangeInContext(lines: seq<string>, c: Change, r: seq<string>)
    requires c.was != [] || c.now != []
    ensures ApplyHunks(lines, [ChangeLines(c)]) == Some(r) <==> exists pre, post :: ReplacedAt(lines, r, c, pre, post)
  {
    hide ApplyHunks, Before, After, Place, StandsAt;
    var hunk, strips := ChangeLines(c), [Strip(c.lead, c.was, c.now)];
    ChangeIsWritten(c);
    HunkAppliesIff(lines, hunk, r);
    SidesOfWritten(strips, c.trail);
    if f: Fit :| FitsAt(lines, hunk, r, f) {
      SidesOfWritten(f.strips, f.trail);
      assert OldText(f.strips, f.trail) == c.lead + c.was + c.trail;
      assert NewText(f.strips, f.trail) == c.lead + c.now + c.trail;
      AlsoReplaced(lines, r, c, f.pre, f.post);
    }
    if pre, post :| ReplacedAt(lines, r, c, pre, post) {
      AlsoFits(lines, r, c, pre, post);
    }
  }

  lemma {:induction false} ChangeIsWritten(c: Change)
    requires c.was != [] || c.now != []
    ensures var strips := [Strip(c.lead, c.was, c.now)];
            && Written(strips, c.trail) == ChangeLines(c)
            && OldText(strips, c.trail) == c.lead + c.was + c.trail
            && NewText(strips, c.trail) == c.lead + c.now + c.trail
    ensures Leads(ChangeLines(c)) <==> c.lead != []
    ensures Trails(ChangeLines(c)) <==> c.trail != []
  {
    var strips := [Strip(c.lead, c.was, c.now)];
    assert strips[1..] == [];
  }

  lemma {:induction false} AlsoReplaced(
      lines: seq<string>, r: seq<string>, c: Change, pre: seq<string>, post: seq<string>)
    requires c.was != [] || c.now != []
    requires lines == pre + (c.lead + c.was + c.trail) + post && r == pre + (c.lead + c.now + c.trail) + post
    requires Tied(ChangeLines(c), pre, c.lead + c.was + c.trail, post)
    ensures ReplacedAt(lines, r, c, pre, post)
  {
    hide StandsAt, ChangeLines;
    ChangeIsWritten(c);
  }

  lemma {:induction false} AlsoFits(lines: seq<string>, r: seq<string>, c: Change, pre: seq<string>, post: seq<string>)
    requires c.was != [] || c.now != []
    requires ReplacedAt(lines, r, c, pre, post)
    ensures FitsAt(lines, ChangeLines(c), r, Fit(pre, [Strip(c.lead, c.was, c.now)], c.trail, post))
  {
    hide StandsAt, ChangeLines, Written, OldText, NewText;
    ChangeIsWritten(c);
  }

  // ---------- A list of hunks ----------

  lemma {:induction false} FirstHunk(a: seq<string>, hunks: seq<seq<HunkLine>>)
    requires hunks != []
    ensures ApplyHunks(a, hunks)
            == match ApplyHunks(a, [hunks[0]])
               case None => None
               case Some(b) => ApplyHunks(b, hunks[1..])
  {
    hide Before, After, Place;
    OneHunk(a, hunks[0]);
  }

  /** Each hunk turns one text into the next. */
  ghost predicate Chain(a: seq<string>, hunks: seq<seq<HunkLine>>, b: seq<string>, texts: seq<seq<string>>) {
    && |texts| == |hunks| + 1 && texts[0] == a && texts[|hunks|] == b
    && forall k :: 0 <= k < |hunks| ==> Turns(texts[k], hunks[k], texts[k + 1])
  }

  /** Hunks go in one after the other, each into what those before it made of the file. */
  lemma {:induction false} HunksApplyIff(a: seq<string>, hunks: seq<seq<HunkLine>>, b: seq<string>)
    ensures ApplyHunks(a, hunks) == Some(b) <==> exists texts :: Chain(a, hunks, b, texts)
    decreases |hunks|
  {
    hide Turns;
    if hunks == [] {
      hide ApplyHunks;
      NoHunks(a);
      assert a == b ==> Chain(a, hunks, b, [a]);
    } else {
      hide ApplyHunks;
      FirstHunk(a, hunks);
      if ApplyHunks(a, hunks) == Some(b) {
        var mid := ApplyHunks(a, [hunks[0]]).value;
        HunkAppliesIff(a, hunks[0], mid);
        HunksApplyIff(mid, hunks[1..], b);
        var rest :| Chain(mid, hunks[1..], b, rest);
        assert Chain(a, hunks, b, [a] + rest);
      }
      if texts :| Chain(a, hunks, b, texts) {
        HunkAppliesIff(a, hunks[0], texts[1]);
        HunksApplyIff(texts[1], hunks[1..], b);
        assert Chain(texts[1], hunks[1..], b, texts[1..]);
      }
    }
  }

  lemma {:induction false} NoHunks(a: seq<string>)
    ensures ApplyHunks(a, []) == Some(a)
  {
  }

  /** A stretch of a file no hunk covers, and the hunk after it. */
  datatype Piece = Piece(gap: seq<string>, change: Change)

  function HunksOf(pieces: seq<Piece>): seq<seq<HunkLine>> {
    seq(|pieces|, k requires 0 <= k < |pieces| => ChangeLines(pieces[k].change))
  }

  /** The file the hunks were made for, from the first gap on. */
  function OldFile(pieces: seq<Piece>, rest: seq<string>): seq<string> {
    if pieces == [] then rest
    else
      var Piece(gap, c) := pieces[0];
      gap + (c.lead + c.was + c.trail) + OldFile(pieces[1..], rest)
  }

  function NewFile(pieces: seq<Piece>, rest: seq<string>): seq<string> {
    if pieces == [] then rest
    else
      var Piece(gap, c) := pieces[0];
      gap + (c.lead + c.now + c.trail) + NewFile(pieces[1..], rest)
  }

  /** Behind the finished text `done` each hunk finds its own lines: the next one is tied there,
      and so on. */
  ghost predicate Located(done: seq<string>, pieces: seq<Piece>, rest: seq<string>)
    decreases |pieces|
  {
    pieces != [] ==>
      var Piece(gap, c) := pieces[0];
      && (c.was != [] || c.now != [])
      && Tied(ChangeLines(c), done + gap, c.lead + c.was + c.trail, OldFile(pieces[1..], rest))
      && Located(done + gap + (c.lead + c.now + c.trail), pieces[1..], rest)
  }

  /** A list of hunks, each found where its lines are, replaces what each removes by what it
      adds and keeps the context and everything between the hunks. */
  lemma {:induction false} HunksInContext(done: seq<string>, pieces: seq<Piece>, rest: seq<string>)
    requires Located(done, pieces, rest)
    ensures ApplyHunks(done + OldFile(pieces, rest), HunksOf(pieces)) == Some(done + NewFile(pieces, rest))
    decreases |pieces|
  {
    hide ApplyHunks, Tied, ChangeLines, OldFile, NewFile, ReplacedAt;
    FilesOfPieces(done, pieces, rest);
    if pieces == [] {
      NoHunks(done + rest);
    } else {
      var Piece(gap, c) := pieces[0];
      var tail := OldFile(pieces[1..], rest);
      PieceApplies(done + gap, c, tail);
      FirstHunk(done + OldFile(pieces, rest), HunksOf(pieces));
      assert HunksOf(pieces)[1..] == HunksOf(pieces[1..]);
      HunksInContext(done + gap + (c.lead + c.now + c.trail), pieces[1..], rest);
    }
  }

  lemma {:induction false} PieceApplies(pre: seq<string>, c: Change, post: seq<string>)
    requires c.was != [] || c.now != []
    requires Tied(ChangeLines(c), pre, c.lead + c.was + c.trail, post)
    ensures ApplyHunks(pre + (c.lead + c.was + c.trail) + post, [ChangeLines(c)])
            == Some(pre + (c.lead + c.now + c.trail) + post)
  {
    hide ApplyHunks, Tied, ChangeLines, ReplacedAt;
    var a, b := pre + (c.lead + c.was + c.trail) + post, pre + (c.lead + c.now + c.trail) + post;
    AlsoReplaced(a, b, c, pre, post);
    ChangeInContext(a, c, b);
  }

  lemma {:induction false} FilesOfPieces(done: seq<string>, pieces: seq<Piece>, rest: seq<string>)
    ensures if pieces == [] then done + OldFile(pieces, rest) == done + NewFile(pieces, rest) == done + rest
            else
              var Piece(gap, c) := pieces[0];
              && done + OldFile(pieces, rest)
                 == (done + gap) + (c.lead + c.was + c.trail) + OldFile(pieces[1..], rest)
              && done + NewFile(pieces, rest)
                 == (done + gap) + (c.lead + c.now + c.trail) + NewFile(pieces[1..], rest)
  {
    if pieces != [] {
      var Piece(gap, c) := pieces[0];
      Regrouped(done, gap, c.lead + c.was + c.trail, OldFile(pieces[1..], rest));
      Regrouped(done, gap, c.lead + c.now + c.trail, NewFile(pieces[1..], rest));
    }
  }

  lemma {:induction false} Regrouped(a: seq<string>, b: seq<string>, c: seq<string>, d: seq<string>)
    ensures a + (b + c + d) == (a + b) + c + d
  {
  }

  // ---------- The reverse of a hunk ----------

  function Flip(line: HunkLine): HunkLine {
    match line
    case Context(t) => Context(t)
    case Removed(t) => Added(t)
    case Added(t) => Removed(t)
  }

  /** What was added is to be removed, and the other way round. */
  function Reversed(hunk: seq<HunkLine>): seq<HunkLine> {
    seq(|hunk|, k requires 0 <= k < |hunk| => Flip(hunk[k]))
  }

  /** The hunks that undo these, the last one first. */
  function Undoing(hunks: seq<seq<HunkLine>>): seq<seq<HunkLine>> {
    seq(|hunks|, k requires 0 <= k < |hunks| => Reversed(hunks[|hunks| - 1 - k]))
  }

  lemma {:induction false} SidesOfReversed(hunk: seq<HunkLine>)
    ensures Before(Reversed(hunk)) == After(hunk) && After(Reversed(hunk)) == Before(hunk)
  {
    if hunk != [] {
      SidesOfReversed(hunk[1..]);
      assert Reversed(hunk)[1..] == Reversed(hunk[1..]);
    }
  }

  /** At its own place the reverse of a hunk fits exactly when that is where the new lines
      tie it. */
  lemma {:induction false} TurnsBackIff(a: seq<string>, hunk: seq<HunkLine>, b: seq<string>, f: Fit)
    requires FitsAt(a, hunk, b, f)
    ensures (exists g: Fit :: g.pre == f.pre && FitsAt(b, Reversed(hunk), a, g))
            <==> Tied(hunk, f.pre, NewText(f.strips, f.trail), f.post)
  {
    hide Before, After, StandsAt, Written, OldText, NewText;
    var strips := EveryHunkIsWritten(Reversed(hunk));
    SidesOfWritten(f.strips, f.trail);
    SidesOfWritten(strips, []);
    SidesOfReversed(hunk);
    assert Leads(Reversed(hunk)) == Leads(hunk) && Trails(Reversed(hunk)) == Trails(hunk);
    if Tied(hunk, f.pre, NewText(f.strips, f.trail), f.post) {
      assert FitsAt(b, Reversed(hunk), a, Fit(f.pre, strips, [], f.post));
    }
    if g: Fit :| g.pre == f.pre && FitsAt(b, Reversed(hunk), a, g) {
      SidesOfWritten(g.strips, g.trail);
      assert b[|f.pre| + |NewText(f.strips, f.trail)|..] == f.post;
      assert b[|g.pre| + |NewText(f.strips, f.trail)|..] == g.post;
    }
  }

  /** Each hunk, as it goes in, can be turned back by its reverse. */
  ghost predicate Retraces(a: seq<string>, hunks: seq<seq<HunkLine>>, b: seq<string>) {
    exists texts :: Chain(a, hunks, b, texts) && Back(hunks, texts)
  }

  ghost predicate Back(hunks: seq<seq<HunkLine>>, texts: seq<seq<string>>)
    requires |texts| == |hunks| + 1
  {
    forall k :: 0 <= k < |hunks| ==> Turns(texts[k + 1], Reversed(hunks[k]), texts[k])
  }

  /** Hunks that can each be turned back are undone by their reverses in the opposite order. */
  lemma {:induction false} UndoingRestores(a: seq<string>, hunks: seq<seq<HunkLine>>, b: seq<string>)
    requires Retraces(a, hunks, b)
    ensures ApplyHunks(a, hunks) == Some(b) && ApplyHunks(b, Undoing(hunks)) == Some(a)
  {
    hide ApplyHunks, Turns, Reversed;
    var texts :| Chain(a, hunks, b, texts) && Back(hunks, texts);
    HunksApplyIff(a, hunks, b);
    var n := |hunks|;
    var back := seq(n + 1, k requires 0 <= k <= n => texts[n - k]);
    forall k | 0 <= k < n ensures Turns(back[k], Undoing(hunks)[k], back[k + 1]) {
      assert Turns(texts[n - 1 - k + 1], Reversed(hunks[n - 1 - k]), texts[n - 1 - k]);
    }
    assert Chain(b, Undoing(hunks), a, back);
    HunksApplyIff(b, Undoing(hunks), a);
  }

  /** Not every hunk can be turned back: here its new lines also stand further up, and that is
      where the reverse goes. */
  lemma {:induction false} ReverseGoesAstray()
    ensures var hunk := ChangeLines(Change(["a"], ["x"], [], ["b"]));
            && ApplyHunks(["a", "b", "a", "x", "b"], [hunk]) == Some(["a", "b", "a", "b"])
            && ApplyHunks(["a", "b", "a", "b"], [Reversed(hunk)]) == Some(["a", "x", "b", "a", "b"])
  {
    hide ApplyHunks;
    var c, d := Change(["a"], ["x"], [], ["b"]), Change(["a"], [], ["x"], ["b"]);
    var lines, r, s := ["a", "b", "a", "x", "b"], ["a", "b", "a", "b"], ["a", "x", "b", "a", "b"];
    assert Reversed(ChangeLines(c)) == ChangeLines(d);
    NotFurtherUp();
    assert c.lead + c.was + c.trail == ["a", "x", "b"] && lines == ["a", "b"] + ["a", "x", "b"] + [];
    assert ReplacedAt(lines, r, c, ["a", "b"], []);
    ChangeInContext(lines, c, r);
    assert d.lead + d.was + d.trail == ["a", "b"] && r == [] + ["a", "b"] + ["a", "b"];
    assert ReplacedAt(r, s, d, [], ["a", "b"]);
    ChangeInContext(r, d, s);
  }

  lemma {:induction false} NotFurtherUp()
    ensures forall j: nat :: j < 2 ==> !StandsAt(["a", "b", "a", "x", "b"], ["a", "x", "b"], j)
  {
    var lines, part := ["a", "b", "a", "x", "b"], ["a", "x", "b"];
    assert lines[0..3][1] == "b" && lines[1..4][0] == "b" && "b"[0] != "x"[0] && "b"[0] != "a"[0];
    assert lines[0..3] != part && lines[1..4] != part;
  }

  // ---------- Hunks over a whole file ----------

  lemma {:induction false} WholeFileHunk(was: seq<string>, lines: seq<string>)
    ensures ApplyHunks(was, [AllRemoved(was) + AllAdded(lines)]) == Some(lines)
  {
    hide Before, After, AllRemoved, AllAdded;
    var hunk := AllRemoved(was) + AllAdded(lines);
    BeforeConcat(AllRemoved(was), AllAdded(lines));
    AfterConcat(AllRemoved(was), AllAdded(lines));
    SidesOfRemoved(was);
    SidesOfAdded(lines);
    assert Before(hunk) == was && After(hunk) == lines;
    assert Place(was, hunk) == Some(0) by { WholeFilePlace(was, lines); }
    assert was[..0] + After(hunk) + was[0 + |was|..] == lines;
    assert [hunk][1..] == [];
  }

  lemma {:induction false} WholeFilePlace(was: seq<string>, lines: seq<string>)
    requires Before(AllRemoved(was) + AllAdded(lines)) == was
    ensures Place(was, AllRemoved(was) + AllAdded(lines)) == Some(0)
  {
    hide Before;
    var hunk := AllRemoved(was) + AllAdded(lines);
    forall i | 0 <= i < |hunk| ensures !hunk[i].Context? {}
    assert was[0..0 + |was|] == was;
  }

  lemma {:induction false} WholeFileRetraces(was: seq<string>, lines: seq<string>)
    ensures Retraces(was, [AllRemoved(was) + AllAdded(lines)], lines)
  {
    hide ApplyHunks, Reversed, Written, OldText, NewText;
    var hunk := AllRemoved(was) + AllAdded(lines);
    WholeFileHunk(was, lines);
    HunkAppliesIff(was, hunk, lines);
    var f: Fit :| FitsAt(was, hunk, lines, f);
    forall i | 0 <= i < |hunk| ensures !hunk[i].Context? {}
    TurnsBackIff(was, hunk, lines, f);
    assert Turns(lines, Reversed(hunk), was);
    assert Chain(was, [hunk], lines, [was, lines]) && Back([hunk], [was, lines]);
  }

  lemma {:induction false} LoneAddition(line: HunkLine)
    requires line.Added?
    ensures Before([line]) == []
  {
    assert [line][1..] == [];
  }

  /** A hunk between two added lines fits exactly the file it was made for. */
  lemma {:induction false} HunkFitsItsFile(content: seq<string>, line: HunkLine, lines: seq<string>)
    requires line.Added?
    ensures ApplyHunks(content, [[line] + AllContext(lines) + [line]]).Some? <==> content == lines
  {
    hide Before, After, AllContext;
    var hunk := [line] + AllContext(lines) + [line];
    BeforeConcat([line] + AllContext(lines), [line]);
    BeforeConcat([line], AllContext(lines));
    LoneAddition(line);
    SidesOfContext(lines);
    assert Before(hunk) == lines;
    assert [hunk][1..] == [];
    if content == lines {
      assert content[0..0 + |lines|] == lines;
    }
  }
}
