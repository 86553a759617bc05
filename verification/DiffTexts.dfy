/** The text of a unified diff, and which paths `changed_paths` reads back out of it
    (workflows/integration.py). */
module DiffTexts {
  import opened Diffs
  import opened Hunks
  import opened Sequences

  // ---------- The text of a diff ----------

  function HunkText(line: HunkLine): string {
    match line
    case Context(t) => " " + t
    case Removed(t) => "-" + t
    case Added(t) => "+" + t
  }

  function Body(lines: seq<HunkLine>): (r: seq<string>)
    ensures |r| == |lines| && forall i :: 0 <= i < |lines| ==> r[i] == HunkText(lines[i])
  {
    seq(|lines|, i requires 0 <= i < |lines| => HunkText(lines[i]))
  }

  function Flatten(hunks: seq<seq<HunkLine>>): seq<HunkLine> {
    if hunks == [] then [] else hunks[0] + Flatten(hunks[1..])
  }

  /** The changed lines of an edit, hunk after hunk. */
  function Changes(edit: FileEdit): seq<HunkLine> {
    match edit
    case Create(lines) => seq(|lines|, i requires 0 <= i < |lines| => Added(lines[i]))
    case Delete(lines) => seq(|lines|, i requires 0 <= i < |lines| => Removed(lines[i]))
    case Modify(hunks) => Flatten(hunks)
    case Rename(_, hunks) => Flatten(hunks)
    case Binary(_, _) => []
  }

  /** git writes no ---/+++ pair for a section without a hunk: an empty file created or
      deleted, a change of mode only, a plain rename, a binary file. */
  predicate Headerless(edit: FileEdit) {
    match edit
    case Create(lines) => lines == []
    case Delete(lines) => lines == []
    case Modify(hunks) => hunks == []
    case Rename(_, hunks) => hunks == []
    case Binary(_, _) => true
  }

  /** git quotes a path with a control character, a quote, a backslash or anything past ASCII. */
  predicate NeedsQuoting(p: string) {
    exists c | c in p :: c < ' ' || c == '"' || c == '\\' || c as int >= 127
  }

  /** How a path that needs no quotes ends a ---/+++ line: a tab follows when it holds a space. */
  function Label(p: string): string {
    if ' ' in p then p + "\t" else p
  }

  /** A ---/+++ line for a path. The escapes within quotes are left out: no reader gets there. */
  function Marked(mark: string, side: string, p: string): string {
    if NeedsQuoting(p) then mark + "\"" + side + p + "\"" else mark + side + Label(p)
  }

  /** The lines before the first hunk; of those that begin with a letter, which name nothing,
      only the first is kept. */
  function Headers(s: Section): seq<string> {
    ["diff --git a/" + s.path + " b/" + Target(s)]
    + if Headerless(s.edit) then []
      else [if s.edit.Create? then "--- /dev/null" else Marked("--- ", "a/", s.path),
            if s.edit.Delete? then "+++ /dev/null" else Marked("+++ ", "b/", Target(s)),
            "@@"]
  }

  /** The lines of the diff text. The line numbers of hunk headers carry no path and are
      left blank; later hunks of a section share the first one's header here. */
  function Render(d: seq<Section>): seq<string> {
    if d == [] then [] else Headers(d[0]) + Body(Changes(d[0].edit)) + Render(d[1..])
  }

  // ---------- changed_paths ----------

  const NEW_PREFIX := "+++ b/"
  const OLD_PREFIX := "--- a/"
  const DEV_NULL := "/dev/null"

  predicate StartsWith(line: string, prefix: string) {
    prefix <= line
  }

  /** The path a line names as a file header would. */
  function HeaderPath(line: string): Option<string> {
    if StartsWith(line, NEW_PREFIX) then Some(line[|NEW_PREFIX|..])
    else if StartsWith(line, OLD_PREFIX) then Some(line[|OLD_PREFIX|..])
    else None
  }

  predicate Names(line: string, p: string) {
    HeaderPath(line) == Some(p) && p != DEV_NULL
  }

  /** The paths the lines name, in order of first appearance, each once. */
  function FirstMentions(lines: seq<string>): seq<string> {
    if lines == [] then []
    else
      var paths := FirstMentions(lines[..|lines| - 1]);
      var last := HeaderPath(lines[|lines| - 1]);
      if last.Some? && last.value != DEV_NULL && last.value !in paths then paths + [last.value] else paths
  }

  method ChangedPaths(lines: seq<string>) returns (paths: seq<string>)
    ensures paths == FirstMentions(lines)
  {
    paths := [];
    var seen: set<string> := {};
    for n := 0 to |lines|
      invariant paths == FirstMentions(lines[..n])
      invariant forall p :: p in seen <==> p in paths
    {
      assert lines[..n + 1][..n] == lines[..n];
      var line := lines[n];
      var path: string;
      if StartsWith(line, NEW_PREFIX) {
        path := line[|NEW_PREFIX|..];
      } else if StartsWith(line, OLD_PREFIX) {
        path := line[|OLD_PREFIX|..];
      } else {
        continue;
      }
      if path != DEV_NULL && path !in seen {
        seen := seen + {path};
        paths := paths + [path];
      }
    }
    assert lines[..|lines|] == lines;
  }

  ghost predicate NamedBefore(lines: seq<string>, p: string, j: nat) {
    exists i :: 0 <= i < j && i < |lines| && Names(lines[i], p)
  }

  /** Exactly the named paths are listed. */
  lemma {:induction false} MentionsExact(lines: seq<string>, p: string)
    ensures p in FirstMentions(lines) <==> NamedBefore(lines, p, |lines|)
  {
    if lines != [] {
      var n := |lines| - 1;
      MentionsExact(lines[..n], p);
      assert NamedBefore(lines, p, n) <==> NamedBefore(lines[..n], p, n);
      assert NamedBefore(lines, p, n + 1) <==> NamedBefore(lines, p, n) || Names(lines[n], p);
    }
  }

  /** No path is listed twice, and one listed earlier was named earlier. */
  lemma {:induction false} MentionsInOrder(lines: seq<string>, k: nat, l: nat, j: nat)
    requires k < l < |FirstMentions(lines)| && j < |lines| && Names(lines[j], FirstMentions(lines)[l])
    ensures FirstMentions(lines)[k] != FirstMentions(lines)[l]
    ensures NamedBefore(lines, FirstMentions(lines)[k], j)
  {
    var n := |lines| - 1;
    var init := FirstMentions(lines[..n]);
    MentionsExact(lines[..n], FirstMentions(lines)[k]);
    if l < |init| {
      MentionsExact(lines[..n], init[l]);
      var i :| 0 <= i < n && Names(lines[..n][i], init[l]);
      MentionsInOrder(lines[..n], k, l, if j < n then j else i);
    } else {
      var added := FirstMentions(lines)[l];
      MentionsExact(lines[..n], added);
      forall i | 0 <= i < n ensures !Names(lines[i], added) {
        assert lines[..n][i] == lines[i];
      }
    }
  }

  // ---------- What changed_paths sees of a diff ----------

  /** A changed line whose diff text reads as a file header for `p`. */
  predicate Echoes(line: HunkLine, p: string) {
    line == Removed("-- a/" + p) || line == Added("++ b/" + p)
  }

  /** The section's own header lines name `p`. */
  predicate HeadersShow(s: Section, p: string) {
    && !Headerless(s.edit)
    && ((Label(s.path) == p && !NeedsQuoting(s.path)) || (Label(Target(s)) == p && !NeedsQuoting(Target(s))))
  }

  /** `changed_paths` can read `p` off this section's text. */
  ghost predicate Shows(s: Section, p: string) {
    HeadersShow(s, p) || exists line :: line in Changes(s.edit) && Echoes(line, p)
  }

  lemma {:induction false} HeaderPathExact(line: string, p: string)
    ensures HeaderPath(line) == Some(p) <==> line == NEW_PREFIX + p || line == OLD_PREFIX + p
  {
    if StartsWith(line, NEW_PREFIX) {
      assert line == NEW_PREFIX + line[|NEW_PREFIX|..];
    } else if StartsWith(line, OLD_PREFIX) {
      assert line == OLD_PREFIX + line[|OLD_PREFIX|..];
    }
    assert (NEW_PREFIX + p)[0] != (OLD_PREFIX + p)[0];
    assert (NEW_PREFIX + p)[|NEW_PREFIX|..] == p && (OLD_PREFIX + p)[|OLD_PREFIX|..] == p;
  }

  lemma {:induction false} SameTail(c: char, t: string, u: string)
    ensures [c] + t == [c] + u <==> t == u
  {
    assert ([c] + t)[1..] == t && ([c] + u)[1..] == u;
  }

  lemma {:induction false} HunkTextNames(line: HunkLine, p: string)
    ensures HeaderPath(HunkText(line)) == Some(p) <==> Echoes(line, p)
  {
    HeaderPathExact(HunkText(line), p);
    assert OLD_PREFIX + p == ['-'] + ("-- a/" + p);
    assert NEW_PREFIX + p == ['+'] + ("++ b/" + p);
    SameTail('-', line.text, "-- a/" + p);
    SameTail('+', line.text, "++ b/" + p);
    assert (OLD_PREFIX + p)[0] == '-' && (NEW_PREFIX + p)[0] == '+';
  }

  ghost predicate SomeLineNames(lines: seq<string>, p: string) {
    exists line :: line in lines && HeaderPath(line) == Some(p)
  }

  ghost predicate SomeSectionShows(d: seq<Section>, p: string) {
    exists s :: s in d && Shows(s, p)
  }

  lemma {:induction false} LinesNameConcat(a: seq<string>, b: seq<string>, p: string)
    ensures SomeLineNames(a + b, p) <==> SomeLineNames(a, p) || SomeLineNames(b, p)
  {
    if line :| line in a && HeaderPath(line) == Some(p) { assert line in a + b; }
    if line :| line in b && HeaderPath(line) == Some(p) { assert line in a + b; }
    if line :| line in a + b && HeaderPath(line) == Some(p) { assert line in a || line in b; }
  }

  lemma {:induction false} HeadersName(s: Section, p: string)
    requires p != DEV_NULL
    ensures SomeLineNames(Headers(s), p) <==> HeadersShow(s, p)
  {
    hide NeedsQuoting, Label, HeaderPath;
    if line :| line in Headers(s) && HeaderPath(line) == Some(p) {
      HeaderPathExact(line, p);
      HeaderLineNames(s, line, p);
    }
    if HeadersShow(s, p) {
      var first := Label(s.path) == p && !NeedsQuoting(s.path) && !s.edit.Create?;
      var line := if first then OLD_PREFIX + p else NEW_PREFIX + p;
      HeaderPathExact(line, p);
      assert "--- " + "a/" == OLD_PREFIX && "+++ " + "b/" == NEW_PREFIX;
      assert line == Headers(s)[if first then 1 else 2];
    }
  }

  lemma {:induction false} HeaderLineNames(s: Section, line: string, p: string)
    requires line in Headers(s) && (line == NEW_PREFIX + p || line == OLD_PREFIX + p)
    ensures HeadersShow(s, p)
  {
    hide NeedsQuoting, Label;
    assert line[0] != 'd' && |line| >= 6 && line[4] != '/' && line[4] != '"';
    assert line == Marked("+++ ", "b/", Target(s)) || line == Marked("--- ", "a/", s.path);
    assert (NEW_PREFIX + Label(Target(s)))[6..] == Label(Target(s));
    assert (OLD_PREFIX + Label(s.path))[6..] == Label(s.path);
    assert line[6..] == p;
  }

  lemma {:induction false} BodyNames(lines: seq<HunkLine>, p: string)
    ensures SomeLineNames(Body(lines), p) <==> exists line :: line in lines && Echoes(line, p)
  {
    if text :| text in Body(lines) && HeaderPath(text) == Some(p) {
      var i :| 0 <= i < |lines| && Body(lines)[i] == text;
      HunkTextNames(lines[i], p);
    }
    if line :| line in lines && Echoes(line, p) {
      var i :| 0 <= i < |lines| && lines[i] == line;
      HunkTextNames(line, p);
      assert Body(lines)[i] in Body(lines);
    }
  }

  lemma {:induction false} RenderNames(d: seq<Section>, p: string)
    requires p != DEV_NULL
    ensures SomeLineNames(Render(d), p) <==> SomeSectionShows(d, p)
    decreases |d|
  {
    if d != [] {
      var head, body, rest := Headers(d[0]), Body(Changes(d[0].edit)), Render(d[1..]);
      HeadersName(d[0], p);
      BodyNames(Changes(d[0].edit), p);
      RenderNames(d[1..], p);
      LinesNameConcat(head + body, rest, p);
      LinesNameConcat(head, body, p);
      FirstSectionShows(d, p);
    }
  }

  lemma {:induction false} FirstSectionShows(d: seq<Section>, p: string)
    requires d != []
    ensures SomeSectionShows(d, p) <==> Shows(d[0], p) || SomeSectionShows(d[1..], p)
  {
    assert d == [d[0]] + d[1..];
    if Shows(d[0], p) { assert d[0] in d; }
    if s :| s in d[1..] && Shows(s, p) { assert s in d; }
    if s :| s in d && Shows(s, p) { assert s == d[0] || s in d[1..]; }
  }

  function PathsOf(d: seq<Section>): seq<string> {
    FirstMentions(Render(d))
  }

  /** `changed_paths` lists `p` exactly when some section shows it. */
  lemma {:induction false} ChangedPathsExact(d: seq<Section>, p: string)
    ensures p in PathsOf(d) <==> p != DEV_NULL && SomeSectionShows(d, p)
  {
    var lines := Render(d);
    MentionsExact(lines, p);
    if p != DEV_NULL {
      RenderNames(d, p);
      if line :| line in lines && HeaderPath(line) == Some(p) {
        var i :| 0 <= i < |lines| && lines[i] == line;
        assert NamedBefore(lines, p, |lines|);
      }
    }
  }

  /** The diff tells its own paths: nothing it touches is hidden from `changed_paths`. */
  ghost predicate Readable(d: Diff) {
    forall p :: p in Touched(d) ==> SomeSectionShows(d, p)
  }

  /** File-level detection sees everything a diff touches exactly when the diff is readable. */
  lemma {:induction false} ChangedPathsCoverIffReadable(d: Diff)
    ensures (forall p :: p in Touched(d) ==> p in PathsOf(d)) <==> Readable(d)
  {
    hide PathsOf, SomeSectionShows, Touched;
    forall p | p in Touched(d) ensures p in PathsOf(d) <==> SomeSectionShows(d, p) {
      ChangedPathsExact(d, p);
      var s :| s in d && Touches(s, p);
      assert WellFormed(s);
    }
  }

  /** The listing has an entry for `p`, tab and all. */
  ghost predicate Listed(d: seq<Section>, p: string) {
    Label(p) in PathsOf(d)
  }

  lemma {:induction false} LabelInjective(p: string, q: string)
    requires Label(p) == Label(q)
    ensures p == q
  {
    if ' ' in p && ' ' in q {
      assert (p + "\t")[..|p|] == p && (q + "\t")[..|q|] == q;
    }
  }

  ghost predicate SomeLineEchoes(d: seq<Section>, p: string) {
    exists s, line :: s in d && line in Changes(s.edit) && Echoes(line, p)
  }

  lemma {:induction false} SectionsAreSeparate(d: Diff, i: nat, j: nat, p: string)
    requires i < j < |d|
    ensures !(Touches(d[i], p) && Touches(d[j], p))
  {
    hide WellFormed, Target;
    assert Separate(d[i], d[j]);
  }

  /** Nothing else in the diff touches what this section touches. */
  lemma {:induction false} OnlyOneTouches(d: Diff, s: Section, r: Section, p: string)
    requires s in d && r in d && Touches(s, p) && Touches(r, p)
    ensures s == r
  {
    hide OnePerPath, Touches;
    var i :| 0 <= i < |d| && d[i] == s;
    var j :| 0 <= j < |d| && d[j] == r;
    if i < j {
      SectionsAreSeparate(d, i, j, p);
    } else if j < i {
      SectionsAreSeparate(d, j, i, p);
    }
  }

  /** A file of the diff is listed exactly when its section has header lines and git does not
      quote its path, or when some changed line happens to look like its header. */
  lemma {:induction false} ListedIff(d: Diff, s: Section, p: string)
    requires s in d && Touches(s, p)
    ensures Listed(d, p) <==> (!Headerless(s.edit) && !NeedsQuoting(p)) || SomeLineEchoes(d, Label(p))
  {
    hide PathsOf, Label, NeedsQuoting, Echoes, OnePerPath, Headerless;
    var l := Label(p);
    TouchedIsLegal(d, s, p);
    LabelStart(p);
    ChangedPathsExact(d, l);
    if r :| r in d && HeadersShow(r, l) {
      ShownIsTouched(r, p);
      OnlyOneTouches(d, s, r, p);
    }
    if HeadersShow(s, l) {
      assert Shows(s, l);
    }
    if r, line :| r in d && line in Changes(r.edit) && Echoes(line, l) {
      assert Shows(r, l);
    }
  }

  lemma {:induction false} TouchedIsLegal(d: Diff, s: Section, p: string)
    requires s in d && Touches(s, p)
    ensures Legal(p)
  {
    assert WellFormed(s);
  }

  /** A section whose header lines show a label touches that very path, and not in quotes. */
  lemma {:induction false} ShownIsTouched(r: Section, p: string)
    requires HeadersShow(r, Label(p))
    ensures Touches(r, p) && !NeedsQuoting(p) && !Headerless(r.edit)
  {
    hide Label, NeedsQuoting, Headerless;
    if Label(r.path) == Label(p) && !NeedsQuoting(r.path) {
      LabelInjective(r.path, p);
    } else {
      LabelInjective(Target(r), p);
    }
  }

  lemma {:induction false} LabelStart(p: string)
    requires Legal(p)
    ensures |Label(p)| > 0 && Label(p)[0] != '/'
  {
  }

  /** A path nobody can see: it is touched but not listed, and it is not a new file announced
      by a listed deletion that makes room for it. */
  ghost predicate Hidden(d: seq<Section>, p: string) {
    && p in Touched(d) && !Listed(d, p)
    && !(Creates(d, p) && exists q :: Deletes(d, q) && Kin(q, p) && Listed(d, q))
  }

  ghost predicate Visible(d: seq<Section>) {
    forall p :: p in Touched(d) ==> !Hidden(d, p)
  }

  // ---------- Diffs that list one path ----------

  /** The line added to a file that reads as the file's own header. */
  function Echo(p: string): HunkLine {
    Added("++ b/" + Label(p))
  }

  /** Changed lines that name nothing but `p`, and do name it. */
  ghost predicate EchoOnly(lines: seq<HunkLine>, p: string) {
    Echo(p) in lines && forall line :: line in lines ==> line == Echo(p) || line.Context?
  }

  /** A diff of one path whose changed lines echo it lists that path and nothing else. */
  lemma {:induction false} EchoListsItself(d: Diff, s: Section)
    requires d == [s] && Target(s) == s.path && EchoOnly(Changes(s.edit), s.path)
    ensures forall x :: x in PathsOf(d) <==> x == Label(s.path)
    ensures Visible(d)
  {
    hide PathsOf, Label, NeedsQuoting, Changes, Headerless, Kin, Makes, Removes;
    var l := Label(s.path);
    assert WellFormed(s);
    LabelStart(s.path);
    forall x ensures x in PathsOf(d) <==> x == l {
      ChangedPathsExact(d, x);
      EchoNames(Changes(s.edit), s.path, x);
      assert d[0] in d && forall r :: r in d <==> r == s;
      assert Shows(s, x) <==> x == l;
    }
    forall p | p in Touched(d) ensures Listed(d, p) {
      var r :| r in d && Touches(r, p);
    }
  }

  lemma {:induction false} EchoNames(lines: seq<HunkLine>, p: string, x: string)
    requires EchoOnly(lines, p)
    ensures (exists line :: line in lines && Echoes(line, x)) <==> x == Label(p)
  {
    hide Label;
    assert ("++ b/" + Label(p))[5..] == Label(p) && ("++ b/" + x)[5..] == x;
    assert Echoes(Echo(p), x) <==> x == Label(p);
  }
}
