/** How the two live providers group tool results into turns (models/live_anthropic.py,
    models/live_gemini.py). */
module ProviderTurns {
  import opened Payloads
  import opened Sequences

  // ---------- The turns of a conversation ----------

  /** A tool result and the name of the call it answers. */
  datatype Named = Named(message: Message, name: string)

  datatype Turn = Results(results: seq<Named>) | Single(message: Message)

  /** The name these calls give the id, the last one winning. */
  function NameAmong(calls: seq<ToolCall>, id: string): Option<string> {
    if calls == [] then None
    else if calls[|calls| - 1].id == id then Some(calls[|calls| - 1].name)
    else NameAmong(calls[..|calls| - 1], id)
  }

  /** The name of the latest call with this id; "tool" when there is none. */
  function LatestName(messages: seq<Message>, id: string): string {
    if messages == [] then "tool"
    else
      var last := NameAmong(messages[|messages| - 1].toolCalls, id);
      if last.Some? then last.value else LatestName(messages[..|messages| - 1], id)
  }

  function IdOrEmpty(m: Message): string {
    if m.toolCallId.Some? then m.toolCallId.value else ""
  }

  function AddResult(turns: seq<Turn>, r: Named): seq<Turn> {
    var k := |turns| - 1;
    if turns != [] && turns[k].Results? then turns[k := Results(turns[k].results + [r])]
    else turns + [Results([r])]
  }

  /** System messages dropped, neighbouring tool results together, every other message by
      itself. */
  function Turns(messages: seq<Message>): seq<Turn> {
    if messages == [] then []
    else
      var init, last := messages[..|messages| - 1], messages[|messages| - 1];
      if last.role == "system" then Turns(init)
      else if last.role == "tool" then AddResult(Turns(init), Named(last, LatestName(init, IdOrEmpty(last))))
      else Turns(init) + [Single(last)]
  }

  lemma {:induction false} TurnsSnoc(messages: seq<Message>, m: Message)
    ensures Turns(messages + [m])
            == if m.role == "system" then Turns(messages)
               else if m.role == "tool" then AddResult(Turns(messages), Named(m, LatestName(messages, IdOrEmpty(m))))
               else Turns(messages) + [Single(m)]
    ensures SystemParts(messages + [m]) == SystemParts(messages) + if m.role == "system" then [m.content] else []
  {
    assert (messages + [m])[..|messages|] == messages;
  }

  function SystemParts(messages: seq<Message>): seq<string> {
    if messages == [] then []
    else
      var last := messages[|messages| - 1];
      SystemParts(messages[..|messages| - 1]) + if last.role == "system" then [last.content] else []
  }

  /** Parts separated by a blank line. */
  function JoinParts(parts: seq<string>): string {
    if parts == [] then "" else if |parts| == 1 then parts[0] else parts[0] + "\n\n" + JoinParts(parts[1..])
  }

  // ---------- Anthropic ----------

  datatype Block =
    | TextBlock(text: string)
    | ToolUse(id: string, name: string, input: map<string, Json>)
    | ToolResult(toolUseId: Option<string>, content: string)

  datatype WireContent = Plain(text: string) | Blocks(blocks: seq<Block>)

  datatype WireEntry = WireEntry(role: string, content: WireContent)

  function UseBlocks(calls: seq<ToolCall>): (r: seq<Block>)
    ensures |r| == |calls|
    ensures forall i :: 0 <= i < |r| ==> r[i] == ToolUse(calls[i].id, calls[i].name, calls[i].arguments)
  {
    seq(|calls|, i requires 0 <= i < |calls| => ToolUse(calls[i].id, calls[i].name, calls[i].arguments))
  }

  function ResultBlocks(results: seq<Named>): (r: seq<Block>)
    ensures |r| == |results|
    ensures forall j :: 0 <= j < |r| ==> r[j] == ToolResult(results[j].message.toolCallId, results[j].message.content)
  {
    seq(|results|, j requires 0 <= j < |results| =>
          ToolResult(results[j].message.toolCallId, results[j].message.content))
  }

  /** One wire entry a turn. */
  function EntryOf(t: Turn): WireEntry {
    match t
    case Results(results) => WireEntry("user", Blocks(ResultBlocks(results)))
    case Single(m) =>
      if m.role == "assistant" && m.toolCalls != [] then
        var text := if m.content != "" then [TextBlock(m.content)] else [];
        WireEntry("assistant", Blocks(text + UseBlocks(m.toolCalls)))
      else WireEntry(m.role, Plain(m.content))
  }

  function Wire(turns: seq<Turn>): (r: seq<WireEntry>)
    ensures |r| == |turns| && forall k :: 0 <= k < |r| ==> r[k] == EntryOf(turns[k])
  {
    seq(|turns|, k requires 0 <= k < |turns| => EntryOf(turns[k]))
  }

  method SplitMessages(messages: seq<Message>) returns (system: string, wire: seq<WireEntry>)
    ensures system == JoinParts(SystemParts(messages))
    ensures wire == Wire(Turns(messages))
  {
    hide Turns, SystemParts, AddResult, LatestName, Wire, EntryOf;
    var parts := [];
    wire := [];
    NoTurns(messages[..0]);
    for i := 0 to |messages|
      invariant parts == SystemParts(messages[..i])
      invariant wire == Wire(Turns(messages[..i]))
    {
      var m := messages[i];
      ghost var turns := Turns(messages[..i]);
      assert messages[..i + 1] == messages[..i] + [m];
      TurnsSnoc(messages[..i], m);
      if m.role == "system" {
        parts := parts + [m.content];
      } else if m.role == "tool" {
        var block := ToolResult(m.toolCallId, m.content);
        var last := |wire| - 1;
        WireOfResult(turns, Named(m, LatestName(messages[..i], IdOrEmpty(m))));
        if wire != [] && wire[last].role == "user" && wire[last].content.Blocks? {
          wire := wire[last := WireEntry("user", Blocks(wire[last].content.blocks + [block]))];
        } else {
          wire := wire + [WireEntry("user", Blocks([block]))];
        }
      } else if m.role == "assistant" && m.toolCalls != [] {
        var blocks := [];
        if m.content != "" { blocks := [TextBlock(m.content)]; }
        blocks := blocks + UseBlocks(m.toolCalls);
        WireOfSingle(turns, m);
        wire := wire + [WireEntry("assistant", Blocks(blocks))];
      } else {
        WireOfSingle(turns, m);
        wire := wire + [WireEntry(m.role, Plain(m.content))];
      }
    }
    assert messages[..|messages|] == messages;
    system := JoinParts(parts);
  }

  lemma {:induction false} NoTurns(messages: seq<Message>)
    requires messages == []
    ensures Turns(messages) == [] && SystemParts(messages) == [] && LatestName(messages, "") == "tool"
    ensures Wire(Turns(messages)) == [] && Contents(Turns(messages)) == [] && NamesOf(map[], messages)
  {
  }

  lemma {:induction false} WireOfSingle(turns: seq<Turn>, m: Message)
    ensures Wire(turns + [Single(m)]) == Wire(turns) + [EntryOf(Single(m))]
    ensures EntryOf(Single(m))
            == if m.role == "assistant" && m.toolCalls != [] then
                 var text := if m.content != "" then [TextBlock(m.content)] else [];
                 WireEntry("assistant", Blocks(text + UseBlocks(m.toolCalls)))
               else WireEntry(m.role, Plain(m.content))
  {
  }

  /** A user entry that holds a list is a turn of results, so testing the last entry extends
      the last turn. */
  lemma {:induction false} WireOfResult(turns: seq<Turn>, r: Named)
    ensures var wire := Wire(turns);
            var last := |wire| - 1;
            var block := ToolResult(r.message.toolCallId, r.message.content);
            Wire(AddResult(turns, r))
            == if wire != [] && wire[last].role == "user" && wire[last].content.Blocks? then
                 wire[last := WireEntry("user", Blocks(wire[last].content.blocks + [block]))]
               else wire + [WireEntry("user", Blocks([block]))]
  {
    var k := |turns| - 1;
    var block := ToolResult(r.message.toolCallId, r.message.content);
    if turns != [] && turns[k].Results? {
      assert ResultBlocks(turns[k].results + [r]) == ResultBlocks(turns[k].results) + [block];
    } else {
      assert ResultBlocks([r]) == [block];
    }
  }

  // ---------- Gemini ----------

  datatype Part =
    | TextPart(text: string)
    | FunctionCall(name: string, args: map<string, Json>)
    | FunctionResponse(name: string, result: string)

  datatype Content = Content(role: string, parts: seq<Part>)

  function CallParts(calls: seq<ToolCall>): (r: seq<Part>)
    ensures |r| == |calls| && forall i :: 0 <= i < |r| ==> r[i] == FunctionCall(calls[i].name, calls[i].arguments)
  {
    seq(|calls|, i requires 0 <= i < |calls| => FunctionCall(calls[i].name, calls[i].arguments))
  }

  function ResponseParts(results: seq<Named>): (r: seq<Part>)
    ensures |r| == |results|
    ensures forall j :: 0 <= j < |r| ==> r[j] == FunctionResponse(results[j].name, results[j].message.content)
  {
    seq(|results|, j requires 0 <= j < |results| => FunctionResponse(results[j].name, results[j].message.content))
  }

  /** One content a turn. */
  function ContentOf(t: Turn): Content {
    match t
    case Results(results) => Content("user", ResponseParts(results))
    case Single(m) =>
      if m.role == "assistant" && m.toolCalls != [] then
        Content("model", (if m.content != "" then [TextPart(m.content)] else []) + CallParts(m.toolCalls))
      else Content(if m.role == "assistant" then "model" else "user", [TextPart(m.content)])
  }

  function Contents(turns: seq<Turn>): (r: seq<Content>)
    ensures |r| == |turns| && forall k :: 0 <= k < |r| ==> r[k] == ContentOf(turns[k])
  {
    seq(|turns|, k requires 0 <= k < |turns| => ContentOf(turns[k]))
  }

  /** `callNames` answers as the latest call of these messages does. */
  ghost predicate NamesOf(callNames: map<string, string>, messages: seq<Message>) {
    forall id :: (if id in callNames then callNames[id] else "tool") == LatestName(messages, id)
  }

  /** Where the current run of tool results is collected. */
  function Collecting(turns: seq<Turn>): Option<nat> {
    if turns != [] && turns[|turns| - 1].Results? then Some(|turns| - 1) else None
  }

  method ToContents(messages: seq<Message>) returns (system: string, contents: seq<Content>)
    ensures system == JoinParts(SystemParts(messages))
    ensures contents == Contents(Turns(messages))
  {
    hide Turns, SystemParts, AddResult, LatestName, Contents, ContentOf, NamesOf, WithCalls, Collecting;
    var systemParts := [];
    contents := [];
    var callNames: map<string, string> := map[];
    var toolTurn: Option<nat> := None;
    NoTurns(messages[..0]);
    CollectingOf([]);
    for i := 0 to |messages|
      invariant systemParts == SystemParts(messages[..i])
      invariant contents == Contents(Turns(messages[..i]))
      invariant NamesOf(callNames, messages[..i])
      invariant toolTurn == Collecting(Turns(messages[..i]))
    {
      var m := messages[i];
      ghost var turns := Turns(messages[..i]);
      assert messages[..i + 1] == messages[..i] + [m];
      TurnsSnoc(messages[..i], m);
      NamesAfter(messages[..i], m, callNames);
      ContentsOfSingle(turns, m);
      if m.role != "tool" && m.role != "system" { toolTurn := None; }
      if m.role == "system" {
        systemParts := systemParts + [m.content];
      } else if m.role == "tool" {
        var id := if m.toolCallId.Some? then m.toolCallId.value else "";
        var part := FunctionResponse(if id in callNames then callNames[id] else "tool", m.content);
        NameFound(callNames, messages[..i], id);
        ContentsOfResult(turns, Named(m, LatestName(messages[..i], id)));
        if toolTurn.None? {
          toolTurn := Some(|contents|);
          contents := contents + [Content("user", [part])];
        } else {
          var k := toolTurn.value;
          contents := contents[k := Content("user", contents[k].parts + [part])];
        }
      } else if m.role == "assistant" && m.toolCalls != [] {
        var parts := [];
        if m.content != "" { parts := [TextPart(m.content)]; }
        var calls;
        calls, callNames := NoteCalls(m.toolCalls, callNames);
        contents := contents + [Content("model", parts + calls)];
      } else {
        var role := if m.role == "assistant" then "model" else "user";
        contents := contents + [Content(role, [TextPart(m.content)])];
      }
    }
    assert messages[..|messages|] == messages;
    system := JoinParts(systemParts);
  }

  /** The inner loop over an assistant message's calls. */
  method NoteCalls(calls: seq<ToolCall>, before: map<string, string>)
    returns (parts: seq<Part>, callNames: map<string, string>)
    ensures parts == CallParts(calls) && callNames == WithCalls(before, calls)
  {
    parts, callNames := [], before;
    for j := 0 to |calls|
      invariant parts == CallParts(calls[..j]) && callNames == WithCalls(before, calls[..j])
    {
      assert calls[..j + 1][..j] == calls[..j];
      callNames := callNames[calls[j].id := calls[j].name];
      parts := parts + [FunctionCall(calls[j].name, calls[j].arguments)];
    }
    assert calls[..|calls|] == calls;
  }

  function WithCalls(names: map<string, string>, calls: seq<ToolCall>): map<string, string> {
    if calls == [] then names
    else WithCalls(names, calls[..|calls| - 1])[calls[|calls| - 1].id := calls[|calls| - 1].name]
  }

  lemma {:induction false} CallsByName(names: map<string, string>, calls: seq<ToolCall>, id: string)
    ensures var after := WithCalls(names, calls);
            if NameAmong(calls, id).Some? then id in after && after[id] == NameAmong(calls, id).value
            else (id in after <==> id in names) && (id in names ==> after[id] == names[id])
  {
    if calls != [] {
      CallsByName(names, calls[..|calls| - 1], id);
    }
  }

  lemma {:induction false} NamesAfter(messages: seq<Message>, m: Message, callNames: map<string, string>)
    requires NamesOf(callNames, messages)
    ensures NamesOf(WithCalls(callNames, m.toolCalls), messages + [m])
  {
    assert (messages + [m])[..|messages|] == messages;
    forall id
      ensures var after := WithCalls(callNames, m.toolCalls);
              (if id in after then after[id] else "tool") == LatestName(messages + [m], id)
    {
      CallsByName(callNames, m.toolCalls, id);
    }
  }

  lemma {:induction false} NameFound(callNames: map<string, string>, messages: seq<Message>, id: string)
    requires NamesOf(callNames, messages)
    ensures (if id in callNames then callNames[id] else "tool") == LatestName(messages, id)
  {
  }

  lemma {:induction false} CollectingOf(turns: seq<Turn>)
    requires turns == [] || turns[|turns| - 1].Single?
    ensures Collecting(turns) == None
  {
  }

  lemma {:induction false} ContentsOfSingle(turns: seq<Turn>, m: Message)
    ensures Contents(turns + [Single(m)]) == Contents(turns) + [ContentOf(Single(m))]
    ensures ContentOf(Single(m))
            == if m.role == "assistant" && m.toolCalls != [] then
                 Content("model", (if m.content != "" then [TextPart(m.content)] else []) + CallParts(m.toolCalls))
               else Content(if m.role == "assistant" then "model" else "user", [TextPart(m.content)])
    ensures Collecting(turns + [Single(m)]) == None
    ensures Collecting(turns).Some? ==> Collecting(turns).value == |turns| - 1
    ensures m.toolCalls == [] ==> forall names :: WithCalls(names, m.toolCalls) == names
  {
  }

  lemma {:induction false} ContentsOfResult(turns: seq<Turn>, r: Named)
    ensures var contents := Contents(turns);
            var part := FunctionResponse(r.name, r.message.content);
            && Contents(AddResult(turns, r))
               == (match Collecting(turns)
                   case Some(k) => contents[k := Content("user", contents[k].parts + [part])]
                   case None => contents + [Content("user", [part])])
            && Collecting(AddResult(turns, r)) == Some(if Collecting(turns).Some? then |turns| - 1 else |turns|)
  {
    var part := FunctionResponse(r.name, r.message.content);
    if Collecting(turns).Some? {
      var k := |turns| - 1;
      assert ResponseParts(turns[k].results + [r]) == ResponseParts(turns[k].results) + [part];
    } else {
      assert ResponseParts([r]) == [part];
    }
  }

  // ---------- What the turns are ----------

  /** The messages of a turn, with the names of the calls they answer. */
  function Members(t: Turn): seq<Named> {
    match t
    case Results(results) => results
    case Single(m) => [Named(m, "")]
  }

  function Flatten(turns: seq<Turn>): seq<Named> {
    if turns == [] then [] else Flatten(turns[..|turns| - 1]) + Members(turns[|turns| - 1])
  }

  /** The messages that are not for the system, in order; a tool result with the name of the
      latest earlier call it can answer. */
  function Spoken(messages: seq<Message>): seq<Named> {
    if messages == [] then []
    else
      var init, last := messages[..|messages| - 1], messages[|messages| - 1];
      Spoken(init)
      + if last.role == "system" then []
        else [Named(last, if last.role == "tool" then LatestName(init, IdOrEmpty(last)) else "")]
  }

  ghost predicate WellFormedTurn(t: Turn) {
    match t
    case Results(results) => results != [] && forall i :: 0 <= i < |results| ==> results[i].message.role == "tool"
    case Single(m) => m.role != "tool"
  }

  /** Whole turns, and no two of tool results in a row. */
  ghost predicate MaximalTurns(turns: seq<Turn>) {
    && (forall i :: 0 <= i < |turns| ==> WellFormedTurn(turns[i]))
    && (forall i :: 0 < i < |turns| ==> turns[i - 1].Single? || turns[i].Single?)
  }

  lemma {:induction false} FlattenSnoc(turns: seq<Turn>, t: Turn)
    ensures Flatten(turns + [t]) == Flatten(turns) + Members(t)
  {
    assert (turns + [t])[..|turns|] == turns;
  }

  lemma {:induction false} FlattenResult(turns: seq<Turn>, r: Named)
    ensures Flatten(AddResult(turns, r)) == Flatten(turns) + [r]
  {
    var k := |turns| - 1;
    if turns != [] && turns[k].Results? {
      FlattenSnoc(turns[..k], Results(turns[k].results + [r]));
      assert AddResult(turns, r) == turns[..k] + [Results(turns[k].results + [r])];
      ConcatAssociative(Flatten(turns[..k]), turns[k].results, [r]);
    } else {
      FlattenSnoc(turns, Results([r]));
    }
  }

  /** How a last message joins the turns before it: a tool result extends a run, anything
      else stands alone. */
  function Join(turns: seq<Turn>, last: Named): seq<Turn> {
    if last.message.role == "tool" then AddResult(turns, last) else turns + [Single(last.message)]
  }

  lemma {:induction false} JoinKeepsMaximal(turns: seq<Turn>, last: Named)
    requires MaximalTurns(turns)
    ensures MaximalTurns(Join(turns, last))
  {
    var k := |turns| - 1;
    if last.message.role == "tool" && turns != [] && turns[k].Results? {
      assert WellFormedTurn(turns[k]) && WellFormedTurn(Results(turns[k].results + [last]));
    } else {
      assert WellFormedTurn(if last.message.role == "tool" then Results([last]) else Single(last.message));
    }
  }

  lemma {:induction false} JoinFlattens(turns: seq<Turn>, last: Named)
    requires last.message.role != "tool" ==> last.name == ""
    ensures Flatten(Join(turns, last)) == Flatten(turns) + [last]
  {
    if last.message.role == "tool" {
      FlattenResult(turns, last);
    } else {
      FlattenSnoc(turns, Single(last.message));
    }
  }

  /** The turns hold every message but the system's, once and in order, each tool result
      under the name of the latest earlier call; runs of tool results are never split. */
  lemma {:induction false} TurnsAreMaximal(messages: seq<Message>)
    ensures Flatten(Turns(messages)) == Spoken(messages)
    ensures MaximalTurns(Turns(messages))
  {
    hide MaximalTurns, Flatten, AddResult, LatestName;
    if messages == [] {
      NothingIsMaximal();
    } else {
      var init, last := messages[..|messages| - 1], messages[|messages| - 1];
      TurnsAreMaximal(init);
      var named := Named(last, if last.role == "tool" then LatestName(init, IdOrEmpty(last)) else "");
      JoinKeepsMaximal(Turns(init), named);
      JoinFlattens(Turns(init), named);
    }
  }

  lemma {:induction false} NothingIsMaximal()
    ensures MaximalTurns([]) && Flatten([]) == []
  {
  }

  lemma {:induction false} LastMember(turns: seq<Turn>)
    requires MaximalTurns(turns)
    ensures Flatten(turns) == [] <==> turns == []
    ensures turns != [] ==>
              var last := Flatten(turns)[|Flatten(turns)| - 1];
              && (turns[|turns| - 1].Results? <==> last.message.role == "tool")
              && last == Members(turns[|turns| - 1])[|Members(turns[|turns| - 1])| - 1]
  {
    if turns != [] {
      assert WellFormedTurn(turns[|turns| - 1]);
    }
  }

  /** `turns` without its last message. */
  function DropLast(turns: seq<Turn>): seq<Turn>
    requires turns != []
  {
    var k := |turns| - 1;
    if |Members(turns[k])| > 1 then turns[k := Results(Members(turns[k])[..|Members(turns[k])| - 1])] else turns[..k]
  }

  lemma {:induction false} DropLastIsMaximal(turns: seq<Turn>)
    requires MaximalTurns(turns) && turns != []
    ensures MaximalTurns(DropLast(turns))
  {
    var k := |turns| - 1;
    var members := Members(turns[k]);
    assert WellFormedTurn(turns[k]);
    if |members| > 1 {
      assert WellFormedTurn(Results(members[..|members| - 1]));
    }
  }

  lemma {:induction false} DropLastFlattens(turns: seq<Turn>)
    requires MaximalTurns(turns) && turns != []
    ensures Flatten(turns) != [] && Flatten(DropLast(turns)) == Flatten(turns)[..|Flatten(turns)| - 1]
  {
    var k := |turns| - 1;
    var members := Members(turns[k]);
    assert WellFormedTurn(turns[k]);
    if |members| > 1 {
      FlattenSnoc(turns[..k], Results(members[..|members| - 1]));
      assert DropLast(turns) == turns[..k] + [Results(members[..|members| - 1])];
      assert Flatten(turns)[..|Flatten(turns)| - 1] == Flatten(turns[..k]) + members[..|members| - 1];
    }
  }

  lemma {:induction false} DropLastJoins(turns: seq<Turn>)
    requires MaximalTurns(turns) && turns != []
    ensures Flatten(turns) != [] && turns == Join(DropLast(turns), Flatten(turns)[|Flatten(turns)| - 1])
  {
    hide MaximalTurns, Flatten, WellFormedTurn, AddResult, Members;
    LastMember(turns);
    LastTurn(turns);
    LastTurnJoins(turns);
  }

  /** The last member of the last turn joined to what is left without it. */
  lemma {:induction false} LastTurnJoins(turns: seq<Turn>)
    requires turns != [] && Members(turns[|turns| - 1]) != []
    requires var members := Members(turns[|turns| - 1]);
             turns[|turns| - 1].Results? <==> members[|members| - 1].message.role == "tool"
    requires turns[|turns| - 1].Results? && |turns| > 1 ==> turns[|turns| - 2].Single?
    ensures var members := Members(turns[|turns| - 1]); turns == Join(DropLast(turns), members[|members| - 1])
  {
    hide AddResult;
    var k := |turns| - 1;
    var members := Members(turns[k]);
    var last := members[|members| - 1];
    assert turns == turns[..k] + [turns[k]];
    if turns[k].Results? && |members| > 1 {
      assert DropLast(turns) == turns[..k] + [Results(members[..|members| - 1])];
      ResultAdded(turns[..k], members[..|members| - 1], last);
      assert members[..|members| - 1] + [last] == members;
    } else if turns[k].Results? {
      assert members == [last];
      ResultsBegun(turns[..k], last);
    } else {
      assert DropLast(turns) == turns[..k];
    }
  }

  lemma {:induction false} ResultAdded(turns: seq<Turn>, results: seq<Named>, r: Named)
    ensures AddResult(turns + [Results(results)], r) == turns + [Results(results + [r])]
  {
  }

  lemma {:induction false} ResultsBegun(turns: seq<Turn>, r: Named)
    requires turns != [] ==> turns[|turns| - 1].Single?
    ensures AddResult(turns, r) == turns + [Results([r])]
  {
  }

  lemma {:induction false} LastTurn(turns: seq<Turn>)
    requires MaximalTurns(turns) && turns != []
    ensures Members(turns[|turns| - 1]) != []
    ensures turns[|turns| - 1].Results? && |turns| > 1 ==> turns[|turns| - 2].Single?
  {
    assert WellFormedTurn(turns[|turns| - 1]);
  }

  /** There is only one such grouping. */
  lemma {:induction false} MaximalTurnsAreUnique(a: seq<Turn>, b: seq<Turn>)
    requires MaximalTurns(a) && MaximalTurns(b) && Flatten(a) == Flatten(b)
    ensures a == b
    decreases |Flatten(a)|
  {
    LastMember(a);
    LastMember(b);
    if a != [] {
      DropLastFlattens(a);
      DropLastFlattens(b);
      DropLastIsMaximal(a);
      DropLastIsMaximal(b);
      MaximalTurnsAreUnique(DropLast(a), DropLast(b));
      DropLastJoins(a);
      DropLastJoins(b);
    }
  }

  // ---------- The name a Gemini response carries ----------

  /** A call with this id in message `i` of the conversation. */
  ghost predicate CallIn(messages: seq<Message>, i: nat, id: string, name: string)
    requires i < |messages|
  {
    NameAmong(messages[i].toolCalls, id) == Some(name)
  }

  lemma {:induction false} NameAmongIsLast(calls: seq<ToolCall>, id: string)
    ensures NameAmong(calls, id).None? <==> forall c :: 0 <= c < |calls| ==> calls[c].id != id
    ensures NameAmong(calls, id).Some? ==>
              exists c :: && 0 <= c < |calls| && calls[c].id == id && calls[c].name == NameAmong(calls, id).value
                          && forall d :: c < d < |calls| ==> calls[d].id != id
  {
    if calls != [] {
      var k := |calls| - 1;
      NameAmongIsLast(calls[..k], id);
      if calls[k].id != id && NameAmong(calls, id).Some? {
        var c :| && 0 <= c < k && calls[..k][c].id == id && calls[..k][c].name == NameAmong(calls, id).value
                 && forall d :: c < d < k ==> calls[..k][d].id != id;
        assert calls[c].id == id;
        forall d | c < d < |calls| ensures calls[d].id != id {
          if d < k { assert calls[..k][d].id != id; }
        }
      }
    }
  }

  /** The name comes from the latest message that called with this id; without one it is
      "tool". */
  lemma {:induction false} LatestNameIsLatest(messages: seq<Message>, id: string)
    ensures (forall i: nat :: i < |messages| ==> NameAmong(messages[i].toolCalls, id).None?) ==>
              LatestName(messages, id) == "tool"
    ensures (exists i: nat :: i < |messages| && NameAmong(messages[i].toolCalls, id).Some?) ==>
              exists i: nat ::
                && i < |messages| && CallIn(messages, i, id, LatestName(messages, id))
                && forall j: nat :: i < j < |messages| ==> NameAmong(messages[j].toolCalls, id).None?
  {
    hide NameAmong;
    if messages != [] {
      var k := |messages| - 1;
      LatestNameIsLatest(messages[..k], id);
      if NameAmong(messages[k].toolCalls, id).Some? {
        assert CallIn(messages, k, id, LatestName(messages, id));
      } else if exists i: nat :: i < |messages| && NameAmong(messages[i].toolCalls, id).Some? {
        var i: nat :| i < |messages| && NameAmong(messages[i].toolCalls, id).Some?;
        assert messages[..k][i] == messages[i];
        var l: nat :| && l < k && CallIn(messages[..k], l, id, LatestName(messages[..k], id))
                      && forall j: nat :: l < j < k ==> NameAmong(messages[..k][j].toolCalls, id).None?;
        assert CallIn(messages, l, id, LatestName(messages, id));
        forall j: nat | l < j < |messages| ensures NameAmong(messages[j].toolCalls, id).None? {
          if j < k { assert messages[..k][j] == messages[j]; }
        }
      }
    }
  }

  // ---------- Reading the Anthropic wire back ----------

  function ReadResult(b: Block): Message {
    match b
    case ToolResult(id, content) => MessageFields("tool", content, id, [])
    case _ => MessageFields("tool", "", None, [])
  }

  function ReadResults(blocks: seq<Block>): (r: seq<Message>)
    ensures |r| == |blocks| && forall i :: 0 <= i < |r| ==> r[i] == ReadResult(blocks[i])
  {
    seq(|blocks|, i requires 0 <= i < |blocks| => ReadResult(blocks[i]))
  }

  function ReadCalls(blocks: seq<Block>): seq<ToolCall> {
    if blocks == [] then []
    else
      var last := blocks[|blocks| - 1];
      ReadCalls(blocks[..|blocks| - 1]) + if last.ToolUse? then [ToolCall(last.id, last.name, last.input)] else []
  }

  /** The messages a wire entry stands for. */
  function ReadEntry(e: WireEntry): seq<Message> {
    match e.content
    case Plain(text) => [MessageFields(e.role, text, None, [])]
    case Blocks(blocks) =>
      if e.role == "user" then ReadResults(blocks)
      else
        var text := if blocks != [] && blocks[0].TextBlock? then blocks[0].text else "";
        [MessageFields("assistant", text, None, ReadCalls(blocks))]
  }

  function ReadWire(wire: seq<WireEntry>): seq<Message> {
    if wire == [] then [] else ReadWire(wire[..|wire| - 1]) + ReadEntry(wire[|wire| - 1])
  }

  function NonSystem(messages: seq<Message>): seq<Message> {
    if messages == [] then []
    else
      var last := messages[|messages| - 1];
      NonSystem(messages[..|messages| - 1]) + if last.role == "system" then [] else [last]
  }

  /** What survives the wire: everything but an id on a message that is no tool result. */
  function Carried(m: Message): Message {
    if m.role == "tool" then m else MessageFields(m.role, m.content, None, m.toolCalls)
  }

  function CarriedAll(ms: seq<Message>): (r: seq<Message>)
    ensures |r| == |ms| && forall i :: 0 <= i < |r| ==> r[i] == Carried(ms[i])
  {
    seq(|ms|, i requires 0 <= i < |ms| => Carried(ms[i]))
  }

  lemma {:induction false} ReadCallsSnoc(blocks: seq<Block>, b: Block)
    ensures ReadCalls(blocks + [b])
            == ReadCalls(blocks) + if b.ToolUse? then [ToolCall(b.id, b.name, b.input)] else []
  {
    assert (blocks + [b])[..|blocks|] == blocks;
  }

  lemma {:induction false} NoCallsToRead(prefix: seq<Block>)
    requires forall i :: 0 <= i < |prefix| ==> !prefix[i].ToolUse?
    ensures ReadCalls(prefix) == []
  {
    if prefix != [] {
      NoCallsToRead(prefix[..|prefix| - 1]);
    }
  }

  lemma {:induction false} ReadCallsOfUses(prefix: seq<Block>, calls: seq<ToolCall>)
    requires forall i :: 0 <= i < |prefix| ==> !prefix[i].ToolUse?
    ensures ReadCalls(prefix + UseBlocks(calls)) == calls
    decreases |calls|
  {
    hide ReadCalls;
    if calls == [] {
      NoCallsToRead(prefix);
      assert prefix + UseBlocks(calls) == prefix;
    } else {
      var k := |calls| - 1;
      var b := ToolUse(calls[k].id, calls[k].name, calls[k].arguments);
      ReadCallsOfUses(prefix, calls[..k]);
      ReadCallsSnoc(prefix + UseBlocks(calls[..k]), b);
      assert UseBlocks(calls) == UseBlocks(calls[..k]) + [b];
      ConcatAssociative(prefix, UseBlocks(calls[..k]), [b]);
      assert calls[..k] + [ToolCall(b.id, b.name, b.input)] == calls;
    }
  }

  lemma {:induction false} ReadSingle(m: Message)
    requires m.role != "tool"
    ensures ReadEntry(EntryOf(Single(m))) == [Carried(m)]
  {
    if m.toolCalls != [] {
      var text := if m.content != "" then [TextBlock(m.content)] else [];
      ReadCallsOfUses(text, m.toolCalls);
      assert (text + UseBlocks(m.toolCalls))[0]
        == if m.content != "" then TextBlock(m.content) else UseBlocks(m.toolCalls)[0];
    }
  }

  lemma {:induction false} ReadRun(results: seq<Named>, r: Named)
    requires r.message.role == "tool"
    ensures ReadEntry(EntryOf(Results(results + [r]))) == ReadEntry(EntryOf(Results(results))) + [r.message]
    ensures ReadEntry(EntryOf(Results([r]))) == [r.message]
  {
    assert ReadResult(ToolResult(r.message.toolCallId, r.message.content)) == r.message;
  }

  lemma {:induction false} ReadWireSnoc(turns: seq<Turn>, t: Turn)
    ensures ReadWire(Wire(turns + [t])) == ReadWire(Wire(turns)) + ReadEntry(EntryOf(t))
  {
    assert Wire(turns + [t]) == Wire(turns) + [EntryOf(t)];
    assert Wire(turns + [t])[..|turns|] == Wire(turns);
  }

  lemma {:induction false} ReadWireOfResult(turns: seq<Turn>, r: Named)
    requires r.message.role == "tool"
    ensures ReadWire(Wire(AddResult(turns, r))) == ReadWire(Wire(turns)) + [r.message]
  {
    var k := |turns| - 1;
    if turns != [] && turns[k].Results? {
      var results := turns[k].results;
      assert turns == turns[..k] + [Results(results)];
      assert AddResult(turns, r) == turns[..k] + [Results(results + [r])];
      ReadWireSnoc(turns[..k], Results(results));
      ReadWireSnoc(turns[..k], Results(results + [r]));
      ReadRun(results, r);
      ConcatAssociative(ReadWire(Wire(turns[..k])), ReadEntry(EntryOf(Results(results))), [r.message]);
    } else {
      ReadWireSnoc(turns, Results([r]));
      ReadRun([], r);
    }
  }

  lemma {:induction false} WireCarries(messages: seq<Message>)
    ensures ReadWire(Wire(Turns(messages))) == CarriedAll(NonSystem(messages))
  {
    hide AddResult, LatestName, Wire, EntryOf, ReadEntry, ReadWire;
    if messages == [] {
      NothingIsRead();
    } else {
      var init, last := messages[..|messages| - 1], messages[|messages| - 1];
      WireCarries(init);
      if last.role == "tool" {
        ReadWireOfResult(Turns(init), Named(last, LatestName(init, IdOrEmpty(last))));
      } else if last.role != "system" {
        ReadWireSnoc(Turns(init), Single(last));
        ReadSingle(last);
      }
    }
  }

  lemma {:induction false} NothingIsRead()
    ensures ReadWire(Wire([])) == []
  {
  }

  /** The wire gives back the messages that are not the system's, in order, exactly when
      only tool results carry a call id. */
  lemma {:induction false} WireReadsBackIff(messages: seq<Message>)
    ensures ReadWire(Wire(Turns(messages))) == NonSystem(messages)
            <==> forall i :: 0 <= i < |NonSystem(messages)| && NonSystem(messages)[i].role != "tool" ==>
                   NonSystem(messages)[i].toolCallId.None?
  {
    WireCarries(messages);
    var spoken := NonSystem(messages);
    if CarriedAll(spoken) == spoken {
      forall i | 0 <= i < |spoken| && spoken[i].role != "tool" ensures spoken[i].toolCallId.None? {
        assert CarriedAll(spoken)[i] == spoken[i];
      }
    }
  }

  /** An id on a message that is no tool result is lost on the wire: with or without it the
      entries are the same, so no reader can tell. */
  lemma {:induction false} OtherCallIdsAreLost(content: string, id: string)
    ensures var m, n: Message := MessageFields("user", content, Some(id), []), MessageFields("user", content, None, []);
            && m != n && Wire(Turns([m])) == Wire(Turns([n]))
            && ReadWire(Wire(Turns([m]))) != NonSystem([m])
  {
    hide Turns, Wire, ReadWire, LatestName, AddResult, NonSystem;
    var m, n: Message := MessageFields("user", content, Some(id), []), MessageFields("user", content, None, []);
    LoneMessage(m);
    LoneMessage(n);
    assert EntryOf(Single(m)) == EntryOf(Single(n));
    assert Wire([Single(m)]) == Wire([Single(n)]);
    WireReadsBackIff([m]);
    assert NonSystem([m])[0].toolCallId.Some?;
  }

  lemma {:induction false} LoneMessage(m: Message)
    requires m.role == "user"
    ensures Turns([m]) == [Single(m)] && NonSystem([m]) == [m]
  {
    assert [m][..0] == [];
  }

  // ---------- Reading the Gemini contents back ----------

  datatype NamedCall = NamedCall(name: string, arguments: map<string, Json>)

  /** What the other side hears of a message: who speaks, the text, the calls without their ids,
      and for a tool result the name of the call it answers. */
  datatype Heard = Heard(role: string, text: string, calls: seq<NamedCall>, answers: string)

  function HeardCalls(calls: seq<ToolCall>): (r: seq<NamedCall>)
    ensures |r| == |calls| && forall i :: 0 <= i < |r| ==> r[i] == NamedCall(calls[i].name, calls[i].arguments)
  {
    seq(|calls|, i requires 0 <= i < |calls| => NamedCall(calls[i].name, calls[i].arguments))
  }

  /** Whoever is neither the assistant nor a tool is heard as the user. */
  function HeardOf(n: Named): Heard {
    if n.message.role == "tool" then Heard("tool", n.message.content, [], n.name)
    else if n.message.role == "assistant" then
      Heard("assistant", n.message.content, HeardCalls(n.message.toolCalls), "")
    else Heard("user", n.message.content, [], "")
  }

  function HeardAll(ns: seq<Named>): (r: seq<Heard>)
    ensures |r| == |ns| && forall i :: 0 <= i < |r| ==> r[i] == HeardOf(ns[i])
  {
    seq(|ns|, i requires 0 <= i < |ns| => HeardOf(ns[i]))
  }

  function TextOf(p: Part): string {
    if p.TextPart? then p.text else ""
  }

  function CallOf(p: Part): NamedCall {
    match p
    case FunctionCall(name, args) => NamedCall(name, args)
    case _ => NamedCall("", map[])
  }

  function CallsOf(parts: seq<Part>): (r: seq<NamedCall>)
    ensures |r| == |parts| && forall i :: 0 <= i < |r| ==> r[i] == CallOf(parts[i])
  {
    seq(|parts|, i requires 0 <= i < |parts| => CallOf(parts[i]))
  }

  function ResultOf(p: Part): Heard {
    match p
    case FunctionResponse(name, result) => Heard("tool", result, [], name)
    case _ => Heard("tool", "", [], "")
  }

  /** What one content says. */
  function ReadContent(c: Content): seq<Heard> {
    if c.role == "model" then
      var calls := if c.parts != [] && c.parts[0].TextPart? then c.parts[1..] else c.parts;
      [Heard("assistant", if c.parts == [] then "" else TextOf(c.parts[0]), CallsOf(calls), "")]
    else if c.parts != [] && c.parts[0].FunctionResponse? then
      seq(|c.parts|, j requires 0 <= j < |c.parts| => ResultOf(c.parts[j]))
    else [Heard("user", if c.parts == [] then "" else TextOf(c.parts[0]), [], "")]
  }

  function ReadContents(contents: seq<Content>): seq<Heard> {
    if contents == [] then []
    else ReadContents(contents[..|contents| - 1]) + ReadContent(contents[|contents| - 1])
  }

  lemma {:induction false} ReadTurn(t: Turn)
    requires WellFormedTurn(t)
    ensures ReadContent(ContentOf(t)) == HeardAll(Members(t))
  {
    match t
    case Results(results) =>
      assert ContentOf(t).parts[0].FunctionResponse?;
    case Single(m) =>
      if m.role == "assistant" && m.toolCalls != [] {
        var text := if m.content != "" then [TextPart(m.content)] else [];
        var parts := text + CallParts(m.toolCalls);
        assert ContentOf(t).parts == parts;
        assert parts[0] == if m.content != "" then TextPart(m.content) else CallParts(m.toolCalls)[0];
        assert (if parts[0].TextPart? then parts[1..] else parts) == CallParts(m.toolCalls);
        assert CallsOf(CallParts(m.toolCalls)) == HeardCalls(m.toolCalls);
      } else {
        assert [TextPart(m.content)][1..] == [];
      }
  }

  lemma {:induction false} ReadTurns(turns: seq<Turn>)
    requires forall i :: 0 <= i < |turns| ==> WellFormedTurn(turns[i])
    ensures ReadContents(Contents(turns)) == HeardAll(Flatten(turns))
  {
    hide ContentOf, ReadContent, HeardOf, WellFormedTurn, Members;
    if turns != [] {
      var k := |turns| - 1;
      ReadTurns(turns[..k]);
      ReadTurn(turns[k]);
      assert Contents(turns)[..k] == Contents(turns[..k]);
    }
  }

  /** The contents say what was said: every message that is not the system's, in order, with its
      text and its calls, and each tool result under the name of the latest earlier call. */
  lemma {:induction false} ContentsReadBack(messages: seq<Message>)
    ensures ReadContents(Contents(Turns(messages))) == HeardAll(Spoken(messages))
  {
    hide Contents, ReadContents, Turns, Flatten, Spoken, WellFormedTurn;
    TurnsAreMaximal(messages);
    ReadTurns(Turns(messages));
  }

  // ---------- The system text ----------

  ghost predicate NoSystem(messages: seq<Message>) {
    forall i :: 0 <= i < |messages| ==> messages[i].role != "system"
  }

  lemma {:induction false} PartsSnoc(ms: seq<Message>, m: Message)
    ensures SystemParts(ms + [m]) == SystemParts(ms) + if m.role == "system" then [m.content] else []
  {
    assert (ms + [m])[..|ms|] == ms;
  }

  lemma {:induction false} PartsOfBoth(a: seq<Message>, b: seq<Message>)
    ensures SystemParts(a + b) == SystemParts(a) + SystemParts(b)
  {
    hide SystemParts;
    if b == [] {
      assert a + b == a;
      NoParts(b);
    } else {
      var k := |b| - 1;
      PartsOfBoth(a, b[..k]);
      PartsSnoc(b[..k], b[k]);
      PartsSnoc(a + b[..k], b[k]);
      assert a + b == (a + b[..k]) + [b[k]] && b == b[..k] + [b[k]];
    }
  }

  lemma {:induction false} NoParts(b: seq<Message>)
    ensures NoSystem(b) <==> SystemParts(b) == []
  {
    if b != [] {
      NoParts(b[..|b| - 1]);
    }
  }

  lemma {:induction false} JoinOfBoth(a: seq<string>, b: seq<string>)
    requires a != [] && b != []
    ensures JoinParts(a + b) == JoinParts(a) + "\n\n" + JoinParts(b)
  {
    if |a| == 1 {
      assert (a + b)[1..] == b;
    } else {
      JoinOfBoth(a[1..], b);
      assert (a + b)[1..] == a[1..] + b;
    }
  }

  /** The system text of one message is its content if it is the system's; of a conversation cut
      anywhere it is that of both parts, with a blank line between them if both have one. */
  lemma {:induction false} SystemTextOfBoth(a: seq<Message>, b: seq<Message>, m: Message)
    ensures JoinParts(SystemParts([m])) == if m.role == "system" then m.content else ""
    ensures var x, y := JoinParts(SystemParts(a)), JoinParts(SystemParts(b));
            JoinParts(SystemParts(a + b))
            == if NoSystem(a) then y else if NoSystem(b) then x else x + "\n\n" + y
  {
    assert [m][..0] == [];
    PartsOfBoth(a, b);
    NoParts(a);
    NoParts(b);
    if NoSystem(a) {
      assert [] + SystemParts(b) == SystemParts(b);
    } else if NoSystem(b) {
      assert SystemParts(a) + [] == SystemParts(a);
    } else {
      JoinOfBoth(SystemParts(a), SystemParts(b));
    }
  }
}
