/** The provider-neutral messages and responses of the model adapters and the JSON shape
    they take in traces and scripts (models/types.py). */
module Payloads {
  import opened Sequences

  /** A JSON value; object keys are unordered, and numbers are exact. */
  datatype Json =
    | JNull
    | JBool(b: bool)
    | JNum(n: int)
    | JStr(s: string)
    | JArr(items: seq<Json>)
    | JObj(fields: map<string, Json>)

  datatype ToolCall = ToolCall(id: string, name: string, arguments: map<string, Json>)

  datatype MessageFields = MessageFields(
    role: string,
    content: string,
    toolCallId: Option<string>,
    toolCalls: seq<ToolCall>)

  predicate Constructible(m: MessageFields) {
    m.toolCalls != [] ==> m.role == "assistant"
  }

  /** A message; construction refuses tool calls on any role but assistant. */
  type Message = m: MessageFields | Constructible(m) witness MessageFields("user", "", None, [])

  datatype Usage = Usage(inputTokens: int, outputTokens: int)

  datatype ModelResponse = ModelResponse(
    text: string,
    toolCalls: seq<ToolCall>,
    structuredOutput: Option<map<string, Json>>,
    usage: Usage,
    stopReason: string)

  datatype ModelRequest = ModelRequest(
    messages: seq<Message>,
    tools: seq<string>,
    responseSchema: Option<map<string, Json>>,
    maxTokens: int)

  // ---------- Encoding ----------

  function ToolCallPayload(c: ToolCall): Json {
    JObj(map["id" := JStr(c.id), "name" := JStr(c.name), "arguments" := JObj(c.arguments)])
  }

  function ToolCallsPayload(cs: seq<ToolCall>): (r: seq<Json>)
    ensures |r| == |cs|
  {
    seq(|cs|, i requires 0 <= i < |cs| => ToolCallPayload(cs[i]))
  }

  function MessagePayload(m: Message): Json {
    JObj(map["role" := JStr(m.role), "content" := JStr(m.content)]
         + (if m.toolCallId.Some? then map["tool_call_id" := JStr(m.toolCallId.value)] else map[])
         + (if m.toolCalls != [] then map["tool_calls" := JArr(ToolCallsPayload(m.toolCalls))] else map[]))
  }

  function MessagesPayload(ms: seq<Message>): (r: seq<Json>)
    ensures |r| == |ms|
  {
    seq(|ms|, i requires 0 <= i < |ms| => MessagePayload(ms[i]))
  }

  method MessagesToPayload(messages: seq<Message>) returns (out: seq<Json>)
    ensures out == MessagesPayload(messages)
  {
    out := [];
    for i := 0 to |messages|
      invariant |out| == i && forall k :: 0 <= k < i ==> out[k] == MessagePayload(messages[k])
    {
      var m := messages[i];
      var item := map["role" := JStr(m.role), "content" := JStr(m.content)];
      if m.toolCallId.Some? {
        item := item["tool_call_id" := JStr(m.toolCallId.value)];
      }
      if m.toolCalls != [] {
        item := item["tool_calls" := JArr(ToolCallsPayload(m.toolCalls))];
      }
      assert item == MessagePayload(m).fields;
      out := out + [JObj(item)];
    }
  }

  function StructuredPayload(o: Option<map<string, Json>>): Json {
    if o.Some? then JObj(o.value) else JNull
  }

  function UsagePayload(u: Usage): Json {
    JObj(map["input_tokens" := JNum(u.inputTokens), "output_tokens" := JNum(u.outputTokens)])
  }

  function ResponsePayload(r: ModelResponse): Json {
    JObj(map[
           "text" := JStr(r.text),
           "tool_calls" := JArr(ToolCallsPayload(r.toolCalls)),
           "structured_output" := StructuredPayload(r.structuredOutput),
           "usage" := UsagePayload(r.usage),
           "stop_reason" := JStr(r.stopReason)])
  }

  function StringsPayload(ss: seq<string>): seq<Json> {
    seq(|ss|, i requires 0 <= i < |ss| => JStr(ss[i]))
  }

  function RequestPayload(q: ModelRequest): Json {
    JObj(map[
           "messages" := JArr(MessagesPayload(q.messages)),
           "tools" := JArr(StringsPayload(q.tools)),
           "response_schema" := StructuredPayload(q.responseSchema),
           "max_tokens" := JNum(q.maxTokens)])
  }

  // ---------- Decoding ----------
  // None stands for any exception: a missing key, or a value of a kind the decoder's
  // conversions are not modelled for.

  function Field(j: Json, key: string): Option<Json> {
    if j.JObj? && key in j.fields then Some(j.fields[key]) else None
  }

  function FieldOr(j: Json, key: string, default: Json): Option<Json> {
    if !j.JObj? then None else if key in j.fields then Some(j.fields[key]) else Some(default)
  }

  function Text(j: Option<Json>): Option<string> {
    if j.Some? && j.value.JStr? then Some(j.value.s) else None
  }

  function Number(j: Option<Json>): Option<int> {
    if j.Some? && j.value.JNum? then Some(j.value.n) else None
  }

  function Object(j: Option<Json>): Option<map<string, Json>> {
    if j.Some? && j.value.JObj? then Some(j.value.fields) else None
  }

  function Items(j: Option<Json>): Option<seq<Json>> {
    if j.Some? && j.value.JArr? then Some(j.value.items) else None
  }

  function ToolCallFrom(j: Json): Option<ToolCall> {
    var id, name := Text(Field(j, "id")), Text(Field(j, "name"));
    var arguments := Object(FieldOr(j, "arguments", JObj(map[])));
    if id.Some? && name.Some? && arguments.Some? then Some(ToolCall(id.value, name.value, arguments.value)) else None
  }

  /** Decodes each item; None when one of them is None. */
  function DecodeAll<T>(decode: Json -> Option<T>, items: seq<Json>): Option<seq<T>> {
    if items == [] then Some([])
    else
      var head, rest := decode(items[0]), DecodeAll(decode, items[1..]);
      if head.Some? && rest.Some? then Some([head.value] + rest.value) else None
  }

  function ToolCallsFrom(j: Option<Json>): Option<seq<ToolCall>> {
    var items := Items(j);
    if items.None? then None else DecodeAll(ToolCallFrom, items.value)
  }

  function OptionalText(j: Option<Json>): Option<Option<string>> {
    match j
    case None => None
    case Some(JNull) => Some(None)
    case Some(JStr(s)) => Some(Some(s))
    case _ => None
  }

  function MessageFrom(j: Json): Option<Message> {
    var role, content := Text(Field(j, "role")), Text(Field(j, "content"));
    var toolCallId := OptionalText(FieldOr(j, "tool_call_id", JNull));
    var toolCalls := ToolCallsFrom(FieldOr(j, "tool_calls", JArr([])));
    if role.Some? && content.Some? && toolCallId.Some? && toolCalls.Some? then
      var m := MessageFields(role.value, content.value, toolCallId.value, toolCalls.value);
      if Constructible(m) then Some(m) else None
    else None
  }

  function MessagesFromPayload(items: seq<Json>): Option<seq<Message>> {
    DecodeAll(MessageFrom, items)
  }

  function UsageFrom(j: Option<Json>): Option<Usage> {
    if j.None? then None
    else
      var i, o := Number(FieldOr(j.value, "input_tokens", JNum(0))), Number(FieldOr(j.value, "output_tokens", JNum(0)));
      if i.Some? && o.Some? then Some(Usage(i.value, o.value)) else None
  }

  function StructuredFrom(j: Option<Json>): Option<Option<map<string, Json>>> {
    match j
    case None => None
    case Some(JNull) => Some(None)
    case Some(JObj(fields)) => Some(Some(fields))
    case _ => None
  }

  function ResponseFromPayload(j: Json): Option<ModelResponse> {
    var text := Text(FieldOr(j, "text", JStr("")));
    var toolCalls := ToolCallsFrom(FieldOr(j, "tool_calls", JArr([])));
    var structured := StructuredFrom(FieldOr(j, "structured_output", JNull));
    var usage := UsageFrom(FieldOr(j, "usage", JObj(map[])));
    var stop := Text(FieldOr(j, "stop_reason", JStr("end_turn")));
    if text.Some? && toolCalls.Some? && structured.Some? && usage.Some? && stop.Some? then
      Some(ModelResponse(text.value, toolCalls.value, structured.value, usage.value, stop.value))
    else None
  }

  // ---------- Round trips ----------

  /** Decoding is left inverse to an encoding applied item by item. */
  lemma {:induction false} DecodeAllInverts<T>(decode: Json -> Option<T>, items: seq<Json>, values: seq<T>)
    requires |items| == |values| && forall i :: 0 <= i < |items| ==> decode(items[i]) == Some(values[i])
    ensures DecodeAll(decode, items) == Some(values)
  {
    if items != [] {
      DecodeAllInverts(decode, items[1..], values[1..]);
      assert values == [values[0]] + values[1..];
    }
  }

  lemma {:induction false} ToolCallsRoundTrip(cs: seq<ToolCall>)
    ensures DecodeAll(ToolCallFrom, ToolCallsPayload(cs)) == Some(cs)
  {
    forall i | 0 <= i < |cs| ensures ToolCallFrom(ToolCallsPayload(cs)[i]) == Some(cs[i]) {}
    DecodeAllInverts(ToolCallFrom, ToolCallsPayload(cs), cs);
  }

  lemma {:induction false} MessagePayloadFields(m: Message)
    ensures var j := MessagePayload(m);
            && Field(j, "role") == Some(JStr(m.role)) && Field(j, "content") == Some(JStr(m.content))
            && FieldOr(j, "tool_call_id", JNull)
               == Some(if m.toolCallId.Some? then JStr(m.toolCallId.value) else JNull)
            && FieldOr(j, "tool_calls", JArr([])) == Some(JArr(ToolCallsPayload(m.toolCalls)))
  {
    hide ToolCallPayload;
    if m.toolCalls == [] { assert ToolCallsPayload(m.toolCalls) == []; }
  }

  lemma {:induction false} MessageRoundTrip(m: Message)
    ensures MessageFrom(MessagePayload(m)) == Some(m)
  {
    hide MessagePayload, ToolCallsPayload, DecodeAll, Field, FieldOr, ToolCallFrom;
    ToolCallsRoundTrip(m.toolCalls);
    MessagePayloadFields(m);
  }

  /** Reading back a written message list gives the list. */
  lemma {:induction false} MessagesRoundTrip(ms: seq<Message>)
    ensures MessagesFromPayload(MessagesPayload(ms)) == Some(ms)
  {
    forall i | 0 <= i < |ms| ensures MessageFrom(MessagesPayload(ms)[i]) == Some(ms[i]) {
      MessageRoundTrip(ms[i]);
    }
    DecodeAllInverts(MessageFrom, MessagesPayload(ms), ms);
  }

  /** Different message lists have different payloads. */
  lemma {:induction false} MessagesPayloadInjective(a: seq<Message>, b: seq<Message>)
    ensures MessagesPayload(a) == MessagesPayload(b) <==> a == b
  {
    MessagesRoundTrip(a);
    MessagesRoundTrip(b);
  }

  /** Reading back a written response gives the response. */
  lemma {:induction false} ResponseRoundTrip(r: ModelResponse)
    ensures ResponseFromPayload(ResponsePayload(r)) == Some(r)
  {
    ToolCallsRoundTrip(r.toolCalls);
    var j := ResponsePayload(r);
    assert UsageFrom(FieldOr(j, "usage", JObj(map[]))) == Some(r.usage);
    assert StructuredFrom(FieldOr(j, "structured_output", JNull)) == Some(r.structuredOutput);
  }

  // ---------- Comparing payloads ----------

  /** A value as == sees it: true is the number one and false is zero, at any depth. */
  function Compared(j: Json): Json {
    match j
    case JBool(b) => JNum(if b then 1 else 0)
    case JArr(items) => JArr(ComparedAll(items))
    case JObj(fields) => JObj(map k | k in fields :: Compared(fields[k]))
    case _ => j
  }

  function ComparedFields(fields: map<string, Json>): map<string, Json> {
    map k | k in fields :: Compared(fields[k])
  }

  function ComparedAll(items: seq<Json>): (r: seq<Json>)
    ensures |r| == |items| && forall i :: 0 <= i < |r| ==> r[i] == Compared(items[i])
  {
    seq(|items|, i requires 0 <= i < |items| => Compared(items[i]))
  }

  function ComparedCall(c: ToolCall): ToolCall {
    ToolCall(c.id, c.name, ComparedFields(c.arguments))
  }

  function ComparedCalls(cs: seq<ToolCall>): (r: seq<ToolCall>)
    ensures |r| == |cs| && forall i :: 0 <= i < |r| ==> r[i] == ComparedCall(cs[i])
  {
    seq(|cs|, i requires 0 <= i < |cs| => ComparedCall(cs[i]))
  }

  /** The message as the replay's comparison sees it: only tool-call arguments can differ. */
  function ComparedMessage(m: Message): Message {
    MessageFields(m.role, m.content, m.toolCallId, ComparedCalls(m.toolCalls))
  }

  function ComparedMessages(ms: seq<Message>): (r: seq<Message>)
    ensures |r| == |ms| && forall i :: 0 <= i < |r| ==> r[i] == ComparedMessage(ms[i])
  {
    seq(|ms|, i requires 0 <= i < |ms| => ComparedMessage(ms[i]))
  }

  lemma {:induction false} ComparedScalars(s: string, items: seq<Json>, fields: map<string, Json>)
    ensures Compared(JStr(s)) == JStr(s)
    ensures Compared(JArr(items)) == JArr(ComparedAll(items))
    ensures Compared(JObj(fields)) == JObj(ComparedFields(fields))
  {
  }

  lemma {:induction false} ComparedUnion(a: map<string, Json>, b: map<string, Json>)
    ensures ComparedFields(a + b) == ComparedFields(a) + ComparedFields(b)
  {
    hide Compared;
  }

  lemma {:induction false} ComparedEntry(key: string, value: Json)
    ensures ComparedFields(map[key := value]) == map[key := Compared(value)] && ComparedFields(map[]) == map[]
  {
    hide Compared;
  }

  lemma {:induction false} ComparedCallPayload(c: ToolCall)
    ensures Compared(ToolCallPayload(c)) == ToolCallPayload(ComparedCall(c))
  {
    hide Compared, ComparedFields;
    var args := JObj(c.arguments);
    var fields := map["id" := JStr(c.id)] + map["name" := JStr(c.name)] + map["arguments" := args];
    assert ToolCallPayload(c) == JObj(fields);
    ComparedScalars(c.id, [], c.arguments);
    ComparedScalars(c.name, [], fields);
    ComparedUnion(map["id" := JStr(c.id)] + map["name" := JStr(c.name)], map["arguments" := args]);
    ComparedUnion(map["id" := JStr(c.id)], map["name" := JStr(c.name)]);
    ComparedEntry("id", JStr(c.id));
    ComparedEntry("name", JStr(c.name));
    ComparedEntry("arguments", args);
  }

  lemma {:induction false} ComparedCallsPayload(cs: seq<ToolCall>)
    ensures ComparedAll(ToolCallsPayload(cs)) == ToolCallsPayload(ComparedCalls(cs))
  {
    hide ToolCallPayload, Compared, ComparedCall;
    forall i | 0 <= i < |cs| ensures Compared(ToolCallPayload(cs[i])) == ToolCallPayload(ComparedCall(cs[i])) {
      ComparedCallPayload(cs[i]);
    }
  }

  function IdField(m: Message): map<string, Json> {
    if m.toolCallId.Some? then map["tool_call_id" := JStr(m.toolCallId.value)] else map[]
  }

  function CallsField(m: Message): map<string, Json> {
    if m.toolCalls != [] then map["tool_calls" := JArr(ToolCallsPayload(m.toolCalls))] else map[]
  }

  lemma {:induction false} PayloadParts(m: Message)
    ensures MessagePayload(m)
            == JObj(map["role" := JStr(m.role)] + map["content" := JStr(m.content)] + IdField(m) + CallsField(m))
  {
    hide ToolCallsPayload;
    assert map["role" := JStr(m.role), "content" := JStr(m.content)]
      == map["role" := JStr(m.role)] + map["content" := JStr(m.content)];
  }

  lemma {:induction false} ComparedIdField(m: Message)
    ensures ComparedFields(IdField(m)) == IdField(ComparedMessage(m))
  {
    hide Compared, ComparedFields;
    if m.toolCallId.Some? { ComparedScalars(m.toolCallId.value, [], map[]); }
    ComparedEntry("tool_call_id", JStr(if m.toolCallId.Some? then m.toolCallId.value else ""));
  }

  lemma {:induction false} ComparedCallsField(m: Message)
    ensures ComparedFields(CallsField(m)) == CallsField(ComparedMessage(m))
  {
    hide Compared, ComparedFields, ToolCallsPayload;
    ComparedCallsPayload(m.toolCalls);
    ComparedScalars("", ToolCallsPayload(m.toolCalls), map[]);
    ComparedEntry("tool_calls", JArr(ToolCallsPayload(m.toolCalls)));
  }

  lemma {:induction false} ComparedPayload(m: Message)
    ensures Compared(MessagePayload(m)) == MessagePayload(ComparedMessage(m))
  {
    hide Compared, ComparedFields, MessagePayload, IdField, CallsField;
    var role, content := map["role" := JStr(m.role)], map["content" := JStr(m.content)];
    PayloadParts(m);
    PayloadParts(ComparedMessage(m));
    ComparedScalars(m.role, [], role + content + IdField(m) + CallsField(m));
    ComparedScalars(m.content, [], map[]);
    ComparedUnion(role + content + IdField(m), CallsField(m));
    ComparedUnion(role + content, IdField(m));
    ComparedUnion(role, content);
    ComparedEntry("role", JStr(m.role));
    ComparedEntry("content", JStr(m.content));
    ComparedIdField(m);
    ComparedCallsField(m);
  }

  /** Payloads compare equal exactly when the messages agree up to truth values among the
      arguments of tool calls. */
  lemma {:induction false} PayloadsCompareEqualIff(a: seq<Message>, b: seq<Message>)
    ensures ComparedAll(MessagesPayload(a)) == ComparedAll(MessagesPayload(b))
            <==> ComparedMessages(a) == ComparedMessages(b)
  {
    hide MessagePayload, Compared, ComparedMessage;
    ComparedMessagesPayload(a);
    ComparedMessagesPayload(b);
    MessagesPayloadInjective(ComparedMessages(a), ComparedMessages(b));
  }

  lemma {:induction false} ComparedMessagesPayload(ms: seq<Message>)
    ensures ComparedAll(MessagesPayload(ms)) == MessagesPayload(ComparedMessages(ms))
  {
    hide MessagePayload, Compared, ComparedMessage;
    forall i | 0 <= i < |ms| ensures Compared(MessagePayload(ms[i])) == MessagePayload(ComparedMessage(ms[i])) {
      ComparedPayload(ms[i]);
    }
  }
}
