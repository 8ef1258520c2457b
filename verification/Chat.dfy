/** Member lookup: `json_object_get` and the typed accessors, on values. */
module JsonAccess {
  import opened Bytes
  import opened Json

  /** First member whose key reads as `key` through `strcmp`. */
  function Find(ms: seq<Member>, key: bytes): (r: Option<Value>)
  {
    if ms == [] then None
    else if CStr(ms[0].key) == key then Some(ms[0].value)
    else Find(ms[1..], key)
  }

  /** `json_object_get`; None stands for NULL. */
  function Get(v: Option<Value>, key: bytes): (r: Option<Value>)
  {
    if v.Some? && v.value.Object? then Find(v.value.members, key) else None
  }

  /** `json_string_or` with a NULL fallback. */
  function GetString(v: Option<Value>, key: bytes): (r: Option<bytes>)
  {
    var m := Get(v, key);
    if m.Some? && m.value.String? then Some(m.value.s) else None
  }

  function OrElse(o: Option<bytes>, fallback: bytes): bytes
  {
    if o.Some? then o.value else fallback
  }

  /** The lookup finds the first matching key and skips none. */
  lemma {:induction false} FindFirst(ms: seq<Member>, key: bytes)
    ensures Find(ms, key).None? <==> forall i :: 0 <= i < |ms| ==> CStr(ms[i].key) != key
    ensures forall i ::
      (0 <= i < |ms| && CStr(ms[i].key) == key && forall j :: 0 <= j < i ==> CStr(ms[j].key) != key) ==>
      Find(ms, key) == Some(ms[i].value)
  {
    if ms != [] {
      FindFirst(ms[1..], key);
      forall i | 1 <= i < |ms| && CStr(ms[i].key) == key && forall j :: 0 <= j < i ==> CStr(ms[j].key) != key
        ensures Find(ms, key) == Some(ms[i].value)
      {
        assert ms[1..][i - 1] == ms[i];
        forall j | 0 <= j < i - 1 ensures CStr(ms[1..][j].key) != key {
          assert ms[1..][j] == ms[j + 1];
        }
      }
      if Find(ms, key).None? {
        forall i | 0 <= i < |ms| ensures CStr(ms[i].key) != key {
          if i > 0 {
            assert ms[1..][i - 1] == ms[i];
          }
        }
      } else if CStr(ms[0].key) != key {
        var i :| 0 <= i < |ms[1..]| && CStr(ms[1..][i].key) == key;
        assert ms[i + 1] == ms[1..][i];
      }
    }
  }

  method ObjectGet(v: Option<Value>, key: bytes) returns (r: Option<Value>)
    ensures r == Get(v, key)
  {
    if v.None? || !v.value.Object? {
      return None;
    }
    var ms := v.value.members;
    var i := 0;
    while i < |ms|
      invariant 0 <= i <= |ms|
      invariant Find(ms, key) == Find(ms[i..], key)
    {
      if CStr(ms[i].key) == key {
        return Some(ms[i].value);
      }
      i := i + 1;
    }
    return None;
  }
}

/** The chat-completions texts and the tool call they carry. */
module Chat {
  import opened Bytes
  import opened Json
  import opened JsonAccess
  import opened JsonText
  import opened Embedding
  import G = Grammar
  import W = JsonWriter
  import R = StringRoundTrip
  import Utf8

  function Raw(s: bytes): bytes { [QUOTE] + s + [QUOTE] }

  /** The message `conversation_add_text` builds: the role goes in raw, the text escaped. */
  function TextMessage(role: bytes, text: bytes): bytes
  {
    ObjectText([Field(Ascii("role"), Raw(CStr(role))), Field(Ascii("content"), W.Quoted(CStr(text)))])
  }

  function ToolMessage(id: bytes, text: bytes): bytes
  {
    ObjectText([Field(Ascii("role"), Raw(Ascii("tool"))), Field(Ascii("tool_call_id"), W.Quoted(CStr(id))),
                Field(Ascii("content"), W.Quoted(text))])
  }

  function FunctionOf(call: Value): Option<Value> { Get(Some(call), Ascii("function")) }
  function IdOf(call: Value): bytes { CStr(OrElse(GetString(Some(call), Ascii("id")), [])) }
  function NameOf(call: Value): Option<bytes> { GetString(FunctionOf(call), Ascii("name")) }
  function ArgumentsOf(call: Value): Option<bytes> { GetString(FunctionOf(call), Ascii("arguments")) }

  /** What a replay writes when the call lacks a name or arguments. */
  function ReplayedName(call: Value): bytes { CStr(OrElse(NameOf(call), Ascii("shell"))) }
  function ReplayedArguments(call: Value): bytes { CStr(OrElse(ArgumentsOf(call), Ascii("{}"))) }

  function FunctionText(call: Value): bytes
  {
    ObjectText([Field(Ascii("name"), W.Quoted(ReplayedName(call))), Field(Ascii("arguments"), W.Quoted(ReplayedArguments(call)))])
  }

  function CallText(call: Value): bytes
  {
    ObjectText([Field(Ascii("id"), W.Quoted(IdOf(call))), Field(Ascii("type"), Raw(Ascii("function"))),
                Field(Ascii("function"), FunctionText(call))])
  }

  function CallTexts(calls: seq<Value>): (ts: seq<bytes>)
    ensures |ts| == |calls|
  {
    seq(|calls|, i requires 0 <= i < |calls| => CallText(calls[i]))
  }

  function ContentFields(message: Value): (fs: seq<Field>)
  {
    var c := GetString(Some(message), Ascii("content"));
    if c.Some? then [Field(Ascii("content"), W.Quoted(c.value))] else []
  }

  function CallsOf(message: Value): Option<seq<Value>>
  {
    var calls := Get(Some(message), Ascii("tool_calls"));
    if calls.Some? && calls.value.Array? then Some(calls.value.items) else None
  }

  function CallFields(message: Value): (fs: seq<Field>)
  {
    var calls := CallsOf(message);
    if calls.Some? then [Field(Ascii("tool_calls"), ArrayText(CallTexts(calls.value)))] else []
  }

  function AssistantFields(message: Value): seq<Field>
  {
    [Field(Ascii("role"), Raw(Ascii("assistant")))] + ContentFields(message) + CallFields(message)
  }

  /** `chat_serialise_assistant`. */
  function AssistantMessage(message: Value): bytes { ObjectText(AssistantFields(message)) }

  function ListText(t: bytes): seq<bytes> { if t == [] then [] else [t] }

  /** `chat_build_request`. */
  function Request(model: bytes, tool: bytes, messages: seq<bytes>): bytes
  {
    ObjectText([Field(Ascii("model"), W.Quoted(CStr(model))), Field(Ascii("messages"), ArrayText(messages)),
                Field(Ascii("tools"), ArrayText(ListText(CStr(tool)))), Field(Ascii("tool_choice"), Raw(Ascii("auto")))])
  }

  // ---------------------------------------------------------------- the trees they spell

  function Repaired(s: bytes): Value { String(Utf8.Repair(s)) }

  function TextTree(role: bytes, text: bytes): Value
  {
    Object([Member(Ascii("role"), String(CStr(role))), Member(Ascii("content"), Repaired(CStr(text)))])
  }

  function ToolTree(id: bytes, text: bytes): Value
  {
    Object([Member(Ascii("role"), String(Ascii("tool"))), Member(Ascii("tool_call_id"), Repaired(CStr(id))),
            Member(Ascii("content"), Repaired(text))])
  }

  function CallTree(call: Value): Value
  {
    Object([Member(Ascii("id"), Repaired(IdOf(call))), Member(Ascii("type"), String(Ascii("function"))),
            Member(Ascii("function"), Object([Member(Ascii("name"), Repaired(ReplayedName(call))),
                                              Member(Ascii("arguments"), Repaired(ReplayedArguments(call)))]))])
  }

  function CallTrees(calls: seq<Value>): (vs: seq<Value>)
    ensures |vs| == |calls|
  {
    seq(|calls|, i requires 0 <= i < |calls| => CallTree(calls[i]))
  }

  function AssistantTree(message: Value): Value
  {
    var c := GetString(Some(message), Ascii("content"));
    var calls := CallsOf(message);
    Object([Member(Ascii("role"), String(Ascii("assistant")))] +
           (if c.Some? then [Member(Ascii("content"), Repaired(c.value))] else []) +
           (if calls.Some? then [Member(Ascii("tool_calls"), Array(CallTrees(calls.value)))] else []))
  }

  function RequestTree(model: bytes, tools: seq<Value>, messages: seq<Value>): Value
  {
    Object([Member(Ascii("model"), Repaired(CStr(model))), Member(Ascii("messages"), Array(messages)),
            Member(Ascii("tools"), Array(tools)), Member(Ascii("tool_choice"), String(Ascii("auto")))])
  }

  // ---------------------------------------------------------------- tool calls

  /** What `strtod` and the cast to `long` make of a number text. */
  datatype NumberReader = NumberReader(positive: bytes -> bool, asLong: bytes -> int)

  datatype Decoded = Decoded(id: bytes, command: Option<bytes>, cwd: Option<bytes>, timeoutMs: int, error: Option<bytes>)

  const ERROR_TEXT_MAX: nat := 256

  /** `snprintf` into the 256-byte buffer. */
  function UnknownTool(name: bytes): bytes
  {
    var text := Ascii("unknown tool '") + name + Ascii("'; only 'shell' exists");
    if |text| < ERROR_TEXT_MAX then text else text[..ERROR_TEXT_MAX - 1]
  }

  function TimeoutOf(args: Value, byDefault: int, num: NumberReader): int
  {
    var t := Get(Some(args), Ascii("timeout_ms"));
    if t.Some? && t.value.Number? && num.positive(t.value.text) then num.asLong(t.value.text) else byDefault
  }

  /** The arguments text of a shell call, decoded. */
  function DecodeArguments(id: bytes, arguments: bytes, byDefault: int, num: NumberReader): Decoded
  {
    var parsed := G.Document(arguments);
    if parsed.None? || !parsed.value.Object? then
      Decoded(id, None, None, byDefault, Some(Ascii("tool arguments were not a JSON object")))
    else
      var command := GetString(parsed, Ascii("command"));
      if command.None? then
        Decoded(id, None, None, byDefault, Some(Ascii("tool arguments had no 'command' string")))
      else
        var cwd := GetString(parsed, Ascii("cwd"));
        Decoded(id, Some(CStr(command.value)),
                if cwd.Some? && cwd.value != [] then Some(CStr(cwd.value)) else None,
                TimeoutOf(parsed.value, byDefault, num), None)
  }

  /** `chat_decode_tool_call`. */
  function Decode(call: Value, byDefault: int, num: NumberReader): Decoded
  {
    var id := IdOf(call);
    var name := CStr(OrElse(NameOf(call), []));
    if name != Ascii("shell") then Decoded(id, None, None, byDefault, Some(UnknownTool(name)))
    else if ArgumentsOf(call).None? then Decoded(id, None, None, byDefault, Some(Ascii("tool call had no arguments")))
    else DecodeArguments(id, CStr(ArgumentsOf(call).value), byDefault, num)
  }
}

/** What the built texts parse back to. */
module ChatTheorems {
  import opened Bytes
  import opened Json
  import opened JsonAccess
  import opened JsonText
  import opened Embedding
  import opened Chat
  import G = Grammar
  import W = JsonWriter
  import R = StringRoundTrip
  import Utf8

  lemma PlainKeys()
    ensures R.Plain(Ascii("role")) && R.Plain(Ascii("content")) && R.Plain(Ascii("tool_call_id"))
    ensures R.Plain(Ascii("model")) && R.Plain(Ascii("messages")) && R.Plain(Ascii("tools")) && R.Plain(Ascii("tool_choice"))
    ensures R.Plain(Ascii("tool")) && R.Plain(Ascii("assistant")) && R.Plain(Ascii("auto"))
  {
  }

  lemma PlainCallKeys()
    ensures R.Plain(Ascii("name")) && R.Plain(Ascii("arguments")) && R.Plain(Ascii("id")) && R.Plain(Ascii("type"))
    ensures R.Plain(Ascii("function")) && R.Plain(Ascii("tool_calls"))
  {
  }

  lemma TextMessageReads(role: bytes, text: bytes)
    requires R.Plain(CStr(role))
    ensures Reads(TextMessage(role, text), TextTree(role, text))
  {
    PlainKeys();
    RawReads(CStr(role));
    QuotedReads(CStr(text));
    ObjectReads([Field(Ascii("role"), Raw(CStr(role))), Field(Ascii("content"), W.Quoted(CStr(text)))],
                TextTree(role, text).members);
  }

  lemma ToolMessageReads(id: bytes, text: bytes)
    ensures Reads(ToolMessage(id, text), ToolTree(id, text))
  {
    PlainKeys();
    RawReads(Ascii("tool"));
    QuotedReads(CStr(id));
    QuotedReads(text);
    ObjectReads([Field(Ascii("role"), Raw(Ascii("tool"))), Field(Ascii("tool_call_id"), W.Quoted(CStr(id))),
                 Field(Ascii("content"), W.Quoted(text))], ToolTree(id, text).members);
  }

  lemma CallReads(call: Value)
    ensures Reads(CallText(call), CallTree(call))
  {
    hide Ascii, W.Quoted, Utf8.Repair, Reads, R.Plain, ObjectText, ReplayedName, ReplayedArguments, IdOf;
    PlainCallKeys();
    QuotedReads(ReplayedName(call));
    QuotedReads(ReplayedArguments(call));
    var f := CallTree(call).members[2].value.members;
    ObjectReads([Field(Ascii("name"), W.Quoted(ReplayedName(call))), Field(Ascii("arguments"), W.Quoted(ReplayedArguments(call)))], f);
    QuotedReads(IdOf(call));
    RawReads(Ascii("function"));
    ObjectReads([Field(Ascii("id"), W.Quoted(IdOf(call))), Field(Ascii("type"), Raw(Ascii("function"))),
                 Field(Ascii("function"), FunctionText(call))], CallTree(call).members);
  }

  /** Whatever tree the model sent, its replay is a text that reads as the replayed tree. */
  lemma AssistantMessageReads(message: Value)
    ensures Reads(AssistantMessage(message), AssistantTree(message))
  {
    hide Ascii, W.Quoted, Utf8.Repair, Reads, R.Plain, ObjectText, ArrayText, CallText, CallTree;
    PlainKeys();
    PlainCallKeys();
    RawReads(Ascii("assistant"));
    var c := GetString(Some(message), Ascii("content"));
    if c.Some? {
      QuotedReads(c.value);
    }
    var calls := CallsOf(message);
    if calls.Some? {
      forall i | 0 <= i < |calls.value| ensures Reads(CallTexts(calls.value)[i], CallTrees(calls.value)[i]) {
        CallReads(calls.value[i]);
      }
      ArrayReads(CallTexts(calls.value), CallTrees(calls.value));
    }
    ObjectReads(AssistantFields(message), AssistantTree(message).members);
  }

  /** Any messages that read as values, whatever produced them, make a request that reads as the request tree. */
  lemma RequestReads(model: bytes, tool: bytes, toolTree: Value, messages: seq<bytes>, trees: seq<Value>)
    requires Reads(CStr(tool), toolTree) && AllRead(messages, trees)
    ensures Reads(Request(model, tool, messages), RequestTree(model, [toolTree], trees))
  {
    PlainKeys();
    QuotedReads(CStr(model));
    ArrayReads(messages, trees);
    assert CStr(tool) != [];
    ArrayReads([CStr(tool)], [toolTree]);
    RawReads(Ascii("auto"));
    ObjectReads([Field(Ascii("model"), W.Quoted(CStr(model))), Field(Ascii("messages"), ArrayText(messages)),
                 Field(Ascii("tools"), ArrayText(ListText(CStr(tool)))), Field(Ascii("tool_choice"), Raw(Ascii("auto")))],
                RequestTree(model, [toolTree], trees).members);
  }

  /** Without a tool the list of tools is empty. */
  lemma RequestWithoutTool(model: bytes, tool: bytes, messages: seq<bytes>, trees: seq<Value>)
    requires CStr(tool) == [] && AllRead(messages, trees)
    ensures Reads(Request(model, tool, messages), RequestTree(model, [], trees))
  {
    PlainKeys();
    QuotedReads(CStr(model));
    ArrayReads(messages, trees);
    ArrayReads([], []);
    RawReads(Ascii("auto"));
    ObjectReads([Field(Ascii("model"), W.Quoted(CStr(model))), Field(Ascii("messages"), ArrayText(messages)),
                 Field(Ascii("tools"), ArrayText(ListText(CStr(tool)))), Field(Ascii("tool_choice"), Raw(Ascii("auto")))],
                RequestTree(model, [], trees).members);
  }
}
