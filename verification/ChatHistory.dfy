/** Whole conversations: every request built from them parses back to the intended tree. */
module ChatHistory {
  import opened Bytes
  import opened Json
  import opened JsonAccess
  import opened JsonText
  import opened Embedding
  import opened Chat
  import opened ChatTheorems
  import G = Grammar
  import W = JsonWriter
  import R = StringRoundTrip
  import Utf8

  /** One thing said in a conversation. */
  datatype Entry =
    | Said(role: bytes, text: bytes)
    | ToolResult(id: bytes, output: bytes)
    | Replied(message: Value)

  function MessageOf(e: Entry): bytes
  {
    match e
    case Said(role, text) => TextMessage(role, text)
    case ToolResult(id, output) => ToolMessage(id, output)
    case Replied(message) => AssistantMessage(message)
  }

  function TreeOf(e: Entry): Value
  {
    match e
    case Said(role, text) => TextTree(role, text)
    case ToolResult(id, output) => ToolTree(id, output)
    case Replied(message) => AssistantTree(message)
  }

  predicate PlainRole(e: Entry) { e.Said? ==> R.Plain(CStr(e.role)) }

  function MessagesOf(es: seq<Entry>): (ms: seq<bytes>)
    ensures |ms| == |es|
  {
    seq(|es|, i requires 0 <= i < |es| => MessageOf(es[i]))
  }

  function TreesOf(es: seq<Entry>): (vs: seq<Value>)
    ensures |vs| == |es|
  {
    seq(|es|, i requires 0 <= i < |es| => TreeOf(es[i]))
  }

  lemma EntryReads(e: Entry)
    requires PlainRole(e)
    ensures Reads(MessageOf(e), TreeOf(e))
  {
    match e
    case Said(role, text) => TextMessageReads(role, text);
    case ToolResult(id, output) => ToolMessageReads(id, output);
    case Replied(message) => AssistantMessageReads(message);
  }

  /** After any history, the request body parses to exactly the request tree: one child of `messages` per entry, in order. */
  lemma RequestRoundTrip(model: bytes, tool: bytes, toolTree: Value, es: seq<Entry>)
    requires Reads(CStr(tool), toolTree)
    requires forall i :: 0 <= i < |es| ==> PlainRole(es[i])
    ensures Reads(Request(model, tool, MessagesOf(es)), RequestTree(model, [toolTree], TreesOf(es)))
    ensures G.Document(Request(model, tool, MessagesOf(es))) == Some(RequestTree(model, [toolTree], TreesOf(es)))
  {
    hide Request, RequestTree, MessageOf, TreeOf, G.Val;
    forall i | 0 <= i < |es| ensures Reads(MessagesOf(es)[i], TreesOf(es)[i]) {
      EntryReads(es[i]);
    }
    RequestReads(model, tool, toolTree, MessagesOf(es), TreesOf(es));
  }

  /** The messages array of a request, as the API reads it. */
  function MessagesRead(request: bytes): Option<Value> { Get(G.Document(request), Ascii("messages")) }

  /** It has one item for each entry, in order. */
  lemma RequestItems(model: bytes, tool: bytes, toolTree: Value, es: seq<Entry>)
    requires Reads(CStr(tool), toolTree)
    requires forall i :: 0 <= i < |es| ==> PlainRole(es[i])
    ensures MessagesRead(Request(model, tool, MessagesOf(es))) == Some(Array(TreesOf(es)))
  {
    hide Ascii, CStr, Find, Request, MessageOf, TreeOf, Reads;
    RequestRoundTrip(model, tool, toolTree, es);
    MessageKeys();
    FindAt(RequestTree(model, [toolTree], TreesOf(es)).members, Ascii("messages"), 1);
  }

  /**
   * What the API reads in the request: for each text its role and its content, for each tool result the id of the call it answers
   * and its output, each repaired where it was not valid UTF-8.
   */
  lemma RequestContents(model: bytes, tool: bytes, toolTree: Value, es: seq<Entry>, i: nat)
    requires i < |es| && Reads(CStr(tool), toolTree)
    requires forall i :: 0 <= i < |es| ==> PlainRole(es[i])
    ensures var messages := MessagesRead(Request(model, tool, MessagesOf(es)));
      && messages.Some? && messages.value.Array? && |messages.value.items| == |es|
      && var item := Some(messages.value.items[i]);
      && (es[i].Said? ==>
            && GetString(item, Ascii("role")) == Some(CStr(es[i].role))
            && GetString(item, Ascii("content")) == Some(Utf8.Repair(CStr(es[i].text))))
      && (es[i].ToolResult? ==>
            && GetString(item, Ascii("role")) == Some(Ascii("tool"))
            && GetString(item, Ascii("tool_call_id")) == Some(Utf8.Repair(CStr(es[i].id)))
            && GetString(item, Ascii("content")) == Some(Utf8.Repair(es[i].output)))
      && (es[i].Replied? ==> item.value == AssistantTree(es[i].message))
  {
    hide Ascii, CStr, Find, Utf8.Repair, Request, Reads, MessagesRead, AssistantTree;
    RequestItems(model, tool, toolTree, es);
    MessageKeys();
    match es[i] {
      case Said(role, text) =>
        FindAt(TextTree(role, text).members, Ascii("role"), 0);
        FindAt(TextTree(role, text).members, Ascii("content"), 1);
      case ToolResult(id, output) =>
        FindAt(ToolTree(id, output).members, Ascii("role"), 0);
        FindAt(ToolTree(id, output).members, Ascii("tool_call_id"), 1);
        FindAt(ToolTree(id, output).members, Ascii("content"), 2);
      case Replied(_) =>
    }
  }

  /** Lookup by position, for trees whose keys are known. */
  lemma FindAt(ms: seq<Member>, key: bytes, i: nat)
    requires i < |ms| && CStr(ms[i].key) == key
    requires forall j :: 0 <= j < i ==> CStr(ms[j].key) != key
    ensures Find(ms, key) == Some(ms[i].value)
  {
    FindFirst(ms, key);
  }

  lemma LiteralKey(s: string)
    requires forall i :: 0 <= i < |s| ==> 0 < (s[i] as int) < 128
    ensures CStr(Ascii(s)) == Ascii(s)
  {
    CStrWhole(Ascii(s));
  }

  lemma MessageKeys()
    ensures CStr(Ascii("model")) == Ascii("model") != Ascii("messages") == CStr(Ascii("messages"))
    ensures CStr(Ascii("role")) == Ascii("role") != Ascii("content") == CStr(Ascii("content"))
    ensures CStr(Ascii("tool_calls")) == Ascii("tool_calls") != Ascii("role")
    ensures Ascii("tool_calls") != Ascii("content")
    ensures CStr(Ascii("tool_call_id")) == Ascii("tool_call_id") != Ascii("content") && Ascii("role") != Ascii("tool_call_id")
  {
    LiteralKey("tool_call_id");
    LiteralKey("model"); LiteralKey("messages"); LiteralKey("role"); LiteralKey("content"); LiteralKey("tool_calls");
  }

  lemma CallKeys()
    ensures CStr(Ascii("id")) == Ascii("id")
    ensures CStr(Ascii("type")) == Ascii("type") != Ascii("function") == CStr(Ascii("function"))
    ensures Ascii("id") != Ascii("function")
    ensures CStr(Ascii("name")) == Ascii("name") != Ascii("arguments") == CStr(Ascii("arguments"))
  {
    LiteralKey("id"); LiteralKey("type"); LiteralKey("function"); LiteralKey("name"); LiteralKey("arguments");
  }

  // ---------------------------------------------------------------- C strings

  predicate NoNul(t: bytes) { NUL !in t }

  lemma QuotedNoNul(s: bytes)
    ensures NoNul(W.Quoted(s))
  {
    W.QuotedIsCString(s);
  }

  lemma {:induction false} JoinedNoNul(ts: seq<bytes>)
    requires forall i :: 0 <= i < |ts| ==> NoNul(ts[i])
    ensures NoNul(Joined(ts))
    decreases |ts|
  {
    if |ts| > 1 {
      JoinedNoNul(ts[1..]);
    }
  }

  lemma ObjectNoNul(fs: seq<Field>)
    requires forall i :: 0 <= i < |fs| ==> NoNul(fs[i].key) && NoNul(fs[i].text)
    ensures NoNul(ObjectText(fs))
  {
    JoinedNoNul(FieldTexts(fs));
  }

  lemma AsciiNoNul()
    ensures NoNul(Ascii("role")) && NoNul(Ascii("content")) && NoNul(Ascii("tool_call_id")) && NoNul(Ascii("tool"))
    ensures NoNul(Ascii("assistant")) && NoNul(Ascii("tool_calls"))
    ensures NoNul(Ascii("name")) && NoNul(Ascii("arguments")) && NoNul(Ascii("id")) && NoNul(Ascii("type")) && NoNul(Ascii("function"))
  {
  }

  lemma CallNoNul(call: Value)
    ensures NoNul(CallText(call))
  {
    hide Ascii, W.Quoted, ObjectText, ReplayedName, ReplayedArguments, IdOf;
    AsciiNoNul();
    QuotedNoNul(ReplayedName(call));
    QuotedNoNul(ReplayedArguments(call));
    ObjectNoNul([Field(Ascii("name"), W.Quoted(ReplayedName(call))), Field(Ascii("arguments"), W.Quoted(ReplayedArguments(call)))]);
    QuotedNoNul(IdOf(call));
    ObjectNoNul([Field(Ascii("id"), W.Quoted(IdOf(call))), Field(Ascii("type"), Raw(Ascii("function"))),
                 Field(Ascii("function"), FunctionText(call))]);
  }

  /** No message holds a NUL, so keeping it with `strdup` and pasting it with `strlen` loses nothing. */
  lemma MessageIsCString(e: Entry)
    ensures CStr(MessageOf(e)) == MessageOf(e)
  {
    hide Ascii, W.Quoted, ObjectText, ArrayText, CallText;
    AsciiNoNul();
    match e {
      case Said(role, text) =>
        QuotedNoNul(CStr(text));
        ObjectNoNul([Field(Ascii("role"), Raw(CStr(role))), Field(Ascii("content"), W.Quoted(CStr(text)))]);
      case ToolResult(id, output) =>
        QuotedNoNul(CStr(id));
        QuotedNoNul(output);
        ObjectNoNul([Field(Ascii("role"), Raw(Ascii("tool"))), Field(Ascii("tool_call_id"), W.Quoted(CStr(id))),
                     Field(Ascii("content"), W.Quoted(output))]);
      case Replied(message) =>
        AssistantNoNul(message);
    }
    CStrWhole(MessageOf(e));
  }

  lemma AssistantNoNul(message: Value)
    ensures NoNul(AssistantMessage(message))
  {
    hide Ascii, W.Quoted, ObjectText, CallText;
    AsciiNoNul();
    var c := GetString(Some(message), Ascii("content"));
    if c.Some? {
      QuotedNoNul(c.value);
    }
    var calls := CallsOf(message);
    if calls.Some? {
      forall i | 0 <= i < |calls.value| ensures NoNul(CallTexts(calls.value)[i]) {
        CallNoNul(calls.value[i]);
      }
      JoinedNoNul(CallTexts(calls.value));
    }
    ObjectNoNul(AssistantFields(message));
  }
}
