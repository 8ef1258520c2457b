/** The appending code of `chat.c`, proved against the texts of module Chat. */
module ChatBuilder {
  import opened Bytes
  import opened Buffers
  import opened Json
  import opened JsonAccess
  import opened JsonText
  import opened Chat
  import H = ChatHistory
  import P = JsonParser
  import G = Grammar
  import W = JsonWriter

  const CONVERSATION_MIN_CAP: nat := 16

  // ---------------------------------------------------------------- texts as lists of tokens

  const LB: bytes := [LBRACE]
  const RB: bytes := [RBRACE]
  const LK: bytes := [LBRACKET]
  const RK: bytes := [RBRACKET]
  const CM: bytes := [COMMA]
  const Q: bytes := [QUOTE]

  /** `"key":` */
  function K(key: string): bytes { [QUOTE] + Ascii(key) + [QUOTE, COLON] }

  function Flat(ps: seq<bytes>): (t: bytes)
  {
    if ps == [] then [] else ps[0] + Flat(ps[1..])
  }

  lemma {:induction false} FlatCat(ps: seq<bytes>, qs: seq<bytes>)
    ensures Flat(ps + qs) == Flat(ps) + Flat(qs)
    decreases |ps|
  {
    if ps == [] {
      assert ps + qs == qs;
    } else {
      assert (ps + qs)[1..] == ps[1..] + qs;
      FlatCat(ps[1..], qs);
    }
  }

  lemma FlatOne(t: bytes)
    ensures Flat([t]) == t
  {
    assert [t][1..] == [];
  }

  /** A literal spelled by several tokens may be appended at once. */
  lemma FlatNest(ps: seq<bytes>, qs: seq<bytes>, rs: seq<bytes>)
    ensures Flat(ps + [Flat(qs)] + rs) == Flat(ps + qs + rs)
  {
    FlatCat(ps + [Flat(qs)], rs);
    FlatCat(ps, [Flat(qs)]);
    FlatOne(Flat(qs));
    FlatCat(ps + qs, rs);
    FlatCat(ps, qs);
  }

  lemma FlatGrow(before: bytes, ps: seq<bytes>, qs: seq<bytes>)
    ensures before + Flat(ps) + Flat(qs) == before + Flat(ps + qs)
  {
    FlatCat(ps, qs);
    Assoc(before, Flat(ps), Flat(qs));
  }

  lemma FlatRaw(s: bytes)
    ensures Flat([Q, s, Q]) == Raw(s)
  {
    FlatCat([Q, s], [Q]);
    FlatCat([Q], [s]);
    FlatOne(Q);
    FlatOne(s);
    assert [Q, s] + [Q] == [Q, s, Q] && [Q] + [s] == [Q, s];
  }

  function FieldParts(fs: seq<Field>): (ps: seq<bytes>)
  {
    if fs == [] then []
    else [[QUOTE] + fs[0].key + [QUOTE, COLON], fs[0].text] + (if |fs| == 1 then [] else [CM] + FieldParts(fs[1..]))
  }

  lemma {:induction false} JoinedParts(fs: seq<Field>)
    ensures Joined(FieldTexts(fs)) == Flat(FieldParts(fs))
    decreases |fs|
  {
    if fs != [] {
      var k, t := [QUOTE] + fs[0].key + [QUOTE, COLON], fs[0].text;
      FlatCat([k], [t]);
      FlatOne(k);
      FlatOne(t);
      assert [k] + [t] == [k, t];
      if |fs| > 1 {
        JoinedParts(fs[1..]);
        assert FieldTexts(fs)[1..] == FieldTexts(fs[1..]);
        FlatCat([k, t], [CM] + FieldParts(fs[1..]));
        FlatCat([CM], FieldParts(fs[1..]));
        FlatOne(CM);
        Assoc(FieldText(fs[0]), CM, Flat(FieldParts(fs[1..])));
      } else {
        assert FieldParts(fs) == [k, t];
      }
    }
  }

  lemma ObjectParts(fs: seq<Field>)
    ensures ObjectText(fs) == Flat([LB] + FieldParts(fs) + [RB])
  {
    JoinedParts(fs);
    FlatCat([LB] + FieldParts(fs), [RB]);
    FlatCat([LB], FieldParts(fs));
    FlatOne(LB);
    FlatOne(RB);
  }

  lemma FieldPartsStep(f: Field, fs: seq<Field>)
    ensures FieldParts([f] + fs) == [[QUOTE] + f.key + [QUOTE, COLON], f.text] + (if fs == [] then [] else [CM] + FieldParts(fs))
  {
    assert ([f] + fs)[1..] == fs;
  }

  lemma TextParts(role: bytes, text: bytes)
    ensures Flat([LB, K("role"), Q, role, Q, CM, K("content"), text, RB]) ==
      ObjectText([Field(Ascii("role"), Raw(role)), Field(Ascii("content"), text)])
  {
    var f0, f1 := Field(Ascii("role"), Raw(role)), Field(Ascii("content"), text);
    ObjectParts([f0] + [f1]);
    FieldPartsStep(f0, [f1]);
    FieldPartsStep(f1, []);
    assert [f0, f1] == [f0] + [f1] && [f1] == [f1] + [];
    FlatRaw(role);
    FlatNest([LB, K("role")], [Q, role, Q], [CM, K("content"), text, RB]);
    assert [LB, K("role")] + [Q, role, Q] + [CM, K("content"), text, RB] == [LB, K("role"), Q, role, Q, CM, K("content"), text, RB];
    assert [LB, K("role")] + [Raw(role)] + [CM, K("content"), text, RB] == [LB] + FieldParts([f0] + [f1]) + [RB];
  }

  lemma ToolParts(id: bytes, text: bytes)
    ensures Flat([LB, K("role"), Raw(Ascii("tool")), CM, K("tool_call_id"), id, CM, K("content"), text, RB]) ==
      ObjectText([Field(Ascii("role"), Raw(Ascii("tool"))), Field(Ascii("tool_call_id"), id), Field(Ascii("content"), text)])
  {
    var f0, f1, f2 := Field(Ascii("role"), Raw(Ascii("tool"))), Field(Ascii("tool_call_id"), id), Field(Ascii("content"), text);
    ObjectParts([f0] + ([f1] + [f2]));
    FieldPartsStep(f0, [f1] + [f2]);
    FieldPartsStep(f1, [f2]);
    FieldPartsStep(f2, []);
    assert [f0, f1, f2] == [f0] + ([f1] + [f2]) && [f2] == [f2] + [];
    assert [LB, K("role"), Raw(Ascii("tool")), CM, K("tool_call_id"), id, CM, K("content"), text, RB] ==
      [LB] + FieldParts([f0] + ([f1] + [f2])) + [RB];
  }

  lemma CallParts(id: bytes, name: bytes, arguments: bytes)
    ensures Flat([LB, K("id"), id, CM, K("type"), Raw(Ascii("function")), CM, K("function"),
                  LB, K("name"), name, CM, K("arguments"), arguments, RB, RB]) ==
      ObjectText([Field(Ascii("id"), id), Field(Ascii("type"), Raw(Ascii("function"))),
                  Field(Ascii("function"), ObjectText([Field(Ascii("name"), name), Field(Ascii("arguments"), arguments)]))])
  {
    var g0, g1 := Field(Ascii("name"), name), Field(Ascii("arguments"), arguments);
    ObjectParts([g0] + [g1]);
    FieldPartsStep(g0, [g1]);
    FieldPartsStep(g1, []);
    assert [g0, g1] == [g0] + [g1] && [g1] == [g1] + [];
    var inner := [LB, K("name"), name, CM, K("arguments"), arguments, RB];
    assert inner == [LB] + FieldParts([g0] + [g1]) + [RB];
    var f0, f1, f2 := Field(Ascii("id"), id), Field(Ascii("type"), Raw(Ascii("function"))), Field(Ascii("function"), Flat(inner));
    ObjectParts([f0] + ([f1] + [f2]));
    FieldPartsStep(f0, [f1] + [f2]);
    FieldPartsStep(f1, [f2]);
    FieldPartsStep(f2, []);
    assert [f0, f1, f2] == [f0] + ([f1] + [f2]) && [f2] == [f2] + [];
    var head := [LB, K("id"), id, CM, K("type"), Raw(Ascii("function")), CM, K("function")];
    FlatNest(head, inner, [RB]);
    assert head + [Flat(inner)] + [RB] == [LB] + FieldParts([f0] + ([f1] + [f2])) + [RB];
    assert head + inner + [RB] == [LB, K("id"), id, CM, K("type"), Raw(Ascii("function")), CM, K("function"),
                                   LB, K("name"), name, CM, K("arguments"), arguments, RB, RB];
  }

  lemma FlatList(body: bytes)
    ensures Flat([LK, body, RK]) == LK + body + RK
  {
    FlatCat([LK, body], [RK]);
    FlatCat([LK], [body]);
    FlatOne(LK);
    FlatOne(body);
    FlatOne(RK);
    assert [LK, body] + [RK] == [LK, body, RK] && [LK] + [body] == [LK, body];
  }

  function RequestTokens(model: bytes, messages: bytes, tool: bytes): seq<bytes>
  {
    [LB, K("model"), model, CM, K("messages"), LK] + [messages] +
    [RK, CM, K("tools"), LK, tool, RK, CM, K("tool_choice"), Raw(Ascii("auto")), RB]
  }

  lemma FourParts(k0: bytes, t0: bytes, k1: bytes, t1: bytes, k2: bytes, t2: bytes, k3: bytes, t3: bytes)
    ensures ObjectText([Field(k0, t0), Field(k1, t1), Field(k2, t2), Field(k3, t3)]) ==
      Flat([LB, [QUOTE] + k0 + [QUOTE, COLON], t0, CM, [QUOTE] + k1 + [QUOTE, COLON], t1,
            CM, [QUOTE] + k2 + [QUOTE, COLON], t2, CM, [QUOTE] + k3 + [QUOTE, COLON], t3, RB])
  {
    var f0, f1, f2, f3 := Field(k0, t0), Field(k1, t1), Field(k2, t2), Field(k3, t3);
    ObjectParts([f0] + ([f1] + ([f2] + [f3])));
    FieldPartsStep(f0, [f1] + ([f2] + [f3]));
    FieldPartsStep(f1, [f2] + [f3]);
    FieldPartsStep(f2, [f3]);
    FieldPartsStep(f3, []);
    assert [f0, f1, f2, f3] == [f0] + ([f1] + ([f2] + [f3])) && [f3] == [f3] + [];
    assert [LB] + FieldParts([f0] + ([f1] + ([f2] + [f3]))) + [RB] ==
      [LB, [QUOTE] + k0 + [QUOTE, COLON], t0, CM, [QUOTE] + k1 + [QUOTE, COLON], t1,
       CM, [QUOTE] + k2 + [QUOTE, COLON], t2, CM, [QUOTE] + k3 + [QUOTE, COLON], t3, RB];
  }

  lemma RequestParts(model: bytes, messages: seq<bytes>, tool: bytes)
    ensures Flat(RequestTokens(model, Joined(messages), tool)) ==
      ObjectText([Field(Ascii("model"), model), Field(Ascii("messages"), ArrayText(messages)),
                  Field(Ascii("tools"), ArrayText(ListText(tool))), Field(Ascii("tool_choice"), Raw(Ascii("auto")))])
  {
    hide Flat, Ascii, ObjectText;
    FourParts(Ascii("model"), model, Ascii("messages"), ArrayText(messages), Ascii("tools"), ArrayText(ListText(tool)),
              Ascii("tool_choice"), Raw(Ascii("auto")));
    assert Joined(ListText(tool)) == tool;
    FlatList(Joined(messages));
    FlatList(tool);
    var a, b, c := [LB, K("model"), model, CM, K("messages")], [CM, K("tools")], [CM, K("tool_choice"), Raw(Ascii("auto")), RB];
    var x, y := [LK, Joined(messages), RK], [LK, tool, RK];
    RequestNest(a, x, b, y, c);
    assert a + x + b + y + c == RequestTokens(model, Joined(messages), tool);
    assert a + [Flat(x)] + b + [Flat(y)] + c ==
      [LB, K("model"), model, CM, K("messages"), ArrayText(messages), CM, K("tools"), ArrayText(ListText(tool)),
       CM, K("tool_choice"), Raw(Ascii("auto")), RB];
  }

  lemma RequestNest(a: seq<bytes>, x: seq<bytes>, b: seq<bytes>, y: seq<bytes>, c: seq<bytes>)
    ensures Flat(a + [Flat(x)] + b + [Flat(y)] + c) == Flat(a + x + b + y + c)
  {
    hide Flat;
    FlatNest(a, x, b + [Flat(y)] + c);
    FlatNest(a + x + b, y, c);
    assert a + x + (b + [Flat(y)] + c) == a + x + b + [Flat(y)] + c;
    assert a + [Flat(x)] + (b + [Flat(y)] + c) == a + [Flat(x)] + b + [Flat(y)] + c;
  }

  function ContentTokens(message: Value): seq<bytes>
  {
    var c := GetString(Some(message), Ascii("content"));
    if c.Some? then [CM, K("content"), W.Quoted(c.value)] else []
  }

  function CallsTokens(message: Value): seq<bytes>
  {
    var calls := CallsOf(message);
    if calls.Some? then [CM, K("tool_calls"), LK] + [Joined(CallTexts(calls.value))] + [RK] else []
  }

  function AssistantTokens(message: Value): seq<bytes>
  {
    [LB, K("role"), Raw(Ascii("assistant"))] + ContentTokens(message) + CallsTokens(message) + [RB]
  }

  /** Tokens of the optional fields after the first. */
  function TailParts(fs: seq<Field>): seq<bytes> { if fs == [] then [] else [CM] + FieldParts(fs) }

  /** Equal stretches of text may be exchanged. */
  lemma FlatSwap(a: seq<bytes>, x: seq<bytes>, y: seq<bytes>, b: seq<bytes>)
    requires Flat(x) == Flat(y)
    ensures Flat(a + x + b) == Flat(a + y + b)
  {
    FlatCat(a + x, b);
    FlatCat(a, x);
    FlatCat(a + y, b);
    FlatCat(a, y);
  }

  lemma CallsTail(message: Value)
    ensures Flat(TailParts(CallFields(message))) == Flat(CallsTokens(message))
  {
    hide Ascii, CallTexts, Flat, CallsOf;
    var calls := CallFields(message);
    if calls != [] {
      FieldPartsStep(calls[0], []);
      assert calls == [calls[0]] + [];
      var joined := Joined(CallTexts(CallsOf(message).value));
      FlatList(joined);
      FlatNest([CM, K("tool_calls")], [LK, joined, RK], []);
      assert [CM, K("tool_calls")] + [Flat([LK, joined, RK])] + [] == TailParts(calls);
      assert [CM, K("tool_calls")] + [LK, joined, RK] + [] == CallsTokens(message);
    }
  }

  lemma ContentTail(message: Value)
    ensures TailParts(ContentFields(message)) == ContentTokens(message)
  {
    hide Ascii, W.Quoted, GetString;
    var content := ContentFields(message);
    if content != [] {
      FieldPartsStep(content[0], []);
      assert content == [content[0]] + [];
    }
  }

  lemma AtMostOneContent(message: Value)
    ensures |ContentFields(message)| <= 1
  {
    hide GetString;
  }

  lemma AssistantParts(message: Value)
    ensures Flat(AssistantTokens(message)) == AssistantMessage(message)
  {
    hide Ascii, Flat, ContentFields, CallFields, ContentTokens, CallsTokens, ObjectText, FieldParts;
    var f0, content, calls := Field(Ascii("role"), Raw(Ascii("assistant"))), ContentFields(message), CallFields(message);
    var head := [LB, K("role"), Raw(Ascii("assistant"))];
    AtMostOneContent(message);
    ObjectParts([f0] + (content + calls));
    assert [f0] + content + calls == [f0] + (content + calls);
    FieldPartsStep(f0, content + calls);
    TailSplit(content, calls);
    ContentTail(message);
    CallsTail(message);
    FlatSwap(head + TailParts(content), TailParts(calls), CallsTokens(message), [RB]);
    assert [LB] + FieldParts([f0] + (content + calls)) + [RB] == head + TailParts(content) + TailParts(calls) + [RB];
  }

  lemma TailSplit(content: seq<Field>, calls: seq<Field>)
    requires |content| <= 1
    ensures TailParts(content + calls) == TailParts(content) + TailParts(calls)
  {
    if content == [] {
      assert content + calls == calls;
    } else {
      assert content + calls == [content[0]] + calls && content == [content[0]] + [];
      FieldPartsStep(content[0], calls);
      FieldPartsStep(content[0], []);
    }
  }

  // ---------------------------------------------------------------- the appending code

  /** One link of an append chain: a token appended as it stands, or a text written as a JSON string. */
  datatype Link = Token(t: bytes) | Text(t: bytes)

  function LinkText(l: Link): bytes { if l.Token? then l.t else W.Quoted(l.t) }

  function LinkTexts(ls: seq<Link>): (ps: seq<bytes>)
    ensures |ps| == |ls|
  {
    seq(|ls|, i requires 0 <= i < |ls| => LinkText(ls[i]))
  }

  method AppendLink(out: Buffer, l: Link) returns (ok: bool)
    requires out.Valid()
    modifies out, out.data, out.heap
    ensures out.Valid() && (out.data == old(out.data) || fresh(out.data))
    ensures out.heap.requests >= old(out.heap.requests)
    ensures !ok ==> !out.heap.Granted(old(out.heap.requests)) || Huge(old(out.len) + |LinkText(l)|)
    ensures ok ==> out.data != null && out.Contents() == old(out.Contents()) + LinkText(l)
    ensures old(out.Contents()) <= out.Contents()
  {
    if l.Token? {
      ok := out.Append(l.t);
    } else {
      ok := W.WriteString(out, l.t);
    }
  }

  /** A chain of appends, each made only if the one before succeeded; a literal of the source is a few tokens in a row. */
  method AppendChain(out: Buffer, ls: seq<Link>) returns (ok: bool)
    requires out.Valid() && ls != []
    modifies out, out.data, out.heap
    ensures out.Valid() && (out.data == old(out.data) || fresh(out.data))
    ensures out.heap.requests >= old(out.heap.requests)
    ensures !ok ==> !out.heap.Granted(old(out.heap.requests)) || Huge(old(out.len) + |Flat(LinkTexts(ls))|)
    ensures ok ==> out.data != null && out.Contents() == old(out.Contents()) + Flat(LinkTexts(ls))
    ensures old(out.Contents()) <= out.Contents()
  {
    hide Flat, LinkTexts, Buffer.Valid, Buffer.Contents;
    ghost var before := out.Contents();
    var i := 0;
    ChainStart(before, ls);
    while i < |ls|
      invariant 0 <= i <= |ls|
      invariant out.Valid() && (out.data == old(out.data) || fresh(out.data))
      invariant i > 0 ==> out.data != null
      invariant out.heap.requests >= old(out.heap.requests)
      invariant out.Contents() == before + Flat(LinkTexts(ls)[..i])
      invariant before <= out.Contents()
    {
      ChainStep(before, ls, i);
      ChainRoom(ls, i);
      ok := AppendLink(out, ls[i]);
      if !ok {
        return;
      }
      i := i + 1;
    }
    ok := true;
  }

  lemma ChainStart(before: bytes, ls: seq<Link>)
    ensures before == before + Flat(LinkTexts(ls)[..0])
    ensures LinkTexts(ls)[..|ls|] == LinkTexts(ls)
  {
  }

  lemma ChainRoom(ls: seq<Link>, i: nat)
    requires i < |ls|
    ensures |Flat(LinkTexts(ls)[..i])| + |LinkText(ls[i])| <= |Flat(LinkTexts(ls))|
  {
    hide LinkText;
    var ps := LinkTexts(ls);
    ChainStep([], ls, i);
    FlatCat(ps[..i + 1], ps[i + 1..]);
    assert ps[..i + 1] + ps[i + 1..] == ps;
    assert |[] + Flat(ps[..i]) + LinkText(ls[i])| == |[] + Flat(ps[..i + 1])|;
  }

  lemma ChainStep(before: bytes, ls: seq<Link>, i: nat)
    requires i < |ls|
    ensures before + Flat(LinkTexts(ls)[..i]) + LinkText(ls[i]) == before + Flat(LinkTexts(ls)[..i + 1])
  {
    hide LinkText;
    var ps := LinkTexts(ls);
    FlatGrow(before, ps[..i], [ps[i]]);
    FlatOne(ps[i]);
    assert ps[..i] + [ps[i]] == ps[..i + 1];
  }

  /** Items `i` and on of a list, with the comma that precedes all but the first. */
  function JoinedFrom(ts: seq<bytes>, i: nat): (t: bytes)
    requires i <= |ts|
    decreases |ts| - i
  {
    if i == |ts| then [] else (if i > 0 then CM else []) + (ts[i] + JoinedFrom(ts, i + 1))
  }

  lemma {:induction false} JoinedFromTail(ts: seq<bytes>, i: nat)
    requires i < |ts|
    ensures ts[i] + JoinedFrom(ts, i + 1) == Joined(ts[i..])
    decreases |ts| - i
  {
    if i + 1 < |ts| {
      JoinedFromTail(ts, i + 1);
      assert ts[i..][1..] == ts[i + 1..];
      Assoc(ts[i], CM, Joined(ts[i + 1..]));
    } else {
      assert ts[i..] == [ts[i]];
    }
  }

  lemma JoinedFromStart(ts: seq<bytes>)
    ensures JoinedFrom(ts, 0) == Joined(ts)
  {
    if ts != [] {
      JoinedFromTail(ts, 0);
      assert ts[0..] == ts;
    }
  }

  /** What a list has so far, its next separator and item, and the rest. */
  lemma JoinedStep(before: bytes, ts: seq<bytes>, i: nat)
    requires i < |ts|
    ensures before + JoinedFrom(ts, i) == ((before + Separator(i)) + ts[i]) + JoinedFrom(ts, i + 1)
  {
    Assoc(before, Separator(i), ts[i] + JoinedFrom(ts, i + 1));
    Assoc(before + Separator(i), ts[i], JoinedFrom(ts, i + 1));
  }

  function Separator(i: nat): (t: bytes) { if i > 0 then CM else [] }

  /** The comma before every item but the first. */
  method AppendSeparator(out: Buffer, i: nat) returns (ok: bool)
    requires out.Valid() && out.data != null
    modifies out, out.data, out.heap
    ensures out.Valid() && out.data != null && (out.data == old(out.data) || fresh(out.data))
    ensures out.heap.requests >= old(out.heap.requests)
    ensures !ok ==> !out.heap.Granted(old(out.heap.requests)) || Huge(old(out.len) + |Separator(i)|)
    ensures ok ==> out.Contents() == old(out.Contents()) + Separator(i)
  {
    ok := true;
    if i > 0 {
      ok := out.Append(CM);
    }
  }

  /** The loop over the call list. */
  method AppendCalls(out: Buffer, calls: seq<Value>) returns (ok: bool)
    requires out.Valid() && out.data != null
    modifies out, out.data, out.heap
    ensures out.Valid() && (out.data == old(out.data) || fresh(out.data))
    ensures out.heap.requests >= old(out.heap.requests)
    ensures !ok ==> !out.heap.Granted(old(out.heap.requests)) || Huge(old(out.len) + |Joined(CallTexts(calls))|)
    ensures ok ==> out.data != null && out.Contents() == old(out.Contents()) + Joined(CallTexts(calls))
  {
    hide CallText, Buffer.Valid, Separator;
    ghost var ts := CallTexts(calls);
    ghost var target := out.Contents() + JoinedFrom(ts, 0);
    JoinedFromStart(ts);
    hide JoinedFrom, CallTexts;
    var index := 0;
    ok := true;
    while index < |calls|
      invariant 0 <= index <= |calls|
      invariant out.Valid() && out.data != null && (out.data == old(out.data) || fresh(out.data))
      invariant out.heap.requests >= old(out.heap.requests)
      invariant out.Contents() + JoinedFrom(ts, index) == target
      invariant ok
    {
      JoinedStep(out.Contents(), ts, index);
      CallTextAt(calls, index);
      ok := AppendSeparator(out, index);
      if !ok {
        return;
      }
      ok := AppendCall(out, calls[index]);
      if !ok {
        return;
      }
      index := index + 1;
    }
    JoinedFromEnd(ts);
  }

  lemma CallTextAt(calls: seq<Value>, i: nat)
    requires i < |calls|
    ensures CallTexts(calls)[i] == CallText(calls[i])
  {
    hide CallText;
  }

  lemma JoinedFromEnd(ts: seq<bytes>)
    ensures JoinedFrom(ts, |ts|) == []
  {
  }

  /** One replayed call. */
  method AppendCall(out: Buffer, call: Value) returns (ok: bool)
    requires out.Valid()
    modifies out, out.data, out.heap
    ensures out.Valid() && (out.data == old(out.data) || fresh(out.data))
    ensures out.heap.requests >= old(out.heap.requests)
    ensures !ok ==> !out.heap.Granted(old(out.heap.requests)) || Huge(old(out.len) + |CallText(call)|)
    ensures ok ==> out.data != null && out.Contents() == old(out.Contents()) + CallText(call)
  {
    hide Ascii, K, W.Quoted, Flat, ObjectText, Find, CStr;
    var function_ := ObjectGet(Some(call), Ascii("function"));
    var id := CStr(OrElse(GetString(Some(call), Ascii("id")), []));
    var name := CStr(OrElse(GetString(function_, Ascii("name")), Ascii("shell")));
    var arguments := CStr(OrElse(GetString(function_, Ascii("arguments")), Ascii("{}")));
    var ls := [Token(LB), Token(K("id")), Text(id), Token(CM), Token(K("type")), Token(Raw(Ascii("function"))), Token(CM),
               Token(K("function")), Token(LB), Token(K("name")), Text(name), Token(CM), Token(K("arguments")), Text(arguments),
               Token(RB), Token(RB)];
    assert Flat(LinkTexts(ls)) == CallText(call) by {
      CallParts(W.Quoted(id), W.Quoted(name), W.Quoted(arguments));
      assert LinkTexts(ls) == [LB, K("id"), W.Quoted(id), CM, K("type"), Raw(Ascii("function")), CM, K("function"),
                               LB, K("name"), W.Quoted(name), CM, K("arguments"), W.Quoted(arguments), RB, RB];
    }
    hide Flat, LinkTexts, CallText;
    ok := AppendChain(out, ls);
  }

  lemma FlatLength(ps: seq<bytes>, qs: seq<bytes>)
    ensures |Flat(ps + qs)| == |Flat(ps)| + |Flat(qs)|
  {
    FlatCat(ps, qs);
  }

  lemma AssistantRoom(message: Value)
    ensures |AssistantMessage(message)|
      == |Flat([LB, K("role"), Raw(Ascii("assistant"))])| + |Flat(ContentTokens(message))| + |Flat(CallsTokens(message))| + |RB|
  {
    hide Ascii, K, Flat, AssistantMessage, ContentTokens, CallsTokens;
    AssistantParts(message);
    var head := [LB, K("role"), Raw(Ascii("assistant"))];
    FlatLength(head, ContentTokens(message));
    FlatLength(head + ContentTokens(message), CallsTokens(message));
    FlatLength(head + ContentTokens(message) + CallsTokens(message), [RB]);
    FlatOne(RB);
  }

  /** `chat_serialise_assistant`. */
  method SerialiseAssistant(message: Value, out: Buffer) returns (ok: bool)
    requires out.Valid()
    modifies out, out.data, out.heap
    ensures out.Valid() && (out.data == old(out.data) || fresh(out.data))
    ensures out.heap.requests >= old(out.heap.requests)
    ensures !ok ==> !out.heap.Granted(old(out.heap.requests)) || Huge(old(out.len) + |AssistantMessage(message)|)
    ensures ok ==> out.data != null && out.Contents() == old(out.Contents()) + AssistantMessage(message)
  {
    hide Ascii, K, Flat, AssistantMessage, ContentTokens, CallsTokens;
    AssistantParts(message);
    AssistantRoom(message);
    ghost var before := out.Contents();
    var head := [Token(LB), Token(K("role")), Token(Raw(Ascii("assistant")))];
    ghost var done := LinkTexts(head);
    assert done == [LB, K("role"), Raw(Ascii("assistant"))];
    hide LinkTexts;
    ok := AppendChain(out, head);
    if !ok {
      return;
    }
    ok := AppendContent(message, out);
    if !ok {
      return;
    }
    FlatGrow(before, done, ContentTokens(message));
    done := done + ContentTokens(message);
    ok := AppendToolCalls(message, out);
    if !ok {
      return;
    }
    FlatGrow(before, done, CallsTokens(message));
    done := done + CallsTokens(message);
    ok := out.Append(RB);
    FlatOne(RB);
    FlatGrow(before, done, [RB]);
  }

  lemma FlatNone(t: bytes)
    ensures t + Flat([]) == t
  {
  }

  /** The content of the message, when it has one. */
  method AppendContent(message: Value, out: Buffer) returns (ok: bool)
    requires out.Valid() && out.data != null
    modifies out, out.data, out.heap
    ensures out.Valid() && (out.data == old(out.data) || fresh(out.data))
    ensures out.heap.requests >= old(out.heap.requests)
    ensures !ok ==> !out.heap.Granted(old(out.heap.requests)) || Huge(old(out.len) + |Flat(ContentTokens(message))|)
    ensures ok ==> out.data != null && out.Contents() == old(out.Contents()) + Flat(ContentTokens(message))
  {
    hide Ascii, K, Flat, Find, W.Quoted;
    FlatNone(out.Contents());
    var content := ObjectGet(Some(message), Ascii("content"));
    ok := true;
    if content.Some? && content.value.String? {
      var ls := [Token(CM), Token(K("content")), Text(content.value.s)];
      assert LinkTexts(ls) == ContentTokens(message);
      ok := AppendChain(out, ls);
    }
  }

  /** The calls of the message, when it has any list of them. */
  method AppendToolCalls(message: Value, out: Buffer) returns (ok: bool)
    requires out.Valid() && out.data != null
    modifies out, out.data, out.heap
    ensures out.Valid() && (out.data == old(out.data) || fresh(out.data))
    ensures out.heap.requests >= old(out.heap.requests)
    ensures !ok ==> !out.heap.Granted(old(out.heap.requests)) || Huge(old(out.len) + |Flat(CallsTokens(message))|)
    ensures ok ==> out.data != null && out.Contents() == old(out.Contents()) + Flat(CallsTokens(message))
  {
    hide Ascii, K, Flat, Find, Joined, CallTexts;
    FlatNone(out.Contents());
    var calls := ObjectGet(Some(message), Ascii("tool_calls"));
    ok := true;
    if calls.Some? && calls.value.Array? {
      ok := AppendCallList(out, calls.value.items);
    }
  }

  /** The bracketed list of calls and its key. */
  method AppendCallList(out: Buffer, calls: seq<Value>) returns (ok: bool)
    requires out.Valid()
    modifies out, out.data, out.heap
    ensures out.Valid() && (out.data == old(out.data) || fresh(out.data))
    ensures out.heap.requests >= old(out.heap.requests)
    ensures !ok ==>
      || !out.heap.Granted(old(out.heap.requests))
      || Huge(old(out.len) + |Flat([CM, K("tool_calls"), LK] + [Joined(CallTexts(calls))] + [RK])|)
    ensures ok ==> out.data != null
    ensures ok ==> out.Contents() == old(out.Contents()) + Flat([CM, K("tool_calls"), LK] + [Joined(CallTexts(calls))] + [RK])
  {
    hide Ascii, K, Flat, Joined, CallTexts;
    ghost var before := out.Contents();
    var ls := [Token(CM), Token(K("tool_calls")), Token(LK)];
    assert LinkTexts(ls) == [CM, K("tool_calls"), LK];
    hide LinkTexts;
    FlatOne(Joined(CallTexts(calls)));
    FlatOne(RK);
    FlatLength(LinkTexts(ls), [Joined(CallTexts(calls))]);
    FlatLength(LinkTexts(ls) + [Joined(CallTexts(calls))], [RK]);
    ok := AppendChain(out, ls);
    if !ok {
      return;
    }
    ok := AppendCalls(out, calls);
    if !ok {
      return;
    }
    FlatGrow(before, LinkTexts(ls), [Joined(CallTexts(calls))]);
    ok := out.Append(RK);
    FlatGrow(before, LinkTexts(ls) + [Joined(CallTexts(calls))], [RK]);
  }

  /** The loop of `chat_build_request` over the messages. */
  method AppendMessages(out: Buffer, messages: seq<bytes>) returns (ok: bool)
    requires out.Valid() && out.data != null
    modifies out, out.data, out.heap
    ensures out.Valid() && (out.data == old(out.data) || fresh(out.data))
    ensures out.heap.requests >= old(out.heap.requests)
    ensures !ok ==> !out.heap.Granted(old(out.heap.requests)) || Huge(old(out.len) + |Joined(messages)|)
    ensures ok ==> out.data != null && out.Contents() == old(out.Contents()) + Joined(messages)
  {
    hide Buffer.Valid, Separator;
    ghost var target := out.Contents() + JoinedFrom(messages, 0);
    JoinedFromStart(messages);
    hide JoinedFrom;
    var i := 0;
    ok := true;
    while i < |messages|
      invariant 0 <= i <= |messages|
      invariant out.Valid() && out.data != null && (out.data == old(out.data) || fresh(out.data))
      invariant out.heap.requests >= old(out.heap.requests)
      invariant out.Contents() + JoinedFrom(messages, i) == target
      invariant ok
    {
      JoinedStep(out.Contents(), messages, i);
      ok := AppendSeparator(out, i);
      if !ok {
        return;
      }
      ok := out.Append(messages[i]);
      if !ok {
        return;
      }
      i := i + 1;
    }
    JoinedFromEnd(messages);
  }

  /** A text between two runs of tokens. */
  lemma Sandwich(before: bytes, h: seq<bytes>, m: bytes, t: seq<bytes>)
    ensures before + Flat(h) + m + Flat(t) == before + Flat(h + [m] + t)
    ensures |Flat(h + [m] + t)| == |Flat(h)| + |m| + |Flat(t)|
  {
    FlatOne(m);
    FlatGrow(before, h, [m]);
    FlatGrow(before, h + [m], t);
    FlatLength(h, [m]);
    FlatLength(h + [m], t);
  }

  /** `chat_build_request`; the messages are C strings, so appending each whole is what `strlen` does. */
  method BuildRequest(model: bytes, tool: bytes, conversation: Conversation, out: Buffer) returns (ok: bool)
    requires out.Valid() && conversation.Valid()
    requires out.data != null ==> out.data as object != conversation.messages
    modifies out, out.data, out.heap
    ensures out.Valid() && (out.data == old(out.data) || fresh(out.data))
    ensures out.heap.requests >= old(out.heap.requests)
    ensures !ok ==>
      !out.heap.Granted(old(out.heap.requests)) || Huge(old(out.len) + |Request(model, tool, old(conversation.Contents()))|)
    ensures ok ==> out.data != null
    ensures ok ==> out.Contents() == old(out.Contents()) + Request(model, tool, old(conversation.Contents()))
  {
    hide Ascii, K, Flat, Joined;
    ghost var before := out.Contents();
    ghost var quoted, messages := W.Quoted(CStr(model)), conversation.Contents();
    var head := [Token(LB), Token(K("model")), Text(CStr(model)), Token(CM), Token(K("messages")), Token(LK)];
    var tail := [Token(RK), Token(CM), Token(K("tools")), Token(LK), Token(CStr(tool)), Token(RK), Token(CM),
                 Token(K("tool_choice")), Token(Raw(Ascii("auto"))), Token(RB)];
    ghost var h, t := LinkTexts(head), LinkTexts(tail);
    assert h == [LB, K("model"), quoted, CM, K("messages"), LK];
    assert t == [RK, CM, K("tools"), LK, CStr(tool), RK, CM, K("tool_choice"), Raw(Ascii("auto")), RB];
    hide LinkTexts;
    RequestParts(quoted, messages, CStr(tool));
    assert h + [Joined(messages)] + t == RequestTokens(quoted, Joined(messages), CStr(tool));
    Sandwich(before, h, Joined(messages), t);
    hide RequestTokens, Request, W.Quoted, CStr, LinkTexts, Buffer.Valid, Buffer.Contents, Conversation.Valid, Raw, ObjectText;
    ok := AppendChain(out, head);
    if !ok {
      return;
    }
    ok := AppendMessages(out, conversation.List());
    if !ok {
      return;
    }
    ok := AppendChain(out, tail);
  }

  // ---------------------------------------------------------------- the conversation

  class Conversation {
    const heap: Allocator
    var messages: array?<bytes>
    var count: nat
    var capacity: nat

    ghost predicate Valid()
      reads this, messages
    {
      if messages == null then count == 0 && capacity == 0
      else messages.Length == capacity && count <= capacity && capacity > 0
    }

    ghost function Contents(): (c: seq<bytes>)
      reads this, messages
      requires Valid()
      ensures |c| == count
    {
      if messages == null then [] else messages[..count]
    }

    /** The messages in order, as the request loop reads them. */
    function List(): (c: seq<bytes>)
      reads this, messages
      requires Valid()
      ensures c == Contents()
    {
      if messages == null then [] else messages[..count]
    }

    constructor (heap: Allocator)
      ensures Valid() && Contents() == [] && messages == null && this.heap == heap
    {
      this.heap := heap;
      messages, count, capacity := null, 0, 0;
    }

    /** `conversation_add_raw`: a copy of the C string is kept, or nothing changes. */
    method AddRaw(json: Option<bytes>) returns (ok: bool)
      requires Valid()
      modifies this, messages, heap
      ensures Valid() && (messages == old(messages) || fresh(messages))
      ensures heap.requests >= old(heap.requests)
      ensures !ok ==> json.None? || !heap.Granted(old(heap.requests))
      ensures ok ==> json.Some? && Contents() == old(Contents()) + [CStr(json.value)]
      ensures !ok ==> Contents() == old(Contents())
    {
      hide CStr;
      if json.None? {
        return false;
      }
      if count == capacity {
        var cap := if capacity == 0 then CONVERSATION_MIN_CAP else capacity * 2;
        var granted := heap.Request();
        if !granted {
          return false;
        }
        var grown := new bytes[cap](_ => []);
        if messages != null {
          forall i | 0 <= i < count {
            grown[i] := messages[i];
          }
        }
        messages := grown;
        capacity := cap;
      }
      var copied := heap.Request();
      if !copied {
        return false;
      }
      messages[count] := CStr(json.value);
      count := count + 1;
      return true;
    }

    /** `conversation_add_text`. */
    method AddText(role: bytes, text: bytes) returns (ok: bool)
      requires Valid()
      modifies this, messages, heap
      ensures Valid() && (messages == old(messages) || fresh(messages))
      ensures heap.requests >= old(heap.requests)
      ensures !ok ==> !heap.Granted(old(heap.requests)) || Huge(|TextMessage(role, text)|)
      ensures ok ==> Contents() == old(Contents()) + [TextMessage(role, text)]
      ensures !ok ==> Contents() == old(Contents())
    {
      hide Ascii, K, W.Quoted, CStr, ObjectText;
      var message := new Buffer(heap);
      var ls := [Token(LB), Token(K("role")), Token(Q), Token(CStr(role)), Token(Q), Token(CM), Token(K("content")),
                 Text(CStr(text)), Token(RB)];
      assert Flat(LinkTexts(ls)) == TextMessage(role, text) by {
        TextParts(CStr(role), W.Quoted(CStr(text)));
        assert LinkTexts(ls) == [LB, K("role"), Q, CStr(role), Q, CM, K("content"), W.Quoted(CStr(text)), RB];
      }
      ok := AppendChain(message, ls);
      if ok {
        H.MessageIsCString(H.Said(role, text));
        assert [] + Flat(LinkTexts(ls)) == Flat(LinkTexts(ls));
        ok := AddRaw(Some(message.data[..message.len]));
      }
    }

    /** `conversation_add_tool_result`; the output may hold NUL. */
    method AddToolResult(id: bytes, text: bytes) returns (ok: bool)
      requires Valid()
      modifies this, messages, heap
      ensures Valid() && (messages == old(messages) || fresh(messages))
      ensures heap.requests >= old(heap.requests)
      ensures !ok ==> !heap.Granted(old(heap.requests)) || Huge(|ToolMessage(id, text)|)
      ensures ok ==> Contents() == old(Contents()) + [ToolMessage(id, text)]
      ensures !ok ==> Contents() == old(Contents())
    {
      hide Ascii, K, W.Quoted, CStr, ObjectText;
      var message := new Buffer(heap);
      var ls := [Token(LB), Token(K("role")), Token(Raw(Ascii("tool"))), Token(CM), Token(K("tool_call_id")), Text(CStr(id)),
                 Token(CM), Token(K("content")), Text(text), Token(RB)];
      assert Flat(LinkTexts(ls)) == ToolMessage(id, text) by {
        ToolParts(W.Quoted(CStr(id)), W.Quoted(text));
        assert LinkTexts(ls) == [LB, K("role"), Raw(Ascii("tool")), CM, K("tool_call_id"), W.Quoted(CStr(id)), CM, K("content"),
                                 W.Quoted(text), RB];
      }
      ok := AppendChain(message, ls);
      if ok {
        H.MessageIsCString(H.ToolResult(id, text));
        assert [] + Flat(LinkTexts(ls)) == Flat(LinkTexts(ls));
        ok := AddRaw(Some(message.data[..message.len]));
      }
    }

    /** A reply kept for the next request: serialised, then added raw. */
    method AddReply(reply: Value) returns (ok: bool)
      requires Valid()
      modifies this, messages, heap
      ensures Valid() && (messages == old(messages) || fresh(messages))
      ensures heap.requests >= old(heap.requests)
      ensures !ok ==> !heap.Granted(old(heap.requests)) || Huge(|AssistantMessage(reply)|)
      ensures ok ==> Contents() == old(Contents()) + [AssistantMessage(reply)]
      ensures !ok ==> Contents() == old(Contents())
    {
      hide AssistantMessage;
      var raw := new Buffer(heap);
      ok := SerialiseAssistant(reply, raw);
      if ok {
        H.MessageIsCString(H.Replied(reply));
        assert [] + AssistantMessage(reply) == AssistantMessage(reply);
        ok := AddRaw(Some(raw.data[..raw.len]));
      }
    }

    /** Saying one more thing: the conversation is the texts of its entries, whatever the allocator did. */
    method Add(e: H.Entry, ghost es: seq<H.Entry>) returns (ok: bool)
      requires Valid() && Contents() == H.MessagesOf(es)
      modifies this, messages, heap
      ensures Valid() && (messages == old(messages) || fresh(messages))
      ensures heap.requests >= old(heap.requests)
      ensures !ok ==> !heap.Granted(old(heap.requests)) || Huge(|H.MessageOf(e)|)
      ensures Contents() == H.MessagesOf(if ok then es + [e] else es)
    {
      hide TextMessage, ToolMessage, AssistantMessage;
      match e {
        case Said(role, text) => ok := AddText(role, text);
        case ToolResult(id, output) => ok := AddToolResult(id, output);
        case Replied(reply) => ok := AddReply(reply);
      }
      assert H.MessagesOf(es + [e]) == H.MessagesOf(es) + [H.MessageOf(e)];
    }
  }

  // ---------------------------------------------------------------- reading a tool call

  /** What a call is reported as when its arguments cannot be parsed, for lack of memory too. */
  function Unparsed(id: bytes, byDefault: int): Decoded
  {
    Decoded(id, None, None, byDefault, Some(Ascii("tool arguments were not a JSON object")))
  }

  /** No size computation overflows on the arguments. */
  predicate ArgumentsFit(call: Value) { ArgumentsOf(call).Some? ==> 4 * |CStr(ArgumentsOf(call).value)| < P.LIMIT }

  class ToolCall {
    var id: bytes
    var command: Option<bytes>
    var cwd: Option<bytes>
    var timeoutMs: int
    var decodeError: Option<bytes>

    function View(): Decoded
      reads this
    {
      Decoded(id, command, cwd, timeoutMs, decodeError)
    }

    constructor ()
    {
      id, command, cwd, timeoutMs, decodeError := [], None, None, 0, None;
    }

    /** `chat_decode_tool_call`; the fields are filled on every path, and a call that cannot be read is reported, not refused. */
    method Fill(call: Value, byDefault: int, num: NumberReader, heap: Allocator)
      modifies this, heap
      ensures View() == Decode(call, byDefault, num) || View() == Unparsed(IdOf(call), byDefault)
      ensures heap.Granted(old(heap.requests)) && ArgumentsFit(call) ==> View() == Decode(call, byDefault, num)
    {
      hide Ascii, CStr, Find, G.Document, UnknownTool;
      id, command, cwd, timeoutMs, decodeError := [], None, None, 0, None;
      var given := ObjectGet(Some(call), Ascii("id"));
      id := CStr(if given.Some? && given.value.String? then given.value.s else []);
      timeoutMs := byDefault;

      var function_ := ObjectGet(Some(call), Ascii("function"));
      var name := CStr(OrElse(GetString(function_, Ascii("name")), []));
      if name != Ascii("shell") {
        decodeError := Some(UnknownTool(name));
        return;
      }
      var arguments := GetString(function_, Ascii("arguments"));
      if arguments.None? {
        decodeError := Some(Ascii("tool call had no arguments"));
        return;
      }
      FillArguments(CStr(arguments.value), byDefault, num, heap);
    }

    /** The part after the arguments text has been found. */
    method FillArguments(arguments: bytes, byDefault: int, num: NumberReader, heap: Allocator)
      requires command.None? && cwd.None? && decodeError.None? && timeoutMs == byDefault
      modifies this, heap
      ensures View() == DecodeArguments(old(id), arguments, byDefault, num) || View() == Unparsed(old(id), byDefault)
      ensures heap.Granted(old(heap.requests)) && 4 * |arguments| < P.LIMIT ==>
        View() == DecodeArguments(old(id), arguments, byDefault, num)
    {
      hide Ascii, CStr, Find, G.Document;
      var parsed := P.ParseLen(arguments, heap);
      if parsed.None? || !parsed.value.Object? {
        decodeError := Some(Ascii("tool arguments were not a JSON object"));
        return;
      }
      var c := ObjectGet(parsed, Ascii("command"));
      if c.None? || !c.value.String? {
        decodeError := Some(Ascii("tool arguments had no 'command' string"));
        return;
      }
      command := Some(CStr(c.value.s));
      var dir := ObjectGet(parsed, Ascii("cwd"));
      if dir.Some? && dir.value.String? && |dir.value.s| > 0 {
        cwd := Some(CStr(dir.value.s));
      }
      var timeout := ObjectGet(parsed, Ascii("timeout_ms"));
      if timeout.Some? && timeout.value.Number? && num.positive(timeout.value.text) {
        timeoutMs := num.asLong(timeout.value.text);
      }
    }
  }
}
