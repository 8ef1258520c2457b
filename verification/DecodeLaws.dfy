/** What decoding a tool call yields, from the members of the tree and from the text of the arguments. */
module DecodeLaws {
  import opened Bytes
  import opened Json
  import opened JsonAccess
  import opened Chat
  import opened ChatTheorems
  import opened Embedding
  import opened JsonText
  import opened ChatHistory
  import G = Grammar
  import P = Render
  import W = JsonWriter
  import Utf8

  // ---------------------------------------------------------------- members

  /** The first member of an object that C code finds under a name. */
  predicate Holds(v: Value, key: string, m: Value)
  {
    v.Object? && exists i :: 0 <= i < |v.members| && FirstUnder(v.members, Ascii(key), i) && v.members[i].value == m
  }

  predicate FirstUnder(ms: seq<Member>, key: bytes, i: nat)
    requires i < |ms|
  {
    CStr(ms[i].key) == key && forall j :: 0 <= j < i ==> CStr(ms[j].key) != key
  }

  /** Found exactly where it is held, and not found where nothing is. */
  lemma GetHolds(v: Value, key: string, m: Value)
    ensures Get(Some(v), Ascii(key)) == Some(m) <==> Holds(v, key, m)
  {
    hide CStr, Ascii;
    if v.Object? {
      var ms := v.members;
      FindFirst(ms, Ascii(key));
      if Holds(v, key, m) {
        var i :| 0 <= i < |ms| && FirstUnder(ms, Ascii(key), i) && ms[i].value == m;
        assert Find(ms, Ascii(key)) == Some(ms[i].value);
      }
      if Find(ms, Ascii(key)) == Some(m) {
        FoundFirst(ms, Ascii(key));
      }
    }
  }

  lemma {:induction false} FoundFirst(ms: seq<Member>, key: bytes)
    requires Find(ms, key).Some?
    ensures exists i :: 0 <= i < |ms| && FirstUnder(ms, key, i) && Find(ms, key) == Some(ms[i].value)
    decreases |ms|
  {
    hide CStr;
    if CStr(ms[0].key) == key {
      assert FirstUnder(ms, key, 0);
    } else {
      FoundFirst(ms[1..], key);
      var i :| 0 <= i < |ms[1..]| && FirstUnder(ms[1..], key, i) && Find(ms[1..], key) == Some(ms[1..][i].value);
      forall j | 0 <= j < i + 1 ensures CStr(ms[j].key) != key {
        assert j > 0 ==> ms[1..][j - 1] == ms[j];
      }
      assert FirstUnder(ms, key, i + 1);
    }
  }

  lemma GetStringHolds(v: Value, key: string, s: bytes)
    ensures GetString(Some(v), Ascii(key)) == Some(s) <==> Holds(v, key, String(s))
  {
    hide Get, Holds;
    GetHolds(v, key, String(s));
  }

  /** No string under that name: nothing is there, or something else. */
  ghost predicate NoString(v: Value, key: string) { forall s :: !Holds(v, key, String(s)) }

  lemma NoStringFound(v: Value, key: string)
    ensures NoString(v, key) <==> GetString(Some(v), Ascii(key)).None?
  {
    hide Holds, GetString;
    var g := GetString(Some(v), Ascii(key));
    if g.Some? {
      GetStringHolds(v, key, g.value);
    } else {
      forall s ensures !Holds(v, key, String(s)) {
        GetStringHolds(v, key, s);
      }
    }
  }

  // ---------------------------------------------------------------- calls

  /** The call names this tool, through its member `function`. */
  ghost predicate Calls(call: Value, f: Value, name: bytes)
  {
    Holds(call, "function", f) && exists s :: Holds(f, "name", String(s)) && CStr(s) == name
  }

  /** The error text of a name, and of a missing one, in the 255 bytes there is room for. */
  function NoSuchTool(name: bytes): (t: bytes)
  {
    var whole := Ascii("unknown tool '") + name + Ascii("'; only 'shell' exists");
    if |whole| <= 255 then whole else whole[..255]
  }

  lemma IdDecoded(call: Value, byDefault: int, num: NumberReader, s: bytes)
    ensures Holds(call, "id", String(s)) ==> Decode(call, byDefault, num).id == CStr(s)
    ensures NoString(call, "id") ==> Decode(call, byDefault, num).id == []
  {
    hide Holds, GetString, NoString, NameOf, ArgumentsOf, DecodeArguments, UnknownTool;
    GetStringHolds(call, "id", s);
    NoStringFound(call, "id");
    IdKept(call, byDefault, num);
  }

  lemma IdKept(call: Value, byDefault: int, num: NumberReader)
    ensures Decode(call, byDefault, num).id == IdOf(call)
  {
    hide IdOf, NameOf, ArgumentsOf, GetString, UnknownTool, TimeoutOf, G.Document;
  }

  /** A call that names another tool, or none: no command, no directory, the default timeout, and the name in the error. */
  lemma OtherToolDecoded(call: Value, f: Value, name: bytes, byDefault: int, num: NumberReader)
    requires name != Ascii("shell")
    requires Calls(call, f, name) || (name == [] && forall g :: Holds(call, "function", g) ==> NoString(g, "name"))
    ensures var d := Decode(call, byDefault, num);
      d == Decoded(d.id, None, None, byDefault, Some(NoSuchTool(name)))
  {
    hide Holds, GetString, IdOf, ArgumentsOf, DecodeArguments;
    NameFound(call, f, name);
  }

  lemma NameFound(call: Value, f: Value, name: bytes)
    ensures Calls(call, f, name) ==> NameOf(call).Some? && CStr(NameOf(call).value) == name && FunctionOf(call) == Some(f)
    ensures (forall g :: Holds(call, "function", g) ==> NoString(g, "name")) ==> NameOf(call).None?
  {
    hide Holds, Get, NoString;
    GetHolds(call, "function", f);
    if Calls(call, f, name) {
      var s :| Holds(f, "name", String(s)) && CStr(s) == name;
      GetStringHolds(f, "name", s);
    }
    if forall g :: Holds(call, "function", g) ==> NoString(g, "name") {
      var g := FunctionOf(call);
      if g.Some? {
        GetHolds(call, "function", g.value);
        NoStringFound(g.value, "name");
      } else {
        NothingIn(Ascii("name"));
      }
    }
  }

  lemma NothingIn(key: bytes)
    ensures GetString(None, key).None?
  {
  }

  /** A shell call without an arguments string, or with a text that reads as nothing or as no object. */
  lemma NoArgumentsDecoded(call: Value, f: Value, a: bytes, byDefault: int, num: NumberReader)
    requires Calls(call, f, Ascii("shell"))
    ensures var d := Decode(call, byDefault, num);
      && (NoString(f, "arguments") ==> d == Decoded(d.id, None, None, byDefault, Some(Ascii("tool call had no arguments"))))
      && (Holds(f, "arguments", String(a)) && (G.Document(CStr(a)).None? || !G.Document(CStr(a)).value.Object?) ==>
            d == Decoded(d.id, None, None, byDefault, Some(Ascii("tool arguments were not a JSON object"))))
  {
    hide Holds, GetString, IdOf, G.Document, NoString, Calls, TimeoutOf, UnknownTool;
    NameFound(call, f, Ascii("shell"));
    GetStringHolds(f, "arguments", a);
    NoStringFound(f, "arguments");
  }

  /** The timeout a call asks for: a positive number under `timeout_ms`, or the default. */
  lemma TimeoutDecoded(args: Value, n: bytes, byDefault: int, num: NumberReader)
    ensures Holds(args, "timeout_ms", Number(n)) && num.positive(n) ==> TimeoutOf(args, byDefault, num) == num.asLong(n)
    ensures (forall t :: Holds(args, "timeout_ms", Number(t)) ==> !num.positive(t)) ==> TimeoutOf(args, byDefault, num) == byDefault
  {
    hide Holds, Get;
    GetHolds(args, "timeout_ms", Number(n));
    var t := Get(Some(args), Ascii("timeout_ms"));
    if t.Some? {
      GetHolds(args, "timeout_ms", t.value);
    }
  }

  /**
   * A shell call whose arguments read as an object, member by member: without a command string it is refused; with one it is
   * accepted with that command, with the directory if that is a string that is not empty, and with the timeout if that is a
   * number above zero.
   */
  lemma ShellDecoded(call: Value, f: Value, a: bytes, args: Value, byDefault: int, num: NumberReader, c: bytes, w: bytes, n: bytes)
    requires Calls(call, f, Ascii("shell")) && Holds(f, "arguments", String(a)) && G.Document(CStr(a)) == Some(args) && args.Object?
    ensures var d := Decode(call, byDefault, num);
      && (NoString(args, "command") ==> d == Decoded(d.id, None, None, byDefault, Some(Ascii("tool arguments had no 'command' string"))))
      && (Holds(args, "command", String(c)) ==>
            && d.command == Some(CStr(c)) && d.error == None
            && (Holds(args, "cwd", String(w)) ==> d.cwd == if w == [] then None else Some(CStr(w)))
            && (NoString(args, "cwd") ==> d.cwd == None)
            && (Holds(args, "timeout_ms", Number(n)) && num.positive(n) ==> d.timeoutMs == num.asLong(n))
            && ((forall t :: Holds(args, "timeout_ms", Number(t)) ==> !num.positive(t)) ==> d.timeoutMs == byDefault))
  {
    hide Holds, GetString, IdOf, G.Document, NoString, Calls, TimeoutOf, UnknownTool;
    NameFound(call, f, Ascii("shell"));
    GetStringHolds(f, "arguments", a);
    NoStringFound(args, "command");
    GetStringHolds(args, "command", c);
    NoStringFound(args, "cwd");
    GetStringHolds(args, "cwd", w);
    TimeoutDecoded(args, n, byDefault, num);
  }

  // ---------------------------------------------------------------- from the text

  /** A call as the server sends it. */
  function ShellCall(id: bytes, arguments: bytes): Value
  {
    Object([Member(Ascii("id"), String(id)),
            Member(Ascii("function"), Object([Member(Ascii("name"), String(Ascii("shell"))),
                                              Member(Ascii("arguments"), String(arguments))]))])
  }

  function Arguments(command: bytes, cwd: bytes, timeout: bytes): Value
  {
    Object([Member(Ascii("command"), String(command)), Member(Ascii("cwd"), String(cwd)), Member(Ascii("timeout_ms"), Number(timeout))])
  }

  /** One name holds one value. */
  lemma OnlyTimeout(v: Value, n: bytes)
    requires Holds(v, "timeout_ms", Number(n))
    ensures forall t :: Holds(v, "timeout_ms", Number(t)) ==> t == n
  {
    hide Holds;
    GetHolds(v, "timeout_ms", Number(n));
    forall t | Holds(v, "timeout_ms", Number(t)) ensures t == n {
      GetHolds(v, "timeout_ms", Number(t));
    }
  }

  lemma Keys()
    ensures CStr(Ascii("command")) == Ascii("command") && CStr(Ascii("cwd")) == Ascii("cwd")
    ensures CStr(Ascii("timeout_ms")) == Ascii("timeout_ms") && CStr(Ascii("shell")) == Ascii("shell")
    ensures Ascii("command") != Ascii("cwd") && Ascii("command") != Ascii("timeout_ms") && Ascii("cwd") != Ascii("timeout_ms")
  {
    LiteralKey("command"); LiteralKey("cwd"); LiteralKey("timeout_ms"); LiteralKey("shell");
  }

  /** The members of an object whose names are C strings and differ. */
  lemma HoldsAt(v: Value, key: string, i: nat)
    requires v.Object? && i < |v.members| && FirstUnder(v.members, Ascii(key), i)
    ensures Holds(v, key, v.members[i].value)
  {
  }

  lemma CallHolds(id: bytes, a: bytes)
    ensures var call := ShellCall(id, a); var f := call.members[1].value;
      Holds(call, "id", String(id)) && Calls(call, f, Ascii("shell")) && Holds(f, "arguments", String(a))
  {
    hide Ascii, CStr, Holds;
    Keys();
    CallKeys();
    var call := ShellCall(id, a);
    var f := call.members[1].value;
    HoldsAt(call, "id", 0);
    HoldsAt(call, "function", 1);
    HoldsAt(f, "name", 0);
    HoldsAt(f, "arguments", 1);
  }

  lemma ArgumentsHold(c: bytes, w: bytes, n: bytes)
    ensures var args := Arguments(c, w, n);
      Holds(args, "command", String(c)) && Holds(args, "cwd", String(w)) && Holds(args, "timeout_ms", Number(n))
  {
    hide Ascii, CStr, Holds;
    Keys();
    var args := Arguments(c, w, n);
    HoldsAt(args, "command", 0);
    HoldsAt(args, "cwd", 1);
    HoldsAt(args, "timeout_ms", 2);
  }

  /** The arguments of a call, written out. */
  function ArgumentsText(command: bytes, cwd: bytes, timeout: bytes): (t: bytes)
  {
    Ascii("{\"command\":") + W.Quoted(command) + Ascii(",\"cwd\":") + W.Quoted(cwd) + Ascii(",\"timeout_ms\":") + timeout + Ascii("}")
  }

  function ArgumentFields(c: bytes, w: bytes, n: bytes): seq<Field>
  {
    [Field(Ascii("command"), W.Quoted(c)), Field(Ascii("cwd"), W.Quoted(w)), Field(Ascii("timeout_ms"), n)]
  }

  lemma Punctuation()
    ensures Ascii("{\"command\":") == [LBRACE] + ([QUOTE] + Ascii("command") + [QUOTE, COLON])
    ensures Ascii(",\"cwd\":") == [COMMA] + ([QUOTE] + Ascii("cwd") + [QUOTE, COLON])
    ensures Ascii(",\"timeout_ms\":") == [COMMA] + ([QUOTE] + Ascii("timeout_ms") + [QUOTE, COLON])
    ensures Ascii("}") == [RBRACE]
  {
  }

  lemma TextIsObject(c: bytes, w: bytes, n: bytes)
    ensures ArgumentsText(c, w, n) == ObjectText(ArgumentFields(c, w, n))
  {
    hide W.Quoted, Ascii;
    Punctuation();
    var fs := ArgumentFields(c, w, n);
    var ts := FieldTexts(fs);
    assert ts[1..][1..] == ts[2..] && ts[1..][0] == ts[1] && ts[2..][0] == ts[2];
    assert Joined(ts[2..]) == FieldText(fs[2]);
    assert Joined(ts[1..]) == FieldText(fs[1]) + [COMMA] + Joined(ts[2..]);
    assert Joined(ts) == FieldText(fs[0]) + [COMMA] + Joined(ts[1..]);
  }

  lemma ArgumentsRead(c: bytes, w: bytes, n: bytes)
    requires P.NumberFits(n)
    ensures G.Document(ArgumentsText(c, w, n)) == Some(Arguments(Utf8.Repair(c), Utf8.Repair(w), n))
  {
    hide W.Quoted, Utf8.Repair, ObjectText, G.Val, ArgumentsText;
    TextIsObject(c, w, n);
    QuotedReads(c);
    QuotedReads(w);
    P.DocRead(n, 0, P.NumberDoc(n));
    ObjectReads(ArgumentFields(c, w, n), Arguments(Utf8.Repair(c), Utf8.Repair(w), n).members);
  }

  lemma NumberNoNul(n: bytes)
    requires P.NumberFits(n)
    ensures NoNul(n)
  {
    forall i | 0 <= i < |n| ensures n[i] != NUL {
      P.NumberBytes(n[i]);
    }
  }

  lemma ArgumentsNoNul(c: bytes, w: bytes, n: bytes)
    requires P.NumberFits(n)
    ensures CStr(ArgumentsText(c, w, n)) == ArgumentsText(c, w, n)
  {
    hide W.Quoted, ObjectText, P.NumberFits;
    TextIsObject(c, w, n);
    QuotedNoNul(c);
    QuotedNoNul(w);
    NumberNoNul(n);
    ObjectNoNul(ArgumentFields(c, w, n));
    CStrWhole(ArgumentsText(c, w, n));
  }

  /**
   * A shell call as the server writes it, decoded whole: the id, the repaired command, the repaired directory unless none was
   * given, the timeout if the number is above zero, and no error.
   */
  lemma ShellTextDecoded(id: bytes, c: bytes, w: bytes, n: bytes, byDefault: int, num: NumberReader)
    requires P.NumberFits(n)
    ensures Decode(ShellCall(id, ArgumentsText(c, w, n)), byDefault, num) ==
      Decoded(CStr(id), Some(CStr(Utf8.Repair(c))), if w == [] then None else Some(CStr(Utf8.Repair(w))),
              if num.positive(n) then num.asLong(n) else byDefault, None)
  {
    hide Holds, Calls, CStr, Utf8.Repair, Decode, G.Document, ArgumentsText, NoString;
    var a := ArgumentsText(c, w, n);
    var call, args := ShellCall(id, a), Arguments(Utf8.Repair(c), Utf8.Repair(w), n);
    ArgumentsRead(c, w, n);
    ArgumentsNoNul(c, w, n);
    CallHolds(id, a);
    ArgumentsHold(Utf8.Repair(c), Utf8.Repair(w), n);
    IdDecoded(call, byDefault, num, id);
    OnlyTimeout(args, n);
    ShellDecoded(call, call.members[1].value, a, args, byDefault, num, Utf8.Repair(c), Utf8.Repair(w), n);
    Utf8.RepairIdentity(w);
  }
}
