/** Tool calls that go back to the server in an assistant message: which of them come back as they were. */
module Replay {
  import opened Bytes
  import opened Json
  import opened JsonAccess
  import opened Chat
  import opened ChatTheorems
  import opened ChatHistory
  import opened MendedText
  import G = Grammar
  import R = StringRoundTrip
  import Utf8

  // ---------------------------------------------------------------- which calls

  /** Bytes of the name that `unknown tool` has room for. */
  const NAME_ROOM: nat := 241

  function Shown(name: bytes): (n: bytes) { if |name| <= NAME_ROOM then name else name[..NAME_ROOM] }

  /** The command and the working directory, where the decoder gets as far as reading them, are valid UTF-8. */
  predicate ArgumentsSurvive(arguments: bytes)
  {
    var parsed := G.Document(arguments);
    var command, cwd := GetString(parsed, Ascii("command")), GetString(parsed, Ascii("cwd"));
    command.Some? ==> Utf8.WellFormed(CStr(command.value)) && (cwd.Some? ==> Utf8.WellFormed(CStr(cwd.value)))
  }

  /**
   * The calls a replay carries over: the id is valid UTF-8 and a name is there; a shell call has arguments whose command and
   * directory are valid; of any other name repair leaves as much as the error text shows.
   */
  predicate Faithful(call: Value)
  {
    && Utf8.WellFormed(IdOf(call))
    && NameOf(call).Some?
    && var name := CStr(NameOf(call).value);
       if name == Ascii("shell") then ArgumentsOf(call).Some? && ArgumentsSurvive(CStr(ArgumentsOf(call).value))
       else Shown(Utf8.Repair(name)) == Shown(name)
  }

  // ---------------------------------------------------------------- repair and C strings

  /** Repairing adds no NUL. */
  lemma {:induction false} RepairNoNul(s: bytes)
    requires NoNul(s)
    ensures NoNul(Utf8.Repair(s))
    decreases |s|
  {
    hide Utf8.SequenceLen;
    if s != [] {
      Utf8.RepairUnfold(s);
      var n := Utf8.SequenceLen(s);
      RepairNoNul(s[if n == 0 then 1 else n..]);
    }
  }

  /** A sequence is complete or not before a byte that continues nothing ever comes. */
  lemma SequenceEnds(a: bytes, b: bytes)
    requires a != [] && b != [] && b[0] < 0x80
    ensures Utf8.SequenceLen(a + b) == Utf8.SequenceLen(a)
  {
    var n := Utf8.LeadLength(a[0]);
    assert (a + b)[|a|] == b[0];
    assert forall i :: 0 <= i < |a| ==> (a + b)[i] == a[i];
  }

  lemma {:induction false} RepairSplits(a: bytes, b: bytes)
    requires b != [] && b[0] < 0x80
    ensures Utf8.Repair(a + b) == Utf8.Repair(a) + Utf8.Repair(b)
    decreases |a|
  {
    hide Utf8.SequenceLen, Utf8.Repair;
    if a == [] {
      R.RepairNothing();
      assert a + b == b;
    } else {
      SequenceEnds(a, b);
      Utf8.RepairUnfold(a);
      Utf8.RepairUnfold(a + b);
      var n := Utf8.SequenceLen(a);
      var k := if n == 0 then 1 else n;
      RepairSplits(a[k..], b);
      assert (a + b)[k..] == a[k..] + b && (a + b)[..k] == a[..k];
      Assoc(if n == 0 then Utf8.REPLACEMENT else a[..n], Utf8.Repair(a[k..]), Utf8.Repair(b));
    }
  }

  /** Cutting at the first NUL and repairing commute. */
  lemma RepairCStr(s: bytes)
    ensures CStr(Utf8.Repair(s)) == Utf8.Repair(CStr(s))
  {
    hide Utf8.SequenceLen, Utf8.Repair, CStr;
    var c := CStr(s);
    CStrWhole(c);
    RepairNoNul(c);
    if |c| == |s| {
      assert c == s;
      CStrWhole(Utf8.Repair(c));
    } else {
      var b := s[|c|..];
      assert s == c + b && b[0] == NUL;
      RepairSplits(c, b);
      Utf8.RepairUnfold(b);
      CStrIs(Utf8.Repair(c) + Utf8.Repair(b), Utf8.Repair(c));
    }
  }

  lemma {:induction false} CStrIs(s: bytes, c: bytes)
    requires |c| < |s| && s[..|c|] == c && NoNul(c) && s[|c|] == NUL
    ensures CStr(s) == c
    decreases |c|
  {
    if c != [] {
      assert s[0] == c[0] && s[1..][..|c| - 1] == c[1..];
      CStrIs(s[1..], c[1..]);
    }
  }

  predicate IsAscii(s: bytes) { forall i :: 0 <= i < |s| ==> s[i] < 0x80 }

  lemma AsciiTail(a: bytes, b: bytes)
    ensures IsAscii(a + b) ==> IsAscii(b)
    ensures a != [] && a[0] >= 0x80 ==> !IsAscii(a + b)
  {
    if IsAscii(a + b) {
      forall i | 0 <= i < |b| ensures b[i] < 0x80 {
        assert (a + b)[|a| + i] == b[i];
      }
    }
    if a != [] {
      assert (a + b)[0] == a[0];
    }
  }

  lemma {:induction false} AsciiUnrepaired(s: bytes)
    ensures IsAscii(Utf8.Repair(s)) ==> Utf8.Repair(s) == s
    decreases |s|
  {
    hide Utf8.SequenceLen, Utf8.Repair, IsAscii;
    if s == [] {
      R.RepairNothing();
    } else {
      Utf8.RepairUnfold(s);
      var n := Utf8.SequenceLen(s);
      if n == 0 {
        AsciiTail(Utf8.REPLACEMENT, Utf8.Repair(s[1..]));
      } else {
        AsciiTail(s[..n], Utf8.Repair(s[n..]));
        AsciiUnrepaired(s[n..]);
        assert s == s[..n] + s[n..];
      }
    }
  }

  lemma {:induction false} AsciiWellFormed(s: bytes)
    requires IsAscii(s)
    ensures Utf8.WellFormed(s)
    decreases |s|
  {
    if s != [] {
      AsciiWellFormed(s[1..]);
    }
  }

  /** Repair neither makes nor unmakes an ASCII word. */
  lemma RepairKey(k: bytes, key: bytes)
    requires IsAscii(key)
    ensures Utf8.Repair(k) == key <==> k == key
  {
    hide Utf8.SequenceLen, Utf8.Repair, Utf8.WellFormed;
    if Utf8.Repair(k) == key {
      AsciiUnrepaired(k);
    }
    if k == key {
      AsciiWellFormed(k);
      Utf8.RepairIdentity(k);
    }
  }

  // ---------------------------------------------------------------- members of a repaired tree

  function MendedOption(v: Option<Value>): Option<Value> { if v.Some? then Some(Mended(v.value)) else None }

  lemma {:induction false} FindMends(ms: seq<Member>, key: bytes)
    requires IsAscii(key)
    ensures Find(MendedMembers(ms), key) == MendedOption(Find(ms, key))
    decreases |ms|
  {
    hide Utf8.Repair, Mended, CStr;
    if ms != [] {
      RepairCStr(ms[0].key);
      RepairKey(CStr(ms[0].key), key);
      assert MendedMembers(ms)[1..] == MendedMembers(ms[1..]);
      FindMends(ms[1..], key);
    }
  }

  lemma GetMends(v: Option<Value>, key: bytes)
    requires IsAscii(key)
    ensures Get(MendedOption(v), key) == MendedOption(Get(v, key))
  {
    hide Find, MendedMembers;
    if v.Some? && v.value.Object? {
      FindMends(v.value.members, key);
    }
  }

  lemma GetStringMends(v: Option<Value>, key: bytes)
    requires IsAscii(key)
    ensures var s := GetString(v, key);
      GetString(MendedOption(v), key) == if s.Some? then Some(Utf8.Repair(s.value)) else None
  {
    hide Get, Utf8.Repair;
    GetMends(v, key);
  }

  lemma TimeoutMends(v: Value, byDefault: int, num: NumberReader)
    ensures TimeoutOf(Mended(v), byDefault, num) == TimeoutOf(v, byDefault, num)
  {
    hide Get, Utf8.Repair;
    GetMends(Some(v), Ascii("timeout_ms"));
  }

  // ---------------------------------------------------------------- arguments

  /** Repairing a directory leaves it empty or not as it was, and itself exactly when it is valid. */
  lemma RepairedText(s: bytes)
    ensures Utf8.Repair(s) == [] <==> s == []
    ensures CStr(Utf8.Repair(s)) == CStr(s) <==> Utf8.WellFormed(CStr(s))
  {
    hide Utf8.Repair, Utf8.WellFormed, CStr;
    Utf8.RepairIdentity(s);
    if s == [] {
      R.RepairNothing();
    }
    RepairCStr(s);
    Utf8.RepairIdentity(CStr(s));
  }

  /** Repaired arguments decode as the arguments did exactly when the command and the directory, if read, are valid. */
  lemma ArgumentsReplay(id: bytes, arguments: bytes, byDefault: int, num: NumberReader)
    ensures DecodeArguments(id, Utf8.Repair(arguments), byDefault, num) == DecodeArguments(id, arguments, byDefault, num) <==>
      ArgumentsSurvive(arguments)
  {
    hide Utf8.Repair, Utf8.WellFormed, CStr, G.Document, Ascii, GetString, TimeoutOf;
    RepairedDocument(arguments);
    var parsed := G.Document(arguments);
    assert G.Document(Utf8.Repair(arguments)) == MendedOption(parsed);
    GetStringMends(parsed, Ascii("command"));
    GetStringMends(parsed, Ascii("cwd"));
    NoneInNothing(parsed);
    if parsed.Some? {
      TimeoutMends(parsed.value, byDefault, num);
    }
    var command, cwd := GetString(parsed, Ascii("command")), GetString(parsed, Ascii("cwd"));
    if command.Some? {
      RepairedText(command.value);
    }
    if cwd.Some? {
      RepairedText(cwd.value);
    }
  }

  lemma NoneInNothing(v: Option<Value>)
    ensures v.None? || !v.value.Object? ==> GetString(v, Ascii("command")).None?
  {
  }

  // ---------------------------------------------------------------- names

  lemma PrefixTail(a: bytes, x: bytes, y: bytes)
    ensures a + x <= a + y <==> x <= y
  {
    assert (a + x)[|a|..] == x && (a + y)[|a|..] == y;
    if x <= y {
      assert (a + y)[..|a + x|] == a + y[..|x|];
    }
    if a + x <= a + y {
      assert y[..|x|] == (a + y)[|a|..|a + x|] == (a + x)[|a|..];
    }
  }

  lemma Apart(x: bytes, y: bytes, i: nat)
    requires i < |x| && i < |y| && x[i] != y[i]
    ensures !(x <= y)
  {
  }

  /** A byte that starts no sequence leaves its trace within the bytes that are there. */
  lemma StrayApart(s: bytes, c: byte, rest: bytes)
    requires s != [] && Utf8.SequenceLen(s) == 0 && c < 0x80
    ensures !(s + [c] <= Utf8.REPLACEMENT + rest)
  {
    var x, y := s + [c], Utf8.REPLACEMENT + rest;
    assert y[0] == 0xEF && y[1] == 0xBF && y[2] == 0xBD;
    if s[0] != 0xEF {
      Apart(x, y, 0);
    } else if |s| == 1 || s[1] != 0xBF {
      Apart(x, y, 1);
    } else {
      Apart(x, y, 2);
    }
  }

  /** A text that is not valid differs from its repair within its own length, even with an ASCII byte after it. */
  lemma {:induction false} NotPrefix(s: bytes, c: byte)
    requires !Utf8.WellFormed(s) && c < 0x80
    ensures !(s + [c] <= Utf8.Repair(s))
    decreases |s|
  {
    assert s != [];
    Utf8.WellFormedUnfold(s);
    Utf8.RepairUnfold(s);
    hide Utf8.Repair, Utf8.WellFormed, Utf8.SequenceLen;
    var n := Utf8.SequenceLen(s);
    if n > 0 {
      NotPrefix(s[n..], c);
      PrefixTail(s[..n], s[n..] + [c], Utf8.Repair(s[n..]));
      assert s + [c] == s[..n] + (s[n..] + [c]);
    } else {
      StrayApart(s, c, Utf8.Repair(s[1..]));
    }
  }

  lemma ShownTail(name: bytes, tail: bytes)
    requires tail != [] && tail[0] < 0x80
    ensures Shown(Utf8.Repair(name) + tail) == Shown(name + tail) <==> Shown(Utf8.Repair(name)) == Shown(name)
  {
    hide Utf8.Repair, Utf8.WellFormed;
    var r := Utf8.Repair(name);
    Utf8.RepairIdentity(name);
    if !Utf8.WellFormed(name) {
      if |name| < NAME_ROOM {
        assert |Shown(r)| > |name|;
        NotPrefix(name, tail[0]);
        var k := |name| + 1;
        assert Shown(r + tail)[..k] == r[..k];
        assert Shown(name + tail)[..k] == name + [tail[0]];
      } else {
        assert Shown(r + tail) == r[..NAME_ROOM] && Shown(name + tail) == name[..NAME_ROOM];
      }
    }
  }

  lemma UnknownToolShows(name: bytes)
    ensures UnknownTool(name) == Ascii("unknown tool '") + Shown(name + Ascii("'; only 'shell' exists"))
  {
    Assoc(Ascii("unknown tool '"), name, Ascii("'; only 'shell' exists"));
  }

  lemma UnknownToolReplay(name: bytes)
    ensures UnknownTool(Utf8.Repair(name)) == UnknownTool(name) <==> Shown(Utf8.Repair(name)) == Shown(name)
  {
    assert Ascii("'; only 'shell' exists")[0] == 0x27;
    hide Utf8.Repair, UnknownTool, Shown, Ascii;
    UnknownToolShows(name);
    UnknownToolShows(Utf8.Repair(name));
    ShownTail(name, Ascii("'; only 'shell' exists"));
    Utf8.TakeAppend(Ascii("unknown tool '"), Shown(Utf8.Repair(name) + Ascii("'; only 'shell' exists")),
                    Shown(name + Ascii("'; only 'shell' exists")));
  }

  // ---------------------------------------------------------------- calls

  /** What the decoder sees in a replayed call. */
  lemma CallTreeParts(call: Value)
    ensures IdOf(CallTree(call)) == Utf8.Repair(IdOf(call))
    ensures NameOf(CallTree(call)) == Some(Utf8.Repair(ReplayedName(call)))
    ensures ArgumentsOf(CallTree(call)) == Some(Utf8.Repair(ReplayedArguments(call)))
  {
    hide ReplayedName, ReplayedArguments, Ascii, CStr, Find, Utf8.Repair, Utf8.WellFormed;
    CallKeys();
    var ms := CallTree(call).members;
    FindAt(ms, Ascii("id"), 0);
    FindAt(ms, Ascii("function"), 2);
    FindAt(ms[2].value.members, Ascii("name"), 0);
    FindAt(ms[2].value.members, Ascii("arguments"), 1);
    IdIsCString(call);
    RepairNoNul(IdOf(call));
    CStrWhole(Utf8.Repair(IdOf(call)));
  }

  lemma IdIsCString(call: Value)
    ensures CStr(IdOf(call)) == IdOf(call) && NoNul(IdOf(call))
  {
    CStrWhole(IdOf(call));
  }

  /** A C string stays one under repair. */
  lemma RepairedWhole(s: bytes)
    ensures CStr(CStr(s)) == CStr(s) && CStr(Utf8.Repair(CStr(s))) == Utf8.Repair(CStr(s))
  {
    hide Utf8.Repair, CStr;
    CStrWhole(CStr(s));
    RepairCStr(CStr(s));
  }

  lemma ErrorTextsDiffer(name: bytes)
    ensures UnknownTool(name) != Ascii("tool arguments were not a JSON object")
    ensures UnknownTool(name) != Ascii("tool arguments had no 'command' string")
    ensures UnknownTool(name) != Ascii("tool call had no arguments")
    ensures Ascii("tool call had no arguments") != Ascii("tool arguments had no 'command' string")
  {
    assert UnknownTool(name)[0] == Ascii("unknown tool '")[0] == 0x75;
    assert Ascii("tool arguments were not a JSON object")[0] == 0x74;
    assert Ascii("tool arguments had no 'command' string")[0] == 0x74;
    assert Ascii("tool call had no arguments")[0] == 0x74;
    assert |Ascii("tool call had no arguments")| != |Ascii("tool arguments had no 'command' string")|;
  }

  lemma EmptyObjectParses()
    ensures CStr(Ascii("{}")) == Ascii("{}")
    ensures G.Document(Ascii("{}")) == Some(Object([]))
  {
    LiteralKey("{}");
    var t := Ascii("{}");
    assert t == [LBRACE, RBRACE];
    G.ValUnfold(t, 0);
    G.ContainersUnfold(t, 0);
  }

  lemma Words()
    ensures CStr(Ascii("shell")) == Ascii("shell") != [] && Utf8.Repair(Ascii("shell")) == Ascii("shell")
    ensures CStr(Ascii("{}")) == Ascii("{}") && Utf8.Repair(Ascii("{}")) == Ascii("{}")
    ensures CStr([]) == []
  {
    hide Utf8.Repair;
    LiteralKey("shell");
    LiteralKey("{}");
    RepairKey(Ascii("shell"), Ascii("shell"));
    RepairKey(Ascii("{}"), Ascii("{}"));
  }

  /** The decoded call without its id. */
  function Sense(call: Value, byDefault: int, num: NumberReader): Decoded
  {
    Decode(call, byDefault, num).(id := [])
  }

  lemma DecodedParts(call: Value, byDefault: int, num: NumberReader)
    ensures Decode(call, byDefault, num) == Sense(call, byDefault, num).(id := IdOf(call))
  {
    hide IdOf, Ascii, G.Document, CStr;
  }

  lemma NamelessSense(call: Value, byDefault: int, num: NumberReader)
    requires NameOf(call).None?
    ensures Sense(CallTree(call), byDefault, num) != Sense(call, byDefault, num)
  {
    hide Utf8.Repair, CallTree, ArgumentsOf, IdOf, Ascii, UnknownTool, DecodeArguments;
    CallTreeParts(call);
    Words();
    ErrorTextsDiffer([]);
    ArgumentErrors(IdOf(CallTree(call)), CStr(ArgumentsOf(CallTree(call)).value), byDefault, num);
  }

  /** The arguments of a shell call never decode to the error of an unknown tool. */
  lemma ArgumentErrors(id: bytes, arguments: bytes, byDefault: int, num: NumberReader)
    ensures var e := DecodeArguments(id, arguments, byDefault, num).error;
      e == None || e == Some(Ascii("tool arguments were not a JSON object")) || e == Some(Ascii("tool arguments had no 'command' string"))
  {
    hide Ascii, G.Document;
  }

  lemma OtherSense(call: Value, byDefault: int, num: NumberReader)
    requires NameOf(call).Some? && CStr(NameOf(call).value) != Ascii("shell")
    ensures var name := CStr(NameOf(call).value);
      Sense(CallTree(call), byDefault, num) == Sense(call, byDefault, num) <==> Shown(Utf8.Repair(name)) == Shown(name)
  {
    assert IsAscii(Ascii("shell"));
    hide Utf8.Repair, CallTree, ArgumentsOf, NameOf, IdOf, Ascii, UnknownTool, DecodeArguments, Shown, CStr;
    CallTreeParts(call);
    var name := CStr(NameOf(call).value);
    RepairedWhole(NameOf(call).value);
    RepairKey(name, Ascii("shell"));
    UnknownToolReplay(name);
  }

  lemma ShellSense(call: Value, byDefault: int, num: NumberReader)
    requires NameOf(call).Some? && CStr(NameOf(call).value) == Ascii("shell")
    ensures Sense(CallTree(call), byDefault, num) == Sense(call, byDefault, num) <==>
      ArgumentsOf(call).Some? && ArgumentsSurvive(CStr(ArgumentsOf(call).value))
  {
    hide Utf8.Repair, CallTree, ArgumentsOf, NameOf, IdOf, Ascii, UnknownTool, DecodeArguments, ArgumentsSurvive, CStr;
    CallTreeParts(call);
    Words();
    var id, id' := IdOf(call), IdOf(CallTree(call));
    if ArgumentsOf(call).Some? {
      var arguments := CStr(ArgumentsOf(call).value);
      RepairedWhole(ArgumentsOf(call).value);
      ArgumentsReplay([], arguments, byDefault, num);
      IdApart(id, arguments, byDefault, num);
      IdApart(id', Utf8.Repair(arguments), byDefault, num);
    } else {
      ErrorTextsDiffer([]);
      EmptyArguments(id', byDefault, num);
    }
  }

  lemma IdApart(id: bytes, arguments: bytes, byDefault: int, num: NumberReader)
    ensures DecodeArguments(id, arguments, byDefault, num).(id := []) == DecodeArguments([], arguments, byDefault, num)
  {
    hide Ascii, G.Document, CStr;
  }

  lemma EmptyArguments(id: bytes, byDefault: int, num: NumberReader)
    ensures DecodeArguments(id, Ascii("{}"), byDefault, num).error == Some(Ascii("tool arguments had no 'command' string"))
  {
    hide G.Document;
    EmptyObjectParses();
  }

  /** For every call whatever: decoding the replayed call gives what decoding the original gave exactly for the faithful calls. */
  lemma ReplayFaithful(call: Value, byDefault: int, num: NumberReader)
    ensures Decode(CallTree(call), byDefault, num) == Decode(call, byDefault, num) <==> Faithful(call)
  {
    hide Decode, IdOf, CallTree, ArgumentsSurvive, Shown, NameOf, ArgumentsOf, CStr, Ascii, Utf8.Repair, Utf8.WellFormed;
    DecodedParts(call, byDefault, num);
    DecodedParts(CallTree(call), byDefault, num);
    CallTreeParts(call);
    Utf8.RepairIdentity(IdOf(call));
    if NameOf(call).None? {
      NamelessSense(call, byDefault, num);
    } else if CStr(NameOf(call).value) == Ascii("shell") {
      ShellSense(call, byDefault, num);
    } else {
      OtherSense(call, byDefault, num);
    }
  }

  /** A shell call that is faithful but for an id of one stray byte comes back under another id. */
  lemma StrayIdChanges(byDefault: int, num: NumberReader)
    ensures var call := StrayCall();
      && IdOf(call) == [0xFF] && NameOf(call) == Some(Ascii("shell")) && ArgumentsOf(call) == Some(Ascii("{}"))
      && Decode(CallTree(call), byDefault, num).id == Utf8.REPLACEMENT != Decode(call, byDefault, num).id
  {
    hide Utf8.WellFormed, Utf8.Repair, Decode, CallTree, Ascii, CStr, IdOf, NameOf, ArgumentsOf, StrayCall;
    StrayParts();
    StrayTexts();
    DecodedParts(StrayCall(), byDefault, num);
    DecodedParts(CallTree(StrayCall()), byDefault, num);
    CallTreeParts(StrayCall());
  }

  lemma StrayParts()
    ensures var call := StrayCall();
      IdOf(call) == CStr([0xFF]) && NameOf(call) == Some(Ascii("shell")) && ArgumentsOf(call) == Some(Ascii("{}"))
  {
    hide Find, Ascii, CStr;
    var call := StrayCall();
    CallKeys();
    FindAt(call.members, Ascii("id"), 0);
    FindAt(call.members, Ascii("function"), 1);
    var f := call.members[1].value;
    FindAt(f.members, Ascii("name"), 0);
    FindAt(f.members, Ascii("arguments"), 1);
  }

  function StrayCall(): Value
  {
    Object([Member(Ascii("id"), String([0xFF])),
            Member(Ascii("function"), Object([Member(Ascii("name"), String(Ascii("shell"))),
                                              Member(Ascii("arguments"), String(Ascii("{}")))]))])
  }

  lemma StrayTexts()
    ensures CStr([0xFF]) == [0xFF] && Utf8.Repair([0xFF]) == Utf8.REPLACEMENT
  {
    CStrWhole([0xFF]);
    Utf8.RepairUnfold([0xFF]);
    assert [0xFF as byte][1..] == [];
  }

  /** A call without a name is refused when it first arrives and runs as a shell call when replayed. */
  lemma NamelessCallChanges(byDefault: int, num: NumberReader)
    ensures var call := Object([]);
      Decode(call, byDefault, num).error == Some(UnknownTool([])) &&
      Decode(CallTree(call), byDefault, num).error == Some(Ascii("tool arguments had no 'command' string"))
  {
    hide CallTree, UnknownTool, DecodeArguments, Utf8.Repair, Ascii;
    var call := Object([]);
    Words();
    CallTreeParts(call);
    EmptyArguments(IdOf(CallTree(call)), byDefault, num);
  }

  /** The replayed message read back: its calls in the same order, the faithful ones decoding as they first did, the content repaired. */
  lemma AssistantReplay(message: Value, calls: seq<Value>, byDefault: int, num: NumberReader)
    requires CallsOf(message) == Some(calls)
    ensures var back := G.Document(AssistantMessage(message));
      && back.Some?
      && CallsOf(back.value).Some? && |CallsOf(back.value).value| == |calls|
      && (forall i :: 0 <= i < |calls| ==>
            (Decode(CallsOf(back.value).value[i], byDefault, num) == Decode(calls[i], byDefault, num) <==> Faithful(calls[i])))
      && (var c := GetString(Some(message), Ascii("content"));
          c.Some? ==> GetString(back, Ascii("content")) == Some(Utf8.Repair(c.value)))
  {
    hide Decode, Faithful, AssistantMessage, CallTree, Ascii, CStr, Find, Utf8.Repair;
    assert G.Document(AssistantMessage(message)) == Some(AssistantTree(message)) by {
      AssistantMessageReads(message);
    }
    MessageKeys();
    var ms := AssistantTree(message).members;
    FindAt(ms, Ascii("tool_calls"), |ms| - 1);
    if GetString(Some(message), Ascii("content")).Some? {
      FindAt(ms, Ascii("content"), 1);
    }
    forall i | 0 <= i < |calls|
      ensures Decode(CallTrees(calls)[i], byDefault, num) == Decode(calls[i], byDefault, num) <==> Faithful(calls[i])
    {
      ReplayFaithful(calls[i], byDefault, num);
    }
  }
}
