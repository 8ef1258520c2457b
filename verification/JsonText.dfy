/** Objects and arrays assembled by concatenation, as the chat code does, read back as the trees they spell. */
module JsonText {
  import opened Bytes
  import opened Json
  import opened Grammar
  import opened StringRoundTrip
  import opened Embedding
  import W = JsonWriter
  import Utf8

  /** A field as the text of an object spells it. */
  datatype Field = Field(key: bytes, text: bytes)

  function FieldText(f: Field): bytes { [QUOTE] + f.key + [QUOTE, COLON] + f.text }

  function Joined(texts: seq<bytes>): (t: bytes)
  {
    if texts == [] then []
    else if |texts| == 1 then texts[0]
    else texts[0] + [COMMA] + Joined(texts[1..])
  }

  function FieldTexts(fs: seq<Field>): (ts: seq<bytes>)
    ensures |ts| == |fs|
  {
    seq(|fs|, i requires 0 <= i < |fs| => FieldText(fs[i]))
  }

  function ArrayText(texts: seq<bytes>): bytes { [LBRACKET] + Joined(texts) + [RBRACKET] }

  function ObjectText(fs: seq<Field>): bytes { [LBRACE] + Joined(FieldTexts(fs)) + [RBRACE] }

  predicate AllRead(texts: seq<bytes>, vs: seq<Value>)
  {
    |texts| == |vs| && forall i :: 0 <= i < |vs| ==> Reads(texts[i], vs[i])
  }

  predicate FieldsRead(fs: seq<Field>, ms: seq<Member>)
  {
    |fs| == |ms| && forall i :: 0 <= i < |ms| ==>
      Plain(fs[i].key) && fs[i].key == ms[i].key && Reads(fs[i].text, ms[i].value)
  }

  lemma SkipNothing(t: bytes, p: nat)
    requires p < |t| && !IsSpace(t[p])
    ensures SkipSpace(t, p) == p
  {
  }

  lemma {:induction false} SkipTwice(t: bytes, p: nat)
    requires p <= |t|
    ensures SkipSpace(t, SkipSpace(t, p)) == SkipSpace(t, p)
    decreases |t| - p
  {
    if p < |t| && IsSpace(t[p]) {
      SkipTwice(t, p + 1);
    }
  }

  /** White space before a list changes nothing: the value parser skips it again. */
  lemma ListsSkipSpace(t: bytes, p: nat)
    requires p <= |t|
    ensures Items(t, SkipSpace(t, p)) == Items(t, p)
    ensures Val(t, SkipSpace(t, p)) == Val(t, p)
  {
    hide SkipSpace, Items, ArrayAt, ObjectAt, Num, Literal, Str;
    SkipTwice(t, p);
    ItemsUnfold(t, p);
    ItemsUnfold(t, SkipSpace(t, p));
  }

  /** What follows an item in a list ends it, even when it is a number. */
  predicate Closes(c: byte) { c == COMMA || c == RBRACKET || c == RBRACE }

  lemma ItemReads(u: bytes, p: nat, text: bytes, v: Value, c: byte)
    requires Reads(text, v) && At(u, p, text + [c]) && Closes(c)
    ensures Val(u, p) == Ok(v, p + |text|)
    ensures p + |text| < |u| && u[p + |text|] == c && SkipSpace(u, p + |text|) == p + |text|
  {
    hide Val, Reads;
    AtSplit(u, p, text, [c]);
    AtByte(u, p + |text|, [c], 0);
    ReadsAnywhere(u, p, text, v);
    SkipNothing(u, p + |text|);
  }

  lemma JoinedSplit(texts: seq<bytes>, close: byte)
    requires texts != []
    ensures |texts| == 1 ==> Joined(texts) + [close] == texts[0] + [close]
    ensures |Joined(texts)| == if |texts| == 1 then |texts[0]| else |texts[0]| + 1 + |Joined(texts[1..])|
    ensures |texts| > 1 ==> Joined(texts) + [close] == (texts[0] + [COMMA]) + (Joined(texts[1..]) + [close])
  {
  }

  lemma {:induction false} ItemsRead(u: bytes, p: nat, texts: seq<bytes>, vs: seq<Value>)
    requires texts != [] && AllRead(texts, vs)
    requires At(u, p, Joined(texts) + [RBRACKET])
    ensures Items(u, p) == Ok(vs, p + |Joined(texts)| + 1)
    decreases |texts|
  {
    hide Val, Items, SkipSpace, Joined;
    JoinedSplit(texts, RBRACKET);
    ItemsUnfold(u, p);
    hide At;
    if |texts| == 1 {
      ItemReads(u, p, texts[0], vs[0], RBRACKET);
      assert vs == [vs[0]];
    } else {
      AtSplit(u, p, texts[0] + [COMMA], Joined(texts[1..]) + [RBRACKET]);
      ItemReads(u, p, texts[0], vs[0], COMMA);
      ItemsRead(u, p + |texts[0]| + 1, texts[1..], vs[1..]);
      assert [vs[0]] + vs[1..] == vs;
    }
  }

  /** A bracketed list of texts that each read as a value reads as the array of those values, in any context. */
  lemma ArrayReads(texts: seq<bytes>, vs: seq<Value>)
    requires AllRead(texts, vs)
    ensures Reads(ArrayText(texts), Array(vs))
  {
    assert Joined([]) == [];
    hide Val, Items, SkipSpace, Joined;
    var u := ArrayText(texts);
    assert u[0] == LBRACKET;
    assert At(u, 0, u);
    Assoc([LBRACKET], Joined(texts), [RBRACKET]);
    AtSplit(u, 0, [LBRACKET], Joined(texts) + [RBRACKET]);
    SkipNothing(u, 0);
    ValUnfold(u, 0);
    ContainersUnfold(u, 0);
    if texts == [] {
      SkipNothing(u, 1);
    } else {
      ItemsRead(u, 1, texts, vs);
      ListsSkipSpace(u, 1);
      ItemsUnfold(u, 1);
      NoValueAtBracket(u, 1);
    }
  }

  lemma NoValueAtBracket(t: bytes, p: nat)
    requires p <= |t| && Val(t, p).Ok?
    ensures !Sees(t, SkipSpace(t, p), RBRACKET)
  {
    hide SkipSpace, ArrayAt, ObjectAt, Str, Literal;
    ValUnfold(t, p);
  }

  lemma PlainKeyReads(u: bytes, p: nat, key: bytes, rest: bytes)
    requires Plain(key) && At(u, p, [QUOTE] + key + [QUOTE, COLON] + rest)
    ensures Key(u, p) == Ok(key, p + |key| + 3)
    ensures At(u, p + |key| + 3, rest)
    ensures u[p] == QUOTE
  {
    hide Body, SkipSpace;
    var whole := [QUOTE] + key + [QUOTE, COLON] + rest;
    assert whole == [QUOTE] + (key + ([QUOTE] + ([COLON] + rest)));
    AtSplit(u, p, [QUOTE], key + ([QUOTE] + ([COLON] + rest)));
    AtSplit(u, p + 1, key, [QUOTE] + ([COLON] + rest));
    AtSplit(u, p + 1 + |key|, [QUOTE], [COLON] + rest);
    AtSplit(u, p + 2 + |key|, [COLON], rest);
    AtByte(u, p, [QUOTE], 0);
    AtByte(u, p + 1 + |key|, [QUOTE], 0);
    AtByte(u, p + 2 + |key|, [COLON], 0);
    PlainRun(u, p + 1, key);
    BodyUnfold(u, p + 1 + |key|);
    assert key + [] == key;
    SkipNothing(u, p);
    SkipNothing(u, p + 2 + |key|);
  }

  lemma FieldReads(u: bytes, p: nat, f: Field, m: Member, c: byte)
    requires FieldsRead([f], [m]) && At(u, p, FieldText(f) + [c]) && Closes(c)
    ensures Pair(u, p) == Ok(m, p + |FieldText(f)|)
    ensures u[p] == QUOTE
    ensures p + |FieldText(f)| < |u| && u[p + |FieldText(f)|] == c && SkipSpace(u, p + |FieldText(f)|) == p + |FieldText(f)|
  {
    hide Val, Pair, Key;
    assert [f][0] == f && [m][0] == m;
    Assoc([QUOTE] + f.key + [QUOTE, COLON], f.text, [c]);
    PlainKeyReads(u, p, f.key, f.text + [c]);
    ItemReads(u, p + |f.key| + 3, f.text, m.value, c);
    PairUnfold(u, p);
  }

  lemma {:induction false} MembersRead(u: bytes, p: nat, fs: seq<Field>, ms: seq<Member>)
    requires fs != [] && FieldsRead(fs, ms)
    requires At(u, p, Joined(FieldTexts(fs)) + [RBRACE])
    ensures Members(u, p) == Ok(ms, p + |Joined(FieldTexts(fs))| + 1)
    ensures u[p] == QUOTE
    decreases |fs|
  {
    hide Pair, Members, SkipSpace, FieldText, Joined;
    var texts := FieldTexts(fs);
    JoinedSplit(texts, RBRACE);
    MembersUnfold(u, p);
    hide At;
    assert FieldsRead([fs[0]], [ms[0]]);
    if |fs| == 1 {
      FieldReads(u, p, fs[0], ms[0], RBRACE);
      assert ms == [ms[0]];
    } else {
      assert FieldTexts(fs[1..]) == texts[1..];
      AtSplit(u, p, texts[0] + [COMMA], Joined(texts[1..]) + [RBRACE]);
      FieldReads(u, p, fs[0], ms[0], COMMA);
      MembersRead(u, p + |texts[0]| + 1, fs[1..], ms[1..]);
      assert [ms[0]] + ms[1..] == ms;
    }
  }

  /** Fields with plain keys whose texts read as values make an object with those members, in that order. */
  lemma ObjectReads(fs: seq<Field>, ms: seq<Member>)
    requires FieldsRead(fs, ms)
    ensures Reads(ObjectText(fs), Object(ms))
  {
    assert Joined(FieldTexts([])) == [];
    hide Val, Members, SkipSpace, Joined;
    var u := ObjectText(fs);
    assert u[0] == LBRACE;
    assert At(u, 0, u);
    Assoc([LBRACE], Joined(FieldTexts(fs)), [RBRACE]);
    AtSplit(u, 0, [LBRACE], Joined(FieldTexts(fs)) + [RBRACE]);
    SkipNothing(u, 0);
    ValUnfold(u, 0);
    ContainersUnfold(u, 0);
    if fs == [] {
      SkipNothing(u, 1);
    } else {
      MembersRead(u, 1, fs, ms);
      SkipNothing(u, 1);
    }
  }

  /** A written string is a text that reads as the repaired string. */
  lemma QuotedReads(s: bytes)
    ensures Reads(W.Quoted(s), String(Utf8.Repair(s)))
  {
    assert At(W.Quoted(s), 0, W.Quoted(s));
    StringReadsBack(W.Quoted(s), 0, s);
  }

  /** Text inserted raw between quotes is safe when it is plain. */
  lemma RawReads(s: bytes)
    requires Plain(s)
    ensures Reads([QUOTE] + s + [QUOTE], String(s))
  {
    var u := [QUOTE] + s + [QUOTE];
    assert At(u, 0, u);
    hide Body, SkipSpace, At;
    Assoc([QUOTE], s, [QUOTE]);
    AtSplit(u, 0, [QUOTE], s + [QUOTE]);
    AtSplit(u, 1, s, [QUOTE]);
    PlainRun(u, 1, s);
    BodyUnfold(u, 1 + |s|);
    assert s + [] == s;
    SkipNothing(u, 0);
    ValUnfold(u, 0);
  }
}
