/** The one piece of text the message builders do not escape: exactly which roles survive. */
module RoleText {
  import opened Bytes
  import opened Json
  import opened JsonAccess
  import opened JsonText
  import opened Grammar
  import opened StringRoundTrip
  import opened Chat
  import ChatTheorems
  import ChatHistory
  import Embedding
  import W = JsonWriter
  import Utf8

  /** An escape is always longer than what it stands for. */
  lemma PieceShrinks(t: bytes, p: nat)
    requires p < |t| && Piece(t, p).Ok?
    ensures |Piece(t, p).value| <= Piece(t, p).pos - p
    ensures t[p] == BACKSLASH ==> |Piece(t, p).value| < Piece(t, p).pos - p
  {
  }

  /** So a decoded string as long as its source came from plain source. */
  lemma {:induction false} BodyShrinks(t: bytes, p: nat)
    requires p <= |t| && Body(t, p).Ok?
    ensures var r := Body(t, p);
      && |r.value| <= r.pos - 1 - p
      && (|r.value| == r.pos - 1 - p ==> Plain(t[p..r.pos - 1]))
    decreases |t| - p
  {
    BodyUnfold(t, p);
    hide Body;
    if t[p] != QUOTE {
      PieceShrinks(t, p);
      var next := Piece(t, p).pos;
      assert Piece(t, p).Ok? && |Piece(t, p).value| == next - p ==> next == p + 1;
      hide Piece;
      BodyShrinks(t, next);
      if |Body(t, p).value| == Body(t, p).pos - 1 - p {
        assert next == p + 1;
        assert t[p..Body(t, p).pos - 1] == [t[p]] + t[p + 1..Body(t, p).pos - 1];
      }
    }
  }

  /** No escape reaches over a quote, except the escaped quote itself. */
  lemma PieceStopsAtQuote(t: bytes, p: nat, e: nat)
    requires p < e < |t| && t[e] == QUOTE && t[p] != QUOTE && Piece(t, p).Ok?
    ensures Piece(t, p).pos <= e || (Piece(t, p).pos == e + 1 && t[e - 1] == BACKSLASH && e == p + 1)
  {
  }

  predicate EndsWith(v: bytes, s: bytes) { |s| <= |v| && v[|v| - |s|..] == s }

  lemma {:induction false} BodyMeetsQuote(t: bytes, p: nat, e: nat)
    requires p <= e < |t| && t[e] == QUOTE && Body(t, p).Ok?
    ensures var r := Body(t, p);
      r.pos <= e + 1 ||
      (p < e && t[e - 1] == BACKSLASH && Body(t, e + 1).Ok? && EndsWith(r.value, Body(t, e + 1).value))
    decreases |t| - p
  {
    hide Body, Piece;
    BodyUnfold(t, p);
    if t[p] != QUOTE {
      PieceStopsAtQuote(t, p, e);
      var next := Piece(t, p).pos;
      if next <= e {
        BodyMeetsQuote(t, next, e);
      }
    }
  }

  /** Where the raw role stands in the message, and what follows it. */
  lemma RolePlace(role: bytes, text: bytes)
    ensures var t, r := TextMessage(role, text), CStr(role);
      var e := 9 + |r|;
      && |t| > e + 2 && t[0] == LBRACE && t[1] == QUOTE && t[8] == QUOTE
      && At(t, 1, [QUOTE] + Ascii("role") + [QUOTE, COLON] + t[8..])
      && t[9..e] == r && t[e] == QUOTE && t[e + 1] == COMMA && t[e + 2] == QUOTE
  {
    RoleIsFour();
    hide W.Quoted, Ascii, CStr, ObjectText, Joined, FieldTexts;
    var t, r := TextMessage(role, text), CStr(role);
    var f1 := FieldText(Field(Ascii("content"), W.Quoted(CStr(text))));
    TwoFields(Ascii("role"), Raw(r), Ascii("content"), W.Quoted(CStr(text)));
    PlaceInText(t, Ascii("role"), r, f1);
  }

  lemma RoleIsFour()
    ensures |Ascii("role")| == 4
  {
  }

  /** The same for a key of four bytes, a raw value and a further field. */
  lemma PlaceInText(t: bytes, key: bytes, r: bytes, f1: bytes)
    requires |key| == 4 && f1 != [] && f1[0] == QUOTE
    requires t == [LBRACE] + (([QUOTE] + key + [QUOTE, COLON]) + (Raw(r) + ([COMMA] + f1 + [RBRACE])))
    ensures var e := 9 + |r|;
      && |t| > e + 2 && t[0] == LBRACE && t[1] == QUOTE && t[8] == QUOTE
      && At(t, 1, [QUOTE] + key + [QUOTE, COLON] + t[8..])
      && t[9..e] == r && t[e] == QUOTE && t[e + 1] == COMMA && t[e + 2] == QUOTE
  {
    var head, rest := [QUOTE] + key + [QUOTE, COLON], Raw(r) + ([COMMA] + f1 + [RBRACE]);
    DropAppend([LBRACE], head + rest);
    DropAppend(head, rest);
    assert t[8..] == t[1..][7..];
    assert rest[0] == QUOTE && rest[1..1 + |r|] == r && rest[1 + |r|] == QUOTE;
    assert rest[2 + |r|] == COMMA && rest[3 + |r|] == f1[0] == QUOTE;
    assert t[9..9 + |r|] == t[8..][1..1 + |r|];
    assert t[9 + |r|] == t[8..][1 + |r|] && t[10 + |r|] == t[8..][2 + |r|] && t[11 + |r|] == t[8..][3 + |r|];
    assert t[1..1 + |head + rest|] == t[1..];
  }

  lemma DropAppend(a: bytes, b: bytes)
    ensures (a + b)[|a|..] == b
  {
  }

  lemma TwoFields(k0: bytes, v0: bytes, k1: bytes, v1: bytes)
    ensures ObjectText([Field(k0, v0), Field(k1, v1)]) ==
      [LBRACE] + (([QUOTE] + k0 + [QUOTE, COLON]) + (v0 + ([COMMA] + FieldText(Field(k1, v1)) + [RBRACE])))
  {
    var fs := [Field(k0, v0), Field(k1, v1)];
    assert FieldTexts(fs) == [FieldText(fs[0]), FieldText(fs[1])];
    assert FieldTexts(fs)[1..] == [FieldText(fs[1])];
    assert Joined(FieldTexts(fs)) == FieldText(fs[0]) + [COMMA] + FieldText(fs[1]);
  }

  /** A role that is decoded to itself was plain. */
  lemma DecodedRoleIsPlain(t: bytes, p: nat, r: bytes)
    requires p + |r| + 2 < |t| && t[p..p + |r|] == r
    requires t[p + |r|] == QUOTE && t[p + |r| + 1] == COMMA && t[p + |r| + 2] == QUOTE
    requires Body(t, p).Ok? && Body(t, p).value == r
    ensures Plain(r)
  {
    hide Body, Piece;
    var e := p + |r|;
    BodyMeetsQuote(t, p, e);
    BodyShrinks(t, p);
    CommaBody(t, e + 1);
    assert r != [] ==> r[|r| - 1] == t[e - 1];
    if Body(t, p).pos <= e + 1 {
      assert t[p..e] == r;
    }
  }

  lemma CommaBody(t: bytes, p: nat)
    requires p + 1 < |t| && t[p] == COMMA && t[p + 1] == QUOTE
    ensures Body(t, p) == Ok([COMMA], p + 2)
  {
    hide Body;
    BodyUnfold(t, p);
    BodyUnfold(t, p + 1);
    assert [COMMA] + [] == [COMMA];
  }

  lemma StrIsBody(t: bytes, p: nat)
    requires p < |t| && t[p] == QUOTE
    ensures Str(t, p) == Body(t, p + 1)
  {
    hide Body;
  }

  /** The role an API reads in the message is the role that was given, exactly for plain roles: no quote and no backslash. */
  lemma RoleReadsBack(role: bytes, text: bytes)
    ensures GetString(Document(TextMessage(role, text)), Ascii("role")) == Some(CStr(role)) <==> Plain(CStr(role))
  {
    hide Val, Members, Key, Str, TextMessage, Ascii, Body, SkipSpace, Pair, Items, ObjectAt, ArrayAt, Num, Literal, Plain, CStr;
    var t, r := TextMessage(role, text), CStr(role);
    RoleKeys();
    if Plain(r) {
      ChatTheorems.TextMessageReads(role, text);
    } else if GetString(Document(t), Ascii("role")) == Some(r) {
      RolePlace(role, text);
      SkipNothing(t, 0);
      SkipNothing(t, 1);
      SkipNothing(t, 8);
      ValUnfold(t, 0);
      ContainersUnfold(t, 0);
      MembersUnfold(t, 1);
      PairUnfold(t, 1);
      PlainKeyReads(t, 1, Ascii("role"), t[8..]);
      ValUnfold(t, 8);
      StrIsBody(t, 8);
      DecodedRoleIsPlain(t, 9, r);
    }
  }

  lemma RoleKeys()
    ensures CStr(Ascii("role")) == Ascii("role") && |Ascii("role")| == 4 && Plain(Ascii("role"))
  {
    ChatHistory.LiteralKey("role");
  }
}
