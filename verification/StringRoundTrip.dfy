/** What the writer wrote, the parser reads: for any text, wherever it stands in a document. */
module StringRoundTrip {
  import opened Bytes
  import opened Json
  import opened Grammar
  import W = JsonWriter
  import Utf8

  /** `a` stands in `t` at `p`. */
  predicate At(t: bytes, p: nat, a: bytes)
  {
    p + |a| <= |t| && t[p..p + |a|] == a
  }

  lemma AtSplit(t: bytes, p: nat, a: bytes, b: bytes)
    requires At(t, p, a + b)
    ensures At(t, p, a) && At(t, p + |a|, b)
  {
    var u := t[p..p + |a + b|];
    assert u[..|a|] == a && u[|a|..] == b;
    assert t[p..p + |a|] == u[..|a|];
    assert t[p + |a|..p + |a| + |b|] == u[|a|..];
  }

  lemma AtByte(t: bytes, p: nat, a: bytes, i: nat)
    requires At(t, p, a) && i < |a|
    ensures p + i < |t| && t[p + i] == a[i]
  {
    assert t[p..p + |a|][i] == t[p + i];
  }

  lemma PrependTwice<T>(a: seq<T>, b: seq<T>, r: Parsed<seq<T>>)
    ensures Prepend(a, Prepend(b, r)) == Prepend(a + b, r)
  {
    if r.Ok? {
      assert a + (b + r.value) == (a + b) + r.value;
    }
  }

  predicate Plain(s: bytes) { forall i :: 0 <= i < |s| ==> s[i] != QUOTE && s[i] != BACKSLASH }

  /** Bytes other than quote and backslash are copied through one by one. */
  lemma {:induction false} PlainRun(t: bytes, p: nat, raw: bytes)
    requires At(t, p, raw) && Plain(raw)
    ensures Body(t, p) == Prepend(raw, Body(t, p + |raw|))
    decreases |raw|
  {
    if raw == [] {
      if Body(t, p).Ok? {
        assert [] + Body(t, p).value == Body(t, p).value;
      }
    } else {
      AtByte(t, p, raw, 0);
      assert raw == [raw[0]] + raw[1..];
      AtSplit(t, p, [raw[0]], raw[1..]);
      PlainRun(t, p + 1, raw[1..]);
      PrependTwice([raw[0]], raw[1..], Body(t, p + |raw|));
    }
  }

  lemma HexDigitValue(n: nat)
    requires n < 16
    ensures HexValue(W.HexDigit(n)) == n
  {
  }

  /** The four digits the writer emits read back as the number it meant. */
  lemma HexRoundTrip(t: bytes, p: nat, unit: nat)
    requires unit < 0x10000 && At(t, p, W.UnicodeEscape(unit))
    ensures Hex4(t, p + 2) == Ok(unit, p + 6)
  {
    var e := W.UnicodeEscape(unit);
    AtByte(t, p, e, 2); AtByte(t, p, e, 3); AtByte(t, p, e, 4); AtByte(t, p, e, 5);
    HexDigitValue(unit / 0x1000); HexDigitValue(unit / 0x100 % 16);
    HexDigitValue(unit / 0x10 % 16); HexDigitValue(unit % 16);
    assert unit / 0x100 == unit / 0x1000 * 16 + unit / 0x100 % 16 by { assert unit / 0x1000 == unit / 0x100 / 16; }
    assert unit / 0x10 == unit / 0x100 * 16 + unit / 0x10 % 16 by { assert unit / 0x100 == unit / 0x10 / 16; }
  }

  lemma UnicodePiece(t: bytes, p: nat, unit: nat)
    requires unit < 0x10000 && !IsHigh(unit) && !IsLow(unit)
    requires At(t, p, W.UnicodeEscape(unit))
    ensures p < |t| && t[p] == BACKSLASH
    ensures Piece(t, p) == Ok(Utf8.Encode(unit), p + 6)
  {
    AtByte(t, p, W.UnicodeEscape(unit), 0);
    AtByte(t, p, W.UnicodeEscape(unit), 1);
    HexRoundTrip(t, p, unit);
  }

  /** What repair makes of the bytes one writer step consumes. */
  function Kept(s: bytes): (k: bytes)
    requires s != []
  {
    if Utf8.SequenceLen(s) == 0 then Utf8.REPLACEMENT else s[..W.StepLen(s)]
  }

  lemma RepairStep(s: bytes)
    requires s != []
    ensures Utf8.Repair(s) == Kept(s) + Utf8.Repair(s[W.StepLen(s)..])
  {
    ShortcutsAreAscii(s[0]);
  }

  lemma EncodeReplacement()
    ensures Utf8.Encode(0xFFFD) == Utf8.REPLACEMENT
  {
  }

  lemma ShortcutPiece(t: bytes, p: nat, c: byte)
    requires W.ShortcutLetter(c) != NUL && At(t, p, [BACKSLASH, W.ShortcutLetter(c)])
    ensures p < |t| && t[p] == BACKSLASH
    ensures Piece(t, p) == Ok([c], p + 2)
  {
    AtByte(t, p, [BACKSLASH, W.ShortcutLetter(c)], 0);
    AtByte(t, p, [BACKSLASH, W.ShortcutLetter(c)], 1);
  }

  lemma AsciiKept(s: bytes)
    requires s != [] && s[0] < 0x80
    ensures Kept(s) == [s[0]]
  {
  }

  lemma SequenceIsPlain(s: bytes)
    requires s != [] && W.ShortcutLetter(s[0]) == NUL
    ensures Plain(s[..Utf8.SequenceLen(s)])
  {
  }

  /** One step of the writer reads back as the bytes it consumed, or as U+FFFD for a byte it could not place. */
  lemma StepReadsBack(t: bytes, p: nat, s: bytes)
    requires s != [] && At(t, p, W.StepText(s))
    ensures Body(t, p) == Prepend(Kept(s), Body(t, p + |W.StepText(s)|))
  {
    hide Body, Piece, At, Plain, W.ShortcutLetter, W.UnicodeEscape, Utf8.SequenceLen;
    var c := s[0];
    if W.ShortcutLetter(c) != NUL {
      ShortcutPiece(t, p, c);
      ShortcutsAreAscii(c);
      AsciiKept(s);
      BodyUnfold(t, p);
    } else if c < 0x20 {
      UnicodePiece(t, p, c as nat);
      AsciiKept(s);
      BodyUnfold(t, p);
    } else if Utf8.SequenceLen(s) == 0 {
      UnicodePiece(t, p, 0xFFFD);
      EncodeReplacement();
      BodyUnfold(t, p);
    } else {
      SequenceIsPlain(s);
      PlainRun(t, p, s[..Utf8.SequenceLen(s)]);
    }
  }

  lemma RepairNothing()
    ensures Utf8.Repair([]) == []
  {
  }

  lemma {:induction false} BodyReadsBack(t: bytes, p: nat, s: bytes)
    requires At(t, p, W.Escape(s) + [QUOTE])
    ensures Body(t, p) == Ok(Utf8.Repair(s), p + |W.Escape(s)| + 1)
    decreases |s|
  {
    hide Body, W.StepText, W.StepLen, Utf8.Repair, Kept;
    if s == [] {
      RepairNothing();
      AtByte(t, p, W.Escape(s) + [QUOTE], 0);
      BodyUnfold(t, p);
    } else {
      var step, rest := W.StepText(s), s[W.StepLen(s)..];
      Assoc(step, W.Escape(rest), [QUOTE]);
      AtSplit(t, p, step, W.Escape(rest) + [QUOTE]);
      StepReadsBack(t, p, s);
      BodyReadsBack(t, p + |step|, rest);
      RepairStep(s);
    }
  }

  lemma ShortcutsAreAscii(c: byte)
    ensures W.ShortcutLetter(c) != NUL ==> c < 0x80
  {
  }

  /** `json_write_string` then `parse_string_into`: for every byte string, in every context. */
  lemma StringReadsBack(t: bytes, p: nat, s: bytes)
    requires At(t, p, W.Quoted(s))
    ensures Str(t, p) == Ok(Utf8.Repair(s), p + |W.Quoted(s)|)
    ensures Val(t, p) == Ok(String(Utf8.Repair(s)), p + |W.Quoted(s)|)
  {
    AtByte(t, p, W.Quoted(s), 0);
    Assoc([QUOTE], W.Escape(s), [QUOTE]);
    AtSplit(t, p, [QUOTE], W.Escape(s) + [QUOTE]);
    BodyReadsBack(t, p + 1, s);
  }

  /** The writer is injective exactly up to repair: equal output means equal text after repair. */
  lemma QuotedInjective(a: bytes, b: bytes)
    ensures W.Quoted(a) == W.Quoted(b) ==> Utf8.Repair(a) == Utf8.Repair(b)
    ensures W.Quoted(a) == W.Quoted(b) && Utf8.WellFormed(a) && Utf8.WellFormed(b) ==> a == b
  {
    if W.Quoted(a) == W.Quoted(b) {
      StringReadsBack(W.Quoted(a), 0, a);
      StringReadsBack(W.Quoted(b), 0, b);
      Utf8.RepairIdentity(a);
      Utf8.RepairIdentity(b);
    }
  }
}
