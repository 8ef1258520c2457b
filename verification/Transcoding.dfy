/** `\uXXXX` escapes carry UTF-16; the parser turns them into UTF-8. */
module Transcoding {
  import opened Bytes
  import opened Json
  import opened Grammar
  import opened StringRoundTrip
  import Utf8

  /** Four hexadecimal digits, in either case. */
  predicate IsQuad(d: bytes) { |d| == 4 && forall i :: 0 <= i < 4 ==> HexValue(d[i]) >= 0 }

  function QuadValue(d: bytes): (u: nat)
    requires IsQuad(d)
    ensures u < 0x10000
  {
    HexValue(d[0]) * 0x1000 + HexValue(d[1]) * 0x100 + HexValue(d[2]) * 0x10 + HexValue(d[3])
  }

  predicate AllQuads(ds: seq<bytes>) { forall i :: 0 <= i < |ds| ==> IsQuad(ds[i]) }

  function OneEscape(d: bytes): bytes { [BACKSLASH, 0x75] + d }

  function Escapes(ds: seq<bytes>): (t: bytes)
  {
    if ds == [] then [] else OneEscape(ds[0]) + Escapes(ds[1..])
  }

  function Units(ds: seq<bytes>): (us: seq<nat>)
    requires AllQuads(ds)
    ensures |us| == |ds|
    ensures forall i :: 0 <= i < |us| ==> us[i] == QuadValue(ds[i]) && us[i] < 0x10000
  {
    seq(|ds|, i requires 0 <= i < |ds| => QuadValue(ds[i]))
  }

  predicate CodeUnits(us: seq<nat>) { forall i :: 0 <= i < |us| ==> us[i] < 0x10000 }
  predicate Scalars(cps: seq<nat>) { forall i :: 0 <= i < |cps| ==> cps[i] < 0x110000 && !IsHigh(cps[i]) && !IsLow(cps[i]) }

  /** The code points of a UTF-16 text, a surrogate without partner counting as U+FFFD. */
  function Utf16CodePoints(us: seq<nat>): (cps: seq<nat>)
    requires CodeUnits(us)
    ensures Scalars(cps)
  {
    if us == [] then []
    else if |us| > 1 && IsHigh(us[0]) && IsLow(us[1]) then
      var c := Combine(us[0], us[1]);
      [c] + Utf16CodePoints(us[2..])
    else if IsHigh(us[0]) || IsLow(us[0]) then [0xFFFD] + Utf16CodePoints(us[1..])
    else [us[0]] + Utf16CodePoints(us[1..])
  }

  function Utf8Text(cps: seq<nat>): (b: bytes)
    requires Scalars(cps)
  {
    if cps == [] then [] else Utf8.Encode(cps[0]) + Utf8Text(cps[1..])
  }

  /** A text as UTF-16, for the round trip below. */
  function Utf16Text(cps: seq<nat>): (us: seq<nat>)
    requires Scalars(cps)
    ensures CodeUnits(us)
  {
    if cps == [] then []
    else if cps[0] < 0x10000 then [cps[0]] + Utf16Text(cps[1..])
    else [0xD800 + (cps[0] - 0x10000) / 0x400, 0xDC00 + (cps[0] - 0x10000) % 0x400] + Utf16Text(cps[1..])
  }

  lemma QuadAt(t: bytes, p: nat, d: bytes)
    requires IsQuad(d) && At(t, p, OneEscape(d))
    ensures p + 6 <= |t| && t[p] == BACKSLASH && t[p + 1] == 0x75
    ensures Hex4(t, p + 2) == Ok(QuadValue(d), p + 6)
  {
    var e := OneEscape(d);
    AtByte(t, p, e, 0); AtByte(t, p, e, 1); AtByte(t, p, e, 2);
    AtByte(t, p, e, 3); AtByte(t, p, e, 4); AtByte(t, p, e, 5);
  }

  /** What follows an escape decides whether a high surrogate is paired: the next escape, or the end of the string. */
  lemma LowHalfSeen(t: bytes, p: nat, ds: seq<bytes>)
    requires AllQuads(ds) && At(t, p, Escapes(ds) + [QUOTE])
    ensures LowHalf(t, p) ==
      (if ds != [] && IsLow(QuadValue(ds[0])) then Ok(QuadValue(ds[0]), p + 6) else Fail)
  {
    if ds == [] {
      QuoteAt(t, p);
    } else {
      Assoc(OneEscape(ds[0]), Escapes(ds[1..]), [QUOTE]);
      AtSplit(t, p, OneEscape(ds[0]), Escapes(ds[1..]) + [QUOTE]);
      QuadAt(t, p, ds[0]);
    }
  }

  lemma EscapesTail(t: bytes, p: nat, ds: seq<bytes>)
    requires AllQuads(ds) && ds != [] && At(t, p, Escapes(ds) + [QUOTE])
    ensures At(t, p, OneEscape(ds[0])) && At(t, p + 6, Escapes(ds[1..]) + [QUOTE])
  {
    Assoc(OneEscape(ds[0]), Escapes(ds[1..]), [QUOTE]);
    AtSplit(t, p, OneEscape(ds[0]), Escapes(ds[1..]) + [QUOTE]);
  }

  predicate Paired(ds: seq<bytes>)
    requires AllQuads(ds)
  {
    |ds| > 1 && IsHigh(QuadValue(ds[0])) && IsLow(QuadValue(ds[1]))
  }

  /** The code point the first escape, or the first two, stand for. */
  function FirstCodePoint(ds: seq<bytes>): (cp: nat)
    requires AllQuads(ds) && ds != []
    ensures cp < 0x110000 && !IsHigh(cp) && !IsLow(cp)
  {
    var u := QuadValue(ds[0]);
    if Paired(ds) then Combine(u, QuadValue(ds[1])) else if IsHigh(u) || IsLow(u) then 0xFFFD else u
  }

  lemma FirstPiece(t: bytes, p: nat, ds: seq<bytes>)
    requires AllQuads(ds) && ds != [] && At(t, p, Escapes(ds) + [QUOTE])
    ensures p < |t| && t[p] == BACKSLASH
    ensures Piece(t, p) == Ok(Utf8.Encode(FirstCodePoint(ds)), p + if Paired(ds) then 12 else 6)
  {
    hide Hex4, LowHalf, Utf8.Encode, QuadValue;
    EscapesTail(t, p, ds);
    QuadAt(t, p, ds[0]);
    LowHalfSeen(t, p + 6, ds[1..]);
  }

  lemma UnitsTail(ds: seq<bytes>)
    requires AllQuads(ds) && ds != []
    ensures Utf16CodePoints(Units(ds)) ==
      [FirstCodePoint(ds)] + Utf16CodePoints(Units(AfterFirst(ds)))
  {
    assert Units(ds)[1..] == Units(ds[1..]);
    if Paired(ds) {
      assert Units(ds)[2..] == Units(ds[2..]);
    }
  }

  /** For every sequence of escapes the parser yields the UTF-8 of the UTF-16 text they spell. */
  lemma {:induction false} EscapesTranscode(t: bytes, p: nat, ds: seq<bytes>)
    requires AllQuads(ds) && At(t, p, Escapes(ds) + [QUOTE])
    ensures Body(t, p) == Ok(Utf8Text(Utf16CodePoints(Units(ds))), p + 6 * |ds| + 1)
    decreases |ds|
  {
    hide Body, Piece, FirstCodePoint, AfterFirst, Paired, Utf16CodePoints, Units, Utf8Text, Escapes;
    EmptyText();
    BodyUnfold(t, p);
    hide At;
    if ds == [] {
      QuoteAt(t, p);
    } else {
      FirstPiece(t, p, ds);
      UnitsTail(ds);
      EscapesRest(t, p, ds);
      var rest := AfterFirst(ds);
      EscapesTranscode(t, p + if Paired(ds) then 12 else 6, rest);
      Utf8TextCons(FirstCodePoint(ds), Utf16CodePoints(Units(rest)));
    }
  }

  /** What the first escape, or the first pair, leaves. */
  function AfterFirst(ds: seq<bytes>): (rest: seq<bytes>)
    requires AllQuads(ds) && ds != []
    ensures AllQuads(rest) && |ds| == |rest| + if Paired(ds) then 2 else 1
  {
    if Paired(ds) then ds[2..] else ds[1..]
  }

  lemma EscapesRest(t: bytes, p: nat, ds: seq<bytes>)
    requires AllQuads(ds) && ds != [] && At(t, p, Escapes(ds) + [QUOTE])
    ensures At(t, p + if Paired(ds) then 12 else 6, Escapes(AfterFirst(ds)) + [QUOTE])
  {
    hide Escapes, At;
    EscapesTail(t, p, ds);
    if Paired(ds) {
      EscapesTail(t, p + 6, ds[1..]);
      assert ds[1..][1..] == ds[2..];
    }
  }

  lemma QuoteAt(t: bytes, p: nat)
    requires At(t, p, [] + [QUOTE])
    ensures p < |t| && t[p] == QUOTE
  {
    AtByte(t, p, [QUOTE], 0);
  }

  lemma EmptyText()
    ensures Escapes([]) == [] && Units([]) == [] && Utf16CodePoints([]) == [] && Utf8Text([]) == []
  {
  }

  lemma Utf8TextCons(cp: nat, cps: seq<nat>)
    requires cp < 0x110000 && !IsHigh(cp) && !IsLow(cp) && Scalars(cps)
    ensures Scalars([cp] + cps)
    ensures Utf8Text([cp] + cps) == Utf8.Encode(cp) + Utf8Text(cps)
  {
    assert ([cp] + cps)[1..] == cps;
  }

  /** Writing a text as UTF-16 and reading it back is the identity, so no text is out of reach of escapes. */
  lemma {:induction false} Utf16RoundTrip(cps: seq<nat>)
    requires Scalars(cps)
    ensures Utf16CodePoints(Utf16Text(cps)) == cps
    decreases |cps|
  {
    if cps != [] {
      var us, rest := Utf16Text(cps), cps[1..];
      Utf16RoundTrip(rest);
      if cps[0] < 0x10000 {
        assert us[1..] == Utf16Text(rest);
      } else {
        assert us[2..] == Utf16Text(rest);
        assert Combine(us[0], us[1]) == cps[0];
      }
      assert cps == [cps[0]] + rest;
    }
  }

  /** The transcoded text is structurally valid UTF-8, so writing it again changes nothing. */
  lemma {:induction false} Utf8TextWellFormed(cps: seq<nat>)
    requires Scalars(cps)
    ensures Utf8.WellFormed(Utf8Text(cps))
    ensures Utf8.Repair(Utf8Text(cps)) == Utf8Text(cps)
    decreases |cps|
  {
    if cps != [] {
      var e := Utf8.Encode(cps[0]);
      Utf8TextWellFormed(cps[1..]);
      Utf8.EncodeDecodes(cps[0], []);
      assert e + [] == e;
      assert e[|e|..] == [];
      assert Utf8.WellFormed(e);
      Utf8.WellFormedAppend(e, Utf8Text(cps[1..]));
    }
    Utf8.RepairIdentity(Utf8Text(cps));
  }
}
