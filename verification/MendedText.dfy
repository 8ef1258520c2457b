/** Parsing commutes with repair: a repaired text reads as its tree with every string repaired, or as nothing if it did. */
module MendedText {
  import opened Bytes
  import opened Json
  import opened Grammar
  import opened StringRoundTrip
  import Utf8

  /** The tree with every string and every key repaired. */
  function Mended(v: Value): (r: Value)
  {
    match v
    case String(s) => String(Utf8.Repair(s))
    case Array(items) => Array(MendedItems(items))
    case Object(members) => Object(MendedMembers(members))
    case _ => v
  }

  function MendedItems(vs: seq<Value>): (r: seq<Value>)
  {
    if vs == [] then [] else [Mended(vs[0])] + MendedItems(vs[1..])
  }

  function MendedMembers(ms: seq<Member>): (r: seq<Member>)
  {
    if ms == [] then [] else [MendedMember(ms[0])] + MendedMembers(ms[1..])
  }

  function MendedMember(m: Member): (r: Member)
  {
    Member(Utf8.Repair(m.key), Mended(m.value))
  }

  /** What is left of `u` from `q` on is the repair of what is left of `t` from `p` on. */
  predicate Mends(t: bytes, p: nat, u: bytes, q: nat)
  {
    p <= |t| && q <= |u| && u[q..] == Utf8.Repair(t[p..])
  }

  /** Both readers fail, or both go on at corresponding places. */
  predicate Beside<T>(t: bytes, r: Parsed<T>, u: bytes, r': Parsed<T>)
  {
    r.Ok? == r'.Ok? && (r.Ok? ==> Mends(t, r.pos, u, r'.pos))
  }

  // ---------------------------------------------------------------- one byte, one sequence

  /** An ASCII byte stands in both texts; any other byte faces one that is not ASCII either. */
  lemma Step(t: bytes, p: nat, u: bytes, q: nat)
    requires Mends(t, p, u, q)
    ensures p == |t| <==> q == |u|
    ensures p < |t| && t[p] < 0x80 ==> u[q] == t[p] && Mends(t, p + 1, u, q + 1)
    ensures p < |t| && t[p] >= 0x80 ==> u[q] >= 0x80
  {
    var s := t[p..];
    if s != [] {
      Utf8.RepairUnfold(s);
      var n := Utf8.SequenceLen(s);
      assert s[..n] + Utf8.Repair(s[n..]) == u[q..] || n == 0;
      assert u[q..][0] == u[q];
      assert t[p + 1..] == s[1..] && u[q + 1..] == u[q..][1..];
    }
  }

  /** A complete sequence stands in both texts. */
  lemma StepSequence(t: bytes, p: nat, u: bytes, q: nat)
    requires Mends(t, p, u, q) && p < |t| && Utf8.SequenceLen(t[p..]) > 0
    ensures var n := Utf8.SequenceLen(t[p..]);
      p + n <= |t| && At(u, q, t[p..p + n]) && Mends(t, p + n, u, q + n)
  {
    hide Utf8.SequenceLen, Utf8.Repair;
    var s := t[p..];
    Utf8.RepairUnfold(s);
    var n := Utf8.SequenceLen(s);
    Opens(u, q, s[..n], Utf8.Repair(s[n..]));
    assert s[..n] == t[p..p + n] && s[n..] == t[p + n..];
  }

  /** A byte that starts no sequence faces the replacement. */
  lemma StepStray(t: bytes, p: nat, u: bytes, q: nat)
    requires Mends(t, p, u, q) && p < |t| && Utf8.SequenceLen(t[p..]) == 0
    ensures At(u, q, Utf8.REPLACEMENT) && Mends(t, p + 1, u, q + 3)
  {
    hide Utf8.SequenceLen, Utf8.Repair;
    var s := t[p..];
    Utf8.RepairUnfold(s);
    Opens(u, q, Utf8.REPLACEMENT, Utf8.Repair(s[1..]));
    assert s[1..] == t[p + 1..];
  }

  lemma Opens(u: bytes, q: nat, a: bytes, b: bytes)
    requires q <= |u| && u[q..] == a + b
    ensures At(u, q, a) && u[q + |a|..] == b
  {
    assert u[q..][..|a|] == a && u[q..][|a|..] == b;
    assert u[q..q + |a|] == u[q..][..|a|];
  }

  // ---------------------------------------------------------------- tokens

  lemma {:induction false} SpaceMends(t: bytes, p: nat, u: bytes, q: nat)
    requires Mends(t, p, u, q)
    ensures Mends(t, SkipSpace(t, p), u, SkipSpace(u, q))
    decreases |t| - p
  {
    hide Mends;
    MendsInside(t, p, u, q);
    Step(t, p, u, q);
    if p < |t| && IsSpace(t[p]) {
      SpaceMends(t, p + 1, u, q + 1);
    }
  }

  lemma MendsInside(t: bytes, p: nat, u: bytes, q: nat)
    requires Mends(t, p, u, q)
    ensures p <= |t| && q <= |u|
  {
  }

  lemma SeesMends(t: bytes, p: nat, u: bytes, q: nat, c: byte)
    requires Mends(t, p, u, q) && c < 0x80
    ensures Sees(t, p, c) == Sees(u, q, c)
    ensures Sees(t, p, c) ==> Mends(t, p + 1, u, q + 1)
  {
    hide Mends;
    MendsInside(t, p, u, q);
    Step(t, p, u, q);
  }

  lemma {:induction false} NumberEndMends(t: bytes, p: nat, u: bytes, q: nat)
    requires Mends(t, p, u, q)
    ensures Mends(t, NumberEnd(t, p), u, NumberEnd(u, q))
    ensures t[p..NumberEnd(t, p)] == u[q..NumberEnd(u, q)]
    decreases |t| - p
  {
    hide Mends;
    MendsInside(t, p, u, q);
    Step(t, p, u, q);
    if p < |t| && IsNumberByte(t[p]) {
      NumberEndMends(t, p + 1, u, q + 1);
      assert t[p..NumberEnd(t, p)] == [t[p]] + t[p + 1..NumberEnd(t, p + 1)];
      assert u[q..NumberEnd(u, q)] == [u[q]] + u[q + 1..NumberEnd(u, q + 1)];
    }
  }

  lemma SameDigits(t: bytes, p: nat, e: nat, u: bytes, q: nat, f: nat)
    requires p <= e <= |t| && q <= f <= |u| && t[p..e] == u[q..f] && HasDigit(t, p, e)
    ensures HasDigit(u, q, f)
  {
    var i :| p <= i < e && IsDigit(t[i]);
    assert t[p..e][i - p] == u[q..f][i - p] == u[q + (i - p)];
  }

  lemma NumMends(t: bytes, p: nat, u: bytes, q: nat)
    requires Mends(t, p, u, q)
    ensures Beside(t, Num(t, p), u, Num(u, q)) && (Num(t, p).Ok? ==> Num(u, q).value == Num(t, p).value == Mended(Num(t, p).value))
  {
    hide Mends, HasDigit;
    MendsInside(t, p, u, q);
    NumberEndMends(t, p, u, q);
    var e, f := NumberEnd(t, p), NumberEnd(u, q);
    assert |t[p..e]| == e - p && |u[q..f]| == f - q;
    if HasDigit(t, p, e) {
      SameDigits(t, p, e, u, q, f);
    }
    if HasDigit(u, q, f) {
      SameDigits(u, q, f, t, p, e);
    }
  }

  lemma {:induction false} WordMends(t: bytes, p: nat, u: bytes, q: nat, word: bytes)
    requires Mends(t, p, u, q) && forall i :: 0 <= i < |word| ==> word[i] < 0x80
    ensures At(t, p, word) == At(u, q, word)
    ensures At(t, p, word) ==> Mends(t, p + |word|, u, q + |word|)
    decreases |word|
  {
    hide Mends;
    MendsInside(t, p, u, q);
    Step(t, p, u, q);
    if word != [] {
      AtFirst(t, p, word);
      AtFirst(u, q, word);
      if Sees(t, p, word[0]) {
        WordMends(t, p + 1, u, q + 1, word[1..]);
      }
    }
  }

  lemma AtFirst(t: bytes, p: nat, word: bytes)
    requires word != []
    ensures At(t, p, word) <==> Sees(t, p, word[0]) && At(t, p + 1, word[1..])
  {
    if At(t, p, word) {
      assert word == [word[0]] + word[1..];
      AtByte(t, p, word, 0);
      AtSplit(t, p, [word[0]], word[1..]);
    }
    if Sees(t, p, word[0]) && At(t, p + 1, word[1..]) {
      assert t[p..p + |word|] == [t[p]] + t[p + 1..p + |word|];
    }
  }

  lemma LiteralMends(t: bytes, p: nat, u: bytes, q: nat, word: bytes, v: Value)
    requires Mends(t, p, u, q) && word != [] && forall i :: 0 <= i < |word| ==> word[i] < 0x80
    ensures Beside(t, Literal(t, p, word, v), u, Literal(u, q, word, v))
  {
    hide Mends;
    MendsInside(t, p, u, q);
    WordMends(t, p, u, q, word);
  }

  // ---------------------------------------------------------------- escapes

  lemma Hex4Mends(t: bytes, p: nat, u: bytes, q: nat)
    requires Mends(t, p, u, q)
    ensures Beside(t, Hex4(t, p), u, Hex4(u, q)) && (Hex4(t, p).Ok? ==> Hex4(u, q).value == Hex4(t, p).value)
  {
    hide Mends;
    MendsInside(t, p, u, q);
    Step(t, p, u, q);
    if p < |t| && t[p] < 0x80 {
      Step(t, p + 1, u, q + 1);
      if p + 1 < |t| && t[p + 1] < 0x80 {
        Step(t, p + 2, u, q + 2);
        if p + 2 < |t| && t[p + 2] < 0x80 {
          Step(t, p + 3, u, q + 3);
        }
      }
    }
  }

  lemma LowHalfMends(t: bytes, p: nat, u: bytes, q: nat)
    requires Mends(t, p, u, q)
    ensures Beside(t, LowHalf(t, p), u, LowHalf(u, q)) && (LowHalf(t, p).Ok? ==> LowHalf(u, q).value == LowHalf(t, p).value)
  {
    hide Mends, Hex4;
    MendsInside(t, p, u, q);
    Step(t, p, u, q);
    if p < |t| && t[p] == BACKSLASH {
      Step(t, p + 1, u, q + 1);
      if p + 1 < |t| && t[p + 1] == 0x75 {
        Hex4Mends(t, p + 2, u, q + 2);
      }
    }
  }

  /** An escape stands for one complete sequence, and its text is ASCII. */
  lemma EscapeMends(t: bytes, p: nat, u: bytes, q: nat)
    requires Mends(t, p, u, q)
    ensures Beside(t, Escape(t, p), u, Escape(u, q))
    ensures Escape(t, p).Ok? ==> Escape(u, q).value == Escape(t, p).value
  {
    hide Mends, Hex4, LowHalf, Utf8.Encode;
    MendsInside(t, p, u, q);
    Step(t, p, u, q);
    if p < |t| && t[p] == 0x75 {
      Hex4Mends(t, p + 1, u, q + 1);
      if Hex4(t, p + 1).Ok? {
        LowHalfMends(t, p + 5, u, q + 5);
      }
    }
  }

  lemma EscapeIsSequence(t: bytes, p: nat)
    requires p <= |t| && Escape(t, p).Ok?
    ensures Escape(t, p).value != [] && Utf8.SequenceLen(Escape(t, p).value) == |Escape(t, p).value|
    ensures !Utf8.IsContinuation(Escape(t, p).value[0])
  {
    hide Hex4, LowHalf, Utf8.Encode;
    if SimpleEscape(t[p]).None? {
      var unit := Hex4(t, p + 1).value;
      var cp := if IsHigh(unit) && LowHalf(t, p + 5).Ok? then Combine(unit, LowHalf(t, p + 5).value)
                else if IsHigh(unit) || IsLow(unit) then 0xFFFD else unit;
      assert Escape(t, p).value == Utf8.Encode(cp);
      Utf8.EncodeDecodes(cp, []);
      assert Utf8.Encode(cp) + [] == Utf8.Encode(cp);
    }
  }

  // ---------------------------------------------------------------- strings

  predicate AllContinue(s: bytes) { forall i :: 0 <= i < |s| ==> Utf8.IsContinuation(s[i]) }

  lemma ContinueOn(c: byte, s: bytes)
    ensures AllContinue([c] + s) <==> Utf8.IsContinuation(c) && AllContinue(s)
  {
    if AllContinue([c] + s) {
      assert ([c] + s)[0] == c;
      forall i | 0 <= i < |s| ensures Utf8.IsContinuation(s[i]) {
        assert ([c] + s)[i + 1] == s[i];
      }
    }
  }

  lemma FrontRun(c: byte, s: bytes, k: nat)
    requires 0 < k <= |s| + 1
    ensures AllContinue(([c] + s)[..k]) <==> Utf8.IsContinuation(c) && AllContinue(s[..k - 1])
  {
    hide AllContinue;
    ContinueOn(c, s[..k - 1]);
    assert ([c] + s)[..k] == [c] + s[..k - 1];
  }

  lemma TextRun(t: bytes, p: nat, k: nat)
    requires 0 < k && p + k <= |t|
    ensures AllContinue(t[p..p + k]) <==> Utf8.IsContinuation(t[p]) && AllContinue(t[p + 1..p + k])
  {
    hide AllContinue;
    ContinueOn(t[p], t[p + 1..p + k]);
    assert t[p..p + k] == [t[p]] + t[p + 1..p + k];
  }

  lemma HeadContinues(s: bytes, k: nat)
    requires 0 < k <= |s| && AllContinue(s[..k])
    ensures Utf8.IsContinuation(s[0])
  {
    assert s[..k][0] == s[0];
  }

  lemma NoneContinue()
    ensures AllContinue([])
  {
  }

  /** Continuation bytes at the front of a string's value are there in its text. */
  lemma {:induction false} LeadingRun(t: bytes, p: nat, k: nat)
    requires p <= |t| && Body(t, p).Ok? && k <= |Body(t, p).value| && AllContinue(Body(t, p).value[..k])
    ensures p + k <= |t| && AllContinue(t[p..p + k])
    decreases k
  {
    hide Body, Escape, AllContinue, Utf8.IsContinuation, Utf8.SequenceLen;
    if k == 0 {
      NoneContinue();
      assert t[p..p] == [];
    } else {
      BodyUnfold(t, p);
      HeadContinues(Body(t, p).value, k);
      if t[p] == BACKSLASH {
        EscapeIsSequence(t, p + 1);
        assert false;
      } else {
        FrontRun(t[p], Body(t, p + 1).value, k);
        LeadingRun(t, p + 1, k - 1);
        TextRun(t, p, k);
      }
    }
  }

  lemma SequenceShape(s: bytes)
    requires s != []
    ensures var n := Utf8.LeadLength(s[0]);
      Utf8.SequenceLen(s) > 0 <==> 0 < n <= |s| && AllContinue(s[1..n])
  {
    var n := Utf8.LeadLength(s[0]);
    if 0 < n <= |s| {
      if AllContinue(s[1..n]) {
        forall i | 1 <= i < n ensures Utf8.IsContinuation(s[i]) {
          assert s[1..n][i - 1] == s[i];
        }
      }
    }
  }

  /** The byte `c` starts a complete sequence when `s` follows it. */
  predicate Starts(c: byte, s: bytes) { Utf8.SequenceLen([c] + s) > 0 }

  predicate Leads(c: byte, s: bytes)
  {
    0 < Utf8.LeadLength(c) <= |s| + 1 && AllContinue(s[..Utf8.LeadLength(c) - 1])
  }

  lemma StartsWhenLeads(c: byte, s: bytes)
    ensures Starts(c, s) <==> Leads(c, s)
  {
    hide Utf8.SequenceLen, Utf8.LeadLength, AllContinue;
    var n := Utf8.LeadLength(c);
    SequenceShape([c] + s);
    if 0 < n <= |s| + 1 {
      assert ([c] + s)[1..n] == s[..n - 1];
    }
  }

  lemma StartsInText(t: bytes, p: nat)
    requires p < |t|
    ensures Starts(t[p], t[p + 1..]) <==> Utf8.SequenceLen(t[p..]) > 0
  {
    hide Utf8.SequenceLen;
    assert t[p..] == [t[p]] + t[p + 1..];
  }

  /** The run of continuation bytes at the front of a value is there in its text. */
  lemma LeadsInText(c: byte, t: bytes, p: nat)
    requires p <= |t| && Body(t, p).Ok? && Leads(c, Body(t, p).value)
    ensures Leads(c, t[p..])
  {
    hide Body, AllContinue, Utf8.LeadLength;
    var k := Utf8.LeadLength(c) - 1;
    LeadingRun(t, p, k);
    assert t[p..][..k] == t[p..p + k];
  }

  /** A byte that starts no sequence in the text starts none in the value. */
  lemma StrayStays(t: bytes, p: nat)
    requires p < |t| && Utf8.SequenceLen(t[p..]) == 0 && Body(t, p + 1).Ok?
    ensures !Starts(t[p], Body(t, p + 1).value)
  {
    hide Body, Leads, Starts, Utf8.SequenceLen;
    StartsInText(t, p);
    StartsWhenLeads(t[p], t[p + 1..]);
    StartsWhenLeads(t[p], Body(t, p + 1).value);
    if Leads(t[p], Body(t, p + 1).value) {
      LeadsInText(t[p], t, p + 1);
    }
  }

  lemma SequenceKept(a: bytes, b: bytes)
    requires a != [] && Utf8.SequenceLen(a) == |a|
    ensures Utf8.Repair(a + b) == a + Utf8.Repair(b)
  {
    hide Utf8.SequenceLen, Utf8.Repair;
    Utf8.SequenceLenAppend(a, b);
    Utf8.RepairUnfold(a + b);
    assert (a + b)[..|a|] == a && (a + b)[|a|..] == b;
  }

  lemma StrayReplaced(c: byte, b: bytes)
    requires !Starts(c, b)
    ensures Utf8.Repair([c] + b) == Utf8.REPLACEMENT + Utf8.Repair(b)
  {
    hide Utf8.SequenceLen, Utf8.Repair;
    Utf8.RepairUnfold([c] + b);
    assert ([c] + b)[1..] == b;
  }

  predicate BesideText(t: bytes, r: Parsed<bytes>, u: bytes, r': Parsed<bytes>)
  {
    Beside(t, r, u, r') && (r.Ok? ==> r'.value == Utf8.Repair(r.value))
  }

  /** The same front before a text and before its repair, where the front is a complete sequence. */
  lemma PrependMends(t: bytes, r: Parsed<bytes>, u: bytes, r': Parsed<bytes>, front: bytes)
    requires BesideText(t, r, u, r') && front != [] && Utf8.SequenceLen(front) == |front|
    ensures BesideText(t, Prepend(front, r), u, Prepend(front, r'))
  {
    hide Utf8.SequenceLen, Utf8.Repair, Mends;
    if r.Ok? {
      SequenceKept(front, r.value);
    }
  }

  lemma {:induction false} BodyMends(t: bytes, p: nat, u: bytes, q: nat)
    requires Mends(t, p, u, q)
    ensures BesideText(t, Body(t, p), u, Body(u, q))
    decreases |t| - p
  {
    MendsInside(t, p, u, q);
    Step(t, p, u, q);
    hide Mends, Body, BesideText, Escape, Utf8.SequenceLen;
    if p == |t| || t[p] == QUOTE {
      BodyEnds(t, p, u, q);
    } else if t[p] == BACKSLASH {
      EscapeMends(t, p + 1, u, q + 1);
      if Escape(t, p + 1).Ok? {
        BodyMends(t, Escape(t, p + 1).pos, u, Escape(u, q + 1).pos);
      }
      EscapedMends(t, p, u, q);
    } else if Utf8.SequenceLen(t[p..]) > 0 {
      StepSequence(t, p, u, q);
      BodyMends(t, p + Utf8.SequenceLen(t[p..]), u, q + Utf8.SequenceLen(t[p..]));
      RawMends(t, p, u, q);
    } else {
      StepStray(t, p, u, q);
      BodyMends(t, p + 1, u, q + 3);
      StrayMends(t, p, u, q);
    }
  }

  lemma EscapedMends(t: bytes, p: nat, u: bytes, q: nat)
    requires p < |t| && q < |u| && t[p] == u[q] == BACKSLASH && Beside(t, Escape(t, p + 1), u, Escape(u, q + 1))
    requires var r, r' := Escape(t, p + 1), Escape(u, q + 1);
      r.Ok? ==> r'.value == r.value && BesideText(t, Body(t, r.pos), u, Body(u, r'.pos))
    ensures BesideText(t, Body(t, p), u, Body(u, q))
  {
    hide Mends, Body, BesideText, Escape, Utf8.SequenceLen;
    BodyUnfold(t, p);
    BodyUnfold(u, q);
    if Escape(t, p + 1).Ok? {
      EscapeIsSequence(t, p + 1);
      PrependMends(t, Body(t, Escape(t, p + 1).pos), u, Body(u, Escape(u, q + 1).pos), Escape(t, p + 1).value);
    } else {
      BothFail(t, Body(t, p), u, Body(u, q));
    }
  }

  lemma RawMends(t: bytes, p: nat, u: bytes, q: nat)
    requires p < |t| && t[p] != QUOTE && t[p] != BACKSLASH && Utf8.SequenceLen(t[p..]) > 0
    requires var n := Utf8.SequenceLen(t[p..]);
      p + n <= |t| && At(u, q, t[p..p + n]) && BesideText(t, Body(t, p + n), u, Body(u, q + n))
    ensures BesideText(t, Body(t, p), u, Body(u, q))
  {
    hide Mends, Body, BesideText, Utf8.SequenceLen;
    var n := Utf8.SequenceLen(t[p..]);
    RawSequence(t, p);
    assert t[p..][..n] == t[p..p + n];
    PlainRun(t, p, t[p..p + n]);
    PlainRun(u, q, t[p..p + n]);
    PrependMends(t, Body(t, p + n), u, Body(u, q + n), t[p..p + n]);
  }

  lemma BothFail(t: bytes, r: Parsed<bytes>, u: bytes, r': Parsed<bytes>)
    requires r.Fail? && r'.Fail?
    ensures BesideText(t, r, u, r')
  {
  }

  lemma BodyEnds(t: bytes, p: nat, u: bytes, q: nat)
    requires Mends(t, p, u, q) && (p == |t| || t[p] == QUOTE)
    ensures BesideText(t, Body(t, p), u, Body(u, q))
  {
    hide Mends;
    MendsInside(t, p, u, q);
    Step(t, p, u, q);
  }

  lemma RawSequence(t: bytes, p: nat)
    requires p < |t| && t[p] != QUOTE && t[p] != BACKSLASH && Utf8.SequenceLen(t[p..]) > 0
    ensures var raw := t[p..][..Utf8.SequenceLen(t[p..])];
      At(t, p, raw) && Plain(raw) && raw != [] && Utf8.SequenceLen(raw) == |raw|
  {
    var n := Utf8.SequenceLen(t[p..]);
    assert t[p..][..n] == t[p..p + n];
  }

  lemma StrayMends(t: bytes, p: nat, u: bytes, q: nat)
    requires p < |t| && t[p] != QUOTE && t[p] != BACKSLASH && Utf8.SequenceLen(t[p..]) == 0
    requires At(u, q, Utf8.REPLACEMENT) && q + 3 <= |u| && BesideText(t, Body(t, p + 1), u, Body(u, q + 3))
    ensures BesideText(t, Body(t, p), u, Body(u, q))
  {
    hide Body, Mends, Utf8.SequenceLen, Utf8.Repair;
    BodyUnfold(t, p);
    PlainRun(u, q, Utf8.REPLACEMENT);
    if Body(t, p + 1).Ok? {
      StrayStays(t, p);
      StrayReplaced(t[p], Body(t, p + 1).value);
    }
  }

  lemma StrMends(t: bytes, p: nat, u: bytes, q: nat)
    requires Mends(t, p, u, q)
    ensures BesideText(t, Str(t, p), u, Str(u, q))
  {
    hide Mends, Body;
    MendsInside(t, p, u, q);
    SeesMends(t, p, u, q, QUOTE);
    if Sees(t, p, QUOTE) {
      BodyMends(t, p + 1, u, q + 1);
    }
  }

  // ---------------------------------------------------------------- values

  predicate BesideValue(t: bytes, r: Parsed<Value>, u: bytes, r': Parsed<Value>)
  {
    Beside(t, r, u, r') && (r.Ok? ==> r'.value == Mended(r.value))
  }

  predicate BesideItems(t: bytes, r: Parsed<seq<Value>>, u: bytes, r': Parsed<seq<Value>>)
  {
    Beside(t, r, u, r') && (r.Ok? ==> r'.value == MendedItems(r.value))
  }

  predicate BesideMembers(t: bytes, r: Parsed<seq<Member>>, u: bytes, r': Parsed<seq<Member>>)
  {
    Beside(t, r, u, r') && (r.Ok? ==> r'.value == MendedMembers(r.value))
  }

  predicate BesideMember(t: bytes, r: Parsed<Member>, u: bytes, r': Parsed<Member>)
  {
    Beside(t, r, u, r') && (r.Ok? ==> r'.value == MendedMember(r.value))
  }

  lemma WordsMend(t: bytes, p: nat, u: bytes, q: nat)
    requires Mends(t, p, u, q)
    ensures BesideValue(t, Literal(t, p, TRUE_WORD, Bool(true)), u, Literal(u, q, TRUE_WORD, Bool(true)))
    ensures BesideValue(t, Literal(t, p, FALSE_WORD, Bool(false)), u, Literal(u, q, FALSE_WORD, Bool(false)))
    ensures BesideValue(t, Literal(t, p, NULL_WORD, Null), u, Literal(u, q, NULL_WORD, Null))
  {
    hide Mends;
    LiteralMends(t, p, u, q, TRUE_WORD, Bool(true));
    LiteralMends(t, p, u, q, FALSE_WORD, Bool(false));
    LiteralMends(t, p, u, q, NULL_WORD, Null);
  }

  lemma {:induction false} ValMends(t: bytes, p: nat, u: bytes, q: nat)
    requires Mends(t, p, u, q)
    ensures BesideValue(t, Val(t, p), u, Val(u, q))
    decreases |t| - p, 2
  {
    hide Mends, Val, ObjectAt, ArrayAt, Num, Literal, Str, Utf8.Repair;
    MendsInside(t, p, u, q);
    ValUnfold(t, p);
    ValUnfold(u, q);
    var a, b := SkipSpace(t, p), SkipSpace(u, q);
    SpaceMends(t, p, u, q);
    Step(t, a, u, b);
    if a < |t| {
      StrMends(t, a, u, b);
      WordsMend(t, a, u, b);
      NumMends(t, a, u, b);
      if t[a] == LBRACE {
        ObjectMends(t, a, u, b);
      } else if t[a] == LBRACKET {
        ArrayMends(t, a, u, b);
      }
    }
  }

  lemma {:induction false} ObjectMends(t: bytes, p: nat, u: bytes, q: nat)
    requires Mends(t, p, u, q) && p < |t| && t[p] < 0x80
    ensures q < |u| && BesideValue(t, ObjectAt(t, p), u, ObjectAt(u, q))
    decreases |t| - p, 1
  {
    hide Mends, Members, Items, ObjectAt, ArrayAt;
    MendsInside(t, p, u, q);
    Step(t, p, u, q);
    ContainersUnfold(t, p);
    ContainersUnfold(u, q);
    var a, b := SkipSpace(t, p + 1), SkipSpace(u, q + 1);
    SpaceMends(t, p + 1, u, q + 1);
    SeesMends(t, a, u, b, RBRACE);
    MembersMend(t, a, u, b);
  }

  lemma {:induction false} ArrayMends(t: bytes, p: nat, u: bytes, q: nat)
    requires Mends(t, p, u, q) && p < |t| && t[p] < 0x80
    ensures q < |u| && BesideValue(t, ArrayAt(t, p), u, ArrayAt(u, q))
    decreases |t| - p, 1
  {
    hide Mends, Members, Items, ObjectAt, ArrayAt;
    MendsInside(t, p, u, q);
    Step(t, p, u, q);
    ContainersUnfold(t, p);
    ContainersUnfold(u, q);
    var a, b := SkipSpace(t, p + 1), SkipSpace(u, q + 1);
    SpaceMends(t, p + 1, u, q + 1);
    SeesMends(t, a, u, b, RBRACKET);
    ItemsMend(t, a, u, b);
  }

  lemma ItemsGrow(v: Value, vs: seq<Value>)
    ensures MendedItems([v] + vs) == [Mended(v)] + MendedItems(vs) && MendedItems([v]) == [Mended(v)]
  {
    hide Mended;
    assert ([v] + vs)[1..] == vs && [v][1..] == [];
  }

  lemma MembersGrow(m: Member, ms: seq<Member>)
    ensures MendedMembers([m] + ms) == [MendedMember(m)] + MendedMembers(ms) && MendedMembers([m]) == [MendedMember(m)]
  {
    hide MendedMember;
    assert ([m] + ms)[1..] == ms && [m][1..] == [];
  }

  lemma {:induction false} ItemsMend(t: bytes, p: nat, u: bytes, q: nat)
    requires Mends(t, p, u, q)
    ensures BesideItems(t, Items(t, p), u, Items(u, q))
    decreases |t| - p, 3
  {
    hide Mends, Val, Items, Mended, MendedItems;
    MendsInside(t, p, u, q);
    ItemsUnfold(t, p);
    ItemsUnfold(u, q);
    ValMends(t, p, u, q);
    if Val(t, p).Ok? {
      var item, item' := Val(t, p), Val(u, q);
      var a, b := SkipSpace(t, item.pos), SkipSpace(u, item'.pos);
      SpaceMends(t, item.pos, u, item'.pos);
      SeesMends(t, a, u, b, COMMA);
      SeesMends(t, a, u, b, RBRACKET);
      ItemsGrow(item.value, []);
      if Sees(t, a, COMMA) {
        ItemsMend(t, a + 1, u, b + 1);
        if Items(t, a + 1).Ok? {
          ItemsGrow(item.value, Items(t, a + 1).value);
        }
      }
    }
  }

  lemma KeyMends(t: bytes, p: nat, u: bytes, q: nat)
    requires Mends(t, p, u, q)
    ensures BesideText(t, Key(t, p), u, Key(u, q))
  {
    hide Mends, Str, Utf8.Repair;
    MendsInside(t, p, u, q);
    var a, b := SkipSpace(t, p), SkipSpace(u, q);
    SpaceMends(t, p, u, q);
    StrMends(t, a, u, b);
    var key, key' := Str(t, a), Str(u, b);
    if key.Ok? {
      SpaceMends(t, key.pos, u, key'.pos);
      SeesMends(t, SkipSpace(t, key.pos), u, SkipSpace(u, key'.pos), COLON);
    }
  }

  lemma {:induction false} PairMends(t: bytes, p: nat, u: bytes, q: nat)
    requires Mends(t, p, u, q)
    ensures BesideMember(t, Pair(t, p), u, Pair(u, q))
    decreases |t| - p, 3
  {
    hide Mends, Val, Pair, Key, Mended, Utf8.Repair;
    MendsInside(t, p, u, q);
    PairUnfold(t, p);
    PairUnfold(u, q);
    KeyMends(t, p, u, q);
    if Key(t, p).Ok? {
      ValMends(t, Key(t, p).pos, u, Key(u, q).pos);
    }
  }

  lemma {:induction false} MembersMend(t: bytes, p: nat, u: bytes, q: nat)
    requires Mends(t, p, u, q)
    ensures BesideMembers(t, Members(t, p), u, Members(u, q))
    decreases |t| - p, 4
  {
    hide Mends, Pair, Members, MendedMember, MendedMembers;
    MendsInside(t, p, u, q);
    MembersUnfold(t, p);
    MembersUnfold(u, q);
    PairMends(t, p, u, q);
    if Pair(t, p).Ok? {
      var member, member' := Pair(t, p), Pair(u, q);
      var a, b := SkipSpace(t, member.pos), SkipSpace(u, member'.pos);
      SpaceMends(t, member.pos, u, member'.pos);
      SeesMends(t, a, u, b, COMMA);
      SeesMends(t, a, u, b, RBRACE);
      MembersGrow(member.value, []);
      if Sees(t, a, COMMA) {
        MembersMend(t, a + 1, u, b + 1);
        if Members(t, a + 1).Ok? {
          MembersGrow(member.value, Members(t, a + 1).value);
        }
      }
    }
  }

  /** Repairing a document and parsing it, or parsing it and repairing what came out: the same tree, or no tree either way. */
  lemma RepairedDocument(t: bytes)
    ensures Document(Utf8.Repair(t)) == match Document(t) case None => None case Some(v) => Some(Mended(v))
  {
    var u := Utf8.Repair(t);
    hide Val, Mended, Utf8.Repair;
    assert t[0..] == t && u[0..] == u;
    ValMends(t, 0, u, 0);
  }
}
