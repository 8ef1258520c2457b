/** The structural UTF-8 test of the writer and the encoder of the parser. */
module Utf8 {
  import opened Bytes

  predicate IsContinuation(b: byte) { 0x80 <= b < 0xC0 }

  /** Length announced by a lead byte; 0 when the byte cannot start a sequence. */
  function LeadLength(lead: byte): (n: nat)
  {
    if lead < 0x80 then 1
    else if 0xC0 <= lead < 0xE0 then 2
    else if 0xE0 <= lead < 0xF0 then 3
    else if 0xF0 <= lead < 0xF8 then 4
    else 0
  }

  /** `utf8_sequence_len`: structure only, so overlong forms and surrogates pass. */
  function SequenceLen(s: bytes): (n: nat)
    requires s != []
    ensures n <= |s| && n <= 4
    ensures n == 1 <==> s[0] < 0x80
    ensures n > 1 ==> forall i :: 0 <= i < n ==> s[i] >= 0x80
  {
    var n := LeadLength(s[0]);
    if n > |s| then 0
    else if forall i :: 1 <= i < n ==> IsContinuation(s[i]) then n
    else 0
  }

  /** Every byte belongs to a structurally complete sequence. */
  predicate WellFormed(s: bytes)
  {
    s == [] || (SequenceLen(s) > 0 && WellFormed(s[SequenceLen(s)..]))
  }

  /** U+FFFD in UTF-8. */
  const REPLACEMENT: bytes := [0xEF, 0xBF, 0xBD]

  /** Each byte that starts no complete sequence is replaced by U+FFFD. */
  function Repair(s: bytes): (r: bytes)
  {
    if s == [] then []
    else
      var n := SequenceLen(s);
      if n == 0 then REPLACEMENT + Repair(s[1..]) else s[..n] + Repair(s[n..])
  }

  /** `encode_utf8`. */
  function Encode(cp: nat): (r: bytes)
    requires cp < 0x110000
    ensures 1 <= |r| <= 4
  {
    if cp < 0x80 then [cp as byte]
    else if cp < 0x800 then [(0xC0 + cp / 0x40) as byte, (0x80 + cp % 0x40) as byte]
    else if cp < 0x10000 then
      [(0xE0 + cp / 0x1000) as byte, (0x80 + cp / 0x40 % 0x40) as byte, (0x80 + cp % 0x40) as byte]
    else
      [(0xF0 + cp / 0x40000) as byte, (0x80 + cp / 0x1000 % 0x40) as byte,
       (0x80 + cp / 0x40 % 0x40) as byte, (0x80 + cp % 0x40) as byte]
  }

  /** Reads one encoded code point back, the way section 3 of RFC 3629 lays out the bits. */
  function DecodeOne(s: bytes): (cp: nat)
    requires s != [] && SequenceLen(s) > 0
  {
    var n := SequenceLen(s);
    if n == 1 then s[0] as nat
    else if n == 2 then (s[0] as nat - 0xC0) * 0x40 + (s[1] as nat - 0x80)
    else if n == 3 then (s[0] as nat - 0xE0) * 0x1000 + (s[1] as nat - 0x80) * 0x40 + (s[2] as nat - 0x80)
    else (s[0] as nat - 0xF0) * 0x40000 + (s[1] as nat - 0x80) * 0x1000 + (s[2] as nat - 0x80) * 0x40 + (s[3] as nat - 0x80)
  }

  /** Sixfold digits of a code point. */
  lemma SixBits(cp: nat)
    ensures cp == cp / 0x40 * 0x40 + cp % 0x40
    ensures cp == cp / 0x1000 * 0x1000 + cp / 0x40 % 0x40 * 0x40 + cp % 0x40
    ensures cp == cp / 0x40000 * 0x40000 + cp / 0x1000 % 0x40 * 0x1000 + cp / 0x40 % 0x40 * 0x40 + cp % 0x40
  {
    assert cp / 0x40 / 0x40 == cp / 0x1000 && cp / 0x1000 / 0x40 == cp / 0x40000;
  }

  /** The encoder's output is one complete sequence carrying exactly the code point. */
  lemma EncodeDecodes(cp: nat, rest: bytes)
    requires cp < 0x110000
    ensures SequenceLen(Encode(cp) + rest) == |Encode(cp)|
    ensures DecodeOne(Encode(cp) + rest) == cp
  {
    var code, e := Encode(cp), Encode(cp) + rest;
    SixBits(cp);
    assert forall i :: 0 <= i < |code| ==> e[i] == code[i];
    assert LeadLength(code[0]) == |code|;
    assert forall i :: 1 <= i < |code| ==> IsContinuation(code[i]);
  }

  lemma SequenceLenAppend(s: bytes, t: bytes)
    requires s != [] && SequenceLen(s) > 0
    ensures SequenceLen(s + t) == SequenceLen(s)
  {
    assert (s + t)[..|s|] == s;
  }

  lemma WellFormedUnfold(s: bytes)
    requires s != []
    ensures WellFormed(s) <==> SequenceLen(s) > 0 && WellFormed(s[SequenceLen(s)..])
  {
    hide SequenceLen;
  }

  lemma RepairUnfold(s: bytes)
    requires s != []
    ensures var n := SequenceLen(s);
      Repair(s) == if n == 0 then REPLACEMENT + Repair(s[1..]) else s[..n] + Repair(s[n..])
  {
    hide SequenceLen;
  }

  /** Well-formed text is left alone, and nothing else is. */
  lemma {:induction false} RepairIdentity(s: bytes)
    ensures Repair(s) == s <==> WellFormed(s)
    ensures |Repair(s)| >= |s|
    ensures !WellFormed(s) ==> |Repair(s)| > |s|
  {
    if s != [] {
      RepairUnfold(s);
      WellFormedUnfold(s);
      hide SequenceLen, Repair, WellFormed;
      var n := SequenceLen(s);
      if n == 0 {
        RepairIdentity(s[1..]);
        assert |Repair(s)| == 3 + |Repair(s[1..])| > |s|;
      } else {
        RepairIdentity(s[n..]);
        SplitAgain(s, n, Repair(s[n..]));
      }
    }
  }

  lemma SplitAgain(s: bytes, n: nat, t: bytes)
    requires n <= |s|
    ensures s[..n] + t == s <==> t == s[n..]
    ensures |s[..n] + t| == n + |t|
  {
    assert s == s[..n] + s[n..];
    TakeAppend(s[..n], t, s[n..]);
  }

  lemma TakeAppend(a: bytes, b: bytes, c: bytes)
    ensures a + b == a + c <==> b == c
  {
    assert (a + b)[|a|..] == b && (a + c)[|a|..] == c;
  }

  lemma {:induction false} WellFormedAppend(s: bytes, t: bytes)
    requires WellFormed(s) && WellFormed(t)
    ensures WellFormed(s + t)
  {
    if s == [] {
      assert s + t == t;
    } else {
      WellFormedUnfold(s);
      WellFormedUnfold(s + t);
      hide SequenceLen, WellFormed;
      var n := SequenceLen(s);
      SequenceLenAppend(s, t);
      WellFormedAppend(s[n..], t);
      assert (s + t)[n..] == s[n..] + t;
    }
  }

  lemma SequenceIsWellFormed(s: bytes)
    requires s != [] && SequenceLen(s) > 0
    ensures WellFormed(s[..SequenceLen(s)])
  {
    var n := SequenceLen(s);
    var u := s[..n];
    assert SequenceLen(u) == n;
    assert u[n..] == [];
  }

  /** Whatever goes in, the repaired text is structurally valid. */
  lemma {:induction false} RepairWellFormed(s: bytes)
    ensures WellFormed(Repair(s))
  {
    if s != [] {
      var n := SequenceLen(s);
      if n == 0 {
        RepairWellFormed(s[1..]);
        assert SequenceLen(REPLACEMENT) == 3;
        assert REPLACEMENT[3..] == [];
        assert WellFormed(REPLACEMENT);
        WellFormedAppend(REPLACEMENT, Repair(s[1..]));
      } else {
        RepairWellFormed(s[n..]);
        SequenceIsWellFormed(s);
        WellFormedAppend(s[..n], Repair(s[n..]));
      }
    }
  }

  /** A byte that goes on a sequence starts 10 in binary; the first one starts 0, 110, 1110 or 11110 by how many follow. */
  lemma SequenceShapes(s: bytes)
    requires s != []
    ensures SequenceLen(s) == 1 <==> s[0] as int / 0x80 == 0
    ensures SequenceLen(s) == 2 <==> s[0] as int / 0x20 == 6 && |s| >= 2 && s[1] as int / 0x40 == 2
    ensures SequenceLen(s) == 3 <==> s[0] as int / 0x10 == 14 && |s| >= 3 && s[1] as int / 0x40 == 2 && s[2] as int / 0x40 == 2
    ensures SequenceLen(s) == 4 <==>
      s[0] as int / 0x08 == 30 && |s| >= 4 && s[1] as int / 0x40 == 2 && s[2] as int / 0x40 == 2 && s[3] as int / 0x40 == 2
  {
    hide IsContinuation;
    if |s| >= 2 {
      GoesOn(s[1]);
    }
    if |s| >= 3 {
      GoesOn(s[2]);
    }
    if |s| >= 4 {
      GoesOn(s[3]);
    }
    var n := LeadLength(s[0]);
    if n == 2 && |s| >= 2 {
      assert (forall i :: 1 <= i < n ==> IsContinuation(s[i])) == IsContinuation(s[1]);
    } else if n == 3 && |s| >= 3 {
      assert (forall i :: 1 <= i < n ==> IsContinuation(s[i])) == (IsContinuation(s[1]) && IsContinuation(s[2]));
    } else if n == 4 && |s| >= 4 {
      assert (forall i :: 1 <= i < n ==> IsContinuation(s[i])) == (IsContinuation(s[1]) && IsContinuation(s[2]) && IsContinuation(s[3]));
    }
  }

  lemma GoesOn(b: byte)
    ensures IsContinuation(b) <==> b as int / 0x40 == 2
  {
  }
}
