/** Bit-level facts about the two aligned words an unaligned load is put together from. */
module FunnelShift {
  import opened Words
  import opened Cpu

  predicate IsByte(v: bv64) { v & 0xFF == v }

  lemma Join2Bytes(v0: bv64, v1: bv64)
    requires IsByte(v0) && IsByte(v1)
    ensures Byte(TwoBytes(v0, v1), 0) == Byte(v0, 0) && Byte(TwoBytes(v0, v1), 1) == Byte(v1, 0)
  {
  }

  lemma WordOfEight(a: bv8, b: bv8, c: bv8, d: bv8, e: bv8, f: bv8, g: bv8, h: bv8)
    ensures Word(Eight(a, b, c, d, e, f, g, h)) == Eight(a, b, c, d, 0, 0, 0, 0)
  {
  }

  lemma FunnelEightBy1(a0: bv8, a1: bv8, a2: bv8, a3: bv8, a4: bv8, a5: bv8, a6: bv8, a7: bv8,
                        b0: bv8, b1: bv8, b2: bv8, b3: bv8, b4: bv8, b5: bv8, b6: bv8, b7: bv8)
    ensures Funnel(Eight(a0, a1, a2, a3, a4, a5, a6, a7),
                   Eight(b0, b1, b2, b3, b4, b5, b6, b7), 1, 7) ==
            Eight(a1, a2, a3, a4, a5, a6, a7, b0)
  {
  }

  lemma FunnelEightBy2(a0: bv8, a1: bv8, a2: bv8, a3: bv8, a4: bv8, a5: bv8, a6: bv8, a7: bv8,
                        b0: bv8, b1: bv8, b2: bv8, b3: bv8, b4: bv8, b5: bv8, b6: bv8, b7: bv8)
    ensures Funnel(Eight(a0, a1, a2, a3, a4, a5, a6, a7),
                   Eight(b0, b1, b2, b3, b4, b5, b6, b7), 2, 6) ==
            Eight(a2, a3, a4, a5, a6, a7, b0, b1)
  {
  }

  lemma FunnelEightBy3(a0: bv8, a1: bv8, a2: bv8, a3: bv8, a4: bv8, a5: bv8, a6: bv8, a7: bv8,
                        b0: bv8, b1: bv8, b2: bv8, b3: bv8, b4: bv8, b5: bv8, b6: bv8, b7: bv8)
    ensures Funnel(Eight(a0, a1, a2, a3, a4, a5, a6, a7),
                   Eight(b0, b1, b2, b3, b4, b5, b6, b7), 3, 5) ==
            Eight(a3, a4, a5, a6, a7, b0, b1, b2)
  {
  }

  lemma FunnelEightBy4(a0: bv8, a1: bv8, a2: bv8, a3: bv8, a4: bv8, a5: bv8, a6: bv8, a7: bv8,
                        b0: bv8, b1: bv8, b2: bv8, b3: bv8, b4: bv8, b5: bv8, b6: bv8, b7: bv8)
    ensures Funnel(Eight(a0, a1, a2, a3, a4, a5, a6, a7),
                   Eight(b0, b1, b2, b3, b4, b5, b6, b7), 4, 4) ==
            Eight(a4, a5, a6, a7, b0, b1, b2, b3)
  {
  }

  lemma FunnelEightBy5(a0: bv8, a1: bv8, a2: bv8, a3: bv8, a4: bv8, a5: bv8, a6: bv8, a7: bv8,
                        b0: bv8, b1: bv8, b2: bv8, b3: bv8, b4: bv8, b5: bv8, b6: bv8, b7: bv8)
    ensures Funnel(Eight(a0, a1, a2, a3, a4, a5, a6, a7),
                   Eight(b0, b1, b2, b3, b4, b5, b6, b7), 5, 3) ==
            Eight(a5, a6, a7, b0, b1, b2, b3, b4)
  {
  }

  lemma FunnelEightBy6(a0: bv8, a1: bv8, a2: bv8, a3: bv8, a4: bv8, a5: bv8, a6: bv8, a7: bv8,
                        b0: bv8, b1: bv8, b2: bv8, b3: bv8, b4: bv8, b5: bv8, b6: bv8, b7: bv8)
    ensures Funnel(Eight(a0, a1, a2, a3, a4, a5, a6, a7),
                   Eight(b0, b1, b2, b3, b4, b5, b6, b7), 6, 2) ==
            Eight(a6, a7, b0, b1, b2, b3, b4, b5)
  {
  }

  lemma FunnelEightBy7(a0: bv8, a1: bv8, a2: bv8, a3: bv8, a4: bv8, a5: bv8, a6: bv8, a7: bv8,
                        b0: bv8, b1: bv8, b2: bv8, b3: bv8, b4: bv8, b5: bv8, b6: bv8, b7: bv8)
    ensures Funnel(Eight(a0, a1, a2, a3, a4, a5, a6, a7),
                   Eight(b0, b1, b2, b3, b4, b5, b6, b7), 7, 1) ==
            Eight(a7, b0, b1, b2, b3, b4, b5, b6)
  {
  }

  lemma FunnelFourBy1(a0: bv8, a1: bv8, a2: bv8, a3: bv8,
                        b0: bv8, b1: bv8, b2: bv8, b3: bv8)
    ensures Funnel(Eight(a0, a1, a2, a3, 0, 0, 0, 0),
                   Eight(b0, b1, b2, b3, 0, 0, 0, 0), 1, 3) ==
            Eight(a1, a2, a3, b0, b1, b2, b3, 0)
  {
  }

  lemma FunnelFourBy2(a0: bv8, a1: bv8, a2: bv8, a3: bv8,
                        b0: bv8, b1: bv8, b2: bv8, b3: bv8)
    ensures Funnel(Eight(a0, a1, a2, a3, 0, 0, 0, 0),
                   Eight(b0, b1, b2, b3, 0, 0, 0, 0), 2, 2) ==
            Eight(a2, a3, b0, b1, b2, b3, 0, 0)
  {
  }

  lemma FunnelFourBy3(a0: bv8, a1: bv8, a2: bv8, a3: bv8,
                        b0: bv8, b1: bv8, b2: bv8, b3: bv8)
    ensures Funnel(Eight(a0, a1, a2, a3, 0, 0, 0, 0),
                   Eight(b0, b1, b2, b3, 0, 0, 0, 0), 3, 1) ==
            Eight(a3, b0, b1, b2, b3, 0, 0, 0)
  {
  }

  lemma FunnelEightLow(al: nat, v0: bv64, v1: bv64, k: nat)
    requires 0 < al <= 4 && k < 8
    ensures Byte(Funnel(v0, v1, al, 8 - al), k) == if k < 8 - al then Byte(v0, al + k) else Byte(v1, k - (8 - al))
  {
    hide Byte, Funnel, Eight, Word;
    var a0, a1, a2, a3, a4, a5, a6, a7 :=
      Byte(v0, 0), Byte(v0, 1), Byte(v0, 2), Byte(v0, 3),
      Byte(v0, 4), Byte(v0, 5), Byte(v0, 6), Byte(v0, 7);
    var b0, b1, b2, b3, b4, b5, b6, b7 :=
      Byte(v1, 0), Byte(v1, 1), Byte(v1, 2), Byte(v1, 3),
      Byte(v1, 4), Byte(v1, 5), Byte(v1, 6), Byte(v1, 7);
    AsEight(v0);
    AsEight(v1);
    if al == 1 {
      FunnelEightBy1(a0, a1, a2, a3, a4, a5, a6, a7, b0, b1, b2, b3, b4, b5, b6, b7);
      EightBytes(a1, a2, a3, a4, a5, a6, a7, b0);
    } else if al == 2 {
      FunnelEightBy2(a0, a1, a2, a3, a4, a5, a6, a7, b0, b1, b2, b3, b4, b5, b6, b7);
      EightBytes(a2, a3, a4, a5, a6, a7, b0, b1);
    } else if al == 3 {
      FunnelEightBy3(a0, a1, a2, a3, a4, a5, a6, a7, b0, b1, b2, b3, b4, b5, b6, b7);
      EightBytes(a3, a4, a5, a6, a7, b0, b1, b2);
    } else if al == 4 {
      FunnelEightBy4(a0, a1, a2, a3, a4, a5, a6, a7, b0, b1, b2, b3, b4, b5, b6, b7);
      EightBytes(a4, a5, a6, a7, b0, b1, b2, b3);
    }
  }

  lemma FunnelEightHigh(al: nat, v0: bv64, v1: bv64, k: nat)
    requires 4 < al < 8 && k < 8
    ensures Byte(Funnel(v0, v1, al, 8 - al), k) == if k < 8 - al then Byte(v0, al + k) else Byte(v1, k - (8 - al))
  {
    hide Byte, Funnel, Eight, Word;
    var a0, a1, a2, a3, a4, a5, a6, a7 :=
      Byte(v0, 0), Byte(v0, 1), Byte(v0, 2), Byte(v0, 3),
      Byte(v0, 4), Byte(v0, 5), Byte(v0, 6), Byte(v0, 7);
    var b0, b1, b2, b3, b4, b5, b6, b7 :=
      Byte(v1, 0), Byte(v1, 1), Byte(v1, 2), Byte(v1, 3),
      Byte(v1, 4), Byte(v1, 5), Byte(v1, 6), Byte(v1, 7);
    AsEight(v0);
    AsEight(v1);
    if al == 5 {
      FunnelEightBy5(a0, a1, a2, a3, a4, a5, a6, a7, b0, b1, b2, b3, b4, b5, b6, b7);
      EightBytes(a5, a6, a7, b0, b1, b2, b3, b4);
    } else if al == 6 {
      FunnelEightBy6(a0, a1, a2, a3, a4, a5, a6, a7, b0, b1, b2, b3, b4, b5, b6, b7);
      EightBytes(a6, a7, b0, b1, b2, b3, b4, b5);
    } else if al == 7 {
      FunnelEightBy7(a0, a1, a2, a3, a4, a5, a6, a7, b0, b1, b2, b3, b4, b5, b6, b7);
      EightBytes(a7, b0, b1, b2, b3, b4, b5, b6);
    }
  }

  lemma FunnelEightBytes(al: nat, v0: bv64, v1: bv64, k: nat)
    requires 0 < al < 8 && k < 8
    ensures Byte(Funnel(v0, v1, al, 8 - al), k) == if k < 8 - al then Byte(v0, al + k) else Byte(v1, k - (8 - al))
  {
    hide Byte, Funnel;
    if al <= 4 {
      FunnelEightLow(al, v0, v1, k);
    } else {
      FunnelEightHigh(al, v0, v1, k);
    }
  }

  lemma FunnelFourBytes(al: nat, v0: bv64, v1: bv64, k: nat)
    requires 0 < al < 4 && k < 4
    ensures Byte(Funnel(Word(v0), Word(v1), al, 4 - al), k) == if k < 4 - al then Byte(v0, al + k) else Byte(v1, k - (4 - al))
  {
    hide Byte, Funnel, Eight, Word;
    var a0, a1, a2, a3, a4, a5, a6, a7 :=
      Byte(v0, 0), Byte(v0, 1), Byte(v0, 2), Byte(v0, 3),
      Byte(v0, 4), Byte(v0, 5), Byte(v0, 6), Byte(v0, 7);
    var b0, b1, b2, b3, b4, b5, b6, b7 :=
      Byte(v1, 0), Byte(v1, 1), Byte(v1, 2), Byte(v1, 3),
      Byte(v1, 4), Byte(v1, 5), Byte(v1, 6), Byte(v1, 7);
    AsEight(v0);
    AsEight(v1);
    WordOfEight(a0, a1, a2, a3, a4, a5, a6, a7);
    WordOfEight(b0, b1, b2, b3, b4, b5, b6, b7);
    if al == 1 {
      FunnelFourBy1(a0, a1, a2, a3, b0, b1, b2, b3);
      EightBytes(a1, a2, a3, b0, b1, b2, b3, 0);
    } else if al == 2 {
      FunnelFourBy2(a0, a1, a2, a3, b0, b1, b2, b3);
      EightBytes(a2, a3, b0, b1, b2, b3, 0, 0);
    } else if al == 3 {
      FunnelFourBy3(a0, a1, a2, a3, b0, b1, b2, b3);
      EightBytes(a3, b0, b1, b2, b3, 0, 0, 0);
    }
  }

  /** Which byte of which piece each byte of an unaligned load is. */
  lemma JoinBytes(n: nat, al: nat, v0: bv64, v1: bv64, k: nat)
    requires (n == 4 || n == 8) && 0 < al < n && k < n
    ensures Byte(Join(n, al, v0, v1), k) == if k < n - al then Byte(v0, al + k) else Byte(v1, k - (n - al))
  {
    hide Byte, Funnel, Word;
    if n == 4 {
      FunnelFourBytes(al, v0, v1, k);
    } else {
      FunnelEightBytes(al, v0, v1, k);
    }
  }
}
