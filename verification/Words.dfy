/** Bytes of 64-bit words, little-endian, and stretches of byte sequences. */
module Words {

  /** Virtual and physical addresses: 64-bit, read as unsigned. */
  const SPACE: nat := 0x1_0000_0000_0000_0000
  type addr = a: int | 0 <= a < SPACE

  const PAGE: nat := 4096

  function Wrap(a: int): addr { a % SPACE }

  function Byte(v: bv64, i: nat): bv8
  {
    if i == 0 then (v & 0xFF) as bv8
    else if i == 1 then ((v >> 8) & 0xFF) as bv8
    else if i == 2 then ((v >> 16) & 0xFF) as bv8
    else if i == 3 then ((v >> 24) & 0xFF) as bv8
    else if i == 4 then ((v >> 32) & 0xFF) as bv8
    else if i == 5 then ((v >> 40) & 0xFF) as bv8
    else if i == 6 then ((v >> 48) & 0xFF) as bv8
    else if i == 7 then ((v >> 56) & 0xFF) as bv8
    else 0
  }

  /** The low `n` bytes of a value, lowest first. */
  function BytesOf(v: bv64, n: nat): (b: seq<bv8>)
    ensures |b| == n
  {
    seq(n, i requires 0 <= i < n => Byte(v, i))
  }

  function Pair(low: bv8, high: bv8): bv64 { (low as bv64) | ((high as bv64) << 8) }

  function Le2(s: seq<bv8>, o: nat): bv64
    requires o + 2 <= |s|
  {
    Pair(s[o], s[o + 1])
  }

  /** Two halfwords as a word, and the low halfword of a word. */
  function Halves(low: bv64, high: bv64): bv64 { low | (high << 16) }
  function Quads(low: bv64, high: bv64): bv64 { low | (high << 32) }
  function LowHalf(v: bv64): bv64 { v & 0xFFFF }

  function Le4(s: seq<bv8>, o: nat): bv64
    requires o + 4 <= |s|
  {
    Halves(Le2(s, o), Le2(s, o + 2))
  }

  function Le8(s: seq<bv8>, o: nat): bv64
    requires o + 8 <= |s|
  {
    Quads(Le4(s, o), Le4(s, o + 4))
  }

  predicate IsSize(n: nat) { n == 1 || n == 2 || n == 4 || n == 8 }

  /** `getUint8` to `getUint64`. */
  function ReadLe(s: seq<bv8>, o: nat, n: nat): bv64
    requires IsSize(n) && o + n <= |s|
  {
    if n == 1 then s[o] as bv64 else if n == 2 then Le2(s, o) else if n == 4 then Le4(s, o) else Le8(s, o)
  }

  function Splice(s: seq<bv8>, o: nat, b: seq<bv8>): (r: seq<bv8>)
    requires o + |b| <= |s|
    ensures |r| == |s|
    ensures forall i :: 0 <= i < |s| ==> r[i] == if o <= i < o + |b| then b[i - o] else s[i]
  {
    s[..o] + b + s[o + |b|..]
  }

  /** Mask of the low `n` bytes. */
  function Low(v: bv64, n: nat): bv64
    requires IsSize(n)
  {
    if n == 1 then v & 0xFF else if n == 2 then v & 0xFFFF else if n == 4 then v & 0xFFFF_FFFF else v
  }

  lemma AsOne(v: bv64)
    ensures Byte(v, 0) as bv64 == Low(v, 1)
  {
  }

  lemma AsPair(v: bv64)
    ensures Pair(Byte(v, 0), Byte(v, 1)) == Low(v, 2)
  {
  }

  lemma AsHalves(v: bv64)
    ensures Halves(Pair(Byte(v, 0), Byte(v, 1)), Pair(Byte(v, 2), Byte(v, 3))) == Low(v, 4)
  {
  }

  lemma AsEight(v: bv64)
    ensures Eight(Byte(v, 0), Byte(v, 1), Byte(v, 2), Byte(v, 3), Byte(v, 4), Byte(v, 5), Byte(v, 6), Byte(v, 7)) == v
  {
  }

  lemma BytesRoundTrip(v: bv64, s: seq<bv8>, o: nat, n: nat)
    requires IsSize(n) && o + n <= |s|
    requires forall i :: 0 <= i < n ==> s[o + i] == Byte(v, i)
    ensures ReadLe(s, o, n) == Low(v, n)
  {
    hide Byte, Pair, Halves, Quads, Eight;
    assert s[o] == Byte(v, 0);
    if n == 1 {
      AsOne(v);
    } else if n == 2 {
      assert s[o + 1] == Byte(v, 1);
      AsPair(v);
    } else if n == 4 {
      assert s[o + 1] == Byte(v, 1) && s[o + 2] == Byte(v, 2) && s[o + 2 + 1] == s[o + 3] && s[o + 3] == Byte(v, 3);
      AsHalves(v);
    } else {
      assert s[o + 1] == Byte(v, 1) && s[o + 2] == Byte(v, 2) && s[o + 3] == Byte(v, 3);
      assert s[o + 4] == Byte(v, 4) && s[o + 5] == Byte(v, 5) && s[o + 6] == Byte(v, 6) && s[o + 7] == Byte(v, 7);
      Le8IsEight(s, o);
      AsEight(v);
    }
  }

  /** A value written and read back in place. */
  lemma SpliceReadsBack(s: seq<bv8>, o: nat, v: bv64, n: nat)
    requires IsSize(n) && o + n <= |s|
    ensures ReadLe(Splice(s, o, BytesOf(v, n)), o, n) == Low(v, n)
  {
    BytesRoundTrip(v, Splice(s, o, BytesOf(v, n)), o, n);
  }

  /** Reading depends only on the bytes read. */
  lemma ReadSame(s: seq<bv8>, o: nat, s': seq<bv8>, o': nat, n: nat)
    requires IsSize(n) && o + n <= |s| && o' + n <= |s'|
    requires forall k :: o <= k < o + n ==> s[k] == s'[k - o + o']
    ensures ReadLe(s, o, n) == ReadLe(s', o', n)
  {
    assert s[o] == s'[o'];
    if n >= 2 {
      assert s[o + 1] == s'[o' + 1];
    }
    if n >= 4 {
      assert s[o + 2] == s'[o' + 2] && s[o + 3] == s'[o' + 3];
    }
    if n == 8 {
      assert s[o + 4] == s'[o' + 4] && s[o + 5] == s'[o' + 5] && s[o + 6] == s'[o' + 6] && s[o + 7] == s'[o' + 7];
    }
  }

  /** The bytes of a word read are the bytes it was read from. */
  lemma ByteOfLe8(s: seq<bv8>, o: nat, i: nat)
    requires o + 8 <= |s| && i < 8
    ensures Byte(Le8(s, o), i) == s[o + i]
  {
    hide Le8, Eight, Byte;
    Le8IsEight(s, o);
    EightBytes(s[o], s[o + 1], s[o + 2], s[o + 3], s[o + 4], s[o + 5], s[o + 6], s[o + 7]);
  }

  lemma JoinedBytes(a: bv8, b: bv8, c: bv8, d: bv8, e: bv8, f: bv8, g: bv8, h: bv8)
    ensures Quads(Halves(Pair(a, b), Pair(c, d)), Halves(Pair(e, f), Pair(g, h))) == Eight(a, b, c, d, e, f, g, h)
  {
  }

  lemma Le8IsEight(s: seq<bv8>, o: nat)
    requires o + 8 <= |s|
    ensures Le8(s, o) == Eight(s[o], s[o + 1], s[o + 2], s[o + 3], s[o + 4], s[o + 5], s[o + 6], s[o + 7])
  {
    hide Pair, Halves, Quads, Eight;
    JoinedBytes(s[o], s[o + 1], s[o + 2], s[o + 3], s[o + 4], s[o + 5], s[o + 6], s[o + 7]);
    assert s[o + 2 + 1] == s[o + 3] && s[o + 4 + 1] == s[o + 5] && s[o + 4 + 2] == s[o + 6] && s[o + 4 + 2 + 1] == s[o + 7];
  }

  function Eight(a: bv8, b: bv8, c: bv8, d: bv8, e: bv8, f: bv8, g: bv8, h: bv8): bv64
  {
    ((a as bv64) | ((b as bv64) << 8) | ((c as bv64) << 16) | ((d as bv64) << 24)) |
    ((e as bv64) << 32) | ((f as bv64) << 40) | ((g as bv64) << 48) | ((h as bv64) << 56)
  }

  lemma EightBytes(a: bv8, b: bv8, c: bv8, d: bv8, e: bv8, f: bv8, g: bv8, h: bv8)
    ensures var v := Eight(a, b, c, d, e, f, g, h);
      && Byte(v, 0) == a && Byte(v, 1) == b && Byte(v, 2) == c && Byte(v, 3) == d
      && Byte(v, 4) == e && Byte(v, 5) == f && Byte(v, 6) == g && Byte(v, 7) == h
  {
  }

  /** The aligned word around an address, and the next one. */
  lemma Remultiple(va: addr, n: nat)
    requires n == 4 || n == 8
    ensures (va - va % n) % n == 0 && va - va % n + n <= SPACE
    ensures Wrap(va - va % n + n) % n == 0
    ensures Wrap(va - va % n + n) == if va - va % n + n == SPACE then 0 else va - va % n + n
  {
    if n == 4 {
      Remultiple4(va);
    } else {
      Remultiple8(va);
    }
  }

  lemma Remultiple4(va: addr)
    ensures (va - va % 4) % 4 == 0 && va - va % 4 + 4 <= SPACE
    ensures Wrap(va - va % 4 + 4) % 4 == 0
    ensures Wrap(va - va % 4 + 4) == if va - va % 4 + 4 == SPACE then 0 else va - va % 4 + 4
  {
    var q := va / 4;
    assert va - va % 4 == 4 * q && q <= SPACE / 4 - 1;
  }

  lemma Remultiple8(va: addr)
    ensures (va - va % 8) % 8 == 0 && va - va % 8 + 8 <= SPACE
    ensures Wrap(va - va % 8 + 8) % 8 == 0
    ensures Wrap(va - va % 8 + 8) == if va - va % 8 + 8 == SPACE then 0 else va - va % 8 + 8
  {
    var q := va / 8;
    assert va - va % 8 == 8 * q && q <= SPACE / 8 - 1;
  }
}
