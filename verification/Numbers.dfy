/** Words as numbers and as binary digits. */
module Numbers {
  import opened Words

  /** The number in a word. */
  function Unsigned(v: bv64): (x: nat) { v as nat }

  function Power2(i: nat): (p: nat)
    ensures p > 0
  {
    if i == 0 then 1 else 2 * Power2(i - 1)
  }

  /** The `i`-th binary digit is one. */
  predicate Set(v: bv64, i: nat) { Unsigned(v) / Power2(i) % 2 == 1 }

  // ---------------------------------------------------------------- words and their numbers

  lemma Below(v: bv64)
    ensures Unsigned(v) < SPACE
  {
  }

  lemma Doubled(y: bv64)
    requires y < 0x8000_0000_0000_0000
    ensures Unsigned(y << 1) == 2 * Unsigned(y) && Unsigned((y << 1) | 1) == 2 * Unsigned(y) + 1
  {
  }

  lemma HalfBound(y: bv64)
    requires Unsigned(y) < 0x8000_0000_0000_0000
    ensures y < 0x8000_0000_0000_0000
  {
  }

  lemma Back(x: bv64)
    ensures (x as int) as bv64 == x
  {
  }

  /** Every number of that range is a word's. */
  lemma {:induction false} WordWith(n: nat) returns (x: bv64)
    requires n < SPACE
    ensures Unsigned(x) == n
  {
    if n == 0 {
      x := 0;
    } else {
      hide Unsigned;
      var y := WordWith(n / 2);
      HalfBound(y);
      Doubled(y);
      x := if n % 2 == 0 then y << 1 else (y << 1) | 1;
    }
  }

  lemma WordNumber(n: nat)
    requires n < SPACE
    ensures Unsigned(n as bv64) == n
  {
    var x := WordWith(n);
    Back(x);
  }

  lemma SameNumber(x: bv64, y: bv64)
    ensures x == y <==> Unsigned(x) == Unsigned(y)
  {
    Back(x);
    Back(y);
  }

  // ---------------------------------------------------------------- digits

  type index = k: bv7 | k < 64

  predicate Bit(v: bv64, k: index) { (v >> k) & 1 != 0 }

  function Index(k: index): (i: nat) { k as nat }

  lemma IndexBound(k: index)
    ensures Index(k) < 64 && Index(0) == 0
  {
  }

  lemma IndexBelow(k: index)
    requires k > 0
    ensures k - 1 < 64 && Index(k) == Index(k - 1) + 1
  {
  }

  lemma IndexAbove(k: index)
    requires Index(k) < 63
    ensures k + 1 < 64 && Index(k + 1) == Index(k) + 1
  {
  }

  lemma {:induction false} IndexWith(i: nat) returns (k: index)
    requires i < 64
    ensures Index(k) == i
  {
    if i == 0 {
      k := 0;
    } else {
      hide Index;
      var j := IndexWith(i - 1);
      IndexAbove(j);
      k := j + 1;
    }
  }

  lemma HalvedOdd(v: bv64)
    requires v & 1 != 0
    ensures v >> 1 < 0x8000_0000_0000_0000 && v == ((v >> 1) << 1) | 1
  {
  }

  lemma HalvedEven(v: bv64)
    requires v & 1 == 0
    ensures v >> 1 < 0x8000_0000_0000_0000 && v == (v >> 1) << 1
  {
  }

  lemma HalfOdd(v: bv64)
    requires v & 1 != 0
    ensures Unsigned(v) == 2 * Unsigned(v >> 1) + 1
  {
    hide Unsigned;
    HalvedOdd(v);
    Doubled(v >> 1);
  }

  lemma HalfEven(v: bv64)
    requires v & 1 == 0
    ensures Unsigned(v) == 2 * Unsigned(v >> 1)
  {
    hide Unsigned;
    HalvedEven(v);
    Doubled(v >> 1);
  }

  lemma Grows(d: nat, x: nat, y: nat)
    requires x <= y
    ensures d * x <= d * y
  {
  }

  lemma Quotient(n: nat, d: nat, q: nat, r: nat)
    requires d > 0 && n == d * q + r && r < d
    ensures n / d == q
  {
    var q' := n / d;
    if q' > q {
      Grows(d, q + 1, q');
    } else if q' < q {
      Grows(d, q' + 1, q);
    }
  }

  lemma HalfQuotient(n: nat, m: nat, r: nat, p: nat)
    requires n == 2 * m + r && r < 2 && p > 0
    ensures n / (2 * p) == m / p
  {
    var q, t := m / p, m % p;
    assert n == (2 * p) * q + (2 * t + r);
    Quotient(n, 2 * p, q, 2 * t + r);
  }

  lemma HalfDigit(n: nat, m: nat, r: nat, i: nat)
    requires n == 2 * m + r && r < 2
    ensures n / Power2(i + 1) % 2 == m / Power2(i) % 2
    ensures n / Power2(0) % 2 == r
  {
    HalfQuotient(n, m, r, Power2(i));
  }

  lemma FirstBit(v: bv64)
    ensures Bit(v, 0) <==> v & 1 != 0
  {
  }

  lemma NextBit(v: bv64, k: index)
    requires k > 0 && k - 1 < 64
    ensures Bit(v, k) <==> Bit(v >> 1, k - 1)
  {
  }

  /** Testing a bit is asking for a digit. */
  lemma {:induction false} SetIsBit(v: bv64, k: index)
    ensures Set(v, Index(k)) <==> Bit(v, k)
    decreases Index(k)
  {
    hide Index, Unsigned, Power2, Bit;
    IndexBound(k);
    if v & 1 != 0 {
      HalfOdd(v);
    } else {
      HalfEven(v);
    }
    var r := if v & 1 != 0 then 1 else 0;
    if k == 0 {
      FirstBit(v);
      HalfDigit(Unsigned(v), Unsigned(v >> 1), r, 0);
    } else {
      IndexBelow(k);
      NextBit(v, k);
      SetIsBit(v >> 1, k - 1);
      HalfDigit(Unsigned(v), Unsigned(v >> 1), r, Index(k - 1));
    }
  }

  /** A word that is not zero has a digit one: by halving the stretch that holds it. */
  lemma SomeBit(v: bv64) returns (k: index)
    requires v != 0
    ensures Bit(v, k)
  {
    var j: bv7 := if v >> 32 != 0 then 32 else 0;
    j := if v >> (j | 16) != 0 then j | 16 else j;
    j := if v >> (j | 8) != 0 then j | 8 else j;
    j := if v >> (j | 4) != 0 then j | 4 else j;
    j := if v >> (j | 2) != 0 then j | 2 else j;
    k := if v >> (j | 1) != 0 then j | 1 else j;
  }

  lemma BitZero(k: index)
    ensures !Bit(0, k)
  {
  }

  lemma BitAnd(x: bv64, y: bv64, k: index)
    ensures Bit(x & y, k) <==> Bit(x, k) && Bit(y, k)
  {
  }

  lemma BitClear(x: bv64, y: bv64, k: index)
    ensures Bit(x & !y, k) <==> Bit(x, k) && !Bit(y, k)
  {
  }

  lemma BitOr(x: bv64, y: bv64, k: index)
    ensures Bit(x | y, k) <==> Bit(x, k) || Bit(y, k)
  {
  }
}
