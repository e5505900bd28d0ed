/** The key-usage BIT STRING, bit by bit. */
module X509KeyUsage {
  import opened Wire
  import opened Certificate
  import opened X509

  // ---- Key usage ----

  function Bit(n: nat, i: nat): (b: nat)
    ensures b < 2
  {
    if i == 0 then n % 2 else Bit(n / 2, i - 1)
  }

  lemma {:induction false} HighPartIsIgnored(n: nat, c: nat, m: nat, i: nat)
    requires i < m
    ensures Bit(n + c * Pow2(m), i) == Bit(n, i)
  {
    var p := c * Pow2(m - 1);
    assert c * Pow2(m) == 2 * p;
    if i > 0 {
      assert (n + 2 * p) / 2 == n / 2 + p;
      HighPartIsIgnored(n / 2, c, m - 1, i - 1);
    }
  }

  lemma {:induction false} HighPartIsShifted(n: nat, c: nat, m: nat)
    requires n < Pow2(m) && c < 2
    ensures Bit(n + c * Pow2(m), m) == c
  {
    if m > 0 {
      var p := c * Pow2(m - 1);
      assert c * Pow2(m) == 2 * p;
      assert (n + 2 * p) / 2 == n / 2 + p;
      HighPartIsShifted(n / 2, c, m - 1);
    }
  }

  /** Reversal sends bit `i` to bit `k - 1 - i`. */
  lemma ReverseUnfolds(b: nat, k: nat)
    requires k > 0
    ensures ReverseBits(b, k) == ReverseBits(b / 2, k - 1) + (b % 2) * Pow2(k - 1)
  {
  }

  lemma TopBit(r: nat, rest: nat, low: nat, m: nat)
    requires rest < Pow2(m) && low < 2 && r == rest + low * Pow2(m)
    ensures Bit(r, m) == low
  {
    HighPartIsShifted(rest, low, m);
  }

  lemma LowerBit(r: nat, rest: nat, low: nat, m: nat, i: nat)
    requires i < m && r == rest + low * Pow2(m)
    ensures Bit(r, i) == Bit(rest, i)
  {
    HighPartIsIgnored(rest, low, m, i);
  }

  lemma {:induction false} ReversedBit(b: nat, k: nat, i: nat)
    requires i < k
    ensures Bit(ReverseBits(b, k), k - 1 - i) == Bit(b, i)
  {
    var low, rest := b % 2, ReverseBits(b / 2, k - 1);
    ReverseUnfolds(b, k);
    if i == 0 {
      TopBit(ReverseBits(b, k), rest, low, k - 1);
    } else {
      LowerBit(ReverseBits(b, k), rest, low, k - 1, k - 1 - i);
      ReversedBit(b / 2, k - 1, i - 1);
    }
  }

  lemma {:induction false} BitOfZero(i: nat)
    ensures Bit(0, i) == 0
  {
    if i > 0 { BitOfZero(i - 1); }
  }

  lemma {:induction false} BitsDetermine(a: nat, b: nat, k: nat)
    requires a < Pow2(k) && b < Pow2(k)
    requires forall i :: 0 <= i < k ==> Bit(a, i) == Bit(b, i)
    ensures a == b
  {
    if k > 0 {
      assert Bit(a, 0) == Bit(b, 0);
      forall i | 0 <= i < k - 1 ensures Bit(a / 2, i) == Bit(b / 2, i) {
        assert Bit(a, i + 1) == Bit(b, i + 1);
      }
      BitsDetermine(a / 2, b / 2, k - 1);
    }
  }

  /** Bit `i` of a BIT STRING: bits are numbered from the highest of the first byte, and
      absent bits are zero. */
  function BitStringBit(s: bytes, i: nat): (b: nat)
  {
    if 1 + i / 8 < |s| then Bit(s[1 + i / 8], 7 - i % 8) else 0
  }

  lemma {:induction false} ReverseOfZero(b: nat, k: nat)
    requires ReverseBits(b, k) == 0 && b < Pow2(k)
    ensures b == 0
  {
    if k > 0 {
      ReverseOfZero(b / 2, k - 1);
    }
  }

  function Halve(n: nat, k: nat): (r: nat)
  {
    if k == 0 then n else Halve(n / 2, k - 1)
  }

  lemma {:induction false} SkipBits(n: nat, i: nat, k: nat)
    ensures Bit(n, i + k) == Bit(Halve(n, k), i)
  {
    if k > 0 { SkipBits(n / 2, i, k - 1); }
  }

  lemma HalveFour(n: nat)
    ensures Halve(n, 4) == n / 16
  {
    assert Halve(n, 4) == Halve(n / 2, 3);
    assert Halve(n / 2, 3) == Halve(n / 2 / 2, 2);
    assert Halve(n / 2 / 2, 2) == Halve(n / 2 / 2 / 2, 1) == n / 2 / 2 / 2 / 2;
  }

  lemma BitsOfHigh(n: nat, i: nat)
    ensures Bit(n, i + 8) == Bit(n / 256, i)
  {
    SkipBits(n, i + 4, 4);
    HalveFour(n);
    SkipBits(n / 16, i, 4);
    HalveFour(n / 16);
    assert n / 16 / 16 == n / 256;
  }

  lemma BitsOfLow(n: nat, i: nat)
    requires i < 8
    ensures Bit(n, i) == Bit(n % 256, i)
  {
    PowersOfTwo();
    assert n == n % 256 + (n / 256) * Pow2(8);
    HighPartIsIgnored(n % 256, n / 256, 8, i);
  }

  lemma ByteReversed(b: byte, i: nat)
    requires i < 8
    ensures Bit(ReverseByte(b), 7 - i) == Bit(b, i)
  {
    ReversedBit(b, 8, i);
  }

  lemma KeyUsageBytes(raw: u16)
    ensures var s := KeyUsageBits(raw);
            && 2 <= |s| <= 3 && s[1] == ReverseByte(raw % 256)
            && ReverseByte(raw / 256) == (if |s| == 3 then s[2] else 0)
  {
  }

  lemma KeyUsageMeansLow(raw: u16, i: nat)
    requires i < 8
    ensures BitStringBit(KeyUsageBits(raw), i) == Bit(raw, i)
  {
    assert i / 8 == 0 && i % 8 == i;
    KeyUsageBytes(raw);
    BitsOfLow(raw, i);
    ByteReversed(raw % 256, i);
    BitOfZero(7 - i);
  }

  lemma KeyUsageMeansHigh(raw: u16, i: nat)
    requires i < 8
    ensures BitStringBit(KeyUsageBits(raw), i + 8) == Bit(raw, i + 8)
  {
    assert (i + 8) / 8 == 1 && (i + 8) % 8 == i;
    KeyUsageBytes(raw);
    BitsOfHigh(raw, i);
    ByteReversed(raw / 256, i);
    BitOfZero(7 - i);
  }

  /** Usage bit `i` is bit `i` of the BIT STRING. */
  lemma KeyUsageMeans(raw: u16, i: nat)
    requires i < 16
    ensures BitStringBit(KeyUsageBits(raw), i) == Bit(raw, i)
  {
    if i < 8 { KeyUsageMeansLow(raw, i); } else { KeyUsageMeansHigh(raw, i - 8); }
  }

  lemma KeyUsageDetermines(a: u16, b: u16)
    requires KeyUsageBits(a) == KeyUsageBits(b)
    ensures a == b
  {
    forall i | 0 <= i < 16 ensures Bit(a, i) == Bit(b, i) {
      KeyUsageMeans(a, i);
      KeyUsageMeans(b, i);
    }
    PowersOfTwo();
    BitsDetermine(a, b, 16);
  }

  lemma {:induction false} TrailingZerosEndAtSetBit(b: nat, k: nat)
    requires 0 < b < Pow2(k)
    ensures TrailingZeros(b, k) < k && Bit(b, TrailingZeros(b, k)) == 1
  {
    if b % 2 == 0 {
      TrailingZerosEndAtSetBit(b / 2, k - 1);
    }
  }

  /** The BIT STRING stops at its last set bit, exactly when some bit is set. */
  lemma KeyUsageIsMinimal(raw: u16)
    ensures var s := KeyUsageBits(raw);
            && |s| >= 2 && s[0] < 8
            && (BitStringBit(s, 8 * (|s| - 1) - 1 - s[0]) == 1 <==> raw != 0)
  {
    PowersOfTwo();
    var low, high := ReverseByte(raw % 256), ReverseByte(raw / 256);
    if high != 0 {
      TrailingZerosEndAtSetBit(high, 8);
      KeyUsageSomewhere(raw / 256);
    } else if low != 0 {
      TrailingZerosEndAtSetBit(low, 8);
      KeyUsageSomewhere(raw % 256);
    } else {
      ReverseOfZero(raw % 256, 8);
      ReverseOfZero(raw / 256, 8);
    }
  }

  lemma KeyUsageSomewhere(b: byte)
    requires ReverseByte(b) != 0
    ensures b != 0
  {
  }
}
