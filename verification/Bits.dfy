// Bitwise operations on unsigned integers, one bit at a time.
module Bits {
  import opened Prelude

  function Pow2(n: nat): (p: nat)
    ensures p > 0
  {
    if n == 0 then 1 else 2 * Pow2(n - 1)
  }

  function And(a: nat, b: nat): nat {
    if a == 0 || b == 0 then 0 else 2 * And(a / 2, b / 2) + Min(a % 2, b % 2)
  }

  function Or(a: nat, b: nat): nat
    decreases a + b
  {
    if a == 0 then b
    else if b == 0 then a
    else 2 * Or(a / 2, b / 2) + Max(a % 2, b % 2)
  }

  function Not32(a: u32): u32 {
    U32_LIMIT - 1 - a
  }

  function Shl32(a: u32, n: nat): u32 {
    if n == 0 then a else Shl32(a, n - 1) * 2 % U32_LIMIT
  }

  function Shr(a: nat, n: nat): nat {
    if n == 0 then a else Shr(a / 2, n - 1)
  }

  // The lowest k bits.
  function Low(a: nat, k: nat): (r: nat)
    ensures r <= a && r < Pow2(k)
  {
    if k == 0 then 0 else 2 * Low(a / 2, k - 1) + a % 2
  }

  lemma Pow2Of32()
    ensures Pow2(8) == 0x100 && Pow2(16) == 0x1_0000 && Pow2(24) == 0x100_0000 && Pow2(32) == U32_LIMIT
  {
    assert Pow2(4) == 16;
    assert Pow2(8) == 0x100;
    assert Pow2(12) == 0x1000;
    assert Pow2(16) == 0x1_0000;
    assert Pow2(20) == 0x10_0000;
    assert Pow2(24) == 0x100_0000;
    assert Pow2(28) == 0x1000_0000;
  }

  lemma {:induction false} Pow2Grows(m: nat, n: nat)
    requires m <= n
    ensures Pow2(m) <= Pow2(n)
  {
    if m < n {
      Pow2Grows(m, n - 1);
    }
  }

  lemma {:induction false} AndLowMask(a: nat, k: nat)
    ensures And(a, Pow2(k) - 1) == Low(a, k)
  {
    if k > 0 {
      AndLowMask(a / 2, k - 1);
      LowOfZero(k);
    }
  }

  lemma {:induction false} LowOfZero(k: nat)
    ensures Low(0, k) == 0
  {
    if k > 0 {
      LowOfZero(k - 1);
    }
  }

  lemma {:induction false} LowOfSmall(a: nat, k: nat)
    requires a < Pow2(k)
    ensures Low(a, k) == a
  {
    if k > 0 {
      LowOfSmall(a / 2, k - 1);
    }
  }

  lemma AndStep(a: nat, b: nat)
    ensures And(a, b) == 2 * And(a / 2, b / 2) + Min(a % 2, b % 2)
  {
  }

  lemma AndHighStep(a: nat, p: nat, q: nat, low: nat)
    requires q <= p && And(a / 2, p - q) == a / 2 - low
    ensures And(a, 2 * p - 2 * q) == a - (2 * low + a % 2)
  {
    hide And;
    var mask := 2 * p - 2 * q;
    assert mask / 2 == p - q && mask % 2 == 0;
    AndStep(a, mask);
  }

  // A mask of the bits from k up clears the others.
  lemma {:induction false} AndHighMask(a: nat, w: nat, k: nat)
    requires k <= w && a < Pow2(w)
    ensures Pow2(k) <= Pow2(w)
    ensures And(a, Pow2(w) - Pow2(k)) == a - Low(a, k)
  {
    hide And;
    Pow2Grows(k, w);
    if k == 0 {
      AndLowMask(a, w);
      LowOfSmall(a, w);
    } else {
      AndHighMask(a / 2, w - 1, k - 1);
      AndHighStep(a, Pow2(w - 1), Pow2(k - 1), Low(a / 2, k - 1));
    }
  }

  // Bits above and below k do not meet.
  lemma {:induction false} OrAdds(a: nat, k: nat, n: nat)
    requires n < Pow2(k) && Low(a, k) == 0
    ensures Or(a, n) == a + n
  {
    if k > 0 {
      OrAdds(a / 2, k - 1, n / 2);
    }
  }

  lemma {:induction false} ShiftedOnes(k: nat)
    requires k <= 32
    ensures Pow2(k) <= U32_LIMIT && Shl32(U32_LIMIT - 1, k) == U32_LIMIT - Pow2(k)
  {
    Pow2Of32();
    Pow2Grows(k, 32);
    if k > 0 {
      ShiftedOnes(k - 1);
    }
  }

  // Within one block of 2^k numbers the low bits count from its start.
  lemma {:induction false} LowInBlock(start: nat, k: nat, a: nat)
    requires Low(start, k) == 0 && start <= a < start + Pow2(k)
    ensures Low(a, k) == a - start
  {
    if k > 0 {
      LowInBlock(start / 2, k - 1, a / 2);
    }
  }

  lemma ClearedHalf(a: nat, k: nat)
    requires k > 0
    ensures (a - Low(a, k)) / 2 == a / 2 - Low(a / 2, k - 1)
    ensures (a - Low(a, k)) % 2 == 0
  {
    hide Pow2;
  }

  lemma {:induction false} LowOfCleared(a: nat, k: nat)
    ensures Low(a - Low(a, k), k) == 0
  {
    hide Pow2;
    if k > 0 {
      LowOfCleared(a / 2, k - 1);
      ClearedHalf(a, k);
    }
  }

  // Clearing fewer bits first makes no difference.
  lemma {:induction false} LowTwice(a: nat, few: nat, many: nat)
    requires few <= many
    ensures Low(a - Low(a, few), many) == Low(a, many) - Low(a, few)
  {
    hide Pow2;
    if few > 0 {
      LowTwice(a / 2, few - 1, many - 1);
      ClearedHalf(a, few);
    }
  }

  lemma {:induction false} OrFits(a: nat, b: nat, w: nat)
    requires a < Pow2(w) && b < Pow2(w)
    ensures Or(a, b) < Pow2(w)
  {
    if w > 0 {
      OrFits(a / 2, b / 2, w - 1);
    }
  }

  // ---------- Bytes ----------

  function Doubled(a: nat, n: nat): nat {
    if n == 0 then a else 2 * Doubled(a, n - 1)
  }

  lemma {:induction false} Recombine(a: nat, k: nat)
    ensures Doubled(Shr(a, k), k) + Low(a, k) == a
  {
    if k > 0 {
      Recombine(a / 2, k - 1);
    }
  }

  lemma {:induction false} ShrTwice(a: nat, m: nat, n: nat)
    ensures Shr(Shr(a, m), n) == Shr(a, m + n)
  {
    if m > 0 {
      ShrTwice(a / 2, m - 1, n);
    }
  }

  lemma {:induction false} LowOfDoubled(a: nat, k: nat)
    ensures Low(Doubled(a, k), k) == 0
  {
    hide Pow2;
    if k > 0 {
      LowOfDoubled(a, k - 1);
      var half := Doubled(a, k - 1);
      assert Doubled(a, k) / 2 == half && Doubled(a, k) % 2 == 0;
    }
  }

  lemma {:induction false} ShlIsDoubled(a: u32, n: nat)
    requires Doubled(a, n) < U32_LIMIT
    ensures Shl32(a, n) == Doubled(a, n)
  {
    if n > 0 {
      ShlIsDoubled(a, n - 1);
    }
  }

  lemma DoubledIsTimes256(a: nat)
    ensures Doubled(a, 8) == 0x100 * a
  {
    assert Doubled(a, 1) == 2 * a;
    assert Doubled(a, 2) == 4 * a;
    assert Doubled(a, 3) == 8 * a;
    assert Doubled(a, 4) == 16 * a;
    assert Doubled(a, 5) == 32 * a;
    assert Doubled(a, 6) == 64 * a;
    assert Doubled(a, 7) == 128 * a;
  }

  // Appending a byte.
  lemma ShiftInByte(acc: u32, n: nat)
    requires acc < 0x100_0000 && n < 0x100
    ensures Or(Shl32(acc, 8), n) == 0x100 * acc + n
  {
    DoubledIsTimes256(acc);
    ShlIsDoubled(acc, 8);
    LowOfDoubled(acc, 8);
    Pow2Of32();
    OrAdds(Doubled(acc, 8), 8, n);
  }

  // Taking one off again.
  lemma ByteOff(a: nat)
    ensures And(a, 0xff) < 0x100 && a == 0x100 * Shr(a, 8) + And(a, 0xff)
  {
    Pow2Of32();
    AndLowMask(a, 8);
    Recombine(a, 8);
    DoubledIsTimes256(Shr(a, 8));
  }
}
