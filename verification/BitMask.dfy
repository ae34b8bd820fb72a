/**
 Unsigned words as naturals, read bit by bit: the shifts, or and and-not that the
 retransmission mask uses, each characterised by the bits of its result.
 */
module BitMask {
  import opened Words

  /** Bit k of the word m. */
  predicate Bit(m: nat, k: nat)
    decreases k
  {
    if k == 0 then m % 2 == 1 else Bit(m / 2, k - 1)
  }

  /** m << k, before truncation to a word. */
  function Shl(m: nat, k: nat): (r: nat)
    ensures r >= m
  {
    if k == 0 then m else 2 * Shl(m, k - 1)
  }

  /** m | n. */
  function Or(m: nat, n: nat): nat
    decreases m + n
  {
    if m == 0 then n else if n == 0 then m
    else 2 * Or(m / 2, n / 2) + (if m % 2 == 1 || n % 2 == 1 then 1 else 0)
  }

  /** m & ~n. */
  function AndNot(m: nat, n: nat): nat
  {
    if m == 0 then 0
    else 2 * AndNot(m / 2, n / 2) + (if m % 2 == 1 && n % 2 == 0 then 1 else 0)
  }

  lemma {:induction false} ZeroHasNoBits(k: nat)
    ensures !Bit(0, k)
  {
    if k > 0 { ZeroHasNoBits(k - 1); }
  }

  lemma {:induction false} OrBit(m: nat, n: nat, k: nat)
    ensures Bit(Or(m, n), k) == (Bit(m, k) || Bit(n, k))
    decreases k
  {
    ZeroHasNoBits(k);
    if m != 0 && n != 0 && k > 0 {
      OrBit(m / 2, n / 2, k - 1);
    }
  }

  lemma {:induction false} AndNotBit(m: nat, n: nat, k: nat)
    ensures Bit(AndNot(m, n), k) == (Bit(m, k) && !Bit(n, k))
    decreases k
  {
    ZeroHasNoBits(k);
    if m != 0 && k > 0 {
      AndNotBit(m / 2, n / 2, k - 1);
    }
  }

  lemma {:induction false} ShlBit(m: nat, o: nat, k: nat)
    ensures Bit(Shl(m, o), k) == (o <= k && Bit(m, k - o))
    decreases k
  {
    if o > 0 && k > 0 {
      assert Shl(m, o) / 2 == Shl(m, o - 1);
      ShlBit(m, o - 1, k - 1);
    }
  }

  /** 2^c - 1 has exactly the bits below c. */
  lemma {:induction false} LowOnesBit(c: nat, k: nat)
    ensures Bit(Shl(1, c) - 1, k) == (k < c)
    decreases c
  {
    if c == 0 {
      ZeroHasNoBits(k);
    } else {
      var h := Shl(1, c - 1);
      assert (2 * h - 1) / 2 == h - 1 && (2 * h - 1) % 2 == 1;
      if k > 0 { LowOnesBit(c - 1, k - 1); }
    }
  }

  /** A word is below 2^c exactly when it has no bit at or above c. */
  lemma {:induction false} BitsBelow(m: nat, c: nat)
    requires forall k: nat :: Bit(m, k) ==> k < c
    ensures m < Shl(1, c)
    decreases m
  {
    if m != 0 {
      var top := HasABit(m);
      forall k: nat | Bit(m / 2, k) ensures k < c - 1 { assert Bit(m, k + 1); }
      BitsBelow(m / 2, c - 1);
    }
  }

  lemma {:induction false} HasABit(m: nat) returns (k: nat)
    requires m != 0
    ensures Bit(m, k)
  {
    if m % 2 == 1 {
      k := 0;
    } else {
      var j := HasABit(m / 2);
      k := j + 1;
    }
  }

  lemma {:induction false} AboveHasNoBit(m: nat, c: nat, k: nat)
    requires m < Shl(1, c) && c <= k
    ensures !Bit(m, k)
    decreases c
  {
    if c == 0 {
      ZeroHasNoBits(k);
    } else {
      AboveHasNoBit(m / 2, c - 1, k - 1);
    }
  }

  lemma WordSize()
    ensures Shl(1, 64) == TWO_64
  {
    assert Shl(1, 8) == 0x100;
    ShlAdd(1, 8, 8);
    assert Shl(0x100, 8) == 0x1_0000;
    ShlAdd(1, 16, 8);
    assert Shl(0x1_0000, 8) == 0x100_0000;
    ShlAdd(1, 24, 8);
    assert Shl(0x100_0000, 8) == 0x1_0000_0000;
    ShlAdd(1, 32, 8);
    assert Shl(0x1_0000_0000, 8) == 0x100_0000_0000;
    ShlAdd(1, 40, 8);
    assert Shl(0x100_0000_0000, 8) == 0x1_0000_0000_0000;
    ShlAdd(1, 48, 8);
    assert Shl(0x1_0000_0000_0000, 8) == 0x100_0000_0000_0000;
    ShlAdd(1, 56, 8);
    assert Shl(0x100_0000_0000_0000, 8) == 0x1_0000_0000_0000_0000;
  }

  lemma {:induction false} ShlAdd(m: nat, a: nat, b: nat)
    ensures Shl(m, a + b) == Shl(Shl(m, a), b)
    decreases b
  {
    if b > 0 { ShlAdd(m, a, b - 1); }
  }
}
