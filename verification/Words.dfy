/** 64-bit words, the bit operators used on them, and the bits they act on.

    A word is the number it denotes. Go defines a shift by n as n shifts by one place;
    a left shift by one doubles and drops the carry, a right shift by one halves. */
module Words {
  import opened Bytes

  type Word = u64

  /** Bit `i` of a number, the lowest being bit 0. */
  predicate Bit(w: nat, i: nat) {
    if i == 0 then w % 2 == 1 else Bit(w / 2, i - 1)
  }

  /** `x << n` on uint64. */
  function Shl(x: Word, n: nat): Word {
    if n == 0 then x else 2 * Shl(x, n - 1) % TWO_64
  }

  /** `x >> n` on uint64. */
  function Shr(x: Word, n: nat): Word {
    if n == 0 then x else Shr(x, n - 1) / 2
  }

  /** `x & y`. */
  function And(x: nat, y: nat): nat {
    if x == 0 || y == 0 then 0
    else 2 * And(x / 2, y / 2) + if x % 2 == 1 && y % 2 == 1 then 1 else 0
  }

  /** `x | y`. */
  function Or(x: nat, y: nat): nat
    decreases x + y
  {
    if x == 0 then y else if y == 0 then x
    else 2 * Or(x / 2, y / 2) + if x % 2 == 1 || y % 2 == 1 then 1 else 0
  }

  function Pow2(n: nat): (p: nat)
    ensures p > 0
  {
    if n == 0 then 1 else 2 * Pow2(n - 1)
  }

  lemma {:induction false} Pow2Grows(m: nat, n: nat)
    requires m <= n
    ensures Pow2(m) <= Pow2(n)
  {
    if m < n {
      Pow2Grows(m, n - 1);
    }
  }

  lemma {:induction false} Pow2Sum(m: nat, n: nat)
    ensures Pow2(m + n) == Pow2(m) * Pow2(n)
  {
    if n > 0 {
      Pow2Sum(m, n - 1);
      assert Pow2(m + n) == 2 * (Pow2(m) * Pow2(n - 1)) == Pow2(m) * Pow2(n);
    }
  }

  lemma Pow2Values()
    ensures Pow2(63) == TWO_63 && Pow2(64) == TWO_64
  {
    assert Pow2(4) == 16;
    Pow2Sum(4, 4);
    Pow2Sum(8, 8);
    Pow2Sum(16, 16);
    Pow2Sum(32, 32);
    assert Pow2(64) == 2 * Pow2(63);
  }

  lemma {:induction false} BitOfZero(i: nat)
    ensures !Bit(0, i)
  {
    if i > 0 {
      BitOfZero(i - 1);
    }
  }

  lemma OrHalves(x: nat, y: nat)
    requires x > 0 && y > 0
    ensures Or(x, y) / 2 == Or(x / 2, y / 2)
    ensures Or(x, y) % 2 == 1 <==> x % 2 == 1 || y % 2 == 1
  {}

  lemma {:induction false} BitOfOr(x: nat, y: nat, i: nat)
    ensures Bit(Or(x, y), i) <==> Bit(x, i) || Bit(y, i)
    decreases i
  {
    if x == 0 || y == 0 {
      BitOfZero(i);
    } else {
      hide Or;
      OrHalves(x, y);
      if i > 0 {
        BitOfOr(x / 2, y / 2, i - 1);
      }
    }
  }

  lemma {:induction false} OrBound(x: nat, y: nat, k: nat)
    requires x < Pow2(k) && y < Pow2(k)
    ensures Or(x, y) < Pow2(k)
  {
    if k > 0 {
      OrBound(x / 2, y / 2, k - 1);
    }
  }

  /** Adding `2^k` leaves the bits below `k` alone. */
  lemma {:induction false} BitBelow(y: nat, k: nat, i: nat)
    requires i < k
    ensures Bit(y + Pow2(k), i) <==> Bit(y, i)
  {
    if i > 0 {
      assert (y + Pow2(k)) / 2 == y / 2 + Pow2(k - 1);
      BitBelow(y / 2, k - 1, i - 1);
    }
  }

  lemma BitOfDouble(y: Word, i: nat)
    requires i < 64
    ensures Bit(2 * y % TWO_64, i) <==> i > 0 && Bit(y, i - 1)
  {
    if i > 0 {
      Pow2Values();
      if y >= TWO_63 {
        BitBelow(y - TWO_63, 63, i - 1);
        assert 2 * y % TWO_64 / 2 == y - TWO_63;
      }
    }
  }

  lemma {:induction false} BitOfShl(w: Word, n: nat, i: nat)
    requires i < 64
    ensures Bit(Shl(w, n), i) <==> i >= n && Bit(w, i - n)
    decreases n
  {
    if n > 0 {
      BitOfDouble(Shl(w, n - 1), i);
      if i > 0 {
        BitOfShl(w, n - 1, i - 1);
      }
    }
  }

  lemma {:induction false} BitOfShr(w: Word, n: nat, i: nat)
    ensures Bit(Shr(w, n), i) <==> Bit(w, i + n)
    decreases n
  {
    if n > 0 {
      BitOfShr(w, n - 1, i + 1);
    }
  }

  lemma {:induction false} NoHighBits(w: nat, k: nat, i: nat)
    requires w < Pow2(k) && k <= i
    ensures !Bit(w, i)
  {
    if k == 0 {
      BitOfZero(i);
    } else {
      NoHighBits(w / 2, k - 1, i - 1);
    }
  }

  lemma {:induction false} MaskIsPow2(c: nat)
    requires c < 64
    ensures Shl(1, c) == Pow2(c)
  {
    if c > 0 {
      MaskIsPow2(c - 1);
      Pow2Values();
      Pow2Grows(c, 63);
    }
  }

  lemma {:induction false} AndPow2(w: nat, c: nat)
    ensures And(w, Pow2(c)) != 0 <==> Bit(w, c)
  {
    if w == 0 {
      BitOfZero(c);
    } else if c > 0 {
      assert Pow2(c) / 2 == Pow2(c - 1);
      AndPow2(w / 2, c - 1);
    }
  }

  /** Testing with the mask `1 << c` tests bit `c`. */
  lemma TestsBit(w: Word, c: nat)
    requires c < 64
    ensures And(w, Shl(1, c)) != 0 <==> Bit(w, c)
  {
    MaskIsPow2(c);
    AndPow2(w, c);
  }

  /** Or-ing the mask `1 << c` sets bit `c` and no other. */
  lemma SetsBit(w: Word, c: nat)
    requires c < 64
    ensures Or(w, Shl(1, c)) < TWO_64
    ensures forall i | 0 <= i < 64 :: Bit(Or(w, Shl(1, c)), i) <==> Bit(w, i) || i == c
  {
    Pow2Values();
    OrBound(w, Shl(1, c), 64);
    forall i | 0 <= i < 64
      ensures Bit(Or(w, Shl(1, c)), i) <==> Bit(w, i) || i == c
    {
      BitOfOr(w, Shl(1, c), i);
      BitOfShl(1, c, i);
      if i > c {
        BitOfZero(i - c - 1);
      }
    }
  }

  /** The carry: a word shifted up by `s`, joined with what leaves the word below it. */
  lemma CarriesBit(w: Word, below: Word, s: nat, i: nat)
    requires 0 < s < 64 && i < 64
    ensures Or(Shl(w, s), Shr(below, 64 - s)) < TWO_64
    ensures Bit(Or(Shl(w, s), Shr(below, 64 - s)), i)
       <==> if i >= s then Bit(w, i - s) else Bit(below, 64 + i - s)
  {
    Pow2Values();
    OrBound(Shl(w, s), Shr(below, 64 - s), 64);
    BitOfOr(Shl(w, s), Shr(below, 64 - s), i);
    BitOfShl(w, s, i);
    BitOfShr(below, 64 - s, i);
    if i >= s {
      NoHighBits(below, 64, i + (64 - s));
    }
  }
}
