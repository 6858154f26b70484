/**
 * Bitwise arithmetic on unbounded naturals: exclusive or, population count
 * and powers of two, with the algebra the checksum and coin-flip proofs use.
 */
module Bits {

  /** C's fixed-width unsigned integers. */
  type u8 = x: int | 0 <= x < 0x100
  type u16 = x: int | 0 <= x < 0x1_0000
  type u32 = x: int | 0 <= x < 0x1_0000_0000

  function Pow2(k: nat): (r: nat)
    ensures r >= 1
  {
    if k == 0 then 1 else 2 * Pow2(k - 1)
  }

  lemma Pow2Grows(j: nat, k: nat)
    requires j <= k
    ensures Pow2(j) <= Pow2(k)
    decreases k
  {
    if j < k {
      Pow2Grows(j, k - 1);
    }
  }

  /** Bitwise exclusive or, defined bit by bit from the least significant end. */
  function Xor(a: nat, b: nat): nat
    decreases a + b
  {
    if a == 0 then b
    else if b == 0 then a
    else 2 * Xor(a / 2, b / 2) + (if a % 2 == b % 2 then 0 else 1)
  }

  /** Number of one bits. */
  function Popcount(x: nat): nat
  {
    if x == 0 then 0 else x % 2 + Popcount(x / 2)
  }

  /** The low bit and the remaining bits of a Xor, for every pair of inputs. */
  lemma {:induction false} XorDigits(a: nat, b: nat)
    ensures Xor(a, b) % 2 == (a + b) % 2
    ensures Xor(a, b) / 2 == Xor(a / 2, b / 2)
  {
    if a == 0 {
      assert Xor(a / 2, b / 2) == b / 2;
    } else if b == 0 {
      assert Xor(a / 2, b / 2) == a / 2;
    }
  }

  /** Two naturals with the same low bit and the same remaining bits are equal. */
  lemma SplitEq(x: nat, y: nat)
    requires x % 2 == y % 2 && x / 2 == y / 2
    ensures x == y
  {
  }

  lemma {:induction false} XorComm(a: nat, b: nat)
    ensures Xor(a, b) == Xor(b, a)
    decreases a + b
  {
    if a != 0 && b != 0 {
      XorComm(a / 2, b / 2);
    }
  }

  lemma XorZero(a: nat)
    ensures Xor(a, 0) == a && Xor(0, a) == a
  {
  }

  lemma {:induction false} XorSelf(a: nat)
    ensures Xor(a, a) == 0
  {
    if a != 0 {
      XorSelf(a / 2);
    }
  }

  lemma {:induction false} XorAssoc(a: nat, b: nat, c: nat)
    ensures Xor(Xor(a, b), c) == Xor(a, Xor(b, c))
    decreases a + b + c
  {
    if a == 0 || b == 0 || c == 0 {
      XorZero(a); XorZero(b); XorZero(c);
      XorZero(Xor(a, b)); XorZero(Xor(b, c));
    } else {
      XorAssoc(a / 2, b / 2, c / 2);
      XorDigits(a, b); XorDigits(b, c);
      XorDigits(Xor(a, b), c); XorDigits(a, Xor(b, c));
      SplitEq(Xor(Xor(a, b), c), Xor(a, Xor(b, c)));
    }
  }

  /** Xor with a fixed value is injective: it can be undone by the same Xor. */
  lemma XorCancel(p: nat, q: nat)
    ensures Xor(p, Xor(p, q)) == q
  {
    XorAssoc(p, p, q);
    XorSelf(p);
    XorZero(q);
  }

  lemma XorInjective(p: nat, q: nat, r: nat)
    requires Xor(p, q) == Xor(p, r)
    ensures q == r
  {
    XorCancel(p, q);
    XorCancel(p, r);
  }

  /** Xor of two values below 2^k stays below 2^k. */
  lemma {:induction false} XorBound(a: nat, b: nat, k: nat)
    requires a < Pow2(k) && b < Pow2(k)
    ensures Xor(a, b) < Pow2(k)
    decreases k
  {
    if a != 0 && b != 0 {
      assert k > 0;
      XorBound(a / 2, b / 2, k - 1);
    }
  }

  /** The ones of x: its low bit and the ones of the rest. */
  lemma PopcountStep(x: nat)
    ensures Popcount(x) == x % 2 + Popcount(x / 2)
  {
  }

  /** The parity step of PopcountXor, on plain integers: low bits and the counts of the remaining bits. */
  lemma ParityCombine(x: int, a: int, b: int, px: int, pa: int, pb: int)
    requires x % 2 == (a + b) % 2
    requires px % 2 == (pa + pb) % 2
    ensures (x % 2 + px) % 2 == ((a % 2 + pa) + (b % 2 + pb)) % 2
  {
  }

  /** The parity of the ones of a Xor is the sum of the parities of its operands. */
  lemma {:induction false} PopcountXor(a: nat, b: nat)
    ensures Popcount(Xor(a, b)) % 2 == (Popcount(a) + Popcount(b)) % 2
    decreases a + b
  {
    if a != 0 && b != 0 {
      var x := Xor(a, b);
      XorDigits(a, b);
      PopcountXor(a / 2, b / 2);
      PopcountStep(x);
      PopcountStep(a);
      PopcountStep(b);
      ParityCombine(x, a, b, Popcount(x / 2), Popcount(a / 2), Popcount(b / 2));
    }
  }

  lemma {:induction false} PopcountPow2(k: nat)
    ensures Popcount(Pow2(k)) == 1
  {
    if k > 0 {
      PopcountPow2(k - 1);
      assert Pow2(k) / 2 == Pow2(k - 1);
    }
  }

  /** Xor-ing in a single bit flips the parity of the population count. */
  lemma FlipBitFlipsParity(a: nat, k: nat)
    ensures Popcount(Xor(a, Pow2(k))) % 2 != Popcount(a) % 2
  {
    PopcountXor(a, Pow2(k));
    PopcountPow2(k);
  }

  /** Xor of two bits. */
  lemma XorBits(p: nat, q: nat)
    requires p < 2 && q < 2
    ensures Xor(p, q) == (p + q) % 2
  {
  }
}
