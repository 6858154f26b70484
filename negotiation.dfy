/**
 * The BattleBoats negotiation (battleBoats/src/Negotiation.c): a
 * commit-reveal hash of a secret, its verification, a coin flip decided by
 * the parity of the XOR of the two players' numbers, and the two search
 * loops a cheating player uses to force the coin.
 *
 * NegotiationData is a 16-bit unsigned number and PUBLIC_KEY is 0xBEEF, the
 * modulus the PC tool uses too.
 */
module Negotiation {
  import opened Bits

  const PublicKey := 0xBEEF

  datatype Coin = Heads | Tails

  /** The commitment to a secret: its square reduced modulo the public key. */
  function Hash(secret: u16): (h: u16)
    ensures h < PublicKey
  {
    (secret * secret) % PublicKey
  }

  /** Does the revealed secret match the earlier commitment? */
  predicate Verify(secret: u16, commitment: u16): (ok: bool)
    ensures ok ==> commitment < PublicKey
    ensures ok && Verify(secret, commitment) ==> commitment == Hash(secret)
  {
    Hash(secret) == commitment
  }

  /** Only commitments below the public key can ever be accepted. */
  lemma VerifiedCommitmentIsReduced(secret: u16, commitment: u16)
    requires Verify(secret, commitment)
    ensures commitment < PublicKey
  {
  }

  /** Adding a multiple of the key does not change the residue. */
  lemma {:induction false} ModOfMultiple(a: int, k: nat)
    ensures (a + k * PublicKey) % PublicKey == a % PublicKey
  {
    if k > 0 {
      ModOfMultiple(a, k - 1);
      assert a + k * PublicKey == (a + (k - 1) * PublicKey) + PublicKey;
    }
  }

  /**
   * The commitment does not bind the secret: key - s squares to the same
   * residue as s, so a player can reveal either one.
   */
  lemma HashCollision(s: u16)
    requires 0 < s < PublicKey
    ensures Verify(PublicKey - s, Hash(s))
    ensures PublicKey - s != s
  {
    var t := PublicKey - s;
    if 2 * s <= PublicKey {
      assert t * t == s * s + (PublicKey - 2 * s) * PublicKey;
      ModOfMultiple(s * s, PublicKey - 2 * s);
    } else {
      assert s * s == t * t + (2 * s - PublicKey) * PublicKey;
      ModOfMultiple(t * t, 2 * s - PublicKey);
    }
  }

  /** HEADS when A XOR B has an odd number of one bits. */
  function Flip(a: nat, b: nat): Coin
  {
    if Popcount(Xor(a, b)) % 2 == 1 then Heads else Tails
  }

  /** The coin flip, as the source computes it: shift the XOR out bit by bit, toggling the parity. */
  method CoinFlip(a: u16, b: u16) returns (r: Coin)
    ensures r == Flip(a, b)
  {
    var result: nat := Xor(a, b);
    var parity: nat := 0;
    while result != 0
      invariant parity < 2
      invariant (parity + Popcount(result)) % 2 == Popcount(Xor(a, b)) % 2
      decreases result
    {
      ParityLoopStep(parity, result, Xor(parity, result % 2));
      parity := Xor(parity, result % 2);
      result := result / 2;
    }
    r := if parity == 1 then Heads else Tails;
  }

  /** One turn of CoinFlip's loop: toggling by the low bit and shifting it out keeps the parity of parity plus the remaining ones. */
  lemma ParityLoopStep(parity: nat, result: nat, next: nat)
    requires parity < 2 && next == Xor(parity, result % 2)
    ensures next < 2
    ensures (next + Popcount(result / 2)) % 2 == (parity + Popcount(result)) % 2
  {
    var q, c, pc := result % 2, Popcount(result / 2), Popcount(result);
    assert next == (parity + q) % 2 by {
      XorBits(parity, q);
    }
    assert pc == q + c by {
      PopcountStep(result);
    }
    ParityOfSum(parity, q, c, next, pc);
  }

  lemma ParityOfSum(p: int, q: int, c: int, x: int, pc: int)
    requires x == (p + q) % 2 && pc == q + c
    ensures (x + c) % 2 == (p + pc) % 2
  {
  }

  lemma FlipSymmetric(a: nat, b: nat)
    ensures Flip(a, b) == Flip(b, a)
  {
    XorComm(a, b);
  }

  lemma FlipSame(a: nat)
    ensures Flip(a, a) == Tails
  {
    XorSelf(a);
  }

  /** Flipping any one bit of the second number flips the coin. */
  lemma FlipOneBit(a: nat, b: nat, k: nat)
    ensures Flip(a, Xor(b, Pow2(k))) != Flip(a, b)
  {
    XorAssoc(a, b, Pow2(k));
    FlipBitFlipsParity(Xor(a, b), k);
  }

  /** Flipping any one bit of the first number flips the coin. */
  lemma FlipOneBitFirst(a: nat, b: nat, k: nat)
    ensures Flip(Xor(a, Pow2(k)), b) != Flip(a, b)
  {
    FlipSymmetric(a, b);
    FlipSymmetric(Xor(a, Pow2(k)), b);
    FlipOneBit(b, a, k);
  }

  /** Of the second numbers 0 and 1 exactly one gives HEADS. */
  lemma FlipZeroOne(a: nat)
    ensures Flip(a, 1) != Flip(a, 0)
  {
    XorZero(0);
    FlipOneBit(a, 0, 0);
  }

  /** The number 0 or 1 that makes the coin HEADS against a. */
  function HeadsPartner(a: nat): (b: u16)
    ensures b <= 1 && Flip(a, b) == Heads
  {
    FlipZeroOne(a);
    if Flip(a, 0) == Heads then 0 else 1
  }

  /**
   * The smallest b with Flip(hashA, b) == HEADS. Since 0 and 1 give
   * opposite coins the search stops at 0 or 1, and the fallback after the
   * loop is never reached.
   */
  method GenerateBGivenHash(hashA: u16) returns (b: u16)
    ensures b == HeadsPartner(hashA)
  {
    FlipZeroOne(hashA);
    var i: u16 := 0;
    while i < 0xFFFF
      invariant i <= 1
      invariant i == 1 ==> Flip(hashA, 0) == Tails
    {
      var c := CoinFlip(hashA, i);
      if c == Heads {
        return i;
      }
      i := i + 1;
    }
    assert false;
  }

  /** The smallest a with Flip(a, b) == HEADS; again 0 or 1. */
  method GenerateAGivenB(b: u16) returns (a: u16)
    ensures a == HeadsPartner(b) && Flip(a, b) == Heads
  {
    FlipZeroOne(b);
    FlipSymmetric(0, b);
    FlipSymmetric(1, b);
    var i: u16 := 0;
    while i < 0xFFFF
      invariant i <= 1
      invariant i == 1 ==> Flip(0, b) == Tails
    {
      var c := CoinFlip(i, b);
      if c == Heads {
        return i;
      }
      i := i + 1;
    }
    assert false;
  }

  /** The fixed cases the negotiation tests exercise. */
  lemma NegotiationExamples()
    ensures Verify(1234, Hash(1234)) && !Verify(1235, Hash(1234))
    ensures Flip(0xA, 0x4) == Heads && Flip(0xF, 0x0) == Tails
  {
    assert Xor(0xA, 0x4) == 0xE by {
      assert Xor(5, 2) == 7 by {
        assert Xor(2, 1) == 3;
      }
    }
    assert Popcount(7) == 3 by {
      assert Popcount(1) == 1;
      assert Popcount(3) == 2;
    }
    assert Popcount(0xE) == 3 by {
      assert 0xE / 2 == 7 && 0xE % 2 == 0;
    }
    XorZero(0xF);
    assert Popcount(0xF) == 4 by {
      assert 0xF / 2 == 7 && 0xF % 2 == 1;
    }
  }
}
