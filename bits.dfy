/**
 * Java's 32-bit int operators &, |, ^ and + (two's complement, wrapping), as
 * the uniform crossover of SimpleGeneticAlgorithm uses them on chromosome
 * genes. An int is read as its 32-bit pattern, an unsigned number below 2^32;
 * a bitwise operator works bit by bit on those patterns.
 */
module Bits {
  import opened Commons
  import opened Individuals

  const Word: nat := 0x1_0000_0000

  lemma Pow2ThirtyTwo()
    ensures Pow2(32) == Word
  {
    Pow2ThirtyOne();
  }

  /** The 32-bit pattern of an int, as an unsigned number. */
  function Unsigned(x: Int32): (r: nat)
    ensures r < Word
    ensures x >= 0 ==> r == x
  {
    if x < 0 then x + Word else x
  }

  /** The int whose 32-bit pattern is u. */
  function Signed(u: nat): (r: Int32)
    requires u < Word
    ensures Unsigned(r) == u
    ensures u <= IntMax ==> r == u
  {
    if u <= IntMax then u else u - Word
  }

  /** Bit k of a pattern (bit 0 is the least significant). */
  function Bit(x: nat, k: nat): (r: nat)
    ensures r < 2
  {
    if k == 0 then x % 2 else Bit(x / 2, k - 1)
  }

  datatype BitOp = And | Or | Xor

  /** One of the operators on single bits. */
  function ApplyBit(op: BitOp, x: nat, y: nat): (r: nat)
    requires x < 2 && y < 2
    ensures r < 2
    ensures op == And ==> (r == 1 <==> x == 1 && y == 1)
    ensures op == Or ==> (r == 1 <==> x == 1 || y == 1)
    ensures op == Xor ==> (r == 1 <==> x != y)
  {
    match op
    case And => if x == 1 && y == 1 then 1 else 0
    case Or => if x == 1 || y == 1 then 1 else 0
    case Xor => if x != y then 1 else 0
  }

  /** The operator applied to the low n bits of a and b, bit by bit. */
  function Bitwise(op: BitOp, a: nat, b: nat, n: nat): (r: nat)
    ensures r < Pow2(n)
  {
    if n == 0 then 0 else 2 * Bitwise(op, a / 2, b / 2, n - 1) + ApplyBit(op, a % 2, b % 2)
  }

  /** Each bit of the result is the operator applied to the operands' bits at the same place. */
  lemma {:induction false} BitwiseBit(op: BitOp, a: nat, b: nat, n: nat, k: nat)
    requires k < n
    ensures Bit(Bitwise(op, a, b, n), k) == ApplyBit(op, Bit(a, k), Bit(b, k))
  {
    if k > 0 {
      BitwiseBit(op, a / 2, b / 2, n - 1, k - 1);
    }
  }

  /** A pattern below 2^n has no bit at or above n. */
  lemma {:induction false} BitsAbove(x: nat, n: nat, k: nat)
    requires x < Pow2(n) && n <= k
    ensures Bit(x, k) == 0
  {
    if k > 0 {
      if n > 0 {
        BitsAbove(x / 2, n - 1, k - 1);
      } else {
        BitsAbove(x / 2, 0, k - 1);
      }
    }
  }

  /** Two patterns below 2^n that agree on every bit below n are equal. */
  lemma {:induction false} BitExtensionality(x: nat, y: nat, n: nat)
    requires x < Pow2(n) && y < Pow2(n)
    requires forall k :: 0 <= k < n ==> Bit(x, k) == Bit(y, k)
    ensures x == y
  {
    if n > 0 {
      assert Bit(x, 0) == Bit(y, 0);
      forall k | 0 <= k < n - 1
        ensures Bit(x / 2, k) == Bit(y / 2, k)
      {
        assert Bit(x, k + 1) == Bit(y, k + 1);
      }
      BitExtensionality(x / 2, y / 2, n - 1);
    }
  }

  /** Adding two patterns that share no set bit carries nothing: the sum is their bitwise or. */
  lemma {:induction false} DisjointSum(x: nat, y: nat, n: nat)
    requires x < Pow2(n) && y < Pow2(n) && Bitwise(And, x, y, n) == 0
    ensures x + y == Bitwise(Or, x, y, n)
  {
    if n > 0 {
      DisjointSum(x / 2, y / 2, n - 1);
    }
  }

  /** x & y never exceeds y. */
  lemma {:induction false} AndAtMost(x: nat, y: nat, n: nat)
    requires y < Pow2(n)
    ensures Bitwise(And, x, y, n) <= y
  {
    if n > 0 {
      AndAtMost(x / 2, y / 2, n - 1);
    }
  }

  /** Java's int operators &, |, ^ on two ints. */
  function JavaBitwise(op: BitOp, a: Int32, b: Int32): Int32 {
    Pow2ThirtyTwo();
    Signed(Bitwise(op, Unsigned(a), Unsigned(b), 32))
  }

  /** Bit k of a & b, a | b or a ^ b is the operator applied to bit k of a and of b. */
  lemma JavaBitwiseBit(op: BitOp, a: Int32, b: Int32, k: nat)
    requires k < 32
    ensures Bit(Unsigned(JavaBitwise(op, a, b)), k) == ApplyBit(op, Bit(Unsigned(a), k), Bit(Unsigned(b), k))
  {
    Pow2ThirtyTwo();
    BitwiseBit(op, Unsigned(a), Unsigned(b), 32, k);
  }

  /** Java's int +, which wraps around modulo 2^32. */
  function JavaAdd(a: Int32, b: Int32): (r: Int32)
    ensures Unsigned(r) == (Unsigned(a) + Unsigned(b)) % Word
  {
    Signed((Unsigned(a) + Unsigned(b)) % Word)
  }

  /** Two ints are equal when their patterns agree on all 32 bits. */
  lemma SameBits(x: Int32, y: Int32)
    requires forall k :: 0 <= k < 32 ==> Bit(Unsigned(x), k) == Bit(Unsigned(y), k)
    ensures x == y
  {
    Pow2ThirtyTwo();
    BitExtensionality(Unsigned(x), Unsigned(y), 32);
    assert Signed(Unsigned(x)) == x && Signed(Unsigned(y)) == y;
  }

  /** The int with no bit set. */
  lemma ZeroBits(x: Int32)
    requires forall k :: 0 <= k < 32 ==> Bit(Unsigned(x), k) == 0
    ensures x == 0
  {
    forall k | 0 <= k < 32
      ensures Bit(Unsigned(x), k) == Bit(Unsigned(0), k)
    {
      assert Bit(0, k) == 0 by { BitsZero(k); }
    }
    SameBits(x, 0);
  }

  lemma {:induction false} BitsZero(k: nat)
    ensures Bit(0, k) == 0
  {
    if k > 0 {
      BitsZero(k - 1);
    }
  }

  /** -1 has every bit set, so x ^ -1 flips every bit of x. */
  lemma MinusOneBits(k: nat)
    requires k < 32
    ensures Bit(Unsigned(-1), k) == 1
  {
    Pow2ThirtyTwo();
    assert Unsigned(-1) == Pow2(32) - 1;
    AllOnes(32, k);
  }

  lemma {:induction false} AllOnes(n: nat, k: nat)
    requires k < n
    ensures Bit(Pow2(n) - 1, k) == 1
  {
    var m := Pow2(n - 1);
    assert Pow2(n) - 1 == 2 * (m - 1) + 1;
    if k > 0 {
      assert (Pow2(n) - 1) / 2 == m - 1;
      AllOnes(n - 1, k - 1);
    }
  }

  /** Adding two ints with no set bit in common is the same as or-ing them. */
  lemma DisjointJavaAdd(x: Int32, y: Int32)
    requires JavaBitwise(And, x, y) == 0
    ensures JavaAdd(x, y) == JavaBitwise(Or, x, y)
  {
    Pow2ThirtyTwo();
    var ux, uy := Unsigned(x), Unsigned(y);
    assert Bitwise(And, ux, uy, 32) == 0 by {
      assert Unsigned(JavaBitwise(And, x, y)) == Bitwise(And, ux, uy, 32);
    }
    DisjointSum(ux, uy, 32);
    var sum := Bitwise(Or, ux, uy, 32);
    assert ux + uy == sum < Word;
    assert (ux + uy) % Word == sum;
  }

  /** x & y lies between 0 and y for a non-negative y. */
  lemma JavaAndRange(x: Int32, y: Int32)
    requires 0 <= y
    ensures 0 <= JavaBitwise(And, x, y) <= y
  {
    Pow2ThirtyTwo();
    AndAtMost(Unsigned(x), y, 32);
  }
}
