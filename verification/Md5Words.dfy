/** Words of 32 bits, as numbers: the arithmetic of RFC 1321 as the program has it. */
module Md5Words {
  import opened Bits
  import opened Bytes
  import opened Md5Block

  const RANGE := 0x1_0000_0000
  const WIDTH: nat := 32

  type word = x: int | 0 <= x < 0x1_0000_0000

  /** Bitwise exclusive or. */
  function Xor(a: nat, b: nat): (r: nat)
    decreases a + b
  {
    if a == 0 then b
    else if b == 0 then a
    else (if a % 2 != b % 2 then 1 else 0) + 2 * Xor(a / 2, b / 2)
  }

  /** Bit j of a number. */
  predicate Bit(x: nat, j: nat)
  {
    Shr(x, j) % 2 == 1
  }

  // ------------------------------------------------------------- bit by bit

  lemma {:induction false} XorRange(a: nat, b: nat, w: nat)
    requires a < Pow2(w) && b < Pow2(w)
    ensures Xor(a, b) < Pow2(w)
    decreases w
  {
    if a > 0 && b > 0 {
      XorRange(a / 2, b / 2, w - 1);
    }
  }

  lemma {:induction false} AndRange(a: nat, b: nat)
    ensures And(a, b) <= a && And(a, b) <= b
    decreases a
  {
    if a > 0 && b > 0 {
      AndRange(a / 2, b / 2);
    }
  }

  lemma {:induction false} NoBits(j: nat)
    ensures Shr(0, j) == 0 && !Bit(0, j)
  {
    if j > 0 {
      NoBits(j - 1);
    }
  }

  lemma {:induction false} XorBit(a: nat, b: nat, j: nat)
    ensures Bit(Xor(a, b), j) <==> Bit(a, j) != Bit(b, j)
    decreases j
  {
    NoBits(j);
    if j > 0 && a > 0 && b > 0 {
      XorBit(a / 2, b / 2, j - 1);
    }
  }

  lemma {:induction false} AndBit(a: nat, b: nat, j: nat)
    ensures Bit(And(a, b), j) <==> Bit(a, j) && Bit(b, j)
    decreases j
  {
    NoBits(j);
    if j > 0 && a > 0 && b > 0 {
      AndBit(a / 2, b / 2, j - 1);
    }
  }

  lemma {:induction false} OrBit(a: nat, b: nat, j: nat)
    ensures Bit(Or(a, b), j) <==> Bit(a, j) || Bit(b, j)
    decreases j
  {
    NoBits(j);
    if j > 0 && a > 0 && b > 0 {
      OrBit(a / 2, b / 2, j - 1);
    }
  }

  lemma {:induction false} NotBit(x: nat, w: nat, j: nat)
    requires x < Pow2(w) && j < w
    ensures Bit(Pow2(w) - 1 - x, j) <==> !Bit(x, j)
    decreases j
  {
    assert (Pow2(w) - 1 - x) / 2 == Pow2(w - 1) - 1 - x / 2 && (Pow2(w) - 1 - x) % 2 == 1 - x % 2;
    if j > 0 {
      NotBit(x / 2, w - 1, j - 1);
    }
  }

  lemma WordRange()
    ensures Pow2(32) == RANGE
  {
    assert Pow2(4) == 16;
    Squared(4);
    Squared(8);
    Squared(16);
  }

  lemma Squared(n: nat)
    ensures Pow2(n + n) == Pow2(n) * Pow2(n)
  {
    Pow2Shl(n, n);
    ShlOfPow2(Pow2(n), n);
  }

  lemma {:induction false} ShlOfPow2(x: nat, n: nat)
    ensures Shl(x, n) == x * Pow2(n)
  {
    if n > 0 {
      ShlOfPow2(x, n - 1);
      assert 2 * (x * Pow2(n - 1)) == x * (2 * Pow2(n - 1));
    }
  }

  // ------------------------------------------------------------- the program's words

  function And32(x: word, y: word): (r: word)
  {
    AndRange(x, y);
    And(x, y)
  }

  function Or32(x: word, y: word): (r: word)
  {
    WordRange();
    OrRange(x, y, 32);
    Or(x, y)
  }

  function Xor32(x: word, y: word): (r: word)
  {
    WordRange();
    XorRange(x, y, 32);
    Xor(x, y)
  }

  function Not32(x: word): (r: word)
  {
    RANGE - 1 - x
  }

  /** The places shifted out of the word are lost. */
  function Shl32(x: word, n: nat): (r: word)
  {
    Shl(x, n) % RANGE
  }

  function Shr32(x: word, n: nat): (r: word)
  {
    ShrLess(x, n);
    Shr(x, n)
  }

  lemma {:induction false} ShrLess(x: nat, n: nat)
    ensures Shr(x, n) <= x
  {
    if n > 0 {
      ShrLess(x / 2, n - 1);
    }
  }

  /** Selects by the bits of x; with one operation less than section 3.4 of RFC 1321 has it. */
  function F(x: word, y: word, z: word): (r: word)
  {
    Xor32(z, And32(x, Xor32(y, z)))
  }

  /** Selects by the bits of z. */
  function G(x: word, y: word, z: word): (r: word)
  {
    F(z, x, y)
  }

  function H(x: word, y: word, z: word): (r: word)
  {
    Xor32(Xor32(x, y), z)
  }

  function I(x: word, y: word, z: word): (r: word)
  {
    Xor32(y, Or32(x, Not32(z)))
  }

  function Rotate(w: word, s: nat): (r: word)
  {
    if 0 < s < 32 then Or32(Shl32(w, s), Shr32(w, 32 - s)) else w
  }

  function Pack(b0: byte, b1: byte, b2: byte, b3: byte): (w: word)
  {
    Or32(Or32(Or32(b0, Shl32(b1, 8)), Shl32(b2, 16)), Shl32(b3, 24))
  }

  function LowByte(w: word): (b: byte)
  {
    w % 0x100
  }

  function Unpack(w: word): (r: (byte, byte, byte, byte))
  {
    (LowByte(w), LowByte(Shr32(w, 8)), LowByte(Shr32(w, 16)), LowByte(Shr32(w, 24)))
  }

  function Add(x: word, y: word): (r: word)
  {
    (x + y) % RANGE
  }

  function Number(n: nat): (w: word)
  {
    n % RANGE
  }

  /** The machine that the program runs on. */
  function Words32(): (m: Machine<word>)
  {
    Machine(Add, Rotate, F, G, H, I, Number, Pack, Unpack)
  }
}
