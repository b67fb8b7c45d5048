/**
 The program's words against those of RFC 1321: the standard's functions given bit by bit and its bytes
 and constants as numbers, the same digests.
 */
module Md5Standard {
  import opened Bits
  import opened Bytes
  import opened Md5
  import opened Md5Block
  import opened Md5Words

  // ------------------------------------------------------------- words given by their bits

  /** The number that has these of the low n bits. */
  function FromBits(b: nat -> bool, n: nat): (x: nat)
    ensures x < Pow2(n)
  {
    if n == 0 then 0 else FromBits(b, n - 1) + (if b(n - 1) then Pow2(n - 1) else 0)
  }

  function WordOfBits(b: nat -> bool): (w: word)
  {
    WordRange();
    FromBits(b, 32)
  }

  /** A number is the one of its bits. */
  lemma {:induction false} BitsTell(x: nat, b: nat -> bool, n: nat)
    requires forall j :: 0 <= j < n ==> (Bit(x, j) <==> b(j))
    ensures Low(x, n) == FromBits(b, n)
  {
    if n > 0 {
      BitsTell(x, b, n - 1);
      LowSnoc(x, n - 1);
      assert Bit(x, n - 1) <==> b(n - 1);
    }
  }

  lemma {:induction false} LowSnoc(x: nat, n: nat)
    ensures Low(x, n + 1) == Low(x, n) + (if Bit(x, n) then Pow2(n) else 0)
  {
    if n > 0 {
      LowSnoc(x / 2, n - 1);
    }
  }

  lemma {:induction false} LowIsAll(x: nat, n: nat)
    requires x < Pow2(n)
    ensures Low(x, n) == x
  {
    if n > 0 {
      LowIsAll(x / 2, n - 1);
    }
  }

  /** A word with these bits is that word. */
  lemma WordIs(x: word, b: nat -> bool)
    requires forall j :: 0 <= j < 32 ==> (Bit(x, j) <==> b(j))
    ensures x == WordOfBits(b)
  {
    WordRange();
    BitsTell(x, b, 32);
    LowIsAll(x, 32);
  }

  // ------------------------------------------------------------- section 3.4, bit by bit

  /** In each bit position F acts as a conditional: if x then y else z. */
  function StandardF(x: word, y: word, z: word): (r: word)
  {
    WordOfBits((j: nat) => if Bit(x, j) then Bit(y, j) else Bit(z, j))
  }

  function StandardG(x: word, y: word, z: word): (r: word)
  {
    WordOfBits((j: nat) => if Bit(z, j) then Bit(x, j) else Bit(y, j))
  }

  /** The parity of the three bits. */
  function StandardH(x: word, y: word, z: word): (r: word)
  {
    WordOfBits((j: nat) => Bit(x, j) != (Bit(y, j) != Bit(z, j)))
  }

  function StandardI(x: word, y: word, z: word): (r: word)
  {
    WordOfBits((j: nat) => Bit(y, j) != (Bit(x, j) || !Bit(z, j)))
  }

  /** The place whose bit comes to place j, as each goes s places up and round at the top. */
  function From(j: nat, s: nat): (k: nat)
  {
    if j >= s then j - s else if s < 32 then j + 32 - s else j
  }

  function StandardRotate(w: word, s: nat): (r: word)
  {
    WordOfBits((j: nat) => Bit(w, From(j, s)))
  }

  /** Section 2: addition modulo 2 to the 32. */
  function StandardAdd(x: word, y: word): (r: word)
  {
    if x + y < RANGE then x + y else x + y - RANGE
  }

  function StandardNumber(n: nat): (w: word)
  {
    n % RANGE
  }

  /** Section 2: the low byte of a word comes first. */
  function StandardPack(b0: byte, b1: byte, b2: byte, b3: byte): (w: word)
  {
    b0 + 0x100 * b1 + 0x1_0000 * b2 + 0x100_0000 * b3
  }

  function StandardUnpack(w: word): (r: (byte, byte, byte, byte))
  {
    (w % 0x100, w / 0x100 % 0x100, w / 0x1_0000 % 0x100, w / 0x100_0000)
  }

  /** The words of the standard. */
  function Standard(): (m: Machine<word>)
  {
    Machine(StandardAdd, StandardRotate, StandardF, StandardG, StandardH, StandardI, StandardNumber, StandardPack, StandardUnpack)
  }

  // ------------------------------------------------------------- the program's functions are those

  lemma NotBits(x: word, j: nat)
    requires j < 32
    ensures Bit(Not32(x), j) <==> !Bit(x, j)
  {
    WordRange();
    NotBit(x, 32, j);
  }

  lemma FIsStandard(x: word, y: word, z: word)
    ensures F(x, y, z) == StandardF(x, y, z)
  {
    forall j | 0 <= j < 32
      ensures Bit(F(x, y, z), j) <==> if Bit(x, j) then Bit(y, j) else Bit(z, j)
    {
      XorBit(y, z, j);
      AndBit(x, Xor32(y, z), j);
      XorBit(z, And32(x, Xor32(y, z)), j);
    }
    WordIs(F(x, y, z), (j: nat) => if Bit(x, j) then Bit(y, j) else Bit(z, j));
  }

  lemma GIsStandard(x: word, y: word, z: word)
    ensures G(x, y, z) == StandardG(x, y, z)
  {
    FIsStandard(z, x, y);
  }

  lemma HIsStandard(x: word, y: word, z: word)
    ensures H(x, y, z) == StandardH(x, y, z)
  {
    forall j | 0 <= j < 32
      ensures Bit(H(x, y, z), j) <==> Bit(x, j) != (Bit(y, j) != Bit(z, j))
    {
      XorBit(x, y, j);
      XorBit(Xor32(x, y), z, j);
    }
    WordIs(H(x, y, z), (j: nat) => Bit(x, j) != (Bit(y, j) != Bit(z, j)));
  }

  lemma IIsStandard(x: word, y: word, z: word)
    ensures I(x, y, z) == StandardI(x, y, z)
  {
    forall j | 0 <= j < 32
      ensures Bit(I(x, y, z), j) <==> Bit(y, j) != (Bit(x, j) || !Bit(z, j))
    {
      NotBits(z, j);
      OrBit(x, Not32(z), j);
      XorBit(y, Or32(x, Not32(z)), j);
    }
    WordIs(I(x, y, z), (j: nat) => Bit(y, j) != (Bit(x, j) || !Bit(z, j)));
  }

  lemma {:induction false} ShlBit(x: nat, n: nat, j: nat)
    ensures Bit(Shl(x, n), j) <==> j >= n && Bit(x, j - n)
    decreases n
  {
    if n > 0 {
      ShlBit(x, n - 1, if j > 0 then j - 1 else 0);
    }
  }

  lemma {:induction false} ShrShr(x: nat, m: nat, n: nat)
    ensures Shr(Shr(x, m), n) == Shr(x, m + n)
    decreases m
  {
    if m > 0 {
      ShrShr(x / 2, m - 1, n);
    }
  }

  lemma {:induction false} LowBit(x: nat, n: nat, j: nat)
    ensures Bit(Low(x, n), j) <==> j < n && Bit(x, j)
    decreases n
  {
    if n == 0 {
      NoBits(j);
    } else if j > 0 {
      LowBit(x / 2, n - 1, j - 1);
      assert Low(x, n) / 2 == Low(x / 2, n - 1);
    }
  }

  lemma {:induction false} LowIsRest(x: nat, n: nat)
    ensures x % Pow2(n) == Low(x, n)
  {
    Split(x, n);
    ShlOfPow2(Shr(x, n), n);
    DivUnique(x, Pow2(n), Shr(x, n), Low(x, n));
  }

  /** Bit j of a word goes to place j + s, round at the top. */
  lemma RotateIsStandard(w: word, s: nat)
    requires s < 32
    ensures Rotate(w, s) == StandardRotate(w, s)
  {
    var r := Rotate(w, s);
    forall j: nat | j < 32
      ensures Bit(r, j) <==> Bit(w, From(j, s))
    {
      RotateBit(w, s, j);
    }
    WordIs(r, (j: nat) => Bit(w, From(j, s)));
  }

  lemma RotateBit(w: word, s: nat, j: nat)
    requires s < 32 && j < 32
    ensures Bit(Rotate(w, s), j) <==> Bit(w, From(j, s))
  {
    if s > 0 {
      var high, low := Shl32(w, s), Shr32(w, 32 - s);
      OrBit(high, low, j);
      WordRange();
      LowIsRest(Shl(w, s), 32);
      LowBit(Shl(w, s), 32, j);
      ShlBit(w, s, j);
      ShrShr(w, 32 - s, j);
      if j >= s {
        BitBeyond(w, 32 - s + j);
      }
    }
  }

  /** What rotation means: bit j of the word is bit (j + s) mod 32 of the result. */
  lemma RotatedBit(w: word, s: nat, j: nat)
    requires s < 32 && j < 32
    ensures Bit(Rotate(w, s), (j + s) % 32) <==> Bit(w, j)
  {
    var k := if j + s < 32 then j + s else j + s - 32;
    assert (j + s) % 32 == k;
    RotateBit(w, s, k);
  }

  lemma BitBeyond(w: word, j: nat)
    requires j >= 32
    ensures !Bit(w, j)
  {
    WordRange();
    ShrZeroIff(w, 32);
    ShrShr(w, 32, j - 32);
    NoBits(j - 32);
  }

  // ------------------------------------------------------------- bytes

  lemma BytePlaces()
    ensures Pow2(8) == 0x100 && Pow2(16) == 0x1_0000 && Pow2(24) == 0x100_0000
  {
    assert Pow2(4) == 16;
    Squared(4);
    Squared(8);
    Pow2Shl(16, 8);
    ShlOfPow2(Pow2(16), 8);
  }

  /** A byte or-ed in above the n bits that are there. */
  lemma OrByte(low: word, b: byte, n: nat, high: nat)
    requires low < Pow2(n) && high == Shl(b, n) && high < RANGE
    ensures Or32(low, Shl32(b, n)) == low + high
  {
    OrIsSum(b, low, n);
  }

  lemma ByteAt(b: byte)
    ensures Shl(b, 8) == 0x100 * b && Shl(b, 16) == 0x1_0000 * b && Shl(b, 24) == 0x100_0000 * b
  {
    BytePlaces();
    ShlOfPow2(b, 8);
    ShlOfPow2(b, 16);
    ShlOfPow2(b, 24);
  }

  lemma PackIsStandard(b0: byte, b1: byte, b2: byte, b3: byte)
    ensures Pack(b0, b1, b2, b3) == StandardPack(b0, b1, b2, b3)
  {
    BytePlaces();
    ByteAt(b1);
    ByteAt(b2);
    ByteAt(b3);
    OrByte(b0, b1, 8, 0x100 * b1);
    OrByte(b0 + 0x100 * b1, b2, 16, 0x1_0000 * b2);
    OrByte(b0 + 0x100 * b1 + 0x1_0000 * b2, b3, 24, 0x100_0000 * b3);
  }

  lemma ShrIs(w: nat, n: nat)
    ensures Shr(w, n) == w / Pow2(n)
  {
    Split(w, n);
    ShlOfPow2(Shr(w, n), n);
    DivUnique(w, Pow2(n), Shr(w, n), Low(w, n));
  }

  lemma UnpackIsStandard(w: word)
    ensures Unpack(w) == StandardUnpack(w)
  {
    BytePlaces();
    ShrIs(w, 8);
    ShrIs(w, 16);
    ShrIs(w, 24);
  }

  lemma BytesAre(w: word, b0: byte, b1: byte, b2: byte, b3: byte)
    requires w == StandardPack(b0, b1, b2, b3)
    ensures BytesOf(Words32(), w) == [b0, b1, b2, b3]
  {
    UnpackIsStandard(w);
    UnpackUndoesPack(b0, b1, b2, b3);
  }

  lemma UnpackUndoesPack(b0: byte, b1: byte, b2: byte, b3: byte)
    ensures StandardUnpack(StandardPack(b0, b1, b2, b3)) == (b0, b1, b2, b3)
  {
    var w := StandardPack(b0, b1, b2, b3);
    var top := b2 + 0x100 * b3;
    var rest := b1 + 0x100 * top;
    DivUnique(w, 0x100, rest, b0);
    DivUnique(rest, 0x100, top, b1);
    DivUnique(w, 0x1_0000, top, b0 + 0x100 * b1);
    DivUnique(top, 0x100, b3, b2);
    DivUnique(w, 0x100_0000, b3, b0 + 0x100 * b1 + 0x1_0000 * b2);
  }

  /** The words of a block hold its bytes in order. */
  lemma BlockIsItsWords(block: seq<byte>, k: nat)
    requires |block| == 64 && k < 16
    ensures BytesOf(Words32(), Words(Words32(), block)[k]) == block[4 * k..4 * k + 4]
  {
    var b0, b1, b2, b3 := block[4 * k], block[4 * k + 1], block[4 * k + 2], block[4 * k + 3];
    PackIsStandard(b0, b1, b2, b3);
    BytesAre(Pack(b0, b1, b2, b3), b0, b1, b2, b3);
  }

  lemma OneByteUp(x: nat, m: nat)
    ensures Shr(x / 0x100, m) == Shr(x, 8 + m)
  {
    ShrShr(x, 8, m);
    BytePlaces();
    ShrIs(x, 8);
  }

  /** The length behind the padding stands low byte first. */
  lemma {:induction false} LittleByte(x: nat, n: nat, k: nat)
    requires k < n
    ensures Little(x, n)[k] == Shr(x, 8 * k) % 0x100
    decreases n
  {
    if k > 0 {
      LittleByte(x / 0x100, n - 1, k - 1);
      OneByteUp(x, 8 * (k - 1));
    }
  }

  /** The initial state is the sixteen bytes of section 3.3. */
  lemma InitialBytes()
    ensures Output(Words32(), Initial(Words32())) ==
      [0x01, 0x23, 0x45, 0x67] + [0x89, 0xab, 0xcd, 0xef] + [0xfe, 0xdc, 0xba, 0x98] + [0x76, 0x54, 0x32, 0x10]
  {
    BytesAre(0x67452301, 0x01, 0x23, 0x45, 0x67);
    BytesAre(0xefcdab89, 0x89, 0xab, 0xcd, 0xef);
    BytesAre(0x98badcfe, 0xfe, 0xdc, 0xba, 0x98);
    BytesAre(0x10325476, 0x76, 0x54, 0x32, 0x10);
  }

  // ------------------------------------------------------------- machines that agree

  /** The two machines do the same, with rotations of less than a word. */
  ghost predicate Agree(m: Machine<word>, n: Machine<word>)
  {
    && (forall x, y :: m.add(x, y) == n.add(x, y))
    && (forall w, s: nat :: s < 32 ==> m.rotate(w, s) == n.rotate(w, s))
    && (forall x, y, z :: m.f(x, y, z) == n.f(x, y, z))
    && (forall x, y, z :: m.g(x, y, z) == n.g(x, y, z))
    && (forall x, y, z :: m.h(x, y, z) == n.h(x, y, z))
    && (forall x, y, z :: m.i(x, y, z) == n.i(x, y, z))
    && (forall k: nat :: m.number(k) == n.number(k))
    && (forall b0, b1, b2, b3 :: m.pack(b0, b1, b2, b3) == n.pack(b0, b1, b2, b3))
    && (forall w :: m.unpack(w) == n.unpack(w))
  }

  lemma ProgramAgrees()
    ensures Agree(Words32(), Standard())
  {
    forall w: word, s: nat | s < 32 ensures Rotate(w, s) == StandardRotate(w, s) { RotateIsStandard(w, s); }
    forall x: word, y: word, z: word ensures F(x, y, z) == StandardF(x, y, z) { FIsStandard(x, y, z); }
    forall x: word, y: word, z: word ensures G(x, y, z) == StandardG(x, y, z) { GIsStandard(x, y, z); }
    forall x: word, y: word, z: word ensures H(x, y, z) == StandardH(x, y, z) { HIsStandard(x, y, z); }
    forall x: word, y: word, z: word ensures I(x, y, z) == StandardI(x, y, z) { IIsStandard(x, y, z); }
    forall b0: byte, b1: byte, b2: byte, b3: byte ensures Pack(b0, b1, b2, b3) == StandardPack(b0, b1, b2, b3) { PackIsStandard(b0, b1, b2, b3); }
    forall w: word ensures Unpack(w) == StandardUnpack(w) { UnpackIsStandard(w); }
  }

  lemma SameStep(m: Machine<word>, n: Machine<word>, i: nat, r: State<word>, x: seq<word>)
    requires Agree(m, n) && |x| == 16
    ensures Step(m, i, r, x) == Step(n, i, r, x)
  {
    assert Turn(i) < 32;
    assert Mix(m, i, r.b, r.c, r.d) == Mix(n, i, r.b, r.c, r.d);
  }

  /** Functions that agree step by step agree over runs. */
  lemma {:induction false} SameRun<S(!new)>(f: (nat, S) -> S, g: (nat, S) -> S, i: nat, n: nat, r: S)
    requires forall j, s :: f(j, s) == g(j, s)
    ensures Run(f, i, n, r) == Run(g, i, n, r)
    decreases n
  {
    if n > 0 {
      SameRun(f, g, i + 1, n - 1, f(i, r));
    }
  }

  lemma SameCompress(m: Machine<word>, n: Machine<word>, r: State<word>, block: seq<byte>)
    requires Agree(m, n) && |block| == 64
    ensures Compress(m, r, block) == Compress(n, r, block)
  {
    var x := Words(m, block);
    assert x == Words(n, block);
    var f, g := Stepper(m, x), Stepper(n, x);
    forall j: nat, s ensures f(j, s) == g(j, s) {
      SameStep(m, n, j, s, x);
    }
    SameRun(f, g, 0, 16 * FOUR, r);
  }

  lemma {:induction false} SameAbsorb<S(!new)>(f: (S, seq<byte>) -> S, g: (S, seq<byte>) -> S, r: S, s: seq<byte>)
    requires forall t, block :: f(t, block) == g(t, block)
    ensures Absorb(f, r, s) == Absorb(g, r, s)
    decreases |s|
  {
    if |s| >= BLOCK {
      SameAbsorb(f, g, f(r, s[..BLOCK]), s[BLOCK..]);
    }
  }

  lemma SameDigest(m: Machine<word>, n: Machine<word>, message: seq<byte>)
    requires Agree(m, n)
    ensures Digest(m, message) == Digest(n, message)
  {
    var f, g := Compressor(m), Compressor(n);
    forall t, block: seq<byte> ensures f(t, block) == g(t, block) {
      if |block| == 64 {
        SameCompress(m, n, t, block);
      }
    }
    assert Initial(m) == Initial(n);
    SameAbsorb(f, g, Initial(m), Padded(message));
  }

  /** What the program computes is the digest of the standard. */
  lemma DigestIsStandard(message: seq<byte>)
    ensures Digest(Words32(), message) == Digest(Standard(), message)
  {
    ProgramAgrees();
    SameDigest(Words32(), Standard(), message);
  }

  /** A message taken in pieces, on the program's words, gives the standard's digest of the whole. */
  method StandardDigest(pieces: seq<seq<byte>>) returns (digest: seq<byte>)
    ensures digest == Digest(Standard(), Flatten(pieces))
  {
    DigestIsStandard(Flatten(pieces));
    digest := DigestOf(Words32(), pieces);
  }
}
