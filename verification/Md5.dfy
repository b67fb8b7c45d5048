/** The digest of a message that comes in pieces: sections 3.1 to 3.5 of RFC 1321. */
module Md5 {
  import Bits
  import opened Bytes
  import opened Md5Block

  const BLOCK := 64
  const COUNT_BYTES: nat := 8
  const COUNT_RANGE := 0x1_0000_0000_0000_0000

  // ------------------------------------------------------------- the digest of a whole message

  /** Section 3.3. */
  function Initial<W>(m: Machine<W>): (r: State<W>)
  {
    State(m.number(0x67452301), m.number(0xefcdab89), m.number(0x98badcfe), m.number(0x10325476))
  }

  /** All full blocks of a string worked into the state. */
  function Absorb<S>(f: (S, seq<byte>) -> S, r: S, s: seq<byte>): (t: S)
    decreases |s|
  {
    if |s| < BLOCK then r else Absorb(f, f(r, s[..BLOCK]), s[BLOCK..])
  }

  /** What is left of a string behind its last full block. */
  function Tail(s: seq<byte>): (t: seq<byte>)
    ensures |t| == |s| % BLOCK
  {
    s[|s| - |s| % BLOCK..]
  }

  /** A number of n bytes, low byte first. */
  function Little(x: nat, n: nat): (s: seq<byte>)
    ensures |s| == n
  {
    if n == 0 then [] else [x % 0x100] + Little(x / 0x100, n - 1)
  }

  /** Bits of the message, modulo 2 to the 64. */
  function BitCount(length: nat): (n: nat)
  {
    8 * length % COUNT_RANGE
  }

  /** Zero bytes that bring the length to 56 modulo 64, behind the one byte of 0x80. */
  function Zeros(length: nat): (n: nat)
    ensures n < BLOCK && (length + 1 + n) % BLOCK == 56
  {
    (BLOCK + 55 - length % BLOCK) % BLOCK
  }

  lemma EightMore(n: nat)
    requires n % BLOCK == 56
    ensures (n + COUNT_BYTES) % BLOCK == 0
  {
  }

  /** Sections 3.1 and 3.2: the message, a one bit, zero bits, and its length. */
  function Padded(message: seq<byte>): (s: seq<byte>)
    ensures |s| % BLOCK == 0
  {
    EightMore(|message| + 1 + Zeros(|message|));
    message + [0x80] + seq(Zeros(|message|), _ => 0) + Little(BitCount(|message|), COUNT_BYTES)
  }

  function BytesOf<W>(m: Machine<W>, w: W): (s: seq<byte>)
  {
    var b := m.unpack(w);
    [b.0, b.1, b.2, b.3]
  }

  /** Section 3.5. */
  function Output<W>(m: Machine<W>, r: State<W>): (s: seq<byte>)
  {
    BytesOf(m, r.a) + BytesOf(m, r.b) + BytesOf(m, r.c) + BytesOf(m, r.d)
  }

  function Digest<W>(m: Machine<W>, message: seq<byte>): (d: seq<byte>)
  {
    Output(m, Absorb(Compressor(m), Initial(m), Padded(message)))
  }

  // ------------------------------------------------------------- pieces

  lemma {:induction false} AbsorbBlocks<S>(f: (S, seq<byte>) -> S, r: S, a: seq<byte>, b: seq<byte>)
    requires |a| % BLOCK == 0
    ensures Absorb(f, r, a + b) == Absorb(f, Absorb(f, r, a), b)
    decreases |a|
  {
    if a == [] {
      assert a + b == b;
    } else {
      assert |a| >= BLOCK;
      assert (a + b)[..BLOCK] == a[..BLOCK] && (a + b)[BLOCK..] == a[BLOCK..] + b;
      AbsorbBlocks(f, f(r, a[..BLOCK]), a[BLOCK..], b);
    }
  }

  /** Only the tail matters for what comes next. */
  lemma AbsorbMore<S>(f: (S, seq<byte>) -> S, r: S, a: seq<byte>, b: seq<byte>)
    ensures Absorb(f, r, a + b) == Absorb(f, Absorb(f, r, a), Tail(a) + b)
    ensures Tail(a + b) == Tail(Tail(a) + b)
  {
    var head := a[..|a| - |a| % BLOCK];
    assert a == head + Tail(a);
    assert a + b == head + (Tail(a) + b);
    AbsorbBlocks(f, r, head, Tail(a));
    AbsorbBlocks(f, r, head, Tail(a) + b);
    assert Absorb(f, Absorb(f, r, head), Tail(a)) == Absorb(f, r, head);
    TailOfBlocks(head, Tail(a) + b);
  }

  lemma TailOfBlocks(head: seq<byte>, s: seq<byte>)
    requires |head| % BLOCK == 0
    ensures Tail(head + s) == Tail(s)
  {
    assert (|head| + |s|) % BLOCK == |s| % BLOCK;
  }

  /** The count in bits still tells how much of a block is there. */
  lemma CountTells(length: nat)
    ensures BitCount(length) / 8 % BLOCK == length % BLOCK
  {
    var range := COUNT_RANGE / 8;
    var q, low := length / range, length % range;
    assert length == q * range + low;
    Bits.DivUnique(8 * length, COUNT_RANGE, q, 8 * low);
    assert BitCount(length) / 8 == low;
    var k := range / BLOCK;
    Bits.DivUnique(length, BLOCK, q * k + low / BLOCK, low % BLOCK);
  }

  lemma CountAdds(a: nat, b: nat)
    ensures (BitCount(a) + 8 * b % COUNT_RANGE) % COUNT_RANGE == BitCount(a + b)
  {
  }

  lemma SameRemainder(a: seq<byte>, b: seq<byte>)
    ensures |Tail(a) + b| % BLOCK == |a + b| % BLOCK
  {
  }

  lemma FirstBlock(whole: seq<byte>, block: seq<byte>, rest: seq<byte>)
    requires |block| == BLOCK && |whole| >= BLOCK && (whole == block + rest || (whole[..BLOCK] == block && whole[BLOCK..] == rest))
    ensures whole[..BLOCK] == block && whole[BLOCK..] == rest && Tail(whole) == Tail(rest)
  {
    assert whole == whole[..BLOCK] + whole[BLOCK..];
    assert block + rest == whole;
    TailOfBlocks(block, rest);
  }

  class Context<W(!new)> {
    const m: Machine<W>
    var state: State<W>
    var count: nat
    const buffer: array<byte>
    /** What came in so far, and the compression as a function. */
    ghost var message: seq<byte>
    ghost const f: (State<W>, seq<byte>) -> State<W>

    ghost predicate Valid()
      reads this, buffer
    {
      && buffer.Length == BLOCK && Computes(f, m)
      && count == BitCount(|message|)
      && state == Absorb(f, Initial(m), message)
      && buffer[..|message| % BLOCK] == Tail(message)
    }

    constructor (m: Machine<W>)
      ensures Valid() && fresh(buffer) && message == [] && this.m == m && f == Compressor(m)
    {
      this.m := m;
      f := Compressor(m);
      buffer := new byte[BLOCK](_ => 0);
      state := Initial(m);
      count := 0;
      message := [];
      CompressorComputes(m);
    }

    /** Bytes into the buffer. */
    method Fill(have: nat, data: seq<byte>)
      requires have + |data| <= buffer.Length
      modifies buffer
      ensures buffer[..have + |data|] == old(buffer[..have]) + data
    {
      var i := 0;
      while i < |data|
        invariant i <= |data| && buffer[..have + i] == old(buffer[..have]) + data[..i]
      {
        buffer[have + i] := data[i];
        i := i + 1;
      }
      assert data[..i] == data;
    }

    /** A block begun in the buffer, with the start of the input. */
    method Complete(have: nat, input: seq<byte>, ghost whole: seq<byte>) returns (rest: seq<byte>)
      requires have < BLOCK == buffer.Length && Computes(f, m) && have + |input| >= BLOCK
      requires whole == buffer[..have] + input
      modifies this`state, buffer
      ensures Absorb(f, old(state), whole) == Absorb(f, state, rest) && Tail(whole) == Tail(rest)
    {
      rest := input;
      if have != 0 {
        var need := BLOCK - have;
        Fill(have, rest[..need]);
        rest := rest[need..];
        FirstBlock(whole, buffer[..], rest);
        state := Transform(m, state, buffer[..], f);
      } else {
        assert whole == rest;
      }
    }

    /** What the buffer cannot hold goes into the state: first a block with what it holds, then whole blocks. */
    method Drain(have: nat, input: seq<byte>, ghost whole: seq<byte>) returns (rest: seq<byte>)
      requires have < BLOCK == buffer.Length && Computes(f, m) && have + |input| >= BLOCK
      requires whole == buffer[..have] + input
      modifies this`state, buffer
      ensures |rest| < BLOCK && state == Absorb(f, old(state), whole) && Tail(whole) == rest
    {
      rest := Complete(have, input, whole);
      while |rest| >= BLOCK
        invariant Absorb(f, old(state), whole) == Absorb(f, state, rest) && Tail(whole) == Tail(rest)
        decreases |rest|
      {
        FirstBlock(rest, rest[..BLOCK], rest[BLOCK..]);
        state := Transform(m, state, rest[..BLOCK], f);
        rest := rest[BLOCK..];
      }
    }

    /** Input behind what the buffer holds: full blocks into the state, what is left of them into the buffer. */
    method Take(have: nat, input: seq<byte>, ghost whole: seq<byte>)
      requires have < BLOCK == buffer.Length && Computes(f, m) && whole == buffer[..have] + input
      modifies this`state, buffer
      ensures state == Absorb(f, old(state), whole) && buffer[..|whole| % BLOCK] == Tail(whole)
    {
      if have + |input| >= BLOCK {
        var rest := Drain(have, input, whole);
        Fill(0, rest);
        assert |rest| == |whole| % BLOCK;
        assert buffer[..0] == [] && [] + rest == rest;
      } else {
        Fill(have, input);
        assert Tail(whole) == whole;
      }
    }

    /** More of the message. */
    method Update(input: seq<byte>)
      requires Valid()
      modifies this, buffer
      ensures Valid() && message == old(message) + input
    {
      var have := count / 8 % BLOCK;
      CountTells(|message|);
      CountAdds(|message|, |input|);
      AbsorbMore(f, Initial(m), message, input);
      ghost var whole := Tail(message) + input;
      Take(have, input, whole);
      SameRemainder(message, input);
      count := (count + 8 * |input| % COUNT_RANGE) % COUNT_RANGE;
      message := message + input;
    }

    /** The padding of sections 3.1 and 3.2. */
    method Pad()
      requires Valid()
      modifies this, buffer
      ensures Valid() && message == Padded(old(message))
    {
      ghost var was := message;
      var bits := Little(count, COUNT_BYTES);
      CountTells(|message|);
      var padLength := BLOCK - count / 8 % BLOCK;
      if padLength < 9 {
        padLength := padLength + BLOCK;
      }
      ZerosAre(|was|, padLength);
      var padding := [0x80] + seq(padLength - 9, _ => 0);
      Update(padding);
      Update(bits);
      PaddedIs(was, padding, bits);
    }

    /** The digest of everything that came in, however it came in. */
    method Final() returns (digest: seq<byte>)
      requires Valid() && f == Compressor(m)
      modifies this, buffer
      ensures digest == Digest(m, old(message))
    {
      Pad();
      digest := Output(m, state);
    }
  }

  lemma ZerosAre(length: nat, padLength: nat)
    requires padLength == (if length % BLOCK > 55 then 2 * BLOCK else BLOCK) - length % BLOCK
    ensures padLength - 9 == Zeros(length)
  {
  }

  lemma PaddedIs(message: seq<byte>, padding: seq<byte>, bits: seq<byte>)
    requires padding == [0x80] + seq(Zeros(|message|), _ => 0) && bits == Little(BitCount(|message|), COUNT_BYTES)
    ensures message + padding + bits == Padded(message)
  {
  }

  lemma OnePieceMore(pieces: seq<seq<byte>>, i: nat)
    requires i < |pieces|
    ensures Flatten(pieces[..i + 1]) == Flatten(pieces[..i]) + pieces[i]
  {
    assert pieces[..i + 1] == pieces[..i] + [pieces[i]];
    FlattenSnoc(pieces[..i], pieces[i]);
  }

  /** A message taken in pieces gives the digest of the pieces put together. */
  method DigestOf<W(!new)>(m: Machine<W>, pieces: seq<seq<byte>>) returns (digest: seq<byte>)
    ensures digest == Digest(m, Flatten(pieces))
  {
    var context := new Context(m);
    var i := 0;
    while i < |pieces|
      invariant i <= |pieces| && context.Valid() && context.m == m && context.f == Compressor(m) && fresh(context) && fresh(context.buffer)
      invariant context.message == Flatten(pieces[..i])
    {
      context.Update(pieces[i]);
      OnePieceMore(pieces, i);
      i := i + 1;
    }
    assert pieces[..i] == pieces;
    digest := context.Final();
  }
}
