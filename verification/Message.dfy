/** The layout of messages: blocks of a command, a length and fields, and how they are taken apart again. */
module Message {
  import Bits
  import opened Bytes
  import opened Common

  datatype Field =
    | Int(value: nat)
    | Long(value: nat)
    | Str(text: seq<byte>)
    | Raw(data: seq<byte>)

  /** What a reader asks for. */
  datatype Kind = AnInt | ALong | AString | Bytes(n: nat)

  /** A block with the length its header gives: 0 until it is known. */
  datatype Block = Block(command: byte, len: nat, fields: seq<Field>)

  const HEADER := 4
  const LENGTHS := 0x1_0000

  // ------------------------------------------------------------- the layout

  function Range(n: nat): (r: nat)
    ensures r > 0
  {
    if n == 0 then 1 else 0x100 * Range(n - 1)
  }

  /** A number of n bytes, high byte first. */
  function Big(x: nat, n: nat): (s: seq<byte>)
    ensures |s| == n
  {
    if n == 0 then [] else [x / Range(n - 1) % 0x100] + Big(x % Range(n - 1), n - 1)
  }

  /** The number that bytes spell behind what is read before. */
  function Spelled(v: nat, s: seq<byte>): (x: nat)
    decreases s
  {
    if s == [] then v else Spelled(0x100 * v + s[0], s[1..])
  }

  /** The first byte, and the number that the others spell. */
  lemma FirstByte(x: nat, n: nat) returns (top: byte, rest: nat)
    requires n > 0 && x < Range(n)
    ensures Big(x, n) == [top] + Big(rest, n - 1) && x == top * Range(n - 1) + rest && rest < Range(n - 1)
    ensures top == x / Range(n - 1) && rest == x % Range(n - 1)
  {
    DivBelow(x, Range(n - 1));
    top, rest := x / Range(n - 1), x % Range(n - 1);
  }

  lemma {:induction false} SpelledBig(v: nat, x: nat, n: nat)
    requires x < Range(n)
    ensures Spelled(v, Big(x, n)) == v * Range(n) + x
    decreases n
  {
    if n > 0 {
      var top, rest := FirstByte(x, n);
      SpelledCons(v, top, Big(rest, n - 1));
      SpelledBig(0x100 * v + top, rest, n - 1);
      Shift(v, top, Range(n - 1));
    }
  }

  lemma SpelledCons(v: nat, b: byte, s: seq<byte>)
    ensures Spelled(v, [b] + s) == Spelled(0x100 * v + b, s)
  {
    assert ([b] + s)[1..] == s;
  }

  lemma DivBelow(x: nat, r: nat)
    requires r > 0 && x < 0x100 * r
    ensures x / r < 0x100 && x == x / r * r + x % r
  {
    assert x == x / r * r + x % r;
    if x / r > 0xFF {
      Bits.MulGap(0xFF, x / r, r);
    }
  }

  lemma Shift(v: nat, top: nat, r: nat)
    ensures (0x100 * v + top) * r == v * (0x100 * r) + top * r
  {
  }

  function Encode(f: Field): (s: seq<byte>)
  {
    match f
    case Int(v) => Big(v, INT_BYTES)
    case Long(v) => Big(v, LONG_BYTES)
    case Str(t) => [|t| % 0x100] + t
    case Raw(d) => d
  }

  function EncodeAll(fs: seq<Field>): (s: seq<byte>)
  {
    if fs == [] then [] else Encode(fs[0]) + EncodeAll(fs[1..])
  }

  function Header(b: Block): (s: seq<byte>)
    ensures |s| == HEADER
  {
    [b.command, 0, b.len / 0x100 % 0x100, b.len % 0x100]
  }

  function BlockBytes(b: Block): (s: seq<byte>)
    ensures |s| >= HEADER
  {
    Header(b) + EncodeAll(b.fields)
  }

  function Encoding(bs: seq<Block>): (s: seq<byte>)
  {
    if bs == [] then [] else BlockBytes(bs[0]) + Encoding(bs[1..])
  }

  /** A block when it ends: a length not given before is filled in. */
  function Ended(b: Block): (e: Block)
  {
    if b.len == 0 then b.(len := |BlockBytes(b)| % LENGTHS) else b
  }

  lemma {:induction false} EncodingSnoc(bs: seq<Block>, b: Block)
    ensures Encoding(bs + [b]) == Encoding(bs) + BlockBytes(b)
  {
    if bs == [] {
      assert Encoding([b]) == BlockBytes(b) + [] == BlockBytes(b);
      assert bs + [b] == [b] && [] + BlockBytes(b) == BlockBytes(b);
    } else {
      assert (bs + [b])[1..] == bs[1..] + [b];
      EncodingSnoc(bs[1..], b);
      Regroup(BlockBytes(bs[0]), Encoding(bs[1..]), BlockBytes(b));
    }
  }

  lemma {:induction false} EncodeFieldsSnoc(fs: seq<Field>, f: Field)
    ensures EncodeAll(fs + [f]) == EncodeAll(fs) + Encode(f)
  {
    if fs == [] {
      assert EncodeAll([f]) == Encode(f) + [] == Encode(f);
      assert fs + [f] == [f] && [] + Encode(f) == Encode(f);
    } else {
      assert (fs + [f])[1..] == fs[1..] + [f];
      EncodeFieldsSnoc(fs[1..], f);
      Regroup(Encode(fs[0]), EncodeAll(fs[1..]), Encode(f));
    }
  }

  lemma EncodeAllSnoc(b: Block, f: Field)
    ensures BlockBytes(Grown(b, f)) == BlockBytes(b) + Encode(f)
  {
    EncodeFieldsSnoc(b.fields, f);
    Regroup(Header(b), EncodeAll(b.fields), Encode(f));
  }

  lemma LengthBytes(len: nat)
    requires len < LENGTHS
    ensures 0x100 * (len / 0x100 % 0x100) + len % 0x100 == len
  {
  }

  lemma LengthTruncated(len: nat)
    ensures (len % LENGTHS) / 0x100 % 0x100 == len / 0x100 % 0x100 && len % LENGTHS % 0x100 == len % 0x100
  {
    var q, r := len / LENGTHS, len % LENGTHS;
    assert len == q * LENGTHS + r;
    Bits.DivUnique(len, 0x100, q * 0x100 + r / 0x100, r % 0x100);
    Bits.DivUnique(q * 0x100 + r / 0x100, 0x100, q, r / 0x100);
  }

  lemma HeaderAt(start: seq<byte>, b: Block, now: seq<byte>)
    requires now == start + BlockBytes(b)
    ensures now[|start| + 2] == b.len / 0x100 % 0x100 && now[|start| + 3] == b.len % 0x100
  {
    assert now[|start| + 2] == BlockBytes(b)[2] && now[|start| + 3] == BlockBytes(b)[3];
  }

  lemma HeaderFilled(start: seq<byte>, b: Block, was: seq<byte>, now: seq<byte>)
    requires was == start + BlockBytes(b) && b.len == 0
    requires now == was[|start| + 2 := |BlockBytes(b)| / 0x100 % 0x100][|start| + 3 := |BlockBytes(b)| % 0x100]
    ensures now == start + BlockBytes(Ended(b))
  {
    LengthTruncated(|BlockBytes(b)|);
    var e := BlockBytes(Ended(b));
    assert e == Header(Ended(b)) + BlockBytes(b)[HEADER..];
    assert forall k :: 0 <= k < |now| ==> now[k] == (start + e)[k];
  }

  // ------------------------------------------------------------- writing

  class TxMessage {
    const buffer: array<byte>
    var ptr: nat
    var blockStart: int
    /** The blocks that have ended, and the one that has not. */
    ghost var done: seq<Block>
    ghost var open: Option<Block>

    ghost predicate Valid()
      reads this, buffer
    {
      && Valid0()
      && buffer[..ptr] == Encoding(done) + (if open.Some? then BlockBytes(open.value) else [])
    }

    constructor (size: nat)
      ensures Valid() && fresh(buffer) && buffer.Length == size && done == [] && open == None
    {
      buffer := new byte[size](_ => 0);
      ptr, blockStart := 0, -1;
      done, open := [], None;
    }

    method EndBlock()
      requires Valid()
      modifies this, buffer
      ensures Valid() && ptr == old(ptr) && open == None
      ensures done == old(done) + (if old(open).Some? then [Ended(old(open.value))] else [])
    {
      if blockStart >= 0 {
        ghost var b := open.value;
        ghost var start := Encoding(done);
        HeaderAt(start, b, buffer[..ptr]);
        var blen := ptr - blockStart;
        var len: int := 0x100 * (buffer[blockStart + 2] as int) + buffer[blockStart + 3];
        LengthBytes(b.len);
        assert len == b.len;
        if len == 0 {
          buffer[blockStart + 2] := blen / 0x100 % 0x100;
          buffer[blockStart + 3] := blen % 0x100;
          HeaderFilled(start, b, old(buffer[..ptr]), buffer[..ptr]);
        }
        EncodingSnoc(done, Ended(b));
        done, open := done + [Ended(b)], None;
        blockStart := -1;
        assert buffer[..ptr] + [] == buffer[..ptr];
      }
    }

    /** Bytes at the end of what is written. */
    method Put(data: seq<byte>)
      requires ptr + |data| <= buffer.Length
      modifies this`ptr, buffer
      ensures ptr == old(ptr) + |data| && buffer[..ptr] == old(buffer[..ptr]) + data
    {
      var i := 0;
      ghost var was := buffer[..ptr];
      while i < |data|
        invariant i <= |data| && ptr == old(ptr) + i && buffer[..ptr] == was + data[..i]
      {
        buffer[ptr] := data[i];
        ptr, i := ptr + 1, i + 1;
      }
      assert data[..i] == data;
    }

    /** Starts a block; the one before ends. Fails without room for as many bytes as announced. */
    method AddCommand(command: byte, len: nat) returns (ok: bool)
      requires Valid() && (len == 0 || len >= HEADER) && ptr + HEADER <= buffer.Length
      modifies this, buffer
      ensures Valid() && (ok <==> old(ptr) + len <= buffer.Length)
      ensures ok ==> open == Some(Block(command, len % LENGTHS, []))
      ensures ok ==> done == old(done) + (if old(open).Some? then [Ended(old(open.value))] else [])
      ensures !ok ==> ptr == old(ptr) && done == old(done) && open == old(open)
    {
      if ptr + len > buffer.Length {
        return false;
      }
      EndBlock();
      blockStart := ptr;
      ghost var b := Block(command, len % LENGTHS, []);
      LengthTruncated(len);
      assert Header(b) == [command, 0, len / 0x100 % 0x100, len % 0x100];
      assert BlockBytes(b) == Header(b);
      Put([command, 0, len / 0x100 % 0x100, len % 0x100]);
      open := Some(b);
      return true;
    }

    /** A number of n bytes, the high byte of what is left first. */
    method PutNumber(value: nat, n: nat)
      requires ptr + n <= buffer.Length && value < Range(n)
      modifies this`ptr, buffer
      ensures ptr == old(ptr) + n && buffer[..ptr] == old(buffer[..ptr]) + Big(value, n)
    {
      var left, i := value, 0;
      ghost var was, low: nat, head: seq<byte> := buffer[..ptr], value, [];
      while i < n
        invariant i <= n && ptr == old(ptr) + i && |head| == i && buffer[..ptr] == was + head
        invariant low < Range(n - i) && left == low * Range(i) && Big(value, n) == head + Big(low, n - i)
      {
        ghost var top, rest := TopByte(low, n, i);
        var b := left / Range(n - 1);
        left := left * 0x100 % Range(n);
        buffer[ptr] := b;
        ptr, i := ptr + 1, i + 1;
        Regroup(head, [top], Big(rest, n - i));
        head, low := head + [top], rest;
      }
    }

    /** The bytes just written are a field of the block. */
    ghost method Grow(f: Field, was: seq<byte>)
      requires Valid0() && open.Some? && was == Encoding(done) + BlockBytes(open.value) && buffer[..ptr] == was + Encode(f)
      modifies this`open
      ensures Valid() && open == Some(Grown(old(open.value), f))
    {
      EncodeAllSnoc(open.value, f);
      Regroup(Encoding(done), BlockBytes(open.value), Encode(f));
      open := Some(Grown(open.value, f));
    }

    ghost predicate Valid0()
      reads this
    {
      && ptr <= buffer.Length
      && (open.None? <==> blockStart < 0)
      && (open.Some? ==> open.value.len < LENGTHS && blockStart == |Encoding(done)|)
    }

    method AddInt(value: nat)
      requires Valid() && open.Some? && value < Range(INT_BYTES) && ptr + INT_BYTES <= buffer.Length
      modifies this, buffer
      ensures Valid() && ptr == old(ptr) + INT_BYTES && done == old(done)
      ensures open == Some(Grown(old(open.value), Int(value)))
    {
      ghost var was := buffer[..ptr];
      PutNumber(value, INT_BYTES);
      Grow(Int(value), was);
    }

    method AddLong(value: nat)
      requires Valid() && open.Some? && value < Range(LONG_BYTES) && ptr + LONG_BYTES <= buffer.Length
      modifies this, buffer
      ensures Valid() && ptr == old(ptr) + LONG_BYTES && done == old(done)
      ensures open == Some(Grown(old(open.value), Long(value)))
    {
      ghost var was := buffer[..ptr];
      PutNumber(value, LONG_BYTES);
      Grow(Long(value), was);
    }

    /** A string behind its length, of which the header has only one byte. */
    method AddString(text: seq<byte>)
      requires Valid() && open.Some? && |text| < 512 && ptr + 1 + |text| <= buffer.Length
      modifies this, buffer
      ensures Valid() && ptr == old(ptr) + 1 + |text| && done == old(done)
      ensures open == Some(Grown(old(open.value), Str(text)))
    {
      ghost var was := buffer[..ptr];
      Put([|text| % 0x100]);
      Put(text);
      Regroup(was, [|text| % 0x100], text);
      Grow(Str(text), was);
    }

    method AddRaw(data: seq<byte>)
      requires Valid() && open.Some? && ptr + |data| <= buffer.Length
      modifies this, buffer
      ensures Valid() && ptr == old(ptr) + |data| && done == old(done)
      ensures open == Some(Grown(old(open.value), Raw(data)))
    {
      ghost var was := buffer[..ptr];
      Put(data);
      Grow(Raw(data), was);
    }

    /** The message is complete: what the buffer holds are the blocks. */
    method GetLength() returns (length: nat)
      requires Valid()
      modifies this, buffer
      ensures Valid() && open == None && length == ptr && buffer[..length] == Encoding(done)
      ensures done == old(done) + (if old(open).Some? then [Ended(old(open.value))] else [])
    {
      EndBlock();
      assert Encoding(done) + [] == Encoding(done);
      length := ptr;
    }
  }

  const INT_BYTES: nat := 4
  const LONG_BYTES: nat := 8

  lemma {:induction false} RangeSum(m: nat, n: nat)
    ensures Range(m + n) == Range(m) * Range(n)
  {
    if m > 0 {
      RangeSum(m - 1, n);
      assert 0x100 * (Range(m - 1) * Range(n)) == 0x100 * Range(m - 1) * Range(n);
    }
  }

  /** The byte that comes next is the top byte of the register, and shifting leaves the rest. */
  lemma TopByte(low: nat, n: nat, i: nat) returns (top: byte, rest: nat)
    requires i < n && low < Range(n - i)
    ensures low * Range(i) / Range(n - 1) == top
    ensures low * Range(i) * 0x100 % Range(n) == rest * Range(i + 1)
    ensures Big(low, n - i) == [top] + Big(rest, n - i - 1) && rest < Range(n - i - 1)
  {
    var r, q := Range(n - i - 1), Range(i);
    top, rest := FirstByte(low, n - i);
    RangeSum(n - i - 1, i);
    Register(low, top, rest, r, q);
  }

  lemma Register(low: nat, top: nat, rest: nat, r: nat, q: nat)
    requires low == top * r + rest && rest < r && q > 0
    ensures r * q > 0 && low * q / (r * q) == top
    ensures 0x100 * (r * q) > 0 && low * q * 0x100 % (0x100 * (r * q)) == rest * (0x100 * q)
  {
    Bits.MulGap(rest, r, q);
    RegisterSplit(low, top, rest, r, q);
    Bits.DivUnique(low * q, r * q, top, rest * q);
    Bits.DivUnique(low * q * 0x100, 0x100 * (r * q), top, rest * q * 0x100);
  }

  lemma RegisterSplit(low: nat, top: nat, rest: nat, r: nat, q: nat)
    requires low == top * r + rest
    ensures low * q == top * (r * q) + rest * q
    ensures low * q * 0x100 == top * (0x100 * (r * q)) + rest * q * 0x100
    ensures rest * q * 0x100 == rest * (0x100 * q)
  {
    assert (top * r) * q == top * (r * q);
  }

  function Grown(b: Block, f: Field): (g: Block)
  {
    b.(fields := b.fields + [f])
  }

  // ------------------------------------------------------------- reading

  /** Where a reader is, and where the block it reads ends. */
  datatype Cursor = Cursor(ptr: nat, end: nat)

  predicate Within(data: seq<byte>, c: Cursor)
  {
    c.ptr <= c.end <= |data|
  }

  function KindOf(f: Field): (k: Kind)
  {
    match f
    case Int(_) => AnInt
    case Long(_) => ALong
    case Str(_) => AString
    case Raw(d) => Bytes(|d|)
  }

  /** The next field of a kind, if the block has it. */
  function Take(data: seq<byte>, c: Cursor, k: Kind): (r: Option<(Field, Cursor)>)
    requires Within(data, c)
    ensures r.Some? ==> Within(data, r.value.1) && c.ptr <= r.value.1.ptr && r.value.1.end == c.end
  {
    match k
    case AnInt =>
      if c.ptr + INT_BYTES > c.end then None
      else Some((Int(Spelled(0, data[c.ptr..c.ptr + INT_BYTES])), c.(ptr := c.ptr + INT_BYTES)))
    case ALong =>
      if c.ptr + LONG_BYTES > c.end then None
      else Some((Long(Spelled(0, data[c.ptr..c.ptr + LONG_BYTES])), c.(ptr := c.ptr + LONG_BYTES)))
    case AString =>
      if c.ptr + 1 > c.end || c.ptr + 1 + data[c.ptr] > c.end then None
      else Some((Str(data[c.ptr + 1..c.ptr + 1 + data[c.ptr]]), c.(ptr := c.ptr + 1 + data[c.ptr])))
    case Bytes(n) =>
      if c.ptr + n > c.end then None
      else Some((Raw(data[c.ptr..c.ptr + n]), c.(ptr := c.ptr + n)))
  }

  /** The next block, wherever the reader was in this one. */
  function TakeCommand(data: seq<byte>, c: Cursor): (r: Option<(byte, Cursor)>)
    requires c.end + HEADER <= |data|
    ensures r.Some? ==> Within(data, r.value.1) && r.value.1.end > c.end
  {
    var end := c.end + 0x100 * (data[c.end + 2] as int) + data[c.end + 3];
    if end > |data| || c.end + HEADER > end then None else Some((data[c.end], Cursor(c.end + HEADER, end)))
  }

  /**
   The next response. Unlike a command it may say that it is shorter than its header; the reader then stands
   behind its end.
   */
  function TakeResponse(data: seq<byte>, c: Cursor): (r: Option<(byte, Cursor)>)
    requires c.end + HEADER <= |data|
  {
    var end := c.end + 0x100 * (data[c.end + 2] as int) + data[c.end + 3];
    if end > |data| then None else Some((data[c.end], Cursor(c.end + HEADER, end)))
  }

  /** A response is read as a command is exactly if it is whole, or reaches past the end. */
  lemma ResponseIsCommandIff(data: seq<byte>, c: Cursor)
    requires c.end + HEADER <= |data|
    ensures TakeResponse(data, c) == TakeCommand(data, c) <==>
      TakeResponse(data, c) == None || Within(data, TakeResponse(data, c).value.1)
  {
  }

  /** A response that gives its length as 0 is never passed: every response behind it is the same again. */
  lemma EmptyResponseStays(data: seq<byte>, c: Cursor)
    requires c.end + HEADER <= |data|
    ensures TakeResponse(data, c).Some? && TakeResponse(data, c).value.1.end == c.end <==> data[c.end + 2] == data[c.end + 3] == 0
    ensures TakeResponse(data, c).Some? && TakeResponse(data, c).value.1.end == c.end ==>
      TakeResponse(data, TakeResponse(data, c).value.1) == TakeResponse(data, c)
  {
  }

  class RxMessage {
    const data: seq<byte>
    var ptr: nat
    var blockEnd: nat
    /** The space for strings, and how much of it is taken; more than there is if strings did not fit. */
    const space: array<byte>
    var taken: nat

    function At(): (c: Cursor)
      reads this
    {
      Cursor(ptr, blockEnd)
    }

    constructor (data: seq<byte>, space: array<byte>)
      ensures this.data == data && this.space == space && At() == Cursor(0, 0) && taken == 0
    {
      this.data, this.space := data, space;
      ptr, blockEnd, taken := 0, 0, 0;
    }

    /** Without blocks: all of the data is one. */
    method SingleBlock()
      modifies this`blockEnd
      ensures blockEnd == |data|
    {
      blockEnd := |data|;
    }

    method RemoveCommand() returns (ok: bool, command: byte)
      requires blockEnd + HEADER <= |data|
      modifies this`ptr, this`blockEnd
      ensures ok <==> TakeCommand(data, old(At())).Some?
      ensures ok ==> TakeCommand(data, old(At())) == Some((command, At()))
    {
      ptr := blockEnd;
      blockEnd := ptr + 0x100 * (data[ptr + 2] as int) + data[ptr + 3];
      if blockEnd > |data| || ptr + HEADER > blockEnd {
        return false, 0;
      }
      command := data[ptr];
      ptr := ptr + HEADER;
      ok := true;
    }

    method RemoveResponse() returns (ok: bool, response: byte)
      requires blockEnd + HEADER <= |data|
      modifies this`ptr, this`blockEnd
      ensures ok <==> TakeResponse(data, old(At())).Some?
      ensures ok ==> TakeResponse(data, old(At())) == Some((response, At()))
    {
      ptr := blockEnd;
      blockEnd := ptr + 0x100 * (data[ptr + 2] as int) + data[ptr + 3];
      if blockEnd > |data| {
        return false, 0;
      }
      response := data[ptr];
      ptr := ptr + HEADER;
      ok := true;
    }

    method Number(n: nat) returns (value: nat)
      requires ptr + n <= |data|
      modifies this`ptr
      ensures ptr == old(ptr) + n && value == Spelled(0, data[old(ptr)..ptr])
    {
      value := 0;
      var i := 0;
      ghost var all := data[ptr..ptr + n];
      while i < n
        invariant i <= n && ptr == old(ptr) + i && Spelled(0, all) == Spelled(value, all[i..])
      {
        SpelledCons(value, all[i], all[i + 1..]);
        assert all[i..] == [all[i]] + all[i + 1..];
        value := 0x100 * value + data[ptr];
        ptr, i := ptr + 1, i + 1;
      }
    }

    method RemoveInt() returns (ok: bool, value: nat)
      requires Within(data, At())
      modifies this`ptr
      ensures ok <==> Take(data, old(At()), AnInt).Some?
      ensures ok ==> Take(data, old(At()), AnInt) == Some((Int(value), At()))
      ensures !ok ==> ptr == old(ptr)
    {
      if ptr + INT_BYTES > blockEnd {
        return false, 0;
      }
      value := Number(INT_BYTES);
      ok := true;
    }

    method RemoveLong() returns (ok: bool, value: nat)
      requires Within(data, At())
      modifies this`ptr
      ensures ok <==> Take(data, old(At()), ALong).Some?
      ensures ok ==> Take(data, old(At()), ALong) == Some((Long(value), At()))
      ensures !ok ==> ptr == old(ptr)
    {
      if ptr + LONG_BYTES > blockEnd {
        return false, 0;
      }
      value := Number(LONG_BYTES);
      ok := true;
    }

    method RemoveRaw(n: nat) returns (ok: bool, bytes: seq<byte>)
      requires Within(data, At())
      modifies this`ptr
      ensures ok <==> Take(data, old(At()), Bytes(n)).Some?
      ensures ok ==> Take(data, old(At()), Bytes(n)) == Some((Raw(bytes), At()))
      ensures !ok ==> ptr == old(ptr)
    {
      if ptr + n > blockEnd {
        return false, [];
      }
      bytes := data[ptr..ptr + n];
      ptr := ptr + n;
      ok := true;
    }

    /**
     A string, copied to the space with a NUL behind it if it fits. It counts as taken either way, so that
     the reader knows afterwards how much space all strings need.
     */
    method RemoveString() returns (ok: bool, where: Option<nat>)
      requires Within(data, At())
      modifies this`ptr, this`taken, space
      ensures ok <==> Take(data, old(At()), AString).Some?
      ensures !ok ==> taken == old(taken) && space[..] == old(space[..]) && where == None
      ensures ok ==>
        var text := Take(data, old(At()), AString).value.0.text;
        && At() == Take(data, old(At()), AString).value.1
        && taken == old(taken) + |text| + 1
        && (where.Some? <==> taken <= space.Length)
        && (where.Some? ==> where.value == old(taken) && space[..taken] == old(space[..taken])[..old(taken)] + text + [0])
        && (where.None? ==> space[..] == old(space[..]))
    {
      where := None;
      if ptr + 1 > blockEnd {
        return false, where;
      }
      var n := data[ptr];
      ptr := ptr + 1;
      if ptr + n > blockEnd {
        return false, where;
      }
      if taken + n < space.Length {
        where := Some(taken);
        Copy(data[ptr..ptr + n]);
        space[taken + n] := 0;
      }
      ptr, taken := ptr + n, taken + n + 1;
      ok := true;
    }

    method Copy(text: seq<byte>)
      requires taken + |text| < space.Length
      modifies space
      ensures space[..taken + |text|] == old(space[..taken]) + text
    {
      var i := 0;
      while i < |text|
        invariant i <= |text| && space[..taken + i] == old(space[..taken]) + text[..i]
      {
        space[taken + i] := text[i];
        i := i + 1;
      }
      assert text[..i] == text;
    }
  }

  // ------------------------------------------------------------- there and back

  /** A field that its encoding has room for: of a string, one byte tells the length. */
  predicate FieldFits(f: Field)
  {
    match f
    case Int(v) => v < Range(INT_BYTES)
    case Long(v) => v < Range(LONG_BYTES)
    case Str(t) => |t| <= 0xFF
    case Raw(_) => true
  }

  /** A field that was written is read again, wherever it stands, if the block goes that far. */
  lemma FieldRoundTrip(data: seq<byte>, c: Cursor, f: Field)
    requires Within(data, c) && FieldFits(f) && c.ptr + |Encode(f)| <= c.end
    requires data[c.ptr..c.ptr + |Encode(f)|] == Encode(f)
    ensures Take(data, c, KindOf(f)) == Some((f, c.(ptr := c.ptr + |Encode(f)|)))
  {
    var s := data[c.ptr..c.ptr + |Encode(f)|];
    match f
    case Int(v) => SpelledBig(0, v, INT_BYTES);
    case Long(v) => SpelledBig(0, v, LONG_BYTES);
    case Str(t) =>
      assert s[0] == data[c.ptr] && s[1..] == data[c.ptr + 1..c.ptr + 1 + |t|];
    case Raw(d) =>
  }

  /** A string of up to 511 bytes comes back exactly if it has no more than 255. */
  lemma StringRoundTripIff(text: seq<byte>)
    requires |text| < 512
    ensures var s := Encode(Str(text));
      Take(s, Cursor(0, |s|), AString) == Some((Str(text), Cursor(|s|, |s|))) <==> |text| <= 0xFF
  {
    var s := Encode(Str(text));
    if |text| <= 0xFF {
      assert s[0..|s|] == s;
      FieldRoundTrip(s, Cursor(0, |s|), Str(text));
    } else {
      assert |s[1..1 + s[0]]| < |text|;
    }
  }

  predicate AllFit(fs: seq<Field>)
  {
    fs == [] || (FieldFits(fs[0]) && AllFit(fs[1..]))
  }

  /** The next field, as a function of where the reader is and what it asks for. */
  function Taker(data: seq<byte>): (take: (Cursor, Kind) -> Option<(Field, Cursor)>)
  {
    (c, k) => if Within(data, c) then Take(data, c, k) else None
  }

  ghost predicate Takes(take: (Cursor, Kind) -> Option<(Field, Cursor)>, data: seq<byte>)
  {
    forall c, k {:trigger Take(data, c, k)} :: Within(data, c) ==> take(c, k) == Take(data, c, k)
  }

  /** Fields of these kinds one after another. */
  function TakeAll(take: (Cursor, Kind) -> Option<(Field, Cursor)>, c: Cursor, kinds: seq<Kind>): (r: Option<(seq<Field>, Cursor)>)
    decreases |kinds|
  {
    if kinds == [] then Some(([], c))
    else match take(c, kinds[0])
      case None => None
      case Some(f) => match TakeAll(take, f.1, kinds[1..])
        case None => None
        case Some(fs) => Some(([f.0] + fs.0, fs.1))
  }

  function Kinds(fs: seq<Field>): (ks: seq<Kind>)
    ensures |ks| == |fs|
  {
    if fs == [] then [] else [KindOf(fs[0])] + Kinds(fs[1..])
  }

  /** The first field at a place, and the others behind it. */
  lemma FieldAt(data: seq<byte>, at: nat, fs: seq<Field>)
    requires fs != [] && at + |EncodeAll(fs)| <= |data| && data[at..at + |EncodeAll(fs)|] == EncodeAll(fs)
    ensures var e := |Encode(fs[0])|;
      && |EncodeAll(fs)| == e + |EncodeAll(fs[1..])|
      && data[at..at + e] == Encode(fs[0])
      && data[at + e..at + e + |EncodeAll(fs[1..])|] == EncodeAll(fs[1..])
  {
    SliceSplit(data, at, Encode(fs[0]), EncodeAll(fs[1..]));
  }

  lemma SliceSplit(data: seq<byte>, at: nat, a: seq<byte>, b: seq<byte>)
    requires at + |a| + |b| <= |data| && data[at..at + |a + b|] == a + b
    ensures data[at..at + |a|] == a && data[at + |a|..at + |a| + |b|] == b
  {
    var here := data[at..at + |a + b|];
    assert data[at..at + |a|] == here[..|a|] && data[at + |a|..at + |a| + |b|] == here[|a|..];
  }

  lemma TakeCons<T>(x: T, xs: seq<T>, n: nat)
    requires 0 < n <= |xs| + 1
    ensures ([x] + xs)[..n] == [x] + xs[..n - 1]
  {
  }

  lemma KindsCons(fs: seq<Field>, n: nat)
    requires 0 < n <= |fs|
    ensures Kinds(fs)[..n] == [KindOf(fs[0])] + Kinds(fs[1..])[..n - 1]
    ensures fs[..n] == [fs[0]] + fs[1..][..n - 1]
  {
    TakeCons(KindOf(fs[0]), Kinds(fs[1..]), n);
    assert fs == [fs[0]] + fs[1..];
    TakeCons(fs[0], fs[1..], n);
  }

  lemma TakeAllCons(take: (Cursor, Kind) -> Option<(Field, Cursor)>, c: Cursor, k: Kind, ks: seq<Kind>, f: Field, c': Cursor)
    requires take(c, k) == Some((f, c')) && TakeAll(take, c', ks).Some?
    ensures TakeAll(take, c, [k] + ks) == Some(([f] + TakeAll(take, c', ks).value.0, TakeAll(take, c', ks).value.1))
  {
    assert ([k] + ks)[1..] == ks;
  }

  lemma {:induction false} FieldsRoundTrip(data: seq<byte>, take: (Cursor, Kind) -> Option<(Field, Cursor)>, c: Cursor, fs: seq<Field>, n: nat)
    requires Takes(take, data) && Within(data, c) && n <= |fs| && AllFit(fs)
    requires c.ptr + |EncodeAll(fs)| <= c.end && data[c.ptr..c.ptr + |EncodeAll(fs)|] == EncodeAll(fs)
    ensures TakeAll(take, c, Kinds(fs)[..n]).Some?
    ensures TakeAll(take, c, Kinds(fs)[..n]).value.0 == fs[..n]
    ensures TakeAll(take, c, Kinds(fs)[..n]).value.1.end == c.end
    decreases n
  {
    if n > 0 {
      var f := fs[0];
      var c' := c.(ptr := c.ptr + |Encode(f)|);
      FieldAt(data, c.ptr, fs);
      FieldTaken(data, take, c, f);
      FieldsRoundTrip(data, take, c', fs[1..], n - 1);
      TakeAllCons(take, c, KindOf(f), Kinds(fs[1..])[..n - 1], f, c');
      KindsCons(fs, n);
    }
  }

  lemma FieldTaken(data: seq<byte>, take: (Cursor, Kind) -> Option<(Field, Cursor)>, c: Cursor, f: Field)
    requires Takes(take, data) && Within(data, c) && FieldFits(f) && c.ptr + |Encode(f)| <= c.end
    requires data[c.ptr..c.ptr + |Encode(f)|] == Encode(f)
    ensures take(c, KindOf(f)) == Some((f, c.(ptr := c.ptr + |Encode(f)|)))
  {
    FieldRoundTrip(data, c, f);
    assert take(c, KindOf(f)) == Take(data, c, KindOf(f));
  }

  /** Blocks one after another; of each the reader asks for some kinds of fields and leaves the rest. */
  function TakeBlocks(data: seq<byte>, c: Cursor, asked: seq<seq<Kind>>): (r: Option<seq<(byte, seq<Field>)>>)
    requires c.end <= |data|
    decreases |asked|
  {
    if asked == [] then Some([])
    else if c.end + HEADER > |data| then None
    else match TakeCommand(data, c)
      case None => None
      case Some(b) => match TakeAll(Taker(data), b.1, asked[0])
        case None => None
        case Some(fs) => if fs.1.end > |data| then None else match TakeBlocks(data, fs.1, asked[1..])
          case None => None
          case Some(rest) => Some([(b.0, fs.0)] + rest)
  }

  /** The header tells the true length of the block. */
  predicate Right(b: Block)
  {
    b.len == |BlockBytes(b)| < LENGTHS && AllFit(b.fields)
  }

  /** A block that ends has the right length, given or filled in, exactly if it was given rightly or fits two bytes. */
  lemma EndedRightIff(b: Block)
    requires b.len < LENGTHS && AllFit(b.fields)
    ensures Right(Ended(b)) <==> b.len == |BlockBytes(b)| || (b.len == 0 && |BlockBytes(b)| < LENGTHS)
  {
    assert |BlockBytes(Ended(b))| == |BlockBytes(b)|;
  }

  function Asked(bs: seq<Block>, counts: seq<nat>): (asked: seq<seq<Kind>>)
    requires |bs| == |counts|
    ensures |asked| == |bs|
  {
    if bs == [] then []
    else [if counts[0] <= |bs[0].fields| then Kinds(bs[0].fields)[..counts[0]] else Kinds(bs[0].fields)] + Asked(bs[1..], counts[1..])
  }

  function Answered(bs: seq<Block>, counts: seq<nat>): (r: seq<(byte, seq<Field>)>)
    requires |bs| == |counts|
  {
    if bs == [] then []
    else [(bs[0].command, if counts[0] <= |bs[0].fields| then bs[0].fields[..counts[0]] else bs[0].fields)] + Answered(bs[1..], counts[1..])
  }

  /**
   What was written is read again: every block with its command and as many of its fields as are asked
   for, in order. A reader that leaves fields unread finds the next block all the same.
   */
  lemma {:induction false} MessageRoundTrip(data: seq<byte>, c: Cursor, bs: seq<Block>, counts: seq<nat>)
    requires c.end <= |data| && data[c.end..] == Encoding(bs) && |bs| == |counts|
    requires forall b :: b in bs ==> Right(b)
    ensures TakeBlocks(data, c, Asked(bs, counts)) == Some(Answered(bs, counts))
    decreases |bs|
  {
    if bs != [] {
      var b := bs[0];
      var s := BlockBytes(b);
      assert data[c.end..] == s + Encoding(bs[1..]);
      assert data[c.end..][..|s|] == s;
      var n := if counts[0] <= |b.fields| then counts[0] else |b.fields|;
      BlockRoundTrip(data, c, b, n);
      assert Kinds(b.fields)[..|b.fields|] == Kinds(b.fields) && b.fields[..|b.fields|] == b.fields;
      var c' := TakeAll(Taker(data), Cursor(c.end + HEADER, c.end + b.len), Kinds(b.fields)[..n]).value.1;
      assert data[c'.end..] == data[c.end..][|s|..];
      MessageRoundTrip(data, c', bs[1..], counts[1..]);
      assert Asked(bs, counts)[1..] == Asked(bs[1..], counts[1..]);
    }
  }

  lemma CommandAt(data: seq<byte>, c: Cursor, b: Block)
    requires b.len == |BlockBytes(b)| < LENGTHS && c.end + b.len <= |data| && data[c.end..c.end + b.len] == BlockBytes(b)
    ensures TakeCommand(data, c) == Some((b.command, Cursor(c.end + HEADER, c.end + b.len)))
  {
    var block := data[c.end..c.end + b.len];
    assert block[0] == data[c.end] && block[2] == data[c.end + 2] && block[3] == data[c.end + 3];
    LengthBytes(b.len);
  }

  lemma BodyAt(data: seq<byte>, at: nat, b: Block)
    requires at + |BlockBytes(b)| <= |data| && data[at..at + |BlockBytes(b)|] == BlockBytes(b)
    ensures |BlockBytes(b)| == HEADER + |EncodeAll(b.fields)|
    ensures data[at + HEADER..at + HEADER + |EncodeAll(b.fields)|] == EncodeAll(b.fields)
  {
    var s, body := BlockBytes(b), EncodeAll(b.fields);
    assert data[at + HEADER..at + |s|] == data[at..at + |s|][HEADER..];
  }

  lemma BlockRoundTrip(data: seq<byte>, c: Cursor, b: Block, n: nat)
    requires Right(b) && n <= |b.fields| && c.end + b.len <= |data| && data[c.end..c.end + b.len] == BlockBytes(b)
    ensures TakeCommand(data, c) == Some((b.command, Cursor(c.end + HEADER, c.end + b.len)))
    ensures TakeAll(Taker(data), Cursor(c.end + HEADER, c.end + b.len), Kinds(b.fields)[..n]).Some?
    ensures TakeAll(Taker(data), Cursor(c.end + HEADER, c.end + b.len), Kinds(b.fields)[..n]).value.0 == b.fields[..n]
    ensures TakeAll(Taker(data), Cursor(c.end + HEADER, c.end + b.len), Kinds(b.fields)[..n]).value.1.end == c.end + b.len
  {
    CommandAt(data, c, b);
    BodyAt(data, c.end, b);
    FieldsRoundTrip(data, Taker(data), Cursor(c.end + HEADER, c.end + b.len), b.fields, n);
  }

  // ------------------------------------------------------------- strings in two passes

  /** A device as the server lists it: five numbers, the last of them unused, and a name. */
  datatype Record = Record(id: nat, irLength: nat, features: nat, mask: nat, unused: nat, name: seq<byte>)

  /** A device as it is kept: its instruction length as a byte, its name by its place in the space for strings. */
  datatype Device = Device(id: nat, irLength: byte, features: nat, mask: nat, name: Option<nat>)

  function DeviceOf(r: Record, name: Option<nat>): (d: Device)
  {
    Device(r.id, r.irLength % 0x100, r.features, r.mask, name)
  }

  const NUMBERS: nat := 5

  /** Numbers one after another. */
  function Numbers(data: seq<byte>, c: Cursor, n: nat): (r: Option<(seq<nat>, Cursor)>)
    requires Within(data, c)
    ensures r.Some? ==> Within(data, r.value.1) && |r.value.0| == n
    decreases n
  {
    if n == 0 then Some(([], c))
    else match Take(data, c, AnInt)
      case None => None
      case Some(f) => match Numbers(data, f.1, n - 1)
        case None => None
        case Some(rest) => Some(([f.0.value] + rest.0, rest.1))
  }

  function RecordOf(ns: seq<nat>, name: seq<byte>): (r: Record)
    requires |ns| == NUMBERS
  {
    Record(ns[0], ns[1], ns[2], ns[3], ns[4], name)
  }

  function OneRecord(data: seq<byte>, c: Cursor): (r: Option<(Record, Cursor)>)
    requires Within(data, c)
    ensures r.Some? ==> Within(data, r.value.1)
  {
    match Numbers(data, c, NUMBERS)
    case None => None
    case Some(ns) => match Take(data, ns.1, AString)
      case None => None
      case Some(t) => Some((RecordOf(ns.0, t.0.text), t.1))
  }

  /** The record at a place, as a function of the place. */
  function Reader(data: seq<byte>): (one: Cursor -> Option<(Record, Cursor)>)
  {
    c => if Within(data, c) then OneRecord(data, c) else None
  }

  ghost predicate Reads(one: Cursor -> Option<(Record, Cursor)>, data: seq<byte>)
  {
    forall c {:trigger OneRecord(data, c)} :: Within(data, c) ==> one(c) == OneRecord(data, c)
  }

  /** So many records one after another; none, if there are not as many. */
  function Many(one: Cursor -> Option<(Record, Cursor)>, c: Cursor, n: nat): (r: Option<seq<Record>>)
    ensures r.Some? ==> |r.value| == n
    decreases n
  {
    if n == 0 then Some([])
    else match one(c)
      case None => None
      case Some(d) => match Many(one, d.1, n - 1)
        case None => None
        case Some(rest) => Some([d.0] + rest)
  }

  /** The records of all devices in the data. */
  function Records(data: seq<byte>, n: nat): (r: Option<seq<Record>>)
    ensures r.Some? ==> |r.value| == n
  {
    Many(Reader(data), Cursor(0, |data|), n)
  }

  /** A record as the server writes it. */
  function FieldsOf(r: Record): (fs: seq<Field>)
  {
    [Int(r.id), Int(r.irLength), Int(r.features), Int(r.mask), Int(r.unused), Str(r.name)]
  }

  function Ints(ns: seq<nat>): (fs: seq<Field>)
    ensures |fs| == |ns| && forall i :: 0 <= i < |ns| ==> fs[i] == Int(ns[i])
  {
    seq(|ns|, i requires 0 <= i < |ns| => Int(ns[i]))
  }

  /** This stands in the data from where the reader is. */
  predicate Stands(data: seq<byte>, c: Cursor, s: seq<byte>)
  {
    Within(data, c) && c.ptr + |s| <= c.end && data[c.ptr..c.ptr + |s|] == s
  }

  function Past(c: Cursor, s: seq<byte>): (r: Cursor)
  {
    c.(ptr := c.ptr + |s|)
  }

  lemma StandsApart(data: seq<byte>, c: Cursor, a: seq<byte>, b: seq<byte>)
    requires Stands(data, c, a + b)
    ensures Stands(data, c, a) && Stands(data, Past(c, a), b) && Past(c, a + b) == Past(Past(c, a), b)
  {
    SliceSplit(data, c.ptr, a, b);
  }

  lemma {:induction false} NumbersRead(data: seq<byte>, c: Cursor, ns: seq<nat>)
    requires AllFit(Ints(ns)) && Stands(data, c, EncodeAll(Ints(ns)))
    ensures Numbers(data, c, |ns|) == Some((ns, Past(c, EncodeAll(Ints(ns)))))
    decreases |ns|
  {
    if ns != [] {
      var f, rest := Int(ns[0]), ns[1..];
      IntsParts(ns);
      StandsApart(data, c, Encode(f), EncodeAll(Ints(rest)));
      FieldRoundTrip(data, c, f);
      NumbersRead(data, Past(c, Encode(f)), rest);
      OneNumberRead(data, c, ns, Past(c, Encode(f)), Past(c, EncodeAll(Ints(ns))));
    }
  }

  lemma IntsParts(ns: seq<nat>)
    requires ns != [] && AllFit(Ints(ns))
    ensures EncodeAll(Ints(ns)) == Encode(Int(ns[0])) + EncodeAll(Ints(ns[1..]))
    ensures FieldFits(Int(ns[0])) && AllFit(Ints(ns[1..]))
  {
    assert Ints(ns)[1..] == Ints(ns[1..]);
  }

  lemma OneNumberRead(data: seq<byte>, c: Cursor, ns: seq<nat>, c': Cursor, end: Cursor)
    requires Within(data, c) && Within(data, c') && ns != [] && Take(data, c, AnInt) == Some((Int(ns[0]), c'))
    requires Numbers(data, c', |ns| - 1) == Some((ns[1..], end))
    ensures Numbers(data, c, |ns|) == Some((ns, end))
  {
    assert ns == [ns[0]] + ns[1..];
  }

  lemma RecordRead(data: seq<byte>, c: Cursor, r: Record)
    requires AllFit(FieldsOf(r)) && Stands(data, c, EncodeAll(FieldsOf(r)))
    ensures OneRecord(data, c) == Some((r, Past(c, EncodeAll(FieldsOf(r)))))
  {
    var ns, name := [r.id, r.irLength, r.features, r.mask, r.unused], Str(r.name);
    var c' := Past(c, EncodeAll(Ints(ns)));
    RecordParts(r, ns);
    StandsApart(data, c, EncodeAll(Ints(ns)), Encode(name));
    NumbersRead(data, c, ns);
    FieldRoundTrip(data, c', name);
    RecordFrom(data, c, ns, c', r.name, Past(c', Encode(name)));
  }

  lemma RecordParts(r: Record, ns: seq<nat>)
    requires ns == [r.id, r.irLength, r.features, r.mask, r.unused] && AllFit(FieldsOf(r))
    ensures EncodeAll(FieldsOf(r)) == EncodeAll(Ints(ns)) + Encode(Str(r.name)) && AllFit(Ints(ns)) && FieldFits(Str(r.name))
  {
    assert FieldsOf(r) == Ints(ns) + [Str(r.name)];
    FitParts(Ints(ns), Str(r.name));
    EncodeSnoc(Ints(ns), Str(r.name));
  }

  lemma RecordFrom(data: seq<byte>, c: Cursor, ns: seq<nat>, c': Cursor, name: seq<byte>, end: Cursor)
    requires Within(data, c) && Within(data, c') && |ns| == NUMBERS && Numbers(data, c, NUMBERS) == Some((ns, c'))
    requires Take(data, c', AString) == Some((Str(name), end))
    ensures OneRecord(data, c) == Some((RecordOf(ns, name), end))
  {
  }

  lemma {:induction false} FitParts(fs: seq<Field>, f: Field)
    requires AllFit(fs + [f])
    ensures AllFit(fs) && FieldFits(f)
    decreases |fs|
  {
    if fs == [] {
      assert (fs + [f])[0] == f;
    } else {
      assert (fs + [f])[1..] == fs[1..] + [f];
      FitParts(fs[1..], f);
    }
  }

  lemma {:induction false} EncodeSnoc(fs: seq<Field>, f: Field)
    ensures EncodeAll(fs + [f]) == EncodeAll(fs) + Encode(f)
  {
    if fs == [] {
      assert fs + [f] == [f] && [f][1..] == [];
    } else {
      assert (fs + [f])[1..] == fs[1..] + [f];
      EncodeSnoc(fs[1..], f);
    }
  }

  /** The list as the server writes it. */
  function Listed(rs: seq<Record>): (s: seq<byte>)
  {
    if rs == [] then [] else EncodeAll(FieldsOf(rs[0])) + Listed(rs[1..])
  }

  predicate AllRecordsFit(rs: seq<Record>)
  {
    forall i :: 0 <= i < |rs| ==> AllFit(FieldsOf(rs[i]))
  }

  lemma RecordReadBy(data: seq<byte>, one: Cursor -> Option<(Record, Cursor)>, c: Cursor, r: Record, s: seq<byte>)
    requires Reads(one, data) && AllFit(FieldsOf(r)) && s == EncodeAll(FieldsOf(r)) && Stands(data, c, s)
    ensures one(c) == Some((r, Past(c, s)))
  {
    RecordRead(data, c, r);
    assert one(c) == OneRecord(data, c);
  }

  lemma {:induction false} ManyRead(data: seq<byte>, one: Cursor -> Option<(Record, Cursor)>, c: Cursor, rs: seq<Record>)
    requires Reads(one, data) && AllRecordsFit(rs) && Stands(data, c, Listed(rs))
    ensures Many(one, c, |rs|) == Some(rs)
    decreases |rs|
  {
    if rs != [] {
      var s := EncodeAll(FieldsOf(rs[0]));
      StandsApart(data, c, s, Listed(rs[1..]));
      RecordReadBy(data, one, c, rs[0], s);
      ManyRead(data, one, Past(c, s), rs[1..]);
      OneOfMany(one, c, rs, Past(c, s));
    }
  }

  lemma OneOfMany(one: Cursor -> Option<(Record, Cursor)>, c: Cursor, rs: seq<Record>, c': Cursor)
    requires rs != [] && one(c) == Some((rs[0], c')) && Many(one, c', |rs| - 1) == Some(rs[1..])
    ensures Many(one, c, |rs|) == Some(rs)
  {
    assert rs == [rs[0]] + rs[1..];
  }

  /** The list of devices read is the list that the server wrote, number by number, names included. */
  lemma DevicesRoundTrip(rs: seq<Record>)
    requires AllRecordsFit(rs)
    ensures Records(Listed(rs), |rs|) == Some(rs)
  {
    var data := Listed(rs);
    assert data[0..|data|] == data;
    ManyRead(data, Reader(data), Cursor(0, |data|), rs);
  }

  /** Space that the names take, each with a NUL behind it. */
  function Space(rs: seq<Record>): (s: seq<byte>)
  {
    if rs == [] then [] else Space(rs[..|rs| - 1]) + rs[|rs| - 1].name + [0]
  }

  lemma SpaceSnoc(rs: seq<Record>, r: Record)
    ensures Space(rs + [r]) == Space(rs) + r.name + [0]
  {
    assert (rs + [r])[..|rs|] == rs;
  }

  /** The devices of the records, with the places of their names. */
  ghost predicate Placed(ds: seq<Device>, rs: seq<Record>)
  {
    |ds| == |rs| && forall i :: 0 <= i < |ds| ==> ds[i] == DeviceOf(rs[i], Some(|Space(rs[..i])|))
  }

  /** The numbers of a device. */
  method ParseNumbers(m: RxMessage) returns (ok: bool, numbers: seq<nat>)
    requires Within(m.data, m.At())
    modifies m`ptr
    ensures ok <==> Numbers(m.data, old(m.At()), NUMBERS).Some?
    ensures ok ==> Numbers(m.data, old(m.At()), NUMBERS) == Some((numbers, m.At())) && Within(m.data, m.At())
  {
    numbers, ok := [], true;
    ghost var start := m.At();
    PrependNothing(Numbers(m.data, start, NUMBERS));
    while |numbers| < NUMBERS
      invariant |numbers| <= NUMBERS && Within(m.data, m.At())
      invariant Numbers(m.data, start, NUMBERS) == Prepend(numbers, Numbers(m.data, m.At(), NUMBERS - |numbers|))
    {
      ghost var here := m.At();
      var value;
      ok, value := m.RemoveInt();
      if !ok {
        return;
      }
      NumbersStep(m.data, here, numbers, value, NUMBERS - |numbers|, m.At());
      numbers := numbers + [value];
    }
    assert numbers + [] == numbers;
  }

  /** The next device of the message. */
  method ParseDevice(m: RxMessage) returns (ok: bool, d: Device, ghost r: Record)
    requires Within(m.data, m.At())
    modifies m`ptr, m`taken, m.space
    ensures ok <==> OneRecord(m.data, old(m.At())).Some?
    ensures ok ==> OneRecord(m.data, old(m.At())) == Some((r, m.At()))
    ensures ok ==> d == DeviceOf(r, d.name) && m.taken == old(m.taken) + |r.name| + 1
    ensures ok && m.taken <= m.space.Length ==>
      d.name == Some(old(m.taken)) && m.space[..m.taken] == old(m.space[..])[..old(m.taken)] + r.name + [0]
    ensures ok && m.taken > m.space.Length ==> m.space[..] == old(m.space[..])
  {
    d, r := Device(0, 0, 0, 0, None), Record(0, 0, 0, 0, 0, []);
    var numbers, where;
    ok, numbers := ParseNumbers(m);
    if ok {
      ghost var at := m.At();
      ok, where := m.RemoveString();
      if ok {
        d := Device(numbers[0], numbers[1] % 0x100, numbers[2], numbers[3], where);
        r := RecordOf(numbers, Take(m.data, at, AString).value.0.text);
      }
    }
  }

  function Prepend(ns: seq<nat>, r: Option<(seq<nat>, Cursor)>): (p: Option<(seq<nat>, Cursor)>)
  {
    if r.None? then None else Some((ns + r.value.0, r.value.1))
  }

  lemma PrependNothing(r: Option<(seq<nat>, Cursor)>)
    ensures Prepend([], r) == r
  {
    if r.Some? {
      assert [] + r.value.0 == r.value.0;
    }
  }

  lemma NumbersStep(data: seq<byte>, c: Cursor, ns: seq<nat>, value: nat, n: nat, c': Cursor)
    requires Within(data, c) && n > 0 && Take(data, c, AnInt) == Some((Int(value), c'))
    ensures Prepend(ns, Numbers(data, c, n)) == Prepend(ns + [value], Numbers(data, c', n - 1))
  {
    var r := Numbers(data, c', n - 1);
    if r.Some? {
      assert ns + ([value] + r.value.0) == ns + [value] + r.value.0;
    }
  }

  /** How far the names have got: what they take, and if they fit, that they are there. */
  ghost predicate Named(space: seq<byte>, taken: nat, rs: seq<Record>, ds: seq<Device>)
  {
    && taken == |Space(rs)| && |ds| == |rs|
    && (taken <= |space| ==> space[..taken] == Space(rs) && Placed(ds, rs))
  }

  lemma NamedNext(was: seq<byte>, space: seq<byte>, taken: nat, taken': nat, rs: seq<Record>, ds: seq<Device>, r: Record, d: Device)
    requires Named(was, taken, rs, ds) && |space| == |was| && d == DeviceOf(r, d.name) && taken' == taken + |r.name| + 1
    requires taken' <= |space| ==> d.name == Some(taken) && space[..taken'] == was[..taken] + r.name + [0]
    ensures Named(space, taken', rs + [r], ds + [d])
  {
    SpaceSnoc(rs, r);
    if taken' <= |space| {
      PlacedSnoc(ds, rs, d, r);
    }
  }

  /** The next of n devices that are left. */
  method ParseNext(m: RxMessage, ghost one: Cursor -> Option<(Record, Cursor)>, ghost n: nat, ghost rs: seq<Record>, ghost ds: seq<Device>)
    returns (ok: bool, d: Device, ghost r: Record)
    requires Within(m.data, m.At()) && Reads(one, m.data) && n > 0 && Named(m.space[..], m.taken, rs, ds)
    modifies m`ptr, m`taken, m.space
    ensures ok ==> Within(m.data, m.At())
    ensures !ok ==> Many(one, old(m.At()), n) == None
    ensures ok ==> PrependAll(rs, Many(one, old(m.At()), n)) == PrependAll(rs + [r], Many(one, m.At(), n - 1))
    ensures ok ==> Named(m.space[..], m.taken, rs + [r], ds + [d])
  {
    ghost var here, was, taken := m.At(), m.space[..], m.taken;
    ok, d, r := ParseDevice(m);
    assert one(here) == OneRecord(m.data, here);
    if ok {
      RecordsStep(one, here, rs, r, n, m.At());
      NamedNext(was, m.space[..], taken, m.taken, rs, ds, r, d);
    }
  }

  /**
   One pass over the devices. The space that all names need is known behind it, whether they fitted or
   not; if they did, the names are in it one after another.
   */
  method ParseAll(m: RxMessage, count: nat, ghost one: Cursor -> Option<(Record, Cursor)>) returns (ok: bool, devices: seq<Device>)
    requires Within(m.data, m.At()) && m.taken == 0 && Reads(one, m.data)
    modifies m`ptr, m`taken, m.space
    ensures ok <==> Many(one, old(m.At()), count).Some?
    ensures ok ==> Named(m.space[..], m.taken, Many(one, old(m.At()), count).value, devices)
  {
    devices, ok := [], true;
    ghost var rs: seq<Record> := [];
    ghost var all := Many(one, m.At(), count);
    assert all.Some? ==> [] + all.value == all.value;
    while |devices| < count
      invariant |devices| <= count && Within(m.data, m.At())
      invariant PrependAll(rs, Many(one, m.At(), count - |devices|)) == all
      invariant Named(m.space[..], m.taken, rs, devices)
    {
      var d;
      ghost var r;
      ok, d, r := ParseNext(m, one, count - |devices|, rs, devices);
      if !ok {
        return;
      }
      devices, rs := devices + [d], rs + [r];
    }
    assert rs + [] == rs;
  }

  function PrependAll(rs: seq<Record>, r: Option<seq<Record>>): (p: Option<seq<Record>>)
  {
    if r.None? then None else Some(rs + r.value)
  }

  lemma RecordsStep(one: Cursor -> Option<(Record, Cursor)>, c: Cursor, rs: seq<Record>, r: Record, n: nat, c': Cursor)
    requires n > 0 && one(c) == Some((r, c'))
    ensures PrependAll(rs, Many(one, c, n)) == PrependAll(rs + [r], Many(one, c', n - 1))
  {
    var rest := Many(one, c', n - 1);
    if rest.Some? {
      assert rs + ([r] + rest.value) == rs + [r] + rest.value;
    }
  }

  lemma PlacedSnoc(ds: seq<Device>, rs: seq<Record>, d: Device, r: Record)
    requires Placed(ds, rs) && d == DeviceOf(r, Some(|Space(rs)|))
    ensures Placed(ds + [d], rs + [r])
  {
    var rs' := rs + [r];
    assert rs'[..|rs|] == rs;
    forall i | 0 <= i < |ds|
      ensures rs'[..i] == rs[..i]
    {
    }
  }

  /** One pass with this space for strings. */
  method Pass(data: seq<byte>, count: nat, space: array<byte>) returns (ok: bool, devices: seq<Device>, taken: nat)
    modifies space
    ensures ok <==> Records(data, count).Some?
    ensures ok ==> Named(space[..], taken, Records(data, count).value, devices)
  {
    var message := new RxMessage(data, space);
    message.SingleBlock();
    ok, devices := ParseAll(message, count, Reader(data));
    taken := message.taken;
  }

  /**
   The device list of the server, in two passes over the same data: the first without any space, to learn
   how much the names need, the second with just that much. Every name then fits.
   */
  method ParseDevices(data: seq<byte>, count: nat) returns (devices: seq<Device>, strings: array<byte>)
    ensures fresh(strings)
    ensures Records(data, count) == None ==> devices == []
    ensures Records(data, count).Some? ==>
      strings[..] == Space(Records(data, count).value)
      && Placed(devices, Records(data, count).value)
  {
    devices := [];
    strings := new byte[0];
    ghost var all := Records(data, count);
    var pass := 0;
    while pass < 2
      invariant 0 <= pass <= 2 && fresh(strings)
      invariant pass == 0 ==> devices == []
      invariant pass > 0 ==> all.Some? && strings.Length == |Space(all.value)|
      invariant pass == 2 ==> strings[..] == Space(all.value) && Placed(devices, all.value)
    {
      var ok, ds, taken := Pass(data, count, strings);
      if !ok {
        break;
      }
      if pass == 0 {
        strings := new byte[taken];
      } else {
        assert strings[..] == strings[..taken];
        devices := ds;
      }
      pass := pass + 1;
    }
  }
}
