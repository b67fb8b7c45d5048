/**
 The transmit half of the multiplexed link. Packets are framed into a copy buffer and
 a list of at most eight vectors; the vectors are drained through short writes.
 */
module TxLink {
  import opened Bytes
  import opened Framing
  import opened TxQueue

  const BUFFER_SIZE := 4 + 0x1000
  const INDIRECT_MAX := 8
  const MEMCPY_THRESHOLD := 512
  const INACTIVE := 0xFFFF

  datatype Status = OK | WOULDBLOCK | DISCONNECT

  /** What the socket does when next asked: one answer for each call. */
  datatype Answer = Accept(n: nat) | Busy | Interrupted | Broken

  /** One scatter/gather entry: a stretch of some block of memory. */
  datatype Iovec = Iovec(base: array<byte>, off: nat, len: nat)

  // ------------------------------------------------------------- what the socket takes

  /** How long the wire is after writing, the answers not yet taken, and how it ended. */
  datatype Pushed = Pushed(at: nat, answers: seq<Answer>, end: Status)

  /** What one write of so many bytes returns: how many were taken, -1 for none, -2 interrupted, -3 broken. */
  function Taken(open: bool, answers: seq<Answer>, pending: nat): (n: int)
    ensures -3 <= n <= pending
  {
    if !open || answers == [] then -3
    else match answers[0]
      case Broken => -3
      case Interrupted => -2
      case Busy => -1
      case Accept(k) => if k < pending then k else pending
  }

  /** The answers left once one is taken. */
  function Behind(answers: seq<Answer>): (rest: seq<Answer>)
    ensures |rest| <= |answers|
  {
    if answers == [] then [] else answers[1..]
  }

  /** The socket is asked to wait until it takes more, and does not break. */
  predicate Waits(answers: seq<Answer>)
  {
    answers != [] && answers[0] != Broken
  }

  /** `pending` bytes written behind `at` others, until all are, the socket breaks or, without `block`, it refuses more. */
  function Push(open: bool, answers: seq<Answer>, at: nat, pending: nat, block: bool): (p: Pushed)
    decreases |answers|
  {
    var n := Taken(open, answers, pending);
    var rest := if open then Behind(answers) else answers;
    if n == -3 then Pushed(at, rest, DISCONNECT)
    else if n == -2 then Push(open, rest, at, pending, block)
    else
      var m := if n < 0 then 0 else n;
      if m == pending then Pushed(at + m, rest, OK)
      else if !block then Pushed(at + m, rest, WOULDBLOCK)
      else if !Waits(rest) then Pushed(at + m, Behind(rest), DISCONNECT)
      else Push(open, Behind(rest), at + m, pending - m, block)
  }

  /** A request to write: whether the link is open, its answers, the length of the wire, and the bytes pending. */
  datatype Request = Request(open: bool, answers: seq<Answer>, at: nat, pending: nat)

  function PushFor(was: Request, block: bool): (p: Pushed)
  {
    Push(was.open, was.answers, was.at, was.pending, block)
  }

  /** One write returned n, and left this. */
  predicate Wrote(was: Request, n: int, now: Request)
  {
    && n == Taken(was.open, was.answers, was.pending) && now.open == was.open
    && now.answers == (if was.open then Behind(was.answers) else was.answers)
    && now.at == was.at + Written(n) && now.pending == was.pending - Written(n)
  }

  /** What becomes of a request once a write returned n: how it ends, whether it goes on, and the answers left. */
  function Judged(n: int, now: Request, block: bool): (j: (Status, bool, seq<Answer>))
  {
    if n == -3 then (DISCONNECT, false, now.answers)
    else if n == -2 then (OK, true, now.answers)
    else if now.pending == 0 then (OK, false, now.answers)
    else if !block then (WOULDBLOCK, false, now.answers)
    else if Waits(now.answers) then (OK, true, Behind(now.answers))
    else (DISCONNECT, false, Behind(now.answers))
  }

  lemma JudgedRight(was: Request, n: int, now: Request, block: bool)
    requires Wrote(was, n, now)
    ensures var j := Judged(n, now, block);
      PushFor(was, block) == if j.1 then PushFor(now.(answers := j.2), block) else Pushed(now.at, j.2, j.0)
  {
  }

  predicate TakenFrom(was: seq<Answer>, now: seq<Answer>)
  {
    |now| <= |was| && was[|was| - |now|..] == now
  }

  predicate LastTaken(was: seq<Answer>, now: seq<Answer>, a: Answer)
  {
    TakenFrom(was, now) && |now| < |was| && was[|was| - |now| - 1] == a
  }

  /** A socket that takes something each time it is asked. */
  predicate Keen(answers: seq<Answer>)
  {
    forall i :: 0 <= i < |answers| ==> answers[i].Accept? && answers[i].n > 0
  }

  /** Answers are taken in order, and by a keen socket at most two for each byte written. */
  predicate Drew(was: seq<Answer>, now: seq<Answer>, n: int)
  {
    TakenFrom(was, now) && n >= 0 && (Keen(was) ==> Keen(now) && |was| - |now| <= 2 * n)
  }

  /** The link was closed before, its answers ran out, or the last one taken was that it broke. */
  predicate Broke(open: bool, was: seq<Answer>, now: seq<Answer>)
  {
    !open || now == [] || LastTaken(was, now, Broken)
  }

  lemma DrewOn(was: seq<Answer>, then': seq<Answer>, now: seq<Answer>, m: int, n: int)
    requires Drew(was, then', m) && Drew(then', now, n)
    ensures Drew(was, now, m + n) && (Broke(true, then', now) ==> Broke(true, was, now))
    ensures forall a :: LastTaken(then', now, a) ==> LastTaken(was, now, a)
  {
    var k := |was| - |then'|;
    assert was[k..][|then'| - |now|..] == was[|was| - |now|..];
    if |now| < |then'| {
      assert was[k..][|then'| - |now| - 1] == was[|was| - |now| - 1];
    }
  }

  /** When writing ends: well exactly with all bytes written, and otherwise for no other reasons than these. */
  predicate PushedOk(open: bool, answers: seq<Answer>, at: nat, pending: nat, block: bool, p: Pushed)
  {
    && at <= p.at <= at + pending && Drew(answers, p.answers, p.at - at)
    && (p.end == OK ==> p.at == at + pending && open)
    && (p.end == WOULDBLOCK ==> open && !block && p.at < at + pending)
    && (p.end == WOULDBLOCK ==> LastTaken(answers, p.answers, Accept(p.at - at)) || (p.at == at && LastTaken(answers, p.answers, Busy)))
    && (p.end == DISCONNECT ==> Broke(open, answers, p.answers))
  }

  /** Whether the socket is asked again, and how much was written before. */
  predicate Again(open: bool, answers: seq<Answer>, pending: nat, block: bool)
  {
    var n := Taken(open, answers, pending);
    n == -2 || (n != -3 && block && Written(n) < pending && Waits(Behind(answers)))
  }

  function Written(n: int): (m: nat)
  {
    if n < 0 then 0 else n
  }

  function Next(open: bool, answers: seq<Answer>, pending: nat): (rest: seq<Answer>)
  {
    if Taken(open, answers, pending) == -2 then Behind(answers) else Behind(Behind(answers))
  }

  lemma PushAgain(open: bool, answers: seq<Answer>, at: nat, pending: nat, block: bool)
    requires Again(open, answers, pending, block)
    ensures var m := Written(Taken(open, answers, pending));
      && Push(open, answers, at, pending, block) == Push(open, Next(open, answers, pending), at + m, pending - m, block)
      && Drew(answers, Next(open, answers, pending), m) && |Next(open, answers, pending)| < |answers| && open && (m == 0 || block)
  {
    if |answers| > 1 {
      assert answers[1..][1..] == answers[2..];
    }
  }

  lemma PushStops(open: bool, answers: seq<Answer>, at: nat, pending: nat, block: bool)
    requires pending > 0 && !Again(open, answers, pending, block)
    ensures PushedOk(open, answers, at, pending, block, Push(open, answers, at, pending, block))
  {
    if |answers| > 1 {
      assert answers[1..][1..] == answers[2..] && answers[1..][0] == answers[1];
    }
  }

  lemma {:induction false} PushEnds(open: bool, answers: seq<Answer>, at: nat, pending: nat, block: bool)
    requires pending > 0
    ensures PushedOk(open, answers, at, pending, block, Push(open, answers, at, pending, block))
    decreases |answers|
  {
    if Again(open, answers, pending, block) {
      var m, rest := Written(Taken(open, answers, pending)), Next(open, answers, pending);
      var p := Push(open, answers, at, pending, block);
      PushAgain(open, answers, at, pending, block);
      PushEnds(open, rest, at + m, pending - m, block);
      PushedOn(open, answers, rest, at, m, pending, block, p);
    } else {
      PushStops(open, answers, at, pending, block);
    }
  }

  lemma PushedOn(open: bool, answers: seq<Answer>, then': seq<Answer>, at: nat, m: nat, pending: nat, block: bool, p: Pushed)
    requires m < pending && open && Drew(answers, then', m) && (m == 0 || block)
    requires PushedOk(open, then', at + m, pending - m, block, p)
    ensures PushedOk(open, answers, at, pending, block, p)
  {
    DrewOn(answers, then', p.answers, m, p.at - at - m);
  }

  predicate TakesAll(open: bool, answers: seq<Answer>, pending: nat)
  {
    open && answers != [] && answers[0].Accept? && answers[0].n >= pending
  }

  /** A socket that takes all that is pending at once, when it is first asked, is enough. */
  lemma PushesAll(answers: seq<Answer>, at: nat, pending: nat, block: bool)
    requires TakesAll(true, answers, pending)
    ensures Push(true, answers, at, pending, block) == Pushed(at + pending, answers[1..], OK)
  {
  }

  // ------------------------------------------------------------- the transmitter

  function ZeroBytes(n: nat): (r: seq<byte>)
    ensures |r| == n && forall i :: 0 <= i < n ==> r[i] == 0
  {
    seq(n, _ => 0)
  }

  ghost predicate ZeroBlock(a: array<byte>)
    reads a
  {
    a.Length == ZEROS && forall i :: 0 <= i < ZEROS ==> a[i] == 0
  }

  /** A FIFO of bytes to transmit; absent data stands for zeros. */
  class TxRawFifo {
    var data: array?<byte>
    const length: nat
    var ptr: nat
    var autofree: bool
    var mux: nat
    var interleave: bool

    ghost predicate Sane()
      reads this
    {
      (data != null ==> data.Length >= length) && ptr <= length
    }

    ghost function View(): (f: Fifo)
      requires Sane()
      reads this, data
      ensures FIFO_MIN + mux <= FIFO_MAX ==> FifoOk(f)
    {
      Fifo(mux, if data == null then ZeroBytes(length) else data[..length], data == null, ptr, interleave)
    }

    constructor (length: nat, data: array?<byte>)
      requires data != null ==> data.Length >= length
      ensures Sane() && ptr == 0 && mux == INACTIVE && !autofree
      ensures this.data == data && this.length == length
    {
      this.length, this.data := length, data;
      ptr, autofree, mux, interleave := 0, false, INACTIVE, false;
    }

    method GetDataAvail(max: nat) returns (n: nat)
      requires Sane()
      ensures n == Avail(View(), max)
    {
      n := max - max % 4;
      if data == null && n > ZEROS {
        n := ZEROS;
      }
      if ptr + n > length {
        n := length - ptr;
      }
    }

    /** Hand over the next `count` bytes; the FIFO moves past them. */
    method GetData(count: nat, zeros: array<byte>) returns (base: array<byte>, off: nat)
      requires Sane() && ZeroBlock(zeros)
      requires 0 < count <= length - ptr && (data == null ==> count <= ZEROS)
      modifies this`ptr
      ensures Sane() && View() == old(View()).(pos := old(ptr) + count)
      ensures base == (if data == null then zeros else data) && off + count <= base.Length
      ensures base[off..off + count] == View().data[old(ptr)..old(ptr) + count]
    {
      if data == null {
        base, off := zeros, 0;
      } else {
        base, off := data, ptr;
      }
      ptr := ptr + count;
    }

    /** Take a private copy of the data, so that the caller may reuse its block. */
    method CopyData()
      requires Sane() && ptr == 0
      modifies this`data, this`autofree
      ensures Sane() && View() == old(View())
      ensures old(autofree) || old(data) == null ==> data == old(data) && autofree == old(autofree)
      ensures !old(autofree) && old(data) != null ==> fresh(data) && autofree
    {
      if autofree || data == null {
        return;
      }
      var source: array<byte> := data;
      var newdata := new byte[length](i requires 0 <= i < source.Length reads source => source[i]);
      assert newdata[..] == source[..length];
      data, autofree := newdata, true;
    }
  }

  class TxLink {
    const txbuf: array<byte>
    const zeros: array<byte>
    var txstart: nat
    var txptr: nat
    const indirect: array<Iovec>
    var iptr: nat
    /** FIFOs in activation order, the interleaved successor's position, FIFOs awaiting deletion. */
    var queue: seq<TxRawFifo>
    var next: nat
    var done: seq<TxRawFifo>

    /** The socket: whether it is open, what it took, what it will answer. */
    var open: bool
    var wire: seq<byte>
    var answers: seq<Answer>

    /** For each pending vector: its bytes, and the FIFO whose memory it points into. */
    ghost var chunks: seq<seq<byte>>
    ghost var owners: seq<TxRawFifo?>
    /** The value of the FIFO queue, the packets framed so far, and the history behind both. */
    ghost var q: Queue
    ghost var sent: seq<Packet>
    ghost var ops: seq<Op>
    /** Blocks of memory outside the copy buffer that vectors and FIFOs point into. */
    ghost var mem: set<array<byte>>
    /** The blocks among them that are freed along with a FIFO. */
    ghost var keeper: map<array<byte>, TxRawFifo>

    /** A vector points at live memory, and at a FIFO's own block only while that FIFO is there. */
    ghost predicate VecOk(v: Iovec, c: seq<byte>, owner: TxRawFifo?)
      reads this`txstart, this`mem, this`keeper, this`queue, this`done, txbuf, mem
      reads (if owner == null then {} else {owner})`data
    {
      && (v.base == txbuf || v.base in mem)
      && v.off + v.len <= v.base.Length
      && v.len > 0
      && v.base[v.off..v.off + v.len] == c
      && (v.base == txbuf ==> v.off + v.len <= txstart)
      && (owner != null ==> (owner in queue || owner in done) && (v.base == owner.data || v.base == zeros))
      && (v.base in keeper ==> owner == keeper[v.base])
    }

    ghost predicate Vectors()
      reads this`txstart, this`txptr, this`iptr, this`chunks, this`owners, this`mem, this`keeper, this`queue, this`done
      reads txbuf, indirect, mem, owners`data
    {
      && txbuf.Length == BUFFER_SIZE && indirect.Length == INDIRECT_MAX
      && txbuf !in mem
      && txstart <= txptr <= BUFFER_SIZE
      && iptr == |chunks| == |owners| && iptr <= INDIRECT_MAX
      && forall i :: 0 <= i < iptr ==> VecOk(indirect[i], chunks[i], owners[i])
    }

    ghost predicate Matches(f: TxRawFifo, v: Fifo)
      reads this`mem, f, f.data
    {
      && (f.data != null ==> f.data in mem)
      && f.Sane() && FIFO_MIN + f.mux <= FIFO_MAX && f.View() == v
    }

    /** A FIFO with a block of its own is the only one to use it. */
    ghost predicate Owned(f: TxRawFifo)
      reads this`keeper, f`data, f`autofree
    {
      && (f.data != null && f.autofree ==> f.data in keeper)
      && (f.data != null && f.data in keeper ==> keeper[f.data] == f)
    }

    /** Which FIFO frees which block. */
    ghost predicate Owners()
      reads this`queue, this`done, this`mem, this`keeper, queue`data, queue`autofree, done`data, done`autofree
    {
      && keeper.Keys <= mem && zeros !in keeper
      && (forall i :: 0 <= i < |queue| ==> Owned(queue[i]))
      && (forall i :: 0 <= i < |done| ==> Owned(done[i]) && done[i] !in queue && (done[i].data != null ==> done[i].data in mem))
      && (forall i, j :: 0 <= i < j < |done| ==> done[i] != done[j])
    }

    ghost predicate Fifos()
      reads this`queue, this`next, this`q, this`mem, queue, mem, zeros
    {
      && ZeroBlock(zeros) && zeros in mem
      && Ok(q) && |q.fifos| == |queue| && q.next == next
      && (forall i :: 0 <= i < |queue| ==> queue[i].data != null ==> queue[i].data in mem)
      && (forall i :: 0 <= i < |queue| ==> Matches(queue[i], q.fifos[i]))
      && (forall i, j :: 0 <= i < j < |queue| ==> queue[i] != queue[j])
    }

    /** The bytes accepted for transmission and not yet written. */
    ghost function Pending(): (r: seq<byte>)
      requires txstart <= txptr <= txbuf.Length
      reads this`txstart, this`txptr, this`chunks, txbuf
    {
      Flatten(chunks) + txbuf[txstart..txptr]
    }

    predicate Idle()
      reads this`iptr, this`txptr, this`txstart
    {
      iptr == 0 && txptr == txstart
    }

    /**
     While the socket is open, written, pending and unvectored bytes are the framed packets, in order;
     once it is closed, what was written is a prefix of them.
     */
    ghost predicate StreamOk()
      requires txstart <= txptr <= txbuf.Length
      reads this`txstart, this`txptr, this`chunks, this`open, this`wire, this`sent, txbuf
    {
      && AllWellFormed(sent)
      && (if open then wire + Pending() == FrameAll(sent) else wire <= FrameAll(sent))
    }

    ghost predicate Inv()
      reads this, txbuf, indirect, queue, done, owners, mem, zeros
    {
      && Vectors() && Fifos() && Owners() && StreamOk()
      && (Idle() ==> txptr == 0)
      && (txptr != txstart ==> iptr < INDIRECT_MAX)
    }

    ghost predicate Valid()
      reads this, txbuf, indirect, queue, done, owners, mem, zeros
    {
      Inv() && OpsOk(ops) && Exec(ops) == State(q, sent)
    }

    constructor (zeros: array<byte>, answers: seq<Answer>)
      requires ZeroBlock(zeros)
      ensures Valid() && open && wire == [] && ops == [] && this.answers == answers && this.zeros == zeros
      ensures mem == {zeros} && fresh(txbuf) && fresh(indirect)
    {
      var buffer := new byte[BUFFER_SIZE](_ => 0);
      txbuf := buffer;
      indirect := new Iovec[INDIRECT_MAX](_ => Iovec(buffer, 0, 0));
      this.zeros, this.answers := zeros, answers;
      txstart, txptr, iptr := 0, 0, 0;
      queue, next, done := [], 0, [];
      open, wire := true, [];
      chunks, owners, q, sent, ops, mem, keeper := [], [], Queue([], 0), [], [], {zeros}, map[];
    }

    // ------------------------------------------------------------- draining the vectors

    /** The bytes the vectors point at, as a gathering write reads them. */
    method Gather() returns (gathered: seq<byte>)
      requires Vectors()
      ensures gathered == Flatten(chunks)
    {
      gathered := [];
      for i := 0 to iptr
        invariant gathered == Flatten(chunks[..i])
      {
        var v := indirect[i];
        assert VecOk(v, chunks[i], owners[i]);
        FlattenSnoc(chunks[..i], chunks[i]);
        assert chunks[..i + 1] == chunks[..i] + [chunks[i]];
        gathered := gathered + v.base[v.off..v.off + v.len];
      }
      assert chunks[..iptr] == chunks;
    }

    /** One gathering write: a prefix of the vectors' bytes goes out, as long as the socket likes. */
    method Writev() returns (n: int)
      requires Vectors()
      modifies this`wire, this`answers
      ensures n == Taken(open, old(answers), |Flatten(chunks)|) && answers == if open then Behind(old(answers)) else old(answers)
      ensures n == -3 || (open && |answers| < |old(answers)|)
      ensures wire == if n < 0 then old(wire) else old(wire) + Flatten(chunks)[..n]
    {
      if !open || answers == [] {
        return -3;
      }
      var gathered := Gather();
      match answers[0] {
        case Broken => n := -3;
        case Interrupted => n := -2;
        case Busy => n := -1;
        case Accept(k) =>
          n := if k < |gathered| then k else |gathered|;
          wire := wire + gathered[..n];
      }
      answers := answers[1..];
    }

    /** How many whole vectors n bytes cover, and how far they reach into the next. */
    method Scan(n: nat) returns (i: nat, left: nat)
      requires Vectors() && n <= |Flatten(chunks)|
      ensures i <= iptr && (left > 0 ==> i < iptr && left < |chunks[i]|)
      ensures n == |Flatten(chunks[..i])| + left
      ensures n == 0 ==> i == 0
    {
      i, left := 0, n;
      while left > 0
        invariant i <= iptr && n == left + |Flatten(chunks[..i])|
        invariant n == 0 ==> i == 0
        decreases iptr - i
      {
        Split(chunks, i);
        assert VecOk(indirect[i], chunks[i], owners[i]);
        if left >= indirect[i].len {
          left := left - indirect[i].len;
          i := i + 1;
        } else {
          return;
        }
      }
    }

    /** A partly written vector keeps only what was not written. */
    method Trim(i: nat, left: nat)
      requires Vectors() && i < iptr && 0 < left < |chunks[i]|
      modifies this`chunks, indirect
      ensures Vectors() && chunks == old(chunks)[i := old(chunks)[i][left..]]
    {
      var v := indirect[i];
      assert VecOk(v, chunks[i], owners[i]);
      indirect[i] := Iovec(v.base, v.off + left, v.len - left);
      chunks := chunks[i := chunks[i][left..]];
    }

    /** Vectors written in full are dropped and the others moved down. */
    method Shift(i: nat)
      requires Vectors() && i <= iptr
      modifies this`chunks, this`owners, this`iptr, indirect
      ensures Vectors() && chunks == old(chunks)[i..]
    {
      MoveDown(i, iptr - i);
      iptr, chunks, owners := iptr - i, chunks[i..], owners[i..];
      forall j | 0 <= j < iptr
        ensures VecOk(indirect[j], chunks[j], owners[j])
      {
        assert old(VecOk(indirect[j + i], chunks[j + i], owners[j + i]));
      }
    }

    method MoveDown(i: nat, n: nat)
      requires i + n <= indirect.Length
      modifies indirect
      ensures forall j :: 0 <= j < n ==> indirect[j] == old(indirect[j + i])
    {
      forall j | 0 <= j < n {
        indirect[j] := indirect[j + i];
      }
    }

    /** Drop the first n bytes of the vectors. */
    method Consume(n: nat)
      requires Vectors() && n <= |Flatten(chunks)|
      modifies this`iptr, this`chunks, this`owners, indirect
      ensures Vectors() && Flatten(chunks) == old(Flatten(chunks))[n..]
      ensures iptr <= old(iptr)
    {
      var i, left := Scan(n);
      DropBytes(chunks, i, left);
      if left > 0 {
        Trim(i, left);
      }
      if i > 0 {
        Shift(i);
      }
    }

    /** Close the socket; what was not written is forgotten. */
    method Close()
      requires Vectors() && StreamOk()
      modifies this`open, this`txptr, this`txstart, this`iptr, this`chunks, this`owners
      ensures Vectors() && StreamOk() && !open && Idle() && txptr == 0 && wire == old(wire) && answers == old(answers)
    {
      open := false;
      txptr, txstart, iptr, chunks, owners := 0, 0, 0, [], [];
    }

    /** One write and the bookkeeping after it. */
    method WriteSome() returns (n: int)
      requires Vectors() && StreamOk()
      modifies this`wire, this`answers, this`iptr, this`chunks, this`owners, indirect
      ensures Vectors() && StreamOk()
      ensures n == -3 || (open && |answers| < |old(answers)|)
      ensures iptr <= old(iptr) && (n < 0 ==> iptr == old(iptr))
      ensures Wrote(old(Asked()), n, Asked()) && open == old(open)
    {
      n := Writev();
      if n >= 0 {
        ghost var all, tail := Flatten(chunks), txbuf[txstart..txptr];
        Consume(n);
        Advance(old(wire), all, n, tail);
      }
    }

    /** Append one vector to the list. */
    method PushVector(v: Iovec, ghost c: seq<byte>, ghost owner: TxRawFifo?)
      requires Vectors() && iptr < INDIRECT_MAX
      requires (v.base == txbuf && v.off + v.len <= txstart) || (v.base in mem && v.off + v.len <= v.base.Length)
      requires v.len > 0 && c == v.base[v.off..v.off + v.len]
      requires owner != null ==> (owner in queue || owner in done) && (v.base == owner.data || v.base == zeros)
      requires v.base in keeper ==> owner == keeper[v.base]
      modifies this`iptr, this`chunks, this`owners, indirect
      ensures Vectors() && chunks == old(chunks) + [c] && iptr == old(iptr) + 1
    {
      indirect[iptr] := v;
      iptr, chunks, owners := iptr + 1, chunks + [c], owners + [owner];
    }

    /** The unvectored tail of the copy buffer becomes a vector. */
    method PushCopied()
      requires Vectors() && txptr != txstart && iptr < INDIRECT_MAX && txbuf !in keeper
      modifies this`iptr, this`txstart, this`chunks, this`owners, indirect
      ensures Vectors() && txptr == txstart && iptr == old(iptr) + 1
      ensures chunks == old(chunks) + [txbuf[old(txstart)..txptr]]
    {
      var start := txstart;
      txstart := txptr;
      PushVector(Iovec(txbuf, start, txptr - start), txbuf[start..txptr], null);
    }

    /** Before writing, what was only copied gets its vector. */
    method AddLastVector()
      requires Vectors() && StreamOk() && (txptr != txstart ==> iptr < INDIRECT_MAX) && txbuf !in keeper
      modifies this`iptr, this`txstart, this`chunks, this`owners, indirect
      ensures Vectors() && StreamOk() && txptr == txstart && Flatten(chunks) == old(Pending())
      ensures iptr == if old(txptr == txstart) then old(iptr) else old(iptr) + 1
      ensures open == old(open) && wire == old(wire) && answers == old(answers)
    {
      if txptr != txstart {
        FlattenSnoc(chunks, txbuf[txstart..txptr]);
        PushCopied();
        assert txbuf[txstart..txptr] == [];
      } else {
        assert txbuf[txstart..txptr] == [] && Flatten(chunks) + [] == Flatten(chunks);
      }
    }

    /** The socket's answer when asked to wait until it takes more bytes. */
    method WaitForSpace() returns (ok: bool)
      modifies this`answers
      ensures ok == Waits(old(answers)) && answers == Behind(old(answers))
      ensures open == old(open) && wire == old(wire) && chunks == old(chunks)
    {
      ok := answers != [] && answers[0] != Broken;
      answers := if answers == [] then [] else answers[1..];
    }

    /** What the socket is asked: to write the vectors. */
    ghost function Asked(): (was: Request)
      reads this`open, this`answers, this`wire, this`chunks
    {
      Request(open, answers, |wire|, |Flatten(chunks)|)
    }

    /** Answers taken and bytes written since then, and if it did not go well, why. */
    ghost predicate Spent(open0: bool, answers0: seq<Answer>, wire0: seq<byte>, ok: bool)
      reads this`answers, this`wire
    {
      Drew(answers0, answers, |wire| - |wire0|) && (!ok ==> Broke(open0, answers0, answers))
    }

    /** One attempt to write, and what becomes of it; `again` if the vectors have to be tried once more. */
    method DrainOnce(block: bool) returns (r: Status, again: bool)
      requires Vectors() && StreamOk() && txptr == txstart && iptr > 0
      modifies this`open, this`wire, this`answers, this`iptr, this`txptr, this`txstart, this`chunks, this`owners, indirect
      ensures Vectors() && StreamOk() && txptr == txstart
      ensures again ==> open == old(open) && iptr > 0 && txptr == old(txptr) && |answers| < |old(answers)|
      ensures !again && r == OK ==> open && iptr == 0 && wire == FrameAll(sent)
      ensures !again && r == WOULDBLOCK ==> open && !block && iptr > 0 && txptr == old(txptr)
      ensures !again && r == DISCONNECT ==> !open && iptr == 0 && txptr == 0
      ensures open ==> old(open)
      ensures PushFor(old(Asked()), block) == if again then PushFor(Asked(), block) else Pushed(|wire|, answers, r)
    {
      ghost var was := Asked();
      var n := WriteSome();
      ghost var now := Asked();
      r, again := Conclude(n, block);
      JudgedRight(was, n, now, block);
    }

    /** What becomes of one attempt to write. */
    method Conclude(n: int, block: bool) returns (r: Status, again: bool)
      requires Vectors() && StreamOk() && txptr == txstart && (n != -3 ==> open) && (n == -3 || n == -2 ==> iptr > 0)
      modifies this`open, this`answers, this`iptr, this`txptr, this`txstart, this`chunks, this`owners
      ensures Vectors() && StreamOk() && txptr == txstart && wire == old(wire)
      ensures (r, again, answers) == Judged(n, old(Asked()), block)
      ensures again ==> open == old(open) && iptr > 0 && txptr == old(txptr) && chunks == old(chunks)
      ensures !again && r == OK ==> open && iptr == 0 && wire == FrameAll(sent)
      ensures !again && r == WOULDBLOCK ==> open && !block && iptr > 0 && txptr == old(txptr)
      ensures !again && r == DISCONNECT ==> !open && iptr == 0 && txptr == 0
    {
      if n == -3 {
        Close();
        return DISCONNECT, false;
      }
      if n == -2 {
        return OK, true;
      }
      if iptr == 0 {
        assert Flatten(chunks) == [] && txbuf[txstart..txptr] == [];
        return OK, false;
      }
      SomePending();
      if !block {
        return WOULDBLOCK, false;
      }
      r, again := AwaitSpace();
    }

    /** The socket refused bytes: it takes more later, or the link is lost. */
    method AwaitSpace() returns (r: Status, again: bool)
      requires Vectors() && StreamOk() && txptr == txstart && iptr > 0
      modifies this`open, this`answers, this`iptr, this`txptr, this`txstart, this`chunks, this`owners
      ensures Vectors() && StreamOk() && txptr == txstart && wire == old(wire) && answers == Behind(old(answers))
      ensures if Waits(old(answers)) then
                r == OK && again && open == old(open) && iptr == old(iptr) && txptr == old(txptr) && chunks == old(chunks)
              else r == DISCONNECT && !again && !open && iptr == 0 && txptr == 0
    {
      again := WaitForSpace();
      r := OK;
      if !again {
        Close();
        r := DISCONNECT;
      }
    }

    /** Vectors are never empty. */
    lemma SomePending()
      requires Vectors() && iptr > 0
      ensures |Flatten(chunks)| > 0
    {
      assert VecOk(indirect[0], chunks[0], owners[0]);
    }

    /** Write until all vectors are gone or, without `block`, until the socket refuses more. */
    method Drain(block: bool) returns (r: Status)
      requires Vectors() && StreamOk() && txptr == txstart && iptr > 0
      modifies this`open, this`wire, this`answers, this`iptr, this`txptr, this`txstart, this`chunks, this`owners, indirect
      ensures Vectors() && StreamOk() && txptr == txstart
      ensures r == OK ==> open && iptr == 0 && wire == FrameAll(sent)
      ensures r == WOULDBLOCK ==> open && !block && iptr > 0 && txptr == old(txptr)
      ensures r == DISCONNECT ==> !open && iptr == 0 && txptr == 0
      ensures open ==> old(open)
      ensures PushFor(old(Asked()), block) == Pushed(|wire|, answers, r)
      ensures PushedOk(old(open), old(answers), |old(wire)|, |old(Flatten(chunks))|, block, Pushed(|wire|, answers, r))
      ensures TakesAll(old(open), old(answers), |old(Flatten(chunks))|) ==> r == OK
    {
      SomePending();
      PushEnds(open, answers, |wire|, |Flatten(chunks)|, block);
      if TakesAll(open, answers, |Flatten(chunks)|) {
        PushesAll(answers, |wire|, |Flatten(chunks)|, block);
      }
      var again := true;
      r := OK;
      while again
        invariant Vectors() && StreamOk() && txptr == txstart && (open ==> old(open))
        invariant again ==> iptr > 0 && txptr == old(txptr) && open == old(open)
        invariant !again && r == OK ==> open && iptr == 0 && wire == FrameAll(sent)
        invariant !again && r == WOULDBLOCK ==> open && !block && iptr > 0 && txptr == old(txptr)
        invariant !again && r == DISCONNECT ==> !open && iptr == 0 && txptr == 0
        invariant PushFor(old(Asked()), block) == if again then PushFor(Asked(), block) else Pushed(|wire|, answers, r)
        decreases again, |answers|
      {
        r, again := DrainOnce(block);
      }
    }

    /** Write what is pending; with `block` set keep on until all of it is written. */
    method SendQueued(block: bool) returns (r: Status)
      requires Inv() && !Idle()
      modifies this`open, this`wire, this`answers, this`iptr, this`txptr, this`txstart
      modifies this`chunks, this`owners, this`done, this`mem, this`keeper, indirect
      ensures Inv()
      ensures r == OK ==> Idle() && open && wire == FrameAll(sent) && done == []
      ensures r == WOULDBLOCK ==> open && !block && !Idle() && done == old(done)
      ensures r == DISCONNECT ==> !open && Idle() && done == old(done)
      ensures open ==> old(open)
      ensures keeper.Keys <= old(keeper.Keys)
      ensures PushedOk(old(open), old(answers), |old(wire)|, |old(Pending())|, block, Pushed(|wire|, answers, r))
      ensures TakesAll(old(open), old(answers), |old(Pending())|) ==> r == OK
    {
      r := WriteOut(block);
      if r == OK {
        DeleteQueue();
      }
    }

    method WriteOut(block: bool) returns (r: Status)
      requires Vectors() && StreamOk() && !Idle() && (txptr != txstart ==> iptr < INDIRECT_MAX) && txbuf !in keeper
      modifies this`open, this`wire, this`answers, this`iptr, this`txptr, this`txstart
      modifies this`chunks, this`owners, indirect
      ensures Vectors() && StreamOk() && (Idle() ==> txptr == 0) && txptr == txstart
      ensures r == OK ==> Idle() && open && wire == FrameAll(sent)
      ensures r == WOULDBLOCK ==> open && !block && !Idle()
      ensures r == DISCONNECT ==> !open && Idle()
      ensures open ==> old(open)
      ensures PushedOk(old(open), old(answers), |old(wire)|, |old(Pending())|, block, Pushed(|wire|, answers, r))
      ensures TakesAll(old(open), old(answers), |old(Pending())|) ==> r == OK
    {
      ghost var pending := |Pending()|;
      AddLastVector();
      assert |Flatten(chunks)| == pending;
      r := Drain(block);
      if r == OK {
        txptr, txstart := 0, 0;
      }
    }

    /** Free the FIFOs waiting for deletion: only once no vector points into their memory. */
    method DeleteQueue()
      requires Vectors() && Fifos() && Owners() && iptr == 0
      modifies this`done, this`mem, this`keeper
      ensures Vectors() && Fifos() && Owners() && done == [] && keeper.Keys <= old(keeper.Keys)
    {
      while done != []
        invariant Vectors() && Fifos() && Owners() && iptr == 0 && keeper.Keys <= old(keeper.Keys)
        decreases |done|
      {
        var fifo := done[0];
        done := done[1..];
        Free(fifo);
      }
    }

    /** The end of a FIFO: a block of its own is gone with it. */
    ghost method Free(fifo: TxRawFifo)
      requires Vectors() && Fifos() && Owners() && Owned(fifo) && fifo !in queue && fifo !in done
      requires forall i :: 0 <= i < iptr ==> owners[i] != fifo
      modifies this`mem, this`keeper
      ensures Vectors() && Fifos() && Owners() && keeper.Keys <= old(keeper.Keys)
      ensures fifo.data != null && fifo.autofree ==> fifo.data !in mem
    {
      if fifo.data != null && fifo.autofree {
        var block: array<byte> := fifo.data;
        forall i | 0 <= i < iptr
          ensures indirect[i].base != block
        {
          assert VecOk(indirect[i], chunks[i], owners[i]);
        }
        forall i | 0 <= i < |queue|
          ensures queue[i].data != block
        {
          assert Owned(queue[i]);
        }
        forall i | 0 <= i < |done|
          ensures done[i].data != block
        {
          assert Owned(done[i]);
        }
        mem, keeper := mem - {block}, keeper - {block};
      }
    }

    // ------------------------------------------------------------- framing packets

    predicate SpaceForPacket(threshold: nat)
      reads this`txptr, this`iptr
    {
      txptr + threshold + 2 < BUFFER_SIZE && iptr <= INDIRECT_MAX - 2
    }

    method PutByte(b: byte)
      requires Vectors() && txptr < BUFFER_SIZE
      modifies this`txptr, txbuf
      ensures Vectors() && txptr == old(txptr) + 1
      ensures txbuf[..txptr] == old(txbuf[..txptr]) + [b]
    {
      txbuf[txptr] := b;
      txptr := txptr + 1;
    }

    /** Copy a stretch of some other block of memory into the buffer. */
    method PutBytes(base: array<byte>, off: nat, len: nat)
      requires Vectors() && txptr + len <= BUFFER_SIZE && base != txbuf && off + len <= base.Length
      modifies this`txptr, txbuf
      ensures Vectors() && txptr == old(txptr) + len
      ensures txbuf[..txptr] == old(txbuf[..txptr]) + base[off..off + len]
    {
      forall i | 0 <= i < len {
        txbuf[txptr + i] := base[off + i];
      }
      txptr := txptr + len;
    }

    method PutHeader(mux: nat, len: nat)
      requires Vectors() && txptr + 2 <= BUFFER_SIZE && mux < 16 && 1 <= len <= MAX_PAYLOAD
      modifies this`txptr, txbuf
      ensures Vectors() && txptr == old(txptr) + 2
      ensures txbuf[..txptr] == old(txbuf[..txptr]) + Header(mux, len)
    {
      var header := (len - 1) + mux * 0x1000;
      PutByte(header / 256);
      PutByte(header % 256);
    }

    /** Header and payload both go into the buffer. */
    method PutCopied(mux: nat, base: array<byte>, off: nat, len: nat)
      requires Vectors() && StreamOk()
      requires txptr + 2 + len <= BUFFER_SIZE && base != txbuf && off + len <= base.Length
      requires mux < 16 && 1 <= len <= MAX_PAYLOAD
      modifies this`txptr, this`sent, txbuf
      ensures Vectors() && StreamOk() && txptr == old(txptr) + 2 + len
      ensures sent == old(sent) + [Packet(mux, base[off..off + len])]
    {
      ghost var p := Packet(mux, base[off..off + len]);
      PutHeader(mux, len);
      PutBytes(base, off, len);
      assert txbuf[txstart..txptr] == old(txbuf[txstart..txptr]) + Frame(p);
      FrameAllSnoc(sent, p);
      if open {
        Extend(wire, Flatten(chunks), old(txbuf[txstart..txptr]), Frame(p));
      } else {
        PrefixOfLonger(wire, FrameAll(sent), Frame(p));
      }
      sent := sent + [p];
    }

    /** The header goes into the buffer and, with what was copied before it, gets a vector. */
    method PushHeader(mux: nat, len: nat)
      requires Vectors() && iptr < INDIRECT_MAX && txbuf !in keeper && txptr + 2 <= BUFFER_SIZE && mux < 16 && 1 <= len <= MAX_PAYLOAD
      modifies this`txptr, this`txstart, this`iptr, this`chunks, this`owners, txbuf, indirect
      ensures Vectors() && txptr == txstart && txptr == old(txptr) + 2 && iptr == old(iptr) + 1
      ensures chunks == old(chunks) + [old(txbuf[txstart..txptr]) + Header(mux, len)]
    {
      PutHeader(mux, len);
      assert txbuf[txstart..txptr] == old(txbuf[txstart..txptr]) + Header(mux, len);
      PushCopied();
    }

    /** The payload is pointed at where it is. */
    method PutIndirect(mux: nat, base: array<byte>, off: nat, len: nat, ghost owner: TxRawFifo?)
      requires Vectors() && StreamOk() && iptr <= INDIRECT_MAX - 2 && txbuf !in keeper
      requires txptr + 2 <= BUFFER_SIZE && base in mem && off + len <= base.Length
      requires mux < 16 && 1 <= len <= MAX_PAYLOAD
      requires owner != null ==> (owner in queue || owner in done) && (base == owner.data || base == zeros)
      requires base in keeper ==> owner == keeper[base]
      modifies this`txptr, this`txstart, this`iptr, this`chunks, this`owners, this`sent, txbuf, indirect
      ensures Vectors() && StreamOk() && txptr == txstart && txptr == old(txptr) + 2 && iptr == old(iptr) + 2
      ensures sent == old(sent) + [Packet(mux, base[off..off + len])]
    {
      ghost var p := Packet(mux, base[off..off + len]);
      ghost var tail := txbuf[txstart..txptr];
      PushBoth(mux, base, off, len, owner);
      assert txbuf[txstart..txptr] == [];
      AppendPacket(wire, old(chunks), tail, sent, p, open);
      sent := sent + [p];
    }

    /** A vector for the header and one for the payload. */
    method PushBoth(mux: nat, base: array<byte>, off: nat, len: nat, ghost owner: TxRawFifo?)
      requires Vectors() && iptr <= INDIRECT_MAX - 2 && txbuf !in keeper
      requires txptr + 2 <= BUFFER_SIZE && base in mem && off + len <= base.Length
      requires mux < 16 && 1 <= len <= MAX_PAYLOAD
      requires owner != null ==> (owner in queue || owner in done) && (base == owner.data || base == zeros)
      requires base in keeper ==> owner == keeper[base]
      modifies this`txptr, this`txstart, this`iptr, this`chunks, this`owners, txbuf, indirect
      ensures Vectors() && txptr == txstart && txptr == old(txptr) + 2 && iptr == old(iptr) + 2
      ensures chunks == old(chunks) + [old(txbuf[txstart..txptr]) + Header(mux, len)] + [base[off..off + len]]
    {
      PushHeader(mux, len);
      PushVector(Iovec(base, off, len), base[off..off + len], owner);
    }

    /** Add one packet of data, copied or pointed at. */
    method AddPacket(mux: nat, data: array<byte>, len: nat, copy: bool)
      requires Inv() && SpaceForPacket(if copy then len else 0)
      requires mux < 16 && 1 <= len <= MAX_PAYLOAD && len <= data.Length
      requires data != txbuf && (!copy ==> data in mem && data !in keeper)
      modifies this`txptr, this`txstart, this`iptr, this`chunks, this`owners, this`sent, txbuf, indirect
      ensures open == old(open) && wire == old(wire) && answers == old(answers)
      ensures Inv() && !Idle() && sent == old(sent) + [Packet(mux, data[..len])]
    {
      assert data[0..len] == data[..len];
      if copy {
        AddCopied(mux, data, len);
      } else {
        PutIndirect(mux, data, 0, len, null);
      }
    }

    method AddCopied(mux: nat, data: array<byte>, len: nat)
      requires Vectors() && StreamOk() && SpaceForPacket(len) && txbuf !in keeper
      requires mux < 16 && 1 <= len <= MAX_PAYLOAD && len <= data.Length && data != txbuf
      modifies this`txptr, this`txstart, this`iptr, this`chunks, this`owners, this`sent, txbuf, indirect
      ensures Vectors() && StreamOk() && iptr > 0 && txptr == txstart
      ensures sent == old(sent) + [Packet(mux, data[0..len])]
    {
      PutCopied(mux, data, 0, len);
      FlattenSnoc(chunks, txbuf[txstart..txptr]);
      PushCopied();
      assert txbuf[txstart..txptr] == [];
    }

    // ------------------------------------------------------------- FIFO packets

    /** The most that one packet can take: asked twice, as a short answer is copied and must fit the buffer. */
    method FifoPacketLength(fifo: TxRawFifo) returns (flen: nat)
      requires SpaceForPacket(MEMCPY_THRESHOLD) && fifo.Sane()
      ensures flen == Avail(fifo.View(), CHUNK)
    {
      flen := fifo.GetDataAvail(CHUNK);
      if flen < MEMCPY_THRESHOLD {
        flen := fifo.GetDataAvail(BUFFER_SIZE - 2 - txptr);
      }
    }

    /** A long payload is pointed at, a short one copied. */
    method PutFifoData(fifo: TxRawFifo, mux: nat, base: array<byte>, off: nat, flen: nat)
      requires Vectors() && StreamOk() && SpaceForPacket(MEMCPY_THRESHOLD)
      requires base in mem && off + flen <= base.Length && fifo in queue
      requires (base == fifo.data || base == zeros) && (base in keeper ==> fifo == keeper[base]) && txbuf !in keeper
      requires mux < 16 && 1 <= flen <= MAX_PAYLOAD
      modifies this`txptr, this`txstart, this`iptr, this`chunks, this`owners, this`sent, txbuf, indirect
      ensures Vectors() && StreamOk() && !Idle() && (txptr != txstart ==> iptr < INDIRECT_MAX)
      ensures txptr > old(txptr)
      ensures sent == old(sent) + [Packet(mux, base[off..off + flen])]
    {
      if flen >= MEMCPY_THRESHOLD {
        PutIndirect(mux, base, off, flen, fifo);
      } else {
        PutCopied(mux, base, off, flen);
      }
    }

    /** Add a packet with as much of FIFO k's data as fits in one. */
    method AddFifoPacket(fifo: TxRawFifo, k: nat)
      requires Inv() && SpaceForPacket(MEMCPY_THRESHOLD) && k < |queue| && fifo == queue[k]
      requires Ready(q) && k == Current(q)
      modifies this`txptr, this`txstart, this`iptr, this`chunks, this`owners, this`sent, this`q, this`next
      modifies txbuf, indirect, fifo`ptr
      ensures Inv() && !Idle() && txptr > old(txptr)
      ensures q == Emit(old(q)) && sent == old(sent) + [NextPacket(old(q))]
      ensures open == old(open) && wire == old(wire) && answers == old(answers)
    {
      var flen, base, off := TakePacket(fifo, k);
      PutTaken(fifo, fifo.mux + FIFO_MIN, base, off, flen);
    }

    /** The bytes taken from a FIFO become a packet; the FIFOs stay as they are. */
    method PutTaken(fifo: TxRawFifo, mux: nat, base: array<byte>, off: nat, flen: nat)
      requires Inv() && SpaceForPacket(MEMCPY_THRESHOLD)
      requires base in mem && off + flen <= base.Length && fifo in queue
      requires (base == fifo.data || base == zeros) && (base in keeper ==> fifo == keeper[base]) && txbuf !in keeper
      requires mux < 16 && 1 <= flen <= MAX_PAYLOAD
      modifies this`txptr, this`txstart, this`iptr, this`chunks, this`owners, this`sent, txbuf, indirect
      ensures Inv() && !Idle() && txptr > old(txptr)
      ensures sent == old(sent) + [Packet(mux, base[off..off + flen])]
    {
      PutFifoData(fifo, mux, base, off, flen);
    }

    method TakePacket(fifo: TxRawFifo, k: nat) returns (flen: nat, base: array<byte>, off: nat)
      requires k < |queue| && fifo == queue[k] && SpaceForPacket(MEMCPY_THRESHOLD)
      requires Inv() && Ready(q) && k == Current(q)
      modifies this`q, this`next, fifo`ptr
      ensures Inv() && q == Emit(old(q))
      ensures base in mem && off + flen <= base.Length
      ensures (base == fifo.data || base == zeros) && (base in keeper ==> fifo == keeper[base]) && txbuf !in keeper
      ensures Packet(fifo.mux + FIFO_MIN, base[off..off + flen]) == NextPacket(old(q))
    {
      assert Matches(fifo, q.fifos[k]) && Owned(queue[k]);
      flen := FifoPacketLength(fifo);
      base, off := TakeData(fifo, k, flen);
    }

    /** FIFO k gives up `flen` bytes and names its successor. */
    method TakeData(fifo: TxRawFifo, k: nat, flen: nat) returns (base: array<byte>, off: nat)
      requires k < |queue| && fifo == queue[k]
      requires Fifos() && Ready(q) && k == Current(q)
      requires flen == Avail(q.fifos[k], CHUNK)
      modifies this`q, this`next, fifo`ptr
      ensures Fifos() && q == Emit(old(q))
      ensures base in mem && off + flen <= base.Length && base == (if fifo.data == null then zeros else fifo.data)
      ensures base[off..off + flen] == NextPacket(old(q)).payload
      ensures NextPacket(old(q)).mux == fifo.mux + FIFO_MIN
    {
      assert Matches(fifo, q.fifos[k]);
      base, off := fifo.GetData(flen, zeros);
      q := Emit(q);
      next := if fifo.interleave then k + 1 else |queue|;
      assert Matches(fifo, q.fifos[k]);
    }

    /** Take FIFO k out of the queue; a successor position naming it moves on. */
    method ReleaseTxmux(fifo: TxRawFifo, k: nat)
      requires Fifos() && k < |queue| && fifo == queue[k]
      modifies this`queue, this`next, this`q
      ensures Fifos() && q == Retire(old(q), k)
      ensures queue == old(queue)[..k] + old(queue)[k + 1..]
      ensures fifo !in queue && forall f :: f in old(queue) ==> f in queue || f == fifo
    {
      assert queue == queue[..k] + [fifo] + queue[k + 1..];
      RetireOk(q, k);
      q := Retire(q, k);
      next := if next > k then next - 1 else next;
      queue := queue[..k] + queue[k + 1..];
      forall i | 0 <= i < |queue|
        ensures queue[i] == old(queue)[if i < k then i else i + 1] && Matches(queue[i], q.fifos[i])
      {
        assert old(Matches(queue[if i < k then i else i + 1], q.fifos[if i < k then i else i + 1]));
      }
    }

    /** Retire FIFO k: unlinked, inactive, waiting for deletion; vectors may still point into it. */
    method DeactivateTxFifo(fifo: TxRawFifo, k: nat)
      requires Inv() && k < |queue| && fifo == queue[k]
      modifies this`queue, this`next, this`done, this`q, fifo`mux
      ensures Inv() && q == Retire(old(q), k)
      ensures queue == old(queue)[..k] + old(queue)[k + 1..] && done == [fifo] + old(done)
      ensures forall f :: f in queue ==> f in old(queue)
    {
      Retired(fifo, k);
      MarkInactive(fifo);
    }

    method Retired(fifo: TxRawFifo, k: nat)
      requires Inv() && k < |queue| && fifo == queue[k]
      modifies this`queue, this`next, this`done, this`q
      ensures Inv() && q == Retire(old(q), k) && fifo !in queue
      ensures queue == old(queue)[..k] + old(queue)[k + 1..] && done == [fifo] + old(done)
      ensures forall f :: f in queue ==> f in old(queue)
    {
      assert Owned(queue[k]) && Matches(queue[k], q.fifos[k]);
      done := [fifo] + done;
      ReleaseTxmux(fifo, k);
      VectorsKept();
      OwnersKept(fifo);
    }

    /** Every block still has its owner when a FIFO goes from the queue to those waiting to be deleted. */
    twostate lemma OwnersKept(fifo: TxRawFifo)
      requires old(Owners()) && keeper == old(keeper) && mem == old(mem) && (fifo.data != null ==> fifo.data in mem)
      requires fifo in old(queue) && fifo !in queue && (forall f :: f in queue ==> f in old(queue)) && done == [fifo] + old(done)
      requires forall f :: f in old(queue) || f in old(done) ==> f.data == old(f.data) && f.autofree == old(f.autofree)
      ensures Owners()
    {
      forall f | f in queue || f in done
        ensures Owned(f)
      {
        assert f in old(queue) || f in old(done);
        assert old(Owned(f));
      }
    }

    /** The vectors are as they were while their FIFOs are queued or waiting to be deleted. */
    twostate lemma VectorsKept()
      requires old(Vectors()) && txstart == old(txstart) && txptr == old(txptr) && iptr == old(iptr)
      requires chunks == old(chunks) && owners == old(owners) && mem == old(mem) && keeper == old(keeper)
      requires txbuf[..] == old(txbuf[..]) && indirect[..] == old(indirect[..]) && (forall b :: b in mem ==> b[..] == old(b[..]))
      requires forall f :: f in owners && f != null ==> f.data == old(f.data)
      requires forall f :: f in old(queue) || f in old(done) ==> f in queue || f in done
      ensures Vectors()
    {
      forall i | 0 <= i < iptr
        ensures VecOk(indirect[i], chunks[i], owners[i])
      {
        assert indirect[i] == indirect[..][i] == old(indirect[..])[i];
        var v := indirect[i];
        assert old(VecOk(indirect[i], chunks[i], owners[i]));
        assert v.base[..][v.off..v.off + v.len] == v.base[v.off..v.off + v.len];
      }
    }

    method MarkInactive(fifo: TxRawFifo)
      requires Inv() && fifo !in queue
      modifies fifo`mux
      ensures Inv()
    {
      fifo.mux := INACTIVE;
    }

    /** The FIFO looked at first and how much it offers. */
    method Offered() returns (fifo: TxRawFifo, k: nat, len: nat)
      requires Fifos() && queue != []
      ensures k < |queue| && fifo == queue[k] && fifo in queue && k == Current(q)
      ensures len == Avail(q.fifos[k], CHUNK)
    {
      k := if next < |queue| then next else 0;
      fifo := queue[k];
      assert Matches(fifo, q.fifos[k]);
      len := fifo.GetDataAvail(CHUNK);
    }

    ghost predicate InSet(fs: set<TxRawFifo>)
      reads this`queue
    {
      forall f :: f in queue ==> f in fs
    }

    /** Pick the FIFO to send from, retiring exhausted ones; k is its position, or -1. */
    method NextTxFifo(ghost fs: set<TxRawFifo>) returns (k: int)
      requires Inv() && InSet(fs)
      modifies this`queue, this`next, this`done, this`q, fs
      ensures Inv() && InSet(fs) && q == Settle(old(q))
      ensures if queue == [] then k == -1 else 0 <= k < |queue| && Ready(q) && k == Current(q)
      ensures open == old(open) && wire == old(wire) && answers == old(answers)
    {
      while queue != []
        invariant Inv() && InSet(fs) && Settle(q) == Settle(old(q))
        decreases |queue|
      {
        var fifo, at, len := Offered();
        if len != 0 {
          return at;
        }
        DeactivateTxFifo(fifo, at);
      }
      k := -1;
    }

    // ------------------------------------------------------------- what callers use

    /** Link a FIFO behind all others. */
    method AddTxmux(fifo: TxRawFifo, ghost f: Fifo)
      requires Inv() && fifo !in queue && fifo !in done && Owned(fifo) && Matches(fifo, f)
      modifies this`queue, this`next, this`q
      ensures Inv() && queue == old(queue) + [fifo] && q == Add(old(q), f)
    {
      Append(fifo, f);
    }

    method Append(fifo: TxRawFifo, ghost f: Fifo)
      requires Fifos() && fifo !in queue && Matches(fifo, f)
      modifies this`queue, this`next, this`q
      ensures Fifos() && queue == old(queue) + [fifo] && q == Add(old(q), f)
    {
      next := if next == |queue| then |queue| + 1 else next;
      queue := queue + [fifo];
      q := Add(q, f);
    }

    /** From now on the block must stay as it is until it has been sent. */
    ghost method Keep(block: array?<byte>)
      requires Inv() && block != txbuf
      modifies this`mem
      ensures open == old(open) && wire == old(wire) && answers == old(answers)
      ensures Inv() && mem == if block == null then old(mem) else old(mem) + {block}
    {
      if block != null {
        mem := mem + {block};
      }
    }

    /** Note in the history what has just been done. */
    ghost method Record(op: Op)
      requires Inv() && OpsOk(ops) && OpOk(op) && State(q, sent) == Apply(Exec(ops), op)
      modifies this`ops
      ensures open == old(open) && wire == old(wire) && answers == old(answers)
      ensures Valid() && ops == old(ops) + [op]
    {
      ExecSnoc(ops, op);
      ops := ops + [op];
    }

    /** Mark a FIFO that is not yet queued with its channel. */
    method Tag(fifo: TxRawFifo, mux: nat, interleave: bool)
      requires Inv() && fifo !in queue && fifo.Sane() && fifo.ptr == 0
      requires FIFO_MIN + mux <= FIFO_MAX
      modifies fifo`mux, fifo`interleave
      ensures Inv() && fifo.Sane() && fifo.View() == old(fifo.View()).(mux := mux, interleave := interleave)
    {
      fifo.mux, fifo.interleave := mux, interleave;
    }

    /** The FIFO brings its block along: one of the caller's, or one of its own that nobody else uses. */
    ghost predicate Brings(fifo: TxRawFifo)
      reads this`queue, this`done, this`mem, this`keeper, fifo`data, fifo`autofree
    {
      && fifo !in queue && fifo !in done && fifo.data != txbuf
      && (fifo.data != null ==> if fifo.autofree then fifo.data !in mem else fifo.data !in keeper)
    }

    /** A FIFO's own block is noted as freed along with it. */
    ghost method Appoint(fifo: TxRawFifo)
      requires Inv() && Brings(fifo)
      modifies this`mem, this`keeper
      ensures Inv() && Owned(fifo) && fifo !in queue && fifo !in done && fifo.data != txbuf
      ensures fifo.data != null ==> fifo.data in mem
      ensures old(mem) <= mem
    {
      Keep(fifo.data);
      if fifo.data != null && fifo.autofree {
        Entrust(fifo.data, fifo);
      }
    }

    ghost method Entrust(block: array<byte>, fifo: TxRawFifo)
      requires Inv() && block in mem && block != zeros && fifo.data == block
      requires forall i :: 0 <= i < iptr ==> indirect[i].base != block
      requires forall i :: 0 <= i < |queue| ==> queue[i].data != block
      requires forall i :: 0 <= i < |done| ==> done[i].data != block
      modifies this`keeper
      ensures Inv() && Owned(fifo)
    {
      keeper := keeper[block := fifo];
    }

    method Enqueue(fifo: TxRawFifo, mux: nat, interleave: bool)
      requires Inv() && fifo.Sane() && fifo.ptr == 0 && Brings(fifo)
      requires FIFO_MIN + mux <= FIFO_MAX
      modifies this`queue, this`next, this`q, this`mem, this`keeper, fifo`mux, fifo`interleave
      ensures Inv() && queue == old(queue) + [fifo]
      ensures fifo.Sane() && fifo.View() == old(fifo.View()).(mux := mux, interleave := interleave)
      ensures q == Add(old(q), fifo.View())
    {
      Appoint(fifo);
      Tag(fifo, mux, interleave);
      assert Matches(fifo, fifo.View());
      AddTxmux(fifo, fifo.View());
    }

    /** Queue a FIFO behind all others. Its memory stays untouched until it has been sent. */
    method Activate(fifo: TxRawFifo, mux: nat, interleave: bool)
      requires Valid() && fifo.Sane() && fifo.ptr == 0 && Brings(fifo)
      requires FIFO_MIN + mux <= FIFO_MAX
      modifies this`queue, this`next, this`q, this`ops, this`mem, this`keeper, fifo`mux, fifo`interleave
      ensures Valid() && queue == old(queue) + [fifo]
      ensures fifo.Sane() && fifo.View() == old(fifo.View()).(mux := mux, interleave := interleave)
      ensures ops == old(ops) + [Op.Activate(fifo.View())]
    {
      Enqueue(fifo, mux, interleave);
      Record(Op.Activate(fifo.View()));
    }

    /** One round of sending from the FIFOs: false when none has data. */
    method SendFromFifo(ghost fs: set<TxRawFifo>) returns (more: bool)
      requires Inv() && SpaceForPacket(MEMCPY_THRESHOLD) && InSet(fs)
      modifies this`txptr, this`txstart, this`iptr, this`chunks, this`owners, this`sent, this`q, this`next
      modifies this`queue, this`done, txbuf, indirect, fs
      ensures Inv() && InSet(fs) && State(q, sent) == Apply(old(State(q, sent)), Step)
      ensures more ==> txptr > old(txptr) && !Idle()
      ensures !more ==> queue == [] && txptr == old(txptr) && iptr == old(iptr) && txstart == old(txstart)
      ensures more ==> Ready(Settle(old(q))) && q == Emit(Settle(old(q)))
    {
      var k := NextTxFifo(fs);
      more := k >= 0;
      if more {
        assert queue[k] in queue;
        AddFifoPacket(queue[k], k);
      }
    }

    lemma SpentOn(open0: bool, answers0: seq<Answer>, wire0: seq<byte>, open1: bool, answers1: seq<Answer>, wire1: seq<byte>, ok: bool)
      requires Drew(answers0, answers1, |wire1| - |wire0|) && Spent(open1, answers1, wire1, ok) && (open0 ==> open1)
      ensures Spent(open0, answers0, wire0, ok)
    {
      DrewOn(answers0, answers1, answers, |wire1| - |wire0|, |wire| - |wire1|);
    }

    /**
     Queue a packet and as much FIFO data as there is room for, then write what the socket takes.
     The packet is in the history unless the socket closed before there was room for it.
     */
    method Send(mux: nat, data: array<byte>, len: nat, copy: bool, ghost fs: set<TxRawFifo>) returns (ok: bool, ghost n: nat)
      requires Valid() && mux < 16 && 1 <= len <= MAX_PAYLOAD && len <= data.Length && data != txbuf && data !in keeper && InSet(fs)
      modifies this, txbuf, indirect, fs
      ensures Valid() && InSet(fs)
      ensures ok ==> ops == old(ops) + [Command(Packet(mux, data[..len]))] + Steps(n)
      ensures ok == open && Spent(old(open), old(answers), old(wire), ok)
      ensures ops == old(ops) || ops == old(ops) + [Command(Packet(mux, old(data[..len])))] + Steps(n)
    {
      n := 0;
      ok := QueuePacket(mux, data, len, copy);
      if ok {
        ghost var answers1, wire1 := answers, wire;
        n := FillFromFifos(fs);
        ok := WriteNow();
        SpentOn(old(open), old(answers), old(wire), old(open), answers1, wire1, ok);
      }
    }

    /** Write what the socket takes at once; false when the link is lost. */
    method WriteNow() returns (ok: bool)
      requires Valid() && !Idle()
      modifies this`open, this`wire, this`answers, this`iptr, this`txptr, this`txstart
      modifies this`chunks, this`owners, this`done, this`mem, this`keeper, indirect
      ensures Valid() && ok == open && Spent(old(open), old(answers), old(wire), ok)
    {
      var r := SendQueued(false);
      ok := r != DISCONNECT;
    }

    method QueuePacket(mux: nat, data: array<byte>, len: nat, copy: bool) returns (ok: bool)
      requires Valid() && mux < 16 && 1 <= len <= MAX_PAYLOAD && len <= data.Length && data != txbuf && data !in keeper
      modifies this`open, this`wire, this`answers, this`iptr, this`txptr, this`txstart
      modifies this`chunks, this`owners, this`done, this`mem, this`keeper, this`sent, this`ops, txbuf, indirect
      ensures Valid() && (if ok then !Idle() && open == old(open) else !open)
      ensures ok ==> ops == old(ops) + [Command(Packet(mux, data[..len]))]
      ensures Spent(old(open), old(answers), old(wire), ok)
      ensures !ok ==> ops == old(ops)
    {
      ok := MakeRoom(if copy then len else 0);
      if ok {
        AcceptPacket(mux, data, len, copy);
      }
    }

    /** The packet joins the stream, for which there is room, and the history. */
    method AcceptPacket(mux: nat, data: array<byte>, len: nat, copy: bool)
      requires Valid() && SpaceForPacket(if copy then len else 0)
      requires mux < 16 && 1 <= len <= MAX_PAYLOAD && len <= data.Length && data != txbuf && data !in keeper
      modifies this`txptr, this`txstart, this`iptr, this`chunks, this`owners, this`mem, this`sent, this`ops, txbuf, indirect
      ensures Valid() && !Idle() && open == old(open) && wire == old(wire) && answers == old(answers)
      ensures ops == old(ops) + [Command(Packet(mux, data[..len]))]
    {
      if !copy {
        Keep(data);
      }
      AddPacket(mux, data, len, copy);
      Record(Command(Packet(mux, data[..len])));
    }

    /** Without room for a packet, write everything first. */
    method MakeRoom(threshold: nat) returns (ok: bool)
      requires Inv() && threshold <= MAX_PAYLOAD
      modifies this`open, this`wire, this`answers, this`iptr, this`txptr, this`txstart
      modifies this`chunks, this`owners, this`done, this`mem, this`keeper, indirect
      ensures Inv() && (if ok then SpaceForPacket(threshold) && open == old(open) else !open)
      ensures keeper.Keys <= old(keeper.Keys)
      ensures Spent(old(open), old(answers), old(wire), ok) && (old(SpaceForPacket(threshold)) ==> ok && answers == old(answers))
    {
      ok := true;
      if !SpaceForPacket(threshold) {
        var r := SendQueued(true);
        ok := r == OK;
      }
    }

    /** One packet from the FIFOs, if there is any, noted in the history. */
    method SendStep(ghost fs: set<TxRawFifo>) returns (more: bool)
      requires Valid() && SpaceForPacket(MEMCPY_THRESHOLD) && InSet(fs)
      modifies this`txptr, this`txstart, this`iptr, this`chunks, this`owners, this`sent, this`q, this`next
      modifies this`queue, this`done, this`ops, txbuf, indirect, fs
      ensures Valid() && InSet(fs) && ops == old(ops) + [Step]
      ensures more ==> txptr > old(txptr) && !Idle() && TotalLeft(q.fifos) < TotalLeft(old(q.fifos))
      ensures !more ==> queue == [] && txptr == old(txptr) && iptr == old(iptr) && txstart == old(txstart)
    {
      TotalDrops(q);
      more := SendFromFifo(fs);
      Record(Step);
    }

    /** Keep adding FIFO packets while there is room. */
    method FillFromFifos(ghost fs: set<TxRawFifo>) returns (ghost n: nat)
      requires Valid() && !Idle() && InSet(fs)
      modifies this`txptr, this`txstart, this`iptr, this`chunks, this`owners, this`sent, this`q, this`next
      modifies this`queue, this`done, this`ops, txbuf, indirect, fs
      ensures open == old(open) && wire == old(wire) && answers == old(answers)
      ensures Valid() && !Idle() && InSet(fs)
      ensures ops == old(ops) + Steps(n) && (queue == [] || !SpaceForPacket(MEMCPY_THRESHOLD))
    {
      n := 0;
      while SpaceForPacket(MEMCPY_THRESHOLD)
        invariant Valid() && !Idle() && InSet(fs) && ops == old(ops) + Steps(n)
        decreases BUFFER_SIZE - txptr
      {
        StepsSnoc(old(ops), n);
        var more := SendStep(fs);
        n := n + 1;
        if !more {
          break;
        }
      }
    }

    /** The FIFO to send from is chosen before there is room; without room the link is lost. */
    method SendRound(ghost fs: set<TxRawFifo>) returns (ok: bool, more: bool)
      requires Valid() && InSet(fs)
      modifies this, txbuf, indirect, fs
      ensures Valid() && InSet(fs)
      ensures if ok then ops == old(ops) + [Step] else !open && ops == old(ops) + [Choose]
      ensures ok ==> open == old(open)
      ensures ok && more ==> TotalLeft(q.fifos) < TotalLeft(old(q.fifos))
      ensures ok && !more ==> queue == []
      ensures Spent(old(open), old(answers), old(wire), ok)
    {
      TotalDrops(q);
      ok, more := SendNext(fs);
      Record(if ok then Step else Choose);
    }

    method SendNext(ghost fs: set<TxRawFifo>) returns (ok: bool, more: bool)
      requires Inv() && InSet(fs)
      modifies this`open, this`wire, this`answers, this`txptr, this`txstart, this`iptr, this`chunks, this`owners
      modifies this`sent, this`q, this`next, this`queue, this`done, this`mem, this`keeper, txbuf, indirect, fs
      ensures Inv() && InSet(fs) && State(q, sent) == Apply(old(State(q, sent)), if ok then Step else Choose)
      ensures if ok then open == old(open) else !open
      ensures ok && more ==> Settle(old(q)).fifos != [] && q == Emit(Settle(old(q)))
      ensures ok && !more ==> queue == []
      ensures Spent(old(open), old(answers), old(wire), ok)
    {
      StepIs(State(q, sent), Settle(q));
      var k := NextTxFifo(fs);
      ok, more := true, k >= 0;
      if more {
        assert queue[k] in queue;
        ok := SendChosen(queue[k], k);
      }
    }

    /** A packet of the FIFO in turn, once there is room for it. */
    method SendChosen(fifo: TxRawFifo, k: nat) returns (ok: bool)
      requires Inv() && k < |queue| && fifo == queue[k] && Ready(q) && k == Current(q)
      modifies this`open, this`wire, this`answers, this`txptr, this`txstart, this`iptr, this`chunks, this`owners
      modifies this`sent, this`q, this`next, this`done, this`mem, this`keeper, txbuf, indirect, fifo`ptr
      ensures Inv()
      ensures ok ==> open == old(open) && q == Emit(old(q)) && sent == old(sent) + [NextPacket(old(q))]
      ensures !ok ==> !open && q == old(q) && sent == old(sent)
      ensures Spent(old(open), old(answers), old(wire), ok)
    {
      ok := MakeRoom(MEMCPY_THRESHOLD);
      if ok {
        AddFifoPacket(fifo, k);
      }
    }

    /** Frame the data of every queued FIFO. */
    method SendFifos(ghost fs: set<TxRawFifo>) returns (ok: bool, ghost n: nat)
      requires Valid() && InSet(fs)
      modifies this, txbuf, indirect, fs
      ensures Valid() && InSet(fs) && ops == old(ops) + Steps(n) + (if ok then [] else [Choose])
      ensures if ok then queue == [] && open == old(open) else !open
      ensures Spent(old(open), old(answers), old(wire), ok)
    {
      n := 0;
      var more := true;
      ok := true;
      while ok && more
        invariant Valid() && InSet(fs) && ops == old(ops) + Steps(n) + (if ok then [] else [Choose])
        invariant if !ok then !open else open == old(open) && (more || queue == [])
        invariant Spent(old(open), old(answers), old(wire), ok)
        decreases ok, TotalLeft(q.fifos), more
      {
        StepsSnoc(old(ops), n);
        ghost var answers1, wire1 := answers, wire;
        ok, more := SendRound(fs);
        SpentOn(old(open), old(answers), old(wire), old(open), answers1, wire1, ok);
        if ok {
          n := n + 1;
        }
      }
    }

    /** Write out everything accepted so far. */
    method SendFlush() returns (ok: bool)
      requires Valid()
      modifies this`open, this`wire, this`answers, this`iptr, this`txptr, this`txstart
      modifies this`chunks, this`owners, this`done, this`mem, this`keeper, indirect
      ensures Valid()
      ensures if ok then Idle() && open == old(open) && (open ==> wire == FrameAll(sent)) else !open
      ensures Spent(old(open), old(answers), old(wire), ok)
    {
      if !Idle() {
        var r := SendQueued(true);
        return r == OK;
      }
      assert Flatten(chunks) == [] && txbuf[txstart..txptr] == [];
      return true;
    }

    /** Everything queued is framed and written. */
    method SendAll(ghost fs: set<TxRawFifo>) returns (ok: bool, ghost n: nat)
      requires Valid() && InSet(fs)
      modifies this, txbuf, indirect, fs
      ensures Valid() && (ops == old(ops) + Steps(n) || (!ok && ops == old(ops) + Steps(n) + [Choose]))
      ensures ok ==> open == old(open) && queue == [] && (open ==> wire == FrameAll(sent))
      ensures Spent(old(open), old(answers), old(wire), ok)
    {
      ok, n := SendFifos(fs);
      if ok {
        ghost var answers1, wire1 := answers, wire;
        ok := SendFlush();
        SpentOn(old(open), old(answers), old(wire), old(open), answers1, wire1, ok);
      }
    }

    /** What is on the wire is at most what there is to do. */
    lemma WireWithinWork()
      requires Valid()
      ensures |wire| <= Work(Exec(ops))
    {
      if open {
        assert |wire| <= |wire + Pending()|;
      }
    }

    /**
     One command with all its data: on success the wire holds every packet framed so far,
     this command and all queued FIFO data included. It succeeds if the link is up and the socket takes
     something as often as it is asked: two answers for each byte there is to write are enough.
     */
    method SendCommand(data: array<byte>, len: nat, ghost fs: set<TxRawFifo>) returns (ok: bool, ghost n: nat)
      requires Valid() && 1 <= len <= MAX_PAYLOAD && len <= data.Length && data != txbuf && data !in keeper && InSet(fs)
      modifies this, txbuf, indirect, fs
      ensures Valid()
      ensures ok ==> open && queue == [] && wire == FrameAll(sent)
      ensures ok ==> ops == old(ops) + [Command(Packet(0, data[..len]))] + Steps(n)
      ensures Spent(old(open), old(answers), old(wire), ok)
      ensures old(open) && Keen(old(answers)) && |old(answers)| > 2 * (Work(Exec(old(ops))) + len + 2 - |old(wire)|) ==> ok
    {
      ghost var command := [Command(Packet(0, data[..len]))];
      ok, n := Send(0, data, len, false, fs);
      ghost var more := command;
      if ok {
        ghost var m;
        ghost var open1, answers1, wire1 := open, answers, wire;
        ok, m := SendAll(fs);
        SpentOn(old(open), old(answers), old(wire), open1, answers1, wire1, ok);
        StepsAdd(old(ops) + command, n, m);
        n := n + m;
      }
      EnoughAnswers(old(ops), command, n, old(open), old(answers), old(wire), ok);
    }

    /** A keen socket with enough answers does not fail. */
    lemma EnoughAnswers(ops0: seq<Op>, command: seq<Op>, n: nat, open0: bool, answers0: seq<Answer>, wire0: seq<byte>, ok: bool)
      requires Valid() && |command| == 1 && command[0].Command? && OpsOk(ops0) && OpsOk(command)
      requires ops == ops0 || ops == ops0 + command + Steps(n) || ops == ops0 + command + Steps(n) + [Choose]
      requires Spent(open0, answers0, wire0, ok)
      ensures open0 && Keen(answers0) && |answers0| > 2 * (Work(Exec(ops0)) + |command[0].p.payload| + 2 - |wire0|) ==> ok
    {
      WireWithinWork();
      WorkOfCommand(ops0, command, n, ops);
    }
  }

  lemma WorkOfCommand(ops0: seq<Op>, command: seq<Op>, n: nat, ops: seq<Op>)
    requires |command| == 1 && command[0].Command? && OpsOk(ops0) && OpsOk(command) && OpsOk(ops)
    requires ops == ops0 || ops == ops0 + command + Steps(n) || ops == ops0 + command + Steps(n) + [Choose]
    ensures Work(Exec(ops)) <= Work(Exec(ops0)) + |command[0].p.payload| + 2
  {
    if ops != ops0 {
      var more := command + Steps(n);
      var all := if ops == ops0 + command + Steps(n) then more else more + [Choose];
      assert ops == ops0 + all;
      FramesOfSteps(command, n);
      assert (more + [Choose])[..|more|] == more;
      WorkOfRun(ops0, all);
    }
  }

  lemma Extend(wire: seq<byte>, pending: seq<byte>, tail: seq<byte>, more: seq<byte>)
    ensures wire + (pending + (tail + more)) == wire + (pending + tail) + more
  {
  }

  lemma WithHeader(wire: seq<byte>, pending: seq<byte>, tail: seq<byte>, header: seq<byte>, payload: seq<byte>)
    ensures wire + ((pending + (tail + header)) + payload + []) == wire + (pending + tail) + (header + payload)
  {
  }

  /** Two more vectors, header and payload, make one more packet of the stream. */
  lemma AppendPacket(wire: seq<byte>, chunks: seq<seq<byte>>, tail: seq<byte>, sent: seq<Packet>, p: Packet, open: bool)
    requires AllWellFormed(sent) && WellFormed(p)
    requires if open then wire + (Flatten(chunks) + tail) == FrameAll(sent) else wire <= FrameAll(sent)
    ensures AllWellFormed(sent + [p])
    ensures var all := chunks + [tail + Header(p.mux, |p.payload|)] + [p.payload];
            if open then wire + (Flatten(all) + []) == FrameAll(sent + [p]) else wire <= FrameAll(sent + [p])
  {
    var header := Header(p.mux, |p.payload|);
    FlattenSnoc(chunks, tail + header);
    FlattenSnoc(chunks + [tail + header], p.payload);
    FrameAllSnoc(sent, p);
    WithHeader(wire, Flatten(chunks), tail, header, p.payload);
  }

  lemma PrefixOfLonger(wire: seq<byte>, all: seq<byte>, more: seq<byte>)
    requires wire <= all
    ensures wire <= all + more
  {
  }

  lemma Advance(wire: seq<byte>, all: seq<byte>, n: nat, tail: seq<byte>)
    requires n <= |all|
    ensures (wire + all[..n]) + (all[n..] + tail) == wire + (all + tail)
  {
  }

  lemma DropBytes(s: seq<seq<byte>>, i: nat, left: nat)
    requires i <= |s| && (left > 0 ==> i < |s| && left <= |s[i]|)
    ensures |Flatten(s[..i])| + left <= |Flatten(s)|
    ensures left == 0 ==> Flatten(s[i..]) == Flatten(s)[|Flatten(s[..i])|..]
    ensures left > 0 ==> Flatten(s[i := s[i][left..]][i..]) == Flatten(s)[|Flatten(s[..i])| + left..]
  {
    Split(s, i);
    if left > 0 {
      var t := s[i := s[i][left..]];
      assert t[i..] == [s[i][left..]] + s[i + 1..];
    }
  }

  lemma SplitAt(s: seq<seq<byte>>, i: nat)
    requires i <= |s|
    ensures Flatten(s) == Flatten(s[..i]) + Flatten(s[i..])
  {
    var a, b := s[..i], s[i..];
    assert a + b == s;
    FlattenAppend(a, b);
  }

  lemma Split(s: seq<seq<byte>>, i: nat)
    requires i <= |s|
    ensures Flatten(s) == Flatten(s[..i]) + Flatten(s[i..])
    ensures i < |s| ==> Flatten(s[i..]) == s[i] + Flatten(s[i + 1..]) && Flatten(s[..i + 1]) == Flatten(s[..i]) + s[i]
  {
    SplitAt(s, i);
    if i < |s| {
      FlattenSnoc(s[..i], s[i]);
      assert s[..i + 1] == s[..i] + [s[i]];
      assert s[i..][1..] == s[i + 1..];
    }
  }
}
