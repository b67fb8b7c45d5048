/**
 The receive half of the multiplexed link: a byte-level state machine that can stop anywhere
 inside a header or a payload and go on from there when more bytes come.
 */
module RxLink {
  import opened Bytes
  import opened Common
  import opened Framing
  import opened RxDemux

  const BUFFER_SIZE := 4 + 0x1000
  const INACTIVE := 0xFFFF

  /** What one receive did: a command reply of some length, data for another channel, or neither. */
  datatype Result = Reply(len: nat) | FIFODATA | NODATA | WOULDBLOCK | DISCONNECT | NOBUFFER

  /** What the socket does when next asked. */
  datatype Arrival = Bytes(n: nat) | Busy | Interrupted | Broken

  // ------------------------------------------------------------- what the socket gives

  /** Why a wait for bytes ends: all have come, no more at present, or the link is lost. */
  datatype Stop = Done | Blocked | Lost

  /** What is left of the bytes on their way, how many are still missing, the answers not yet taken, and the end. */
  datatype Pulled = Pulled(left: nat, missing: nat, answers: seq<Arrival>, stop: Stop)

  /** Bytes asked for until none is missing, the socket has no more, or it breaks. */
  function Pull(open: bool, answers: seq<Arrival>, avail: nat, missing: nat): (p: Pulled)
    decreases |answers|
  {
    if missing == 0 then Pulled(avail, 0, answers, Done)
    else if !open then Pulled(avail, missing, answers, Lost)
    else if answers == [] then Pulled(avail, missing, [], Blocked)
    else match answers[0]
      case Broken => Pulled(avail, missing, answers[1..], Lost)
      case Busy => Pulled(avail, missing, answers[1..], Blocked)
      case Interrupted => Pull(open, answers[1..], avail, missing)
      case Bytes(k) =>
        var n := Least(k, missing, avail);
        if n == 0 then Pulled(avail, missing, answers[1..], Blocked) else Pull(open, answers[1..], avail - n, missing - n)
  }

  function Least(k: nat, m: nat, n: nat): (r: nat)
    ensures r <= k && r <= m && r <= n && (r == k || r == m || r == n)
  {
    if k <= m && k <= n then k else if m <= n then m else n
  }

  /** What is pulled behind one receive of n bytes, or -1 to block, -2 interrupted, -3 broken. */
  function Onward(open: bool, n: int, answers: seq<Arrival>, left: nat, missing: nat): (p: Pulled)
    requires n <= missing
  {
    if n == -3 then Pulled(left, missing, answers, Lost)
    else if n == -1 then Pulled(left, missing, answers, Blocked)
    else Pull(open, answers, left, if n < 0 then missing else missing - n)
  }

  /** An answer that gives bytes if there are any, or is simply asked again. */
  predicate Delivers(a: Arrival)
  {
    a.Interrupted? || (a.Bytes? && a.n > 0)
  }

  predicate AllDeliver(answers: seq<Arrival>)
  {
    forall i :: 0 <= i < |answers| ==> Delivers(answers[i])
  }

  /** How many of the answers give bytes. */
  function Deliveries(answers: seq<Arrival>): (n: nat)
  {
    if answers == [] then 0 else (if answers[0].Bytes? && answers[0].n > 0 then 1 else 0) + Deliveries(answers[1..])
  }

  /** The answers from some place on are left, and this was the last one taken. */
  predicate LastTaken(was: seq<Arrival>, now: seq<Arrival>, a: Arrival)
  {
    |now| < |was| && was[|was| - |now|..] == now && was[|was| - |now| - 1] == a
  }

  predicate TakenFrom(was: seq<Arrival>, now: seq<Arrival>)
  {
    |now| <= |was| && was[|was| - |now|..] == now
  }

  /** The wait ends short of what is missing for no other reasons than these. */
  predicate Excused(open: bool, was: seq<Arrival>, now: seq<Arrival>, left: nat, stop: Stop)
  {
    && (stop == Blocked ==> open && (now == [] || left == 0 || LastTaken(was, now, Busy) || LastTaken(was, now, Bytes(0))))
    && (stop == Lost ==> !open || LastTaken(was, now, Broken))
  }

  /** What was pulled is accounted for, answers are taken in order, and a stop was due. */
  predicate PulledOk(open: bool, answers: seq<Arrival>, avail: nat, missing: nat, p: Pulled)
  {
    && p.left <= avail && p.missing <= missing && avail - p.left == missing - p.missing
    && (p.stop == Done <==> p.missing == 0) && TakenFrom(answers, p.answers)
    && (if p.stop == Done then missing > 0 ==> |p.answers| < |answers| else open && answers != [] ==> |p.answers| < |answers|)
    && Excused(open, answers, p.answers, p.left, p.stop)
  }

  lemma {:induction false} PullStops(open: bool, answers: seq<Arrival>, avail: nat, missing: nat)
    ensures PulledOk(open, answers, avail, missing, Pull(open, answers, avail, missing))
    decreases |answers|
  {
    if missing > 0 && open && answers != [] {
      var n := if answers[0].Bytes? then Least(answers[0].n, missing, avail) else 0;
      if answers[0].Interrupted? || n > 0 {
        PullStops(open, answers[1..], avail - n, missing - n);
        PulledOn(open, answers, avail, missing, n, Pull(open, answers[1..], avail - n, missing - n));
      }
    }
  }

  /** What was pulled behind the first answer was pulled by all. */
  lemma PulledOn(open: bool, answers: seq<Arrival>, avail: nat, missing: nat, n: nat, p: Pulled)
    requires answers != [] && n <= avail && n <= missing && PulledOk(open, answers[1..], avail - n, missing - n, p)
    ensures PulledOk(open, answers, avail, missing, p)
  {
    ExcusedAfter(open, answers, answers[1..], p.answers, p.left, p.stop);
  }

  /** Answers that give bytes at least as often as bytes are missing bring them all. */
  lemma {:induction false} PullsAll(answers: seq<Arrival>, avail: nat, missing: nat)
    requires AllDeliver(answers) && missing <= avail && missing <= Deliveries(answers)
    ensures var p := Pull(true, answers, avail, missing);
      && p.stop == Done && p.left == avail - missing
      && AllDeliver(p.answers) && Deliveries(p.answers) >= Deliveries(answers) - missing
    decreases |answers|
  {
    if missing > 0 {
      var rest := answers[1..];
      assert Delivers(answers[0]);
      if answers[0].Bytes? {
        var n := Least(answers[0].n, missing, avail);
        PullsAll(rest, avail - n, missing - n);
      } else {
        PullsAll(rest, avail, missing);
      }
    }
  }

  /** Answers that give bytes as often as bytes are on their way still do, and stop only when none is left. */
  lemma {:induction false} PullsOn(answers: seq<Arrival>, avail: nat, missing: nat)
    requires AllDeliver(answers) && avail <= Deliveries(answers)
    ensures var p := Pull(true, answers, avail, missing);
      && AllDeliver(p.answers) && p.left <= Deliveries(p.answers) && p.stop != Lost && (p.stop == Blocked ==> p.left == 0)
    decreases |answers|
  {
    if missing > 0 && answers != [] {
      var rest := answers[1..];
      assert Delivers(answers[0]);
      if answers[0].Interrupted? {
        PullsOn(rest, avail, missing);
      } else if avail > 0 {
        var n := Least(answers[0].n, missing, avail);
        PullsOn(rest, avail - n, missing - n);
      }
    }
  }

  /** Whether the socket ended a receive, and why. */
  function StopOf(stop: Option<Result>): (s: Stop)
  {
    if stop == Some(WOULDBLOCK) then Blocked else if stop == Some(DISCONNECT) then Lost else Done
  }

  lemma StepEnds(open: bool, n: int, answers: seq<Arrival>, left: nat, missing: nat, stop: Option<Result>)
    requires -3 <= n <= missing && n != 0
    requires stop == if n == -1 then Some(WOULDBLOCK) else if n == -3 then Some(DISCONNECT) else None
    ensures Onward(open, n, answers, left, missing) ==
      var m := if n > 0 then missing - n else missing;
      if stop == None then Pull(open, answers, left, m) else Pulled(left, m, answers, StopOf(stop))
  {
  }

  /** The packet is left where it is with its header read. */
  predicate Held(stop: Option<Result>)
  {
    stop == Some(NODATA) || stop == Some(NOBUFFER)
  }

  /** The end of a receive: the bytes on their way and the answers left, and why it ended. */
  datatype Brought = Brought(left: nat, answers: seq<Arrival>, stop: Stop)

  /** The socket before a receive: open or not, its answers, the bytes on their way, and the header bytes missing. */
  datatype Socket = Socket(open: bool, answers: seq<Arrival>, avail: nat, missing: nat)

  function PullFor(was: Socket, missing: nat): (p: Pulled)
  {
    Pull(was.open, was.answers, was.avail, missing)
  }

  /** What a receive takes of the answers and bytes: first for the header, then for the payload unless that is held. */
  function Bring(was: Socket, payload: nat, had: nat, held: bool): (b: Brought)
  {
    var h := PullFor(was, was.missing);
    var p := if h.stop != Done || held || payload < had then h else Pull(was.open, h.answers, h.left, payload - had);
    Brought(p.left, p.answers, p.stop)
  }

  lemma BothBrought(was: Socket, h: Pulled, payload: nat, had: nat, p: Pulled)
    requires PullFor(was, was.missing) == h && h.stop == Done && had <= payload
    requires Pull(was.open, h.answers, h.left, payload - had) == p
    ensures Bring(was, payload, had, false) == Brought(p.left, p.answers, p.stop)
  {
  }

  lemma HeaderBrought(was: Socket, payload: nat, had: nat, held: bool, h: Pulled)
    requires PullFor(was, was.missing) == h && (held || h.stop != Done)
    ensures Bring(was, payload, had, held) == Brought(h.left, h.answers, h.stop)
  {
  }

  /** A receive takes its answers in order, brings what is missing, and stops short of it for no other reasons than these. */
  predicate BroughtOk(was: Socket, missing: nat, b: Brought)
  {
    && TakenFrom(was.answers, b.answers) && b.left <= was.avail && Excused(was.open, was.answers, b.answers, b.left, b.stop)
    && (b.stop == Done ==> was.avail - b.left == missing)
    && (if b.stop == Done then missing > 0 ==> |b.answers| < |was.answers| else was.open && was.answers != [] ==> |b.answers| < |was.answers|)
  }

  lemma StopsAreDue(was: Socket, payload: nat, had: nat, held: bool)
    requires had <= payload
    ensures BroughtOk(was, if held then was.missing else was.missing + payload - had, Bring(was, payload, had, held))
  {
    PullStops(was.open, was.answers, was.avail, was.missing);
    var h := PullFor(was, was.missing);
    if h.stop != Done || held {
      PulledOnce(was, h, payload, had, held);
    } else {
      PullStops(was.open, h.answers, h.left, payload - had);
      var p := Pull(was.open, h.answers, h.left, payload - had);
      PulledTwice(was, h, payload - had, p);
      BothBrought(was, h, payload, had, p);
    }
  }

  lemma PulledOnce(was: Socket, h: Pulled, payload: nat, had: nat, held: bool)
    requires PullFor(was, was.missing) == h && PulledOk(was.open, was.answers, was.avail, was.missing, h) && (held || h.stop != Done) && had <= payload
    ensures BroughtOk(was, if held then was.missing else was.missing + payload - had, Bring(was, payload, had, held))
  {
    HeaderBrought(was, payload, had, held, h);
  }

  /** Answers that give bytes as often as bytes of the packet are missing bring it whole. */
  lemma BringsAll(was: Socket, payload: nat, had: nat)
    requires was.open && AllDeliver(was.answers) && had <= payload
    requires was.missing + payload - had <= was.avail && was.missing + payload - had <= Deliveries(was.answers)
    ensures var b := Bring(was, payload, had, false); b.stop == Done && b.left == was.avail - (was.missing + payload - had)
  {
    PullsAll(was.answers, was.avail, was.missing);
    var h := PullFor(was, was.missing);
    PullsAll(h.answers, h.left, payload - had);
  }

  /** While the socket gives bytes as often as bytes are on their way, a receive blocks only when none is left. */
  lemma BringsOn(was: Socket, payload: nat, had: nat, held: bool)
    requires was.open && AllDeliver(was.answers) && was.avail <= Deliveries(was.answers)
    ensures var b := Bring(was, payload, had, held);
      && AllDeliver(b.answers) && b.left <= Deliveries(b.answers) && b.stop != Lost && (b.stop == Blocked ==> b.left == 0)
  {
    PullsOn(was.answers, was.avail, was.missing);
    var h := PullFor(was, was.missing);
    if h.stop == Done && !held && had <= payload {
      PullsOn(h.answers, h.left, payload - had);
    }
  }

  lemma PulledTwice(was: Socket, h: Pulled, payload: nat, p: Pulled)
    requires PulledOk(was.open, was.answers, was.avail, was.missing, h) && h.stop == Done
    requires PulledOk(was.open, h.answers, h.left, payload, p)
    ensures BroughtOk(was, was.missing + payload, Brought(p.left, p.answers, p.stop))
  {
    ExcusedAfter(was.open, was.answers, h.answers, p.answers, p.left, p.stop);
  }

  lemma ExcusedAfter(open: bool, was: seq<Arrival>, then': seq<Arrival>, now: seq<Arrival>, left: nat, stop: Stop)
    requires TakenFrom(was, then') && TakenFrom(then', now) && Excused(open, then', now, left, stop)
    ensures TakenFrom(was, now) && Excused(open, was, now, left, stop)
  {
    var k := |was| - |then'|;
    assert was[k..][|then'| - |now|..] == was[|was| - |now|..];
    if |now| < |then'| {
      assert was[k..][|then'| - |now| - 1] == was[|was| - |now| - 1];
    }
  }

  // ------------------------------------------------------------- the receiver

  /** A receive buffer of known length, filled from the front. */
  class RxRawFifo {
    const data: array<byte>
    const length: nat
    var ptr: nat
    var ok: bool
    var mux: nat

    constructor (length: nat, buffer: array?<byte>)
      requires length > 0 && (buffer != null ==> buffer.Length >= length)
      ensures this.length == length && data.Length >= length && ptr == 0 && ok && mux == INACTIVE
      ensures if buffer == null then fresh(data) else data == buffer
    {
      var block := buffer;
      if block == null {
        block := new byte[length](_ => 0);
      }
      data := block;
      this.length, ptr, ok, mux := length, 0, true, INACTIVE;
    }

    /** Where `len` bytes would go, if there is room for them. */
    method GetReceiveBuffer(len: nat) returns (found: bool, off: nat)
      ensures found <==> ptr + len <= length
      ensures off == ptr
    {
      found, off := ptr + len <= length, ptr;
    }

    /** Note that `len` bytes have been stored; true once the buffer is full. */
    method ReceiveData(len: nat) returns (full: bool)
      modifies this`ptr, this`ok
      ensures if old(ptr) + len > length then !ok && ptr == old(ptr) else ok == old(ok) && ptr == old(ptr) + len
      ensures full <==> ptr >= length
    {
      if ptr + len > length {
        ok := false;
      } else {
        ptr := ptr + len;
      }
      full := ptr >= length;
    }
  }

  class RxLink {
    const hdr: array<byte>
    var hdrvalid: nat
    var mux0avail: bool
    const rxbuf: array<byte>
    const mux0buf: array<byte>
    var rxvalid: nat
    var rxpacket: array?<byte>
    var rxoff: nat
    /** For each FIFO channel the buffers waiting for data. */
    var rxmux: seq<seq<RxRawFifo>>

    /** The socket: whether it is open, the bytes still to come, how they will come. */
    var open: bool
    var incoming: seq<byte>
    var answers: seq<Arrival>

    /** Everything that ever comes; received bytes and those still to come make it up. */
    ghost const stream: seq<byte>
    /** Bytes received so far, and what they and the activations amount to. */
    ghost var taken: seq<byte>
    ghost var packets: seq<Packet>
    ghost var d: Demux
    ghost var events: seq<Event>
    /** The waiting buffers, and which of them each block of memory belongs to. */
    ghost var active: set<RxRawFifo>
    ghost var owner: map<array<byte>, RxRawFifo>

    ghost predicate FifoOk(f: RxRawFifo, m: nat, v: RFifo)
      reads f, f.data
    {
      && f.mux == m && f.ok
      && f.ptr < f.length <= f.data.Length
      && v.cap == f.length && v.got == f.data[..f.ptr]
    }

    ghost predicate Owned(f: RxRawFifo)
      reads this`active, this`owner
    {
      f in active && f.data in owner && owner[f.data] == f
    }

    ghost predicate ListOk(m: nat, list: seq<RxRawFifo>, c: Channel)
      reads this`active, this`owner, active, owner.Keys
    {
      && ChannelOk(c) && |c.fifos| == c.head + |list|
      && (forall i :: 0 <= i < |list| ==> Owned(list[i]))
      && (forall i :: 0 <= i < |list| ==> FifoOk(list[i], m, c.fifos[c.head + i]))
      && (forall i, j :: 0 <= i < j < |list| ==> list[i] != list[j])
    }

    ghost predicate Channels()
      reads this`active, this`owner, this`rxmux, this`d, active, owner.Keys
    {
      && DemuxOk(d) && |rxmux| == CHANNELS
      && (forall m :: 0 <= m < CHANNELS ==> ListOk(m, rxmux[m], d.chans[m]))
    }

    ghost predicate Buffers()
      reads this`owner, this`hdrvalid
    {
      && hdr.Length == 2 && rxbuf.Length == BUFFER_SIZE && mux0buf.Length == MAX_PAYLOAD
      && hdr != rxbuf && hdr != mux0buf && rxbuf != mux0buf
      && hdr !in owner && rxbuf !in owner && mux0buf !in owner
      && hdrvalid <= 2
    }

    function Mux(): (mux: nat)
      requires hdr.Length == 2
      reads hdr
      ensures mux < 16
    {
      HeaderMux(hdr[0], hdr[1])
    }

    function PayloadLen(): (len: nat)
      requires hdr.Length == 2
      reads hdr
      ensures 1 <= len <= MAX_PAYLOAD
    {
      HeaderLen(hdr[0], hdr[1])
    }

    /** The payload in progress goes where its channel says. */
    ghost predicate Target()
      requires Buffers() && |rxmux| == CHANNELS
      reads this`rxmux, this`rxpacket, this`rxoff, this`active, this`owner, this`hdrvalid, hdr, active
    {
      if Mux() >= FIFO_MIN && rxmux[Mux() - FIFO_MIN] != [] then
        var f := rxmux[Mux() - FIFO_MIN][0];
        f in active && rxpacket == f.data && rxoff == f.ptr && f.ptr + PayloadLen() <= f.length <= f.data.Length
      else
        rxoff == 0 && rxpacket == if Mux() == 0 then mux0buf else rxbuf
    }

    /** Header and payload bytes of the packet in progress. */
    ghost function Partial(): (r: seq<byte>)
      requires hdr.Length == 2 && hdrvalid <= 2
      requires rxpacket != null ==> rxoff + rxvalid <= rxpacket.Length
      reads this`hdrvalid, this`rxpacket, this`rxoff, this`rxvalid, hdr, rxpacket
    {
      hdr[..hdrvalid] + (if rxpacket == null then [] else rxpacket[rxoff..rxoff + rxvalid])
    }

    ghost predicate Progress()
      requires Buffers() && |rxmux| == CHANNELS
      reads this`rxvalid, this`rxmux, this`rxpacket, this`rxoff, this`active, this`owner, this`hdrvalid, hdr, active
    {
      && (hdrvalid < 2 ==> rxpacket == null)
      && (rxpacket == null ==> rxvalid == 0)
      && (rxpacket != null ==> rxpacket != hdr && Target() && rxvalid <= PayloadLen() && rxoff + PayloadLen() <= rxpacket.Length)
    }

    /** The bytes received are the complete packets and the part of the next one. */
    ghost predicate StreamOk()
      requires hdr.Length == 2 && hdrvalid <= 2
      requires rxpacket != null ==> rxoff + rxvalid <= rxpacket.Length
      reads this`taken, this`packets, this`hdrvalid, this`rxpacket, this`rxoff, this`rxvalid, hdr, rxpacket
    {
      AllWellFormed(packets) && taken == FrameAll(packets) + Partial()
    }

    ghost predicate Supply()
      reads this`taken, this`incoming
    {
      taken + incoming == stream
    }

    ghost predicate Inv()
      reads this, hdr, rxpacket, active, owner.Keys
    {
      Supply() && Buffers() && Channels() && Progress() && StreamOk()
    }

    ghost predicate Valid()
      reads this, hdr, rxpacket, active, owner.Keys
    {
      && Inv() && (rxpacket != null ==> rxvalid < PayloadLen())
      && History(events, d, packets)
    }

    constructor (incoming: seq<byte>, answers: seq<Arrival>)
      ensures Valid() && open && taken == [] && events == [] && packets == [] && d == Empty()
      ensures stream == incoming && this.incoming == incoming && this.answers == answers && owner == map[] && active == {}
      ensures fresh(hdr) && fresh(rxbuf) && fresh(mux0buf)
    {
      hdr := new byte[2](_ => 0);
      rxbuf := new byte[BUFFER_SIZE](_ => 0);
      mux0buf := new byte[MAX_PAYLOAD](_ => 0);
      hdrvalid, mux0avail, rxvalid, rxpacket, rxoff := 0, false, 0, null, 0;
      rxmux := seq(CHANNELS, _ => []);
      open := true;
      this.incoming, this.answers, stream := incoming, answers, incoming;
      taken, packets, d, events, active, owner := [], [], Empty(), [], {}, map[];
      new;
      NothingReceived();
    }

    lemma NothingReceived()
      requires Buffers() && hdrvalid == 0 && rxvalid == 0 && rxpacket == null && rxmux == seq(CHANNELS, _ => [])
      requires taken == [] && packets == [] && events == [] && d == Empty() && Supply()
      ensures Valid()
    {
      forall m | 0 <= m < CHANNELS
        ensures ListOk(m, rxmux[m], d.chans[m])
      {
      }
      assert Partial() == [] && FrameAll(packets) == [];
    }

    /** What the socket gives for the rest of the header, and for the rest of the payload. */
    ghost function HeaderPull(): (p: Pulled)
      requires hdrvalid <= 2
      reads this`open, this`answers, this`incoming, this`hdrvalid
    {
      Pull(open, answers, |incoming|, 2 - hdrvalid)
    }

    ghost function PayloadPull(): (p: Pulled)
      requires hdr.Length == 2 && rxvalid <= PayloadLen()
      reads this`open, this`answers, this`incoming, this`rxvalid, hdr
    {
      Pull(open, answers, |incoming|, PayloadLen() - rxvalid)
    }

    // ------------------------------------------------------------- the socket

    /** Receive at most `max` bytes; no more than have come, in pieces of whatever size the socket likes. */
    method Recv(buffer: array<byte>, off: nat, max: nat) returns (n: int, ghost got: seq<byte>)
      requires off + max <= buffer.Length && max > 0 && Supply()
      modifies this`incoming, this`answers, this`taken, buffer
      ensures -3 <= n <= max && n != 0 && (n != -3 ==> open)
      ensures |got| == (if n < 0 then 0 else n) && got == buffer[off..off + |got|]
      ensures taken == old(taken) + got && Supply()
      ensures n == -2 ==> |answers| < |old(answers)|
      ensures Pull(open, old(answers), |old(incoming)|, max) == Onward(open, n, answers, |incoming|, max)
      ensures forall i :: 0 <= i < buffer.Length && !(off <= i < off + |got|) ==> buffer[i] == old(buffer[i])
    {
      got := [];
      if !open {
        return -3, got;
      }
      if answers == [] {
        return -1, got;
      }
      var answer := answers[0];
      answers := answers[1..];
      match answer {
        case Broken => return -3, got;
        case Interrupted => return -2, got;
        case Busy => return -1, got;
        case Bytes(k) =>
          var m := if k < max then k else max;
          m := if m < |incoming| then m else |incoming|;
          if m == 0 {
            return -1, got;
          }
          got := Take(buffer, off, m);
          return m, got;
      }
    }

    /** The next m bytes come in. */
    method Take(buffer: array<byte>, off: nat, m: nat) returns (ghost got: seq<byte>)
      requires off + m <= buffer.Length && m <= |incoming| && Supply()
      modifies this`incoming, this`taken, buffer
      ensures |got| == m && got == buffer[off..off + m] && taken == old(taken) + got && Supply()
      ensures |incoming| == |old(incoming)| - m && answers == old(answers)
      ensures forall i :: 0 <= i < buffer.Length && !(off <= i < off + m) ==> buffer[i] == old(buffer[i])
    {
      forall i | 0 <= i < m {
        buffer[off + i] := incoming[i];
      }
      got := incoming[..m];
      taken := taken + got;
      assert incoming == got + incoming[m..];
      incoming := incoming[m..];
    }

    // ------------------------------------------------------------- header

    /** One attempt at the bytes of the header that are missing. */
    method RecvHeaderBytes() returns (n: int)
      requires Inv() && hdrvalid < 2
      modifies this`incoming, this`answers, this`taken, this`hdrvalid, hdr
      ensures Inv() && -3 <= n && n != 0 && (n != -3 ==> open)
      ensures hdrvalid == old(hdrvalid) + (if n > 0 then n else 0)
      ensures n == -2 ==> |answers| < |old(answers)|
      ensures n <= 2 - old(hdrvalid) && old(HeaderPull()) == Onward(open, n, answers, |incoming|, 2 - old(hdrvalid))
    {
      ghost var before, got := hdr[..hdrvalid], [];
      n, got := StoreHeader();
      CountHeader(before, got, if n > 0 then n else 0);
    }

    /** Header bytes are stored behind those that came before. */
    method StoreHeader() returns (n: int, ghost got: seq<byte>)
      requires Supply() && Buffers() && Channels() && hdrvalid < 2
      modifies this`incoming, this`answers, this`taken, hdr
      ensures Supply() && Channels() && -3 <= n <= 2 - hdrvalid && n != 0 && (n != -3 ==> open)
      ensures |got| == (if n < 0 then 0 else n) && hdr[..hdrvalid + |got|] == old(hdr[..hdrvalid]) + got
      ensures taken == old(taken) + got
      ensures n == -2 ==> |answers| < |old(answers)|
      ensures old(HeaderPull()) == Onward(open, n, answers, |incoming|, 2 - hdrvalid)
    {
      ghost var before := hdr[..hdrvalid];
      n, got := Recv(hdr, hdrvalid, 2 - hdrvalid);
      assert hdr[..hdrvalid] == before;
      assert hdr[..hdrvalid + |got|] == before + got;
    }

    /** Count in the header bytes just stored. */
    method CountHeader(ghost before: seq<byte>, ghost got: seq<byte>, n: nat)
      requires Supply() && Buffers() && Channels() && Progress() && hdrvalid < 2 && hdrvalid + n <= 2
      requires |got| == n && |before| == hdrvalid && hdr[..hdrvalid + n] == before + got
      requires AllWellFormed(packets) && taken == FrameAll(packets) + (before + []) + got
      modifies this`hdrvalid
      ensures Inv() && hdrvalid == old(hdrvalid) + n
    {
      hdrvalid := hdrvalid + n;
      Reassociate(FrameAll(packets), [], before, got);
    }

    /** Receive the header, unless it was received before; None means it is complete. */
    method RecvHeader() returns (stop: Option<Result>)
      requires Inv()
      modifies this`incoming, this`answers, this`taken, this`hdrvalid, this`open, hdr
      ensures Inv()
      ensures stop == None ==> hdrvalid == 2
      ensures open == (old(open) && stop != Some(DISCONNECT))
      ensures stop.Some? ==> hdrvalid < 2 && (if open then stop.value == WOULDBLOCK else stop.value == DISCONNECT)
      ensures old(hdrvalid) == 2 ==> taken == old(taken) && incoming == old(incoming) && hdr[..] == old(hdr[..])
      ensures old(HeaderPull()) == Pulled(|incoming|, 2 - hdrvalid, answers, StopOf(stop))
    {
      while hdrvalid < 2
        invariant Inv() && open == old(open)
        invariant old(hdrvalid) == 2 ==> taken == old(taken) && incoming == old(incoming) && hdr[..] == old(hdr[..])
        invariant old(HeaderPull()) == HeaderPull()
        decreases 2 - hdrvalid, |answers|
      {
        var n := RecvHeaderBytes();
        if n == -1 {
          return Some(WOULDBLOCK);
        } else if n == -3 {
          Disconnect();
          return Some(DISCONNECT);
        }
      }
      return None;
    }

    // ------------------------------------------------------------- payload

    /** The first waiting buffer of a channel is the one its abstract channel fills next. */
    lemma Head(m: nat)
      requires Channels() && m < CHANNELS
      ensures rxmux[m] == [] <==> d.chans[m].head == |d.chans[m].fifos|
      ensures rxmux[m] != [] ==>
                var f := rxmux[m][0];
                Owned(f) && FifoOk(f, m, d.chans[m].fifos[d.chans[m].head])
    {
      assert ListOk(m, rxmux[m], d.chans[m]);
    }

    /** There is room on a channel if its waiting buffer has it, or none is waiting. */
    lemma HeadFits(m: nat, len: nat)
      requires Channels() && m < CHANNELS
      ensures Fits(d.chans[m], len) <==> rxmux[m] == [] || rxmux[m][0].ptr + len <= rxmux[m][0].length
    {
      Head(m);
    }

    /** The waiting buffer takes the payload if it has room for all of it. */
    method UseWaiting(fifo: RxRawFifo) returns (found: bool)
      requires Inv() && hdrvalid == 2 && rxpacket == null && Mux() >= FIFO_MIN
      requires rxmux[Mux() - FIFO_MIN] != [] && fifo == rxmux[Mux() - FIFO_MIN][0]
      requires fifo in active && fifo.length <= fifo.data.Length && fifo.data != hdr
      modifies this`rxpacket, this`rxoff
      ensures Inv()
      ensures found <==> fifo.ptr + PayloadLen() <= fifo.length
      ensures found <==> rxpacket != null
    {
      var off;
      found, off := fifo.GetReceiveBuffer(PayloadLen());
      if found {
        PointAt(fifo, off);
      }
    }

    method PointAt(fifo: RxRawFifo, off: nat)
      requires Inv() && hdrvalid == 2 && rxpacket == null && Mux() >= FIFO_MIN
      requires rxmux[Mux() - FIFO_MIN] != [] && fifo == rxmux[Mux() - FIFO_MIN][0]
      requires fifo in active && off == fifo.ptr && off + PayloadLen() <= fifo.length <= fifo.data.Length && fifo.data != hdr
      modifies this`rxpacket, this`rxoff
      ensures Inv() && rxpacket != null
    {
      rxpacket, rxoff := fifo.data, off;
    }

    /** Without a waiting buffer the payload goes to a general one. */
    method UseGeneral()
      requires Inv() && hdrvalid == 2 && rxpacket == null
      requires Mux() >= FIFO_MIN ==> rxmux[Mux() - FIFO_MIN] == []
      modifies this`rxpacket, this`rxoff
      ensures Inv() && rxpacket != null
    {
      rxpacket, rxoff := if Mux() == 0 then mux0buf else rxbuf, 0;
    }

    /** Decide where the payload goes. */
    method ChooseBuffer() returns (found: bool)
      requires Inv() && hdrvalid == 2 && rxpacket == null
      modifies this`rxpacket, this`rxoff
      ensures Inv()
      ensures found <==> rxpacket != null
      ensures found <==> (Mux() >= FIFO_MIN ==> Fits(d.chans[Mux() - FIFO_MIN], PayloadLen()))
    {
      var mux := Mux();
      if mux >= FIFO_MIN {
        Head(mux - FIFO_MIN);
        HeadFits(mux - FIFO_MIN, PayloadLen());
      }
      if mux >= FIFO_MIN && rxmux[mux - FIFO_MIN] != [] {
        found := UseWaiting(rxmux[mux - FIFO_MIN][0]);
      } else {
        UseGeneral();
        found := true;
      }
    }

    /** No waiting buffer has anything stored at or after the place the payload goes to. */
    lemma TargetIsFree(f: RxRawFifo)
      requires Buffers() && Channels() && Progress() && rxpacket != null
      requires Owned(f) && f.data == rxpacket
      ensures f.ptr <= rxoff
    {
      if Mux() >= FIFO_MIN {
        Head(Mux() - FIFO_MIN);
      }
    }

    /** A buffer keeps what it holds. */
    twostate predicate SameFifo(f: RxRawFifo)
      reads f, f.data
    {
      && f.ptr == old(f.ptr) && f.ok == old(f.ok) && f.mux == old(f.mux)
      && (f.ptr <= f.data.Length ==> f.data[..f.ptr] == old(f.data[..f.ptr]))
    }

    method StoreBytes() returns (n: int, ghost got: seq<byte>)
      requires Supply() && Buffers() && |rxmux| == CHANNELS && Progress() && rxpacket != null && rxvalid < PayloadLen()
      requires forall f :: Owned(f) && f.data == rxpacket ==> f.ptr <= rxoff
      modifies this`incoming, this`answers, this`taken, rxpacket
      ensures Progress() && forall f :: Owned(f) ==> SameFifo(f)
      ensures -3 <= n <= PayloadLen() - rxvalid && n != 0 && (n != -3 ==> open)
      ensures |got| == if n < 0 then 0 else n
      ensures rxpacket[rxoff..rxoff + rxvalid + |got|] == old(rxpacket[rxoff..rxoff + rxvalid]) + got
      ensures taken == old(taken) + got && Supply()
      ensures n == -2 ==> |answers| < |old(answers)|
      ensures n <= old(PayloadLen() - rxvalid)
      ensures old(PayloadPull()) == Onward(open, n, answers, |incoming|, old(PayloadLen() - rxvalid))
    {
      ghost var body, held := rxpacket[rxoff..rxoff + rxvalid], rxpacket[..rxoff];
      n, got := Recv(rxpacket, rxoff + rxvalid, PayloadLen() - rxvalid);
      assert rxpacket[rxoff..rxoff + rxvalid] == body && rxpacket[..rxoff] == held;
      assert rxpacket[rxoff..rxoff + rxvalid + |got|] == body + got;
      forall f | Owned(f)
        ensures SameFifo(f)
      {
        if f.data == rxpacket && f.ptr <= f.data.Length {
          assert f.data[..f.ptr] == held[..f.ptr];
        }
      }
    }

    /** Payload bytes are stored without touching what any buffer holds already. */
    method Store() returns (n: int, ghost got: seq<byte>)
      requires Supply() && Buffers() && Channels() && Progress() && rxpacket != null && rxvalid < PayloadLen()
      modifies this`incoming, this`answers, this`taken, rxpacket
      ensures Channels() && Progress()
      ensures -3 <= n <= PayloadLen() - rxvalid && n != 0 && (n != -3 ==> open)
      ensures |got| == if n < 0 then 0 else n
      ensures rxpacket[rxoff..rxoff + rxvalid + |got|] == old(rxpacket[rxoff..rxoff + rxvalid]) + got
      ensures taken == old(taken) + got && Supply()
      ensures n == -2 ==> |answers| < |old(answers)|
      ensures n <= old(PayloadLen() - rxvalid)
      ensures old(PayloadPull()) == Onward(open, n, answers, |incoming|, old(PayloadLen() - rxvalid))
    {
      forall f | Owned(f) && f.data == rxpacket
        ensures f.ptr <= rxoff
      {
        TargetIsFree(f);
      }
      n, got := StoreBytes();
      forall m, i | 0 <= m < CHANNELS && 0 <= i < |rxmux[m]|
        ensures FifoOk(rxmux[m][i], m, d.chans[m].fifos[d.chans[m].head + i])
      {
        assert old(ListOk(m, rxmux[m], d.chans[m]));
        assert old(FifoOk(rxmux[m][i], m, d.chans[m].fifos[d.chans[m].head + i])) && SameFifo(rxmux[m][i]);
      }
      forall m | 0 <= m < CHANNELS
        ensures ListOk(m, rxmux[m], d.chans[m])
      {
        assert old(ListOk(m, rxmux[m], d.chans[m]));
      }
    }

    /** Count in the bytes just stored. */
    method CountIn(ghost body: seq<byte>, ghost got: seq<byte>, n: nat)
      requires Supply() && Buffers() && Channels() && Progress() && rxpacket != null && rxvalid + n <= PayloadLen()
      requires |got| == n && |body| == rxvalid && rxpacket[rxoff..rxoff + rxvalid + n] == body + got
      requires AllWellFormed(packets) && taken == FrameAll(packets) + (hdr[..hdrvalid] + body) + got
      modifies this`rxvalid
      ensures Inv() && rxvalid == old(rxvalid) + n && PayloadLen() == old(PayloadLen())
      ensures open == old(open) && answers == old(answers) && incoming == old(incoming)
    {
      rxvalid := rxvalid + n;
      Reassociate(FrameAll(packets), hdr[..hdrvalid], body, got);
    }

    /** One attempt at the bytes of the payload that are missing. */
    method RecvPayloadBytes() returns (n: int)
      requires Inv() && rxpacket != null && rxvalid < PayloadLen()
      modifies this`incoming, this`answers, this`taken, this`rxvalid, rxpacket
      ensures Inv() && -3 <= n && n != 0 && (n != -3 ==> open)
      ensures rxvalid == old(rxvalid) + (if n > 0 then n else 0) && PayloadLen() == old(PayloadLen())
      ensures n == -2 ==> |answers| < |old(answers)|
      ensures n <= old(PayloadLen() - rxvalid)
      ensures old(PayloadPull()) == Onward(open, n, answers, |incoming|, old(PayloadLen() - rxvalid))
    {
      ghost var body, got := rxpacket[rxoff..rxoff + rxvalid], [];
      n, got := Store();
      CountIn(body, got, if n > 0 then n else 0);
    }

    /** Receive the rest of the payload; None means it is complete. */
    method RecvPayload() returns (stop: Option<Result>)
      requires Inv() && rxpacket != null
      modifies this`incoming, this`answers, this`taken, this`rxvalid, this`open, rxpacket
      ensures Inv()
      ensures stop == None ==> rxvalid == PayloadLen() && Mux() == old(Mux())
      ensures open == (old(open) && stop != Some(DISCONNECT))
      ensures stop.Some? ==> rxvalid < PayloadLen() && (if open then stop.value == WOULDBLOCK else stop.value == DISCONNECT)
      ensures PayloadLen() == old(PayloadLen())
      ensures old(PayloadPull()) == Pulled(|incoming|, PayloadLen() - rxvalid, answers, StopOf(stop))
    {
      stop := None;
      var len := PayloadLen();
      while rxvalid < len && stop == None
        invariant Inv() && PayloadLen() == len && Mux() == old(Mux())
        invariant open == (old(open) && stop != Some(DISCONNECT))
        invariant stop.Some? ==> rxvalid < len && (if open then stop.value == WOULDBLOCK else stop.value == DISCONNECT)
        invariant old(PayloadPull()) == if stop == None then PayloadPull() else Pulled(|incoming|, len - rxvalid, answers, StopOf(stop))
        decreases stop == None, len - rxvalid, |answers|
      {
        stop := PayloadStep();
      }
    }

    method PayloadStep() returns (stop: Option<Result>)
      requires Inv() && rxpacket != null && rxvalid < PayloadLen()
      modifies this`incoming, this`answers, this`taken, this`rxvalid, this`open, rxpacket
      ensures Inv() && PayloadLen() == old(PayloadLen()) && Mux() == old(Mux())
      ensures open == (old(open) && stop != Some(DISCONNECT))
      ensures stop == None ==> rxvalid > old(rxvalid) || (rxvalid == old(rxvalid) && |answers| < |old(answers)|)
      ensures stop.Some? ==> rxvalid < PayloadLen() && (if open then stop.value == WOULDBLOCK else stop.value == DISCONNECT)
      ensures old(PayloadPull()) == if stop == None then PayloadPull() else Pulled(|incoming|, PayloadLen() - rxvalid, answers, StopOf(stop))
    {
      var n := RecvPayloadBytes();
      stop := None;
      if n == -1 {
        stop := Some(WOULDBLOCK);
      } else if n == -3 {
        Disconnect();
        stop := Some(DISCONNECT);
      }
      StepEnds(old(open), n, answers, |incoming|, old(PayloadLen() - rxvalid), stop);
    }

    method Disconnect()
      requires Inv()
      modifies this`open
      ensures Inv() && !open && PayloadLen() == old(PayloadLen()) && answers == old(answers) && incoming == old(incoming)
    {
      open := false;
    }

    // ------------------------------------------------------------- a complete packet

    /** The packet whose last byte has come. */
    ghost function Complete(): (p: Packet)
      requires Buffers() && rxpacket != null && rxoff + PayloadLen() <= rxpacket.Length
      reads this`owner, this`hdrvalid, this`rxpacket, this`rxoff, hdr, rxpacket
      ensures WellFormed(p)
    {
      Packet(Mux(), rxpacket[rxoff..rxoff + PayloadLen()])
    }

    /** Between packets: nothing of the next one has come. */
    ghost predicate Between()
      reads this`hdrvalid, this`rxvalid, this`rxpacket, this`packets, this`taken
    {
      hdrvalid == 0 && rxvalid == 0 && rxpacket == null && AllWellFormed(packets) && taken == FrameAll(packets)
    }

    /** The state machine goes back to waiting for a header. */
    method Restart() returns (ghost p: Packet)
      requires Inv() && rxpacket != null && rxvalid == PayloadLen()
      modifies this`hdrvalid, this`rxvalid, this`rxpacket, this`packets
      ensures Between()
      ensures p == old(Complete()) && packets == old(packets) + [p]
    {
      p := Complete();
      WordInverse(hdr[0], hdr[1]);
      assert hdr[..hdrvalid] == [hdr[0], hdr[1]];
      FrameAllSnoc(packets, p);
      assert taken == FrameAll(packets + [p]);
      packets := packets + [p];
      hdrvalid, rxvalid, rxpacket := 0, 0, null;
    }

    /** Buffers of other channels are other buffers. */
    lemma OthersDiffer(fifo: RxRawFifo, m: nat)
      requires Channels() && m < CHANNELS && rxmux[m] != [] && fifo == rxmux[m][0]
      ensures forall k, i :: 0 <= k < CHANNELS && 0 <= i < |rxmux[k]| && (k != m || i > 0) ==> rxmux[k][i] != fifo
    {
      assert ListOk(m, rxmux[m], d.chans[m]);
      assert FifoOk(fifo, m, d.chans[m].fifos[d.chans[m].head + 0]);
      forall k, i | 0 <= k < CHANNELS && 0 <= i < |rxmux[k]| && (k != m || i > 0)
        ensures rxmux[k][i] != fifo
      {
        assert ListOk(k, rxmux[k], d.chans[k]);
        assert FifoOk(rxmux[k][i], k, d.chans[k].fifos[d.chans[k].head + i]);
      }
    }

    /** Channel m's list and value are replaced by ones that fit; the others are untouched. */
    method SetChannel(m: nat, list: seq<RxRawFifo>, ghost c: Channel)
      requires DemuxOk(d) && |rxmux| == CHANNELS && m < CHANNELS && ListOk(m, list, c)
      requires forall k :: 0 <= k < CHANNELS && k != m ==> ListOk(k, rxmux[k], d.chans[k])
      modifies this`rxmux, this`d
      ensures Channels() && d == old(d).(chans := old(d).chans[m := c]) && rxmux == old(rxmux)[m := list]
    {
      rxmux := rxmux[m := list];
      d := d.(chans := d.chans[m := c]);
    }

    /** The buffer at the head of a channel takes what was stored in it and leaves once it is full. */
    method FillHead(fifo: RxRawFifo, m: nat, len: nat, ghost payload: seq<byte>)
      requires Channels() && m < CHANNELS && rxmux[m] != [] && fifo == rxmux[m][0]
      requires 0 < len && fifo.ptr + len <= fifo.length <= fifo.data.Length
      requires payload == fifo.data[fifo.ptr..fifo.ptr + len]
      modifies this`rxmux, this`d, fifo
      ensures Channels() && Fits(old(d).chans[m], len)
      ensures d == old(d).(chans := old(d).chans[m := Fill(old(d).chans[m], payload)])
      ensures fifo.ptr == old(fifo.ptr) + len
      ensures d.chans[m].fifos[old(d).chans[m].head].got == fifo.data[..fifo.ptr]
    {
      Head(m);
      OthersDiffer(fifo, m);
      var list := rxmux[m];
      ghost var c := d.chans[m];
      ghost var r := Fill(c, payload);
      var full := fifo.ReceiveData(len);
      forall k | 0 <= k < CHANNELS && k != m
        ensures ListOk(k, rxmux[k], d.chans[k])
      {
        assert old(ListOk(k, rxmux[k], d.chans[k]));
      }
      assert r.fifos[c.head].got == fifo.data[..fifo.ptr];
      if full {
        fifo.mux := INACTIVE;
        assert ListOk(m, list[1..], r);
        SetChannel(m, list[1..], r);
      } else {
        assert ListOk(m, list, r);
        SetChannel(m, list, r);
      }
    }

    /** Hand a complete packet to its channel. */
    method Dispatch(ghost p: Packet, mux: nat, len: nat)
      requires Channels() && WellFormed(p) && mux == p.mux && len == |p.payload|
      requires mux >= FIFO_MIN && rxmux[mux - FIFO_MIN] != [] ==>
                 var f := rxmux[mux - FIFO_MIN][0];
                 f in active && f.ptr + len <= f.length <= f.data.Length && p.payload == f.data[f.ptr..f.ptr + len]
      modifies this`rxmux, this`d, this`mux0avail, active
      ensures Channels() && Accepts(old(d), p) && d == Deliver(old(d), p)
    {
      if mux >= FIFO_MIN {
        Head(mux - FIFO_MIN);
        if rxmux[mux - FIFO_MIN] != [] {
          FillHead(rxmux[mux - FIFO_MIN][0], mux - FIFO_MIN, len, p.payload);
        }
      } else if mux == 0 {
        d := d.(cmds := d.cmds + [p.payload]);
        mux0avail := false;
      } else if mux == 1 {
        d := d.(notes := d.notes + [p.payload]);
      }
    }

    /** The payload is complete: restart, then dispatch. */
    method Finish() returns (mux: nat, len: nat, ghost p: Packet)
      requires Inv() && rxpacket != null && rxvalid == PayloadLen()
      modifies this`hdrvalid, this`rxvalid, this`rxpacket, this`packets, this`rxmux, this`d, this`mux0avail, active
      ensures Channels() && Between()
      ensures WellFormed(p) && packets == old(packets) + [p] && Accepts(old(d), p) && d == Deliver(old(d), p)
      ensures p == old(Complete()) && mux == p.mux && len == |p.payload|
    {
      mux, len := Mux(), PayloadLen();
      if mux >= FIFO_MIN {
        Head(mux - FIFO_MIN);
      }
      p := Restart();
      Dispatch(p, mux, len);
    }

    // ------------------------------------------------------------- what callers use

    /** Why a receive can stop before a packet is complete. */
    ghost predicate Stopped(r: Result, mux0_ok: bool)
      requires hdr.Length == 2 && DemuxOk(d)
      reads this`open, this`hdrvalid, this`rxvalid, this`rxpacket, this`mux0avail, this`d, hdr
    {
      match r
      case WOULDBLOCK => open && (hdrvalid < 2 || rxvalid < PayloadLen())
      case DISCONNECT => !open && (hdrvalid < 2 || rxvalid < PayloadLen())
      case NODATA => !mux0_ok && mux0avail && hdrvalid == 2 && Mux() == 0
      case NOBUFFER => rxpacket == null && hdrvalid == 2 && Mux() >= FIFO_MIN && !Fits(d.chans[Mux() - FIFO_MIN], PayloadLen())
      case _ => false
    }

    /** The socket as a receive finds it. */
    ghost function Asked(): (was: Socket)
      requires hdrvalid <= 2
      reads this`open, this`answers, this`incoming, this`hdrvalid
    {
      Socket(open, answers, |incoming|, 2 - hdrvalid)
    }

    /** Get to the point where payload bytes can be stored. */
    method Prepare(mux0_ok: bool) returns (stop: Option<Result>)
      requires Inv() && (rxpacket != null ==> rxvalid < PayloadLen())
      modifies this`incoming, this`answers, this`taken, this`hdrvalid, this`open, this`rxpacket, this`rxoff, this`mux0avail, hdr
      ensures Inv()
      ensures rxpacket != null ==> rxvalid < PayloadLen()
      ensures stop == None ==> rxpacket != null && (Mux() == 0 ==> mux0_ok)
      ensures stop.Some? ==> Stopped(stop.value, mux0_ok)
      ensures rxvalid == old(rxvalid) < PayloadLen()
      ensures PullFor(old(Asked()), 2 - old(hdrvalid)) == Pulled(|incoming|, 2 - hdrvalid, answers, StopOf(stop))
      ensures open == (old(open) && stop != Some(DISCONNECT))
    {
      stop := RecvHeader();
      if stop == None {
        if Mux() == 0 && !mux0_ok {
          mux0avail := true;
          stop := Some(NODATA);
        } else if rxpacket == null {
          var found := ChooseBuffer();
          stop := if found then None else Some(NOBUFFER);
        }
      }
    }

    /** Bring in the packet in progress as far as it goes; None means all of it is there. */
    method Collect(mux0_ok: bool) returns (stop: Option<Result>)
      requires Inv() && (rxpacket != null ==> rxvalid < PayloadLen())
      modifies this`incoming, this`answers, this`taken, this`hdrvalid, this`rxvalid, this`open, this`rxpacket, this`rxoff, this`mux0avail
      modifies hdr, rxbuf, mux0buf, owner.Keys
      ensures Inv()
      ensures stop == None ==> rxpacket != null && rxvalid == PayloadLen() && (Mux() == 0 ==> mux0_ok)
      ensures stop.Some? ==> Stopped(stop.value, mux0_ok) && (rxpacket != null ==> rxvalid < PayloadLen())
      ensures old(rxvalid) < PayloadLen() && open == (old(open) && stop != Some(DISCONNECT))
      ensures Bring(old(Asked()), PayloadLen(), old(rxvalid), Held(stop))
        == Brought(|incoming|, answers, StopOf(stop))
    {
      ghost var was := Asked();
      stop := PrepareFor(mux0_ok, was);
      if stop.Some? {
        return;
      }
      stop := CollectPayload(mux0_ok, was);
    }

    /** The same, with what it took of the socket if it stopped. */
    method PrepareFor(mux0_ok: bool, ghost was: Socket) returns (stop: Option<Result>)
      requires Inv() && (rxpacket != null ==> rxvalid < PayloadLen()) && was == Asked()
      modifies this`incoming, this`answers, this`taken, this`hdrvalid, this`open, this`rxpacket, this`rxoff, this`mux0avail, hdr
      ensures Inv()
      ensures rxpacket != null ==> rxvalid < PayloadLen()
      ensures stop == None ==> rxpacket != null && (Mux() == 0 ==> mux0_ok)
      ensures stop.Some? ==> Stopped(stop.value, mux0_ok)
      ensures rxvalid == old(rxvalid) < PayloadLen() && open == (was.open && stop != Some(DISCONNECT))
      ensures stop == None ==> PullFor(was, was.missing) == Pulled(|incoming|, 0, answers, Done)
      ensures stop.Some? ==> Bring(was, PayloadLen(), rxvalid, Held(stop)) == Brought(|incoming|, answers, StopOf(stop))
    {
      stop := Prepare(mux0_ok);
      if stop.Some? {
        HeaderBrought(was, PayloadLen(), rxvalid, Held(stop), Pulled(|incoming|, 2 - hdrvalid, answers, StopOf(stop)));
      }
    }

    /** The payload goes to memory that is known. */
    method CollectPayload(mux0_ok: bool, ghost was: Socket) returns (stop: Option<Result>)
      requires Inv() && rxpacket != null && rxvalid < PayloadLen() && (Mux() == 0 ==> mux0_ok)
      requires open == was.open && PullFor(was, was.missing) == Pulled(|incoming|, 0, answers, Done)
      modifies this`incoming, this`answers, this`taken, this`rxvalid, this`open, rxbuf, mux0buf, owner.Keys
      ensures Inv() && old(rxvalid) < PayloadLen()
      ensures stop == None ==> rxpacket != null && rxvalid == PayloadLen() && (Mux() == 0 ==> mux0_ok)
      ensures stop.Some? ==> Stopped(stop.value, mux0_ok) && (rxpacket != null ==> rxvalid < PayloadLen())
      ensures open == (old(open) && stop != Some(DISCONNECT))
      ensures Bring(was, PayloadLen(), old(rxvalid), false) == Brought(|incoming|, answers, StopOf(stop))
    {
      ghost var h := Pulled(|incoming|, 0, answers, Done);
      TargetIsKnown();
      stop := RecvPayload();
      BothBrought(was, h, PayloadLen(), old(rxvalid), Pulled(|incoming|, PayloadLen() - rxvalid, answers, StopOf(stop)));
    }

    lemma TargetIsKnown()
      requires Buffers() && Channels() && Progress() && rxpacket != null
      ensures rxpacket in owner.Keys || rxpacket == rxbuf || rxpacket == mux0buf
    {
      if Mux() >= FIFO_MIN {
        Head(Mux() - FIFO_MIN);
      }
    }

    /** Note an arrival in the history. */
    ghost method Record(p: Packet, before: Demux, old_packets: seq<Packet>)
      requires Supply() && Buffers() && Channels() && Between()
      requires History(events, before, old_packets)
      requires WellFormed(p) && DemuxOk(before) && Accepts(before, p) && d == Deliver(before, p) && packets == old_packets + [p]
      modifies this`events
      ensures Valid() && events == old(events) + [Arrived(p)]
    {
      HistoryArrived(events, before, old_packets, p);
      events := events + [Arrived(p)];
      assert Partial() == [];
    }

    method FinishRecorded() returns (r: Result, ghost p: Packet)
      requires Inv() && rxpacket != null && rxvalid == PayloadLen()
      requires History(events, d, packets)
      modifies this`hdrvalid, this`rxvalid, this`rxpacket, this`packets, this`rxmux, this`d, this`mux0avail, this`events, active
      ensures open == old(open) && answers == old(answers) && incoming == old(incoming) && PayloadLen() == old(PayloadLen())
      ensures Valid() && events == old(events) + [Arrived(p)]
      ensures WellFormed(p) && packets == old(packets) + [p] && Accepts(old(d), p) && d == Deliver(old(d), p)
      ensures p.mux == old(Mux()) && |p.payload| == old(PayloadLen()) && r == if p.mux == 0 then Reply(|p.payload|) else FIFODATA
      ensures p.mux == 0 ==> |p.payload| <= mux0buf.Length && p.payload == mux0buf[..|p.payload|]
    {
      var mux, len;
      mux, len, p := Finish();
      r := if mux == 0 then Reply(len) else FIFODATA;
      Record(p, old(d), old(packets));
    }

    /**
     Receive without blocking. At most one packet is completed; it is handed to its channel.
     A reply that the caller cannot take yet is left where it is, with its header read.
     */
    method Receive(mux0_ok: bool) returns (r: Result, ghost arrived: Option<Packet>)
      requires Valid()
      modifies this`incoming, this`answers, this`taken, this`hdrvalid, this`rxvalid, this`open, this`rxpacket, this`rxoff
      modifies this`mux0avail, this`packets, this`rxmux, this`d, this`events, hdr, rxbuf, mux0buf, active, owner.Keys
      ensures Valid()
      ensures arrived == None ==>
                Stopped(r, mux0_ok) && packets == old(packets) && d == old(d) && events == old(events)
      ensures arrived.Some? ==>
                && WellFormed(arrived.value) && packets == old(packets) + [arrived.value]
                && events == old(events) + [Arrived(arrived.value)]
                && Accepts(old(d), arrived.value) && d == Deliver(old(d), arrived.value)
                && r == (if arrived.value.mux == 0 then Reply(|arrived.value.payload|) else FIFODATA)
      ensures r.Reply? ==> mux0_ok && r.len <= mux0buf.Length && arrived == Some(Packet(0, mux0buf[..r.len]))
      ensures old(rxvalid) < PayloadLen() && open == (old(open) && r != DISCONNECT)
      ensures arrived == None ==>
        Bring(old(Asked()), PayloadLen(), old(rxvalid), Held(Some(r)))
        == Brought(|incoming|, answers, StopOf(Some(r)))
      ensures arrived.Some? ==>
        Bring(old(Asked()), PayloadLen(), old(rxvalid), false)
        == Brought(|incoming|, answers, Done)
    {
      var stop := Collect(mux0_ok);
      if stop.Some? {
        return stop.value, None;
      }
      ghost var p;
      r, p := FinishRecorded();
      arrived := Some(p);
    }

    /** The socket is open and goes on giving bytes until none is on its way. */
    ghost predicate Served()
      reads this`open, this`answers, this`incoming
    {
      open && AllDeliver(answers) && |incoming| <= Deliveries(answers)
    }

    /**
     Wait for a reply on the command channel, letting data for other channels through to their buffers. With
     `wait` it is asked again as long as the socket has an answer. The wait ends without a reply only if
     a payload has no buffer, the socket has no more or is lost; one that goes on giving brings the whole stream.
     */
    method ReceiveCmnd(wait: bool) returns (r: Result)
      requires Valid()
      modifies this`incoming, this`answers, this`taken, this`hdrvalid, this`rxvalid, this`open, this`rxpacket, this`rxoff
      modifies this`mux0avail, this`packets, this`rxmux, this`d, this`events, hdr, rxbuf, mux0buf, active, owner.Keys
      ensures Valid() && TakenFrom(old(answers), answers)
      ensures Concluded(old(open), old(answers), old(d), wait, r)
      ensures old(Served()) ==> Served() && Fulfilled(r) && (r == WOULDBLOCK ==> packets == Parse(stream))
    {
      var again := true;
      r := WOULDBLOCK;
      while again
        invariant Valid() && TakenFrom(old(answers), answers) && (old(Served()) ==> Served())
        invariant again ==> d.cmds == old(d.cmds) && open == old(open)
        invariant !again ==> Concluded(old(open), old(answers), old(d), wait, r) && (old(Served()) ==> Fulfilled(r))
        decreases again, |answers|
      {
        ghost var open0, answers0 := open, answers;
        again, r := ReceiveOnce(wait);
        ExcusedAfter(open0, old(answers), answers0, answers, |incoming|, if again then Done else StopOf(Some(r)));
      }
      if incoming == [] {
        WholeStream();
      }
    }

    /** How a wait for a reply ends. */
    ghost predicate Concluded(open0: bool, answers0: seq<Arrival>, d0: Demux, wait: bool, r: Result)
      reads this`d, this`answers, this`incoming, mux0buf
    {
      && (r.Reply? || r == WOULDBLOCK || r == DISCONNECT || r == NOBUFFER)
      && (if r.Reply? then r.len <= mux0buf.Length && d.cmds == d0.cmds + [mux0buf[..r.len]] else d.cmds == d0.cmds)
      && Excused(open0, answers0, answers, |incoming|, StopOf(Some(r))) && (r == WOULDBLOCK && wait ==> answers == [])
    }

    ghost predicate Fulfilled(r: Result)
      reads this`incoming
    {
      r != DISCONNECT && (r == WOULDBLOCK ==> incoming == [])
    }

    /** One receive of the wait, and whether another is due. */
    method ReceiveOnce(wait: bool) returns (again: bool, r: Result)
      requires Valid()
      modifies this`incoming, this`answers, this`taken, this`hdrvalid, this`rxvalid, this`open, this`rxpacket, this`rxoff
      modifies this`mux0avail, this`packets, this`rxmux, this`d, this`events, hdr, rxbuf, mux0buf, active, owner.Keys
      ensures Valid() && TakenFrom(old(answers), answers) && (old(Served()) ==> Served())
      ensures Excused(old(open), old(answers), answers, |incoming|, if again then Done else StopOf(Some(r)))
      ensures again ==> d.cmds == old(d.cmds) && open == old(open) && |answers| < |old(answers)|
      ensures !again ==> Concluded(old(open), old(answers), old(d), wait, r) && (old(Served()) ==> Fulfilled(r))
    {
      ghost var was, had, arrived := Asked(), rxvalid, None;
      r, arrived := Receive(true);
      ghost var held := arrived == None && Held(Some(r));
      StopsAreDue(was, PayloadLen(), had, held);
      if old(Served()) {
        BringsOn(was, PayloadLen(), had, held);
      }
      again := r == FIFODATA || (r == WOULDBLOCK && wait && answers != []);
    }

    /** Once everything has come, the packets are those of the whole stream. */
    lemma WholeStream()
      requires Valid() && incoming == []
      ensures packets == Parse(stream)
    {
      assert taken == taken + incoming;
      PacketsAreParsed();
    }

    /** No waiting buffer uses this block of memory. */
    ghost predicate Unshared(block: array<byte>)
      requires |rxmux| == CHANNELS
      reads this`rxmux
    {
      forall m, i :: 0 <= m < CHANNELS && 0 <= i < |rxmux[m]| ==> rxmux[m][i].data != block
    }

    /** A payload for channel m is on its way into the general buffer. */
    predicate Unawaited(m: nat)
      requires hdr.Length == 2 && |rxmux| == CHANNELS && m < CHANNELS
      reads this`rxpacket, this`rxmux, hdr
    {
      rxpacket != null && Mux() == FIFO_MIN + m && rxmux[m] == []
    }

    /** A buffer not yet waiting learns its channel. */
    method Tag(fifo: RxRawFifo, m: nat)
      requires Channels() && Unshared(fifo.data)
      modifies fifo`mux
      ensures Channels() && fifo.mux == m
    {
      forall k | 0 <= k < CHANNELS
        ensures fifo !in rxmux[k]
      {
        assert forall i :: 0 <= i < |rxmux[k]| ==> rxmux[k][i].data != fifo.data;
      }
      fifo.mux := m;
      forall k | 0 <= k < CHANNELS
        ensures ListOk(k, rxmux[k], d.chans[k])
      {
        assert old(ListOk(k, rxmux[k], d.chans[k])) && fifo !in rxmux[k];
      }
    }

    /** Tagged, owned and linked. */
    method Enlist(fifo: RxRawFifo, m: nat)
      requires Channels() && Buffers() && Progress() && m < CHANNELS && Unshared(fifo.data) && !Unawaited(m)
      requires fifo.ptr == 0 && fifo.ok && 0 < fifo.length <= fifo.data.Length
      requires fifo.data != hdr && fifo.data != rxbuf && fifo.data != mux0buf
      modifies this`rxmux, this`d, this`active, this`owner, fifo`mux
      ensures Channels() && Buffers() && Progress() && d == AddFifo(old(d), m, fifo.length)
      ensures rxmux == old(rxmux)[m := old(rxmux)[m] + [fifo]]
    {
      assert forall i :: 0 <= i < |rxmux[m]| ==> rxmux[m][i].data != fifo.data;
      Tag(fifo, m);
      Own(fifo);
      Link(fifo, m);
    }

    /** Put a buffer at the end of its channel's list, not in the middle of a packet that it is too late for. */
    method AddRxmux(fifo: RxRawFifo, m: nat)
      requires Valid() && m < CHANNELS && Unshared(fifo.data) && !Unawaited(m)
      requires fifo.ptr == 0 && fifo.ok && 0 < fifo.length <= fifo.data.Length
      requires fifo.data != hdr && fifo.data != rxbuf && fifo.data != mux0buf
      modifies this`rxmux, this`d, this`events, this`active, this`owner, fifo`mux
      ensures Valid() && rxmux == old(rxmux)[m := old(rxmux)[m] + [fifo]]
      ensures events == old(events) + [Activated(m, fifo.length)]
    {
      EnlistInv(fifo, m);
      RecordActivation(m, fifo.length, old(d));
    }

    /** Note an activation in the history. */
    ghost method RecordActivation(m: nat, cap: nat, before: Demux)
      requires Inv() && (rxpacket != null ==> rxvalid < PayloadLen())
      requires History(events, before, packets) && DemuxOk(before) && m < CHANNELS && cap > 0
      requires d == AddFifo(before, m, cap)
      modifies this`events
      ensures Valid() && events == old(events) + [Activated(m, cap)]
    {
      HistoryActivated(events, before, packets, m, cap);
      events := events + [Activated(m, cap)];
    }

    method EnlistInv(fifo: RxRawFifo, m: nat)
      requires Inv() && m < CHANNELS && Unshared(fifo.data) && !Unawaited(m)
      requires fifo.ptr == 0 && fifo.ok && 0 < fifo.length <= fifo.data.Length
      requires fifo.data != hdr && fifo.data != rxbuf && fifo.data != mux0buf
      modifies this`rxmux, this`d, this`active, this`owner, fifo`mux
      ensures Inv() && d == AddFifo(old(d), m, fifo.length)
      ensures rxmux == old(rxmux)[m := old(rxmux)[m] + [fifo]]
    {
      Enlist(fifo, m);
    }

    /** A block of memory now belongs to this buffer. */
    ghost method Own(fifo: RxRawFifo)
      requires Channels() && Buffers() && Progress() && Unshared(fifo.data)
      requires fifo.data != hdr && fifo.data != rxbuf && fifo.data != mux0buf
      modifies this`active, this`owner
      ensures Channels() && Buffers() && Progress() && Owned(fifo)
    {
      active, owner := active + {fifo}, owner[fifo.data := fifo];
      forall m | 0 <= m < CHANNELS
        ensures ListOk(m, rxmux[m], d.chans[m])
      {
        assert old(ListOk(m, rxmux[m], d.chans[m]));
        assert forall i :: 0 <= i < |rxmux[m]| ==> old(Owned(rxmux[m][i])) && rxmux[m][i].data != fifo.data;
      }
    }

    method Link(fifo: RxRawFifo, m: nat)
      requires Channels() && Buffers() && Progress() && m < CHANNELS && !Unawaited(m) && Owned(fifo)
      requires forall i :: 0 <= i < |rxmux[m]| ==> rxmux[m][i] != fifo
      requires fifo.ptr == 0 && fifo.ok && 0 < fifo.length <= fifo.data.Length && fifo.mux == m
      modifies this`rxmux, this`d
      ensures Channels() && Progress() && d == AddFifo(old(d), m, fifo.length)
      ensures rxmux == old(rxmux)[m := old(rxmux)[m] + [fifo]]
    {
      assert ListOk(m, rxmux[m], d.chans[m]);
      assert fifo.data[..0] == [];
      SetChannel(m, rxmux[m] + [fifo], Append(d.chans[m], fifo.length));
    }

    // ------------------------------------------------------------- refinement of the parser

    /** However the bytes were cut up, the packets are those of the whole stream received so far. */
    lemma PacketsAreParsed()
      requires Valid()
      ensures Parse(taken) == packets
    {
      var tail := Partial();
      if hdrvalid == 2 {
        assert tail[0] == hdr[0] && tail[1] == hdr[1];
      }
      ParseUndoesFrame(packets, tail);
    }
  }

  lemma Reassociate(frames: seq<byte>, header: seq<byte>, body: seq<byte>, more: seq<byte>)
    ensures frames + (header + body) + more == frames + (header + (body + more))
    ensures [] + body == body && body + [] == body
  {
  }
}
