/**
 Which FIFO the link sends from next. The transmit queue is a list of FIFOs in
 activation order and, when an interleaved FIFO has just been sent from, the
 position of its successor. `next == |fifos|` stands for the null pointer.
 */
module TxQueue {
  import opened Bytes
  import opened Common
  import opened Framing

  const FIFO_MIN := 4
  const FIFO_MAX := 15
  const CHUNK := 4096
  /** Length of the constant block that stands in for absent data. */
  const ZEROS := 256

  datatype Fifo = Fifo(mux: nat, data: seq<byte>, zeros: bool, pos: nat, interleave: bool)

  ghost predicate FifoOk(f: Fifo)
  {
    && f.pos <= |f.data|
    && FIFO_MIN + f.mux <= FIFO_MAX
    && (f.zeros ==> AllZero(f.data))
  }

  ghost predicate AllZero(data: seq<byte>)
  {
    forall i :: 0 <= i < |data| ==> data[i] == 0
  }

  function Left(f: Fifo): (n: nat)
    requires f.pos <= |f.data|
  {
    |f.data| - f.pos
  }

  /** How much a FIFO offers when asked for at most `max` bytes. */
  function Avail(f: Fifo, max: nat): (n: nat)
    requires f.pos <= |f.data|
    ensures n <= Left(f) && n <= max
    ensures max >= 4 ==> (n == 0 <==> Left(f) == 0)
    ensures !f.zeros && max % 4 == 0 ==> n == if Left(f) <= max then Left(f) else max
  {
    var whole := max - max % 4;
    var limit := if f.zeros && whole > ZEROS then ZEROS else whole;
    if f.pos + limit > |f.data| then |f.data| - f.pos else limit
  }

  datatype Queue = Queue(fifos: seq<Fifo>, next: nat)

  ghost predicate Ok(q: Queue)
  {
    q.next <= |q.fifos| && forall i :: 0 <= i < |q.fifos| ==> FifoOk(q.fifos[i])
  }

  function Add(q: Queue, f: Fifo): (r: Queue)
  {
    Queue(q.fifos + [f], if q.next == |q.fifos| then |q.fifos| + 1 else q.next)
  }

  /** The FIFO looked at first: the interleaved successor if there is one, else the head. */
  function Current(q: Queue): (k: nat)
    requires q.fifos != []
    ensures k < |q.fifos|
  {
    if q.next < |q.fifos| then q.next else 0
  }

  /** Unlink FIFO k; a successor position naming it moves on to what followed it. */
  function Retire(q: Queue, k: nat): (r: Queue)
    requires k < |q.fifos| && q.next <= |q.fifos|
  {
    Queue(q.fifos[..k] + q.fifos[k + 1..], if q.next > k then q.next - 1 else q.next)
  }

  lemma RetireOk(q: Queue, k: nat)
    requires Ok(q) && k < |q.fifos|
    ensures Ok(Retire(q, k)) && |Retire(q, k).fifos| == |q.fifos| - 1
  {
  }

  /** Retire exhausted FIFOs until the one to send from has data, or none is left. */
  ghost function Settle(q: Queue): (r: Queue)
    requires Ok(q)
    ensures Ok(r)
    ensures r.fifos != [] ==> Avail(r.fifos[Current(r)], CHUNK) > 0
    decreases |q.fifos|
  {
    if q.fifos == [] then q
    else if Avail(q.fifos[Current(q)], CHUNK) == 0 then
      RetireOk(q, Current(q));
      Settle(Retire(q, Current(q)))
    else q
  }

  ghost predicate Ready(q: Queue)
  {
    Ok(q) && q.fifos != [] && Avail(q.fifos[Current(q)], CHUNK) > 0
  }

  /** The packet made from the current FIFO. */
  ghost function NextPacket(q: Queue): (p: Packet)
    requires Ready(q)
    ensures WellFormed(p) && p.mux == FIFO_MIN + q.fifos[Current(q)].mux
  {
    var f := q.fifos[Current(q)];
    Packet(FIFO_MIN + f.mux, f.data[f.pos..f.pos + Avail(f, CHUNK)])
  }

  /** The queue after that packet: data consumed, successor chosen. */
  ghost function Emit(q: Queue): (r: Queue)
    requires Ready(q)
    ensures Ok(r)
  {
    var k := Current(q);
    var f := q.fifos[k];
    Queue(q.fifos[k := f.(pos := f.pos + Avail(f, CHUNK))],
          if f.interleave then k + 1 else |q.fifos|)
  }

  /** What can happen to the transmit side; to choose is to retire exhausted FIFOs without sending. */
  datatype Op = Activate(f: Fifo) | Command(p: Packet) | Step | Choose

  datatype State = State(q: Queue, sent: seq<Packet>)

  ghost predicate StateOk(s: State)
  {
    Ok(s.q) && AllWellFormed(s.sent)
  }

  ghost predicate OpOk(op: Op)
  {
    match op
    case Activate(f) => FifoOk(f) && f.pos == 0
    case Command(p) => WellFormed(p)
    case Step => true
    case Choose => true
  }

  ghost function Apply(s: State, op: Op): (r: State)
    requires StateOk(s) && OpOk(op)
    ensures StateOk(r)
  {
    match op
    case Activate(f) => State(Add(s.q, f), s.sent)
    case Command(p) => State(s.q, s.sent + [p])
    case Step =>
      var q := Settle(s.q);
      if q.fifos == [] then State(q, s.sent)
      else State(Emit(q), s.sent + [NextPacket(q)])
    case Choose => State(Settle(s.q), s.sent)
  }

  ghost predicate OpsOk(ops: seq<Op>)
  {
    forall i :: 0 <= i < |ops| ==> OpOk(ops[i])
  }

  /** The state a history leads to, from an empty queue with nothing sent. */
  ghost function Exec(ops: seq<Op>): (s: State)
    requires OpsOk(ops)
    ensures StateOk(s)
  {
    if ops == [] then State(Queue([], 0), [])
    else Apply(Exec(ops[..|ops| - 1]), ops[|ops| - 1])
  }

  /** What a step does, once the FIFO in turn is chosen. */
  lemma StepIs(s: State, q: Queue)
    requires StateOk(s) && q == Settle(s.q)
    ensures Apply(s, Choose) == State(q, s.sent)
    ensures Apply(s, Step) == if q.fifos == [] then State(q, s.sent) else State(Emit(q), s.sent + [NextPacket(q)])
  {
  }

  lemma ExecSnoc(ops: seq<Op>, op: Op)
    requires OpsOk(ops) && OpOk(op)
    ensures OpsOk(ops + [op]) && Exec(ops + [op]) == Apply(Exec(ops), op)
  {
    assert (ops + [op])[..|ops|] == ops;
  }

  /** Bytes still queued, whatever the channel: each packet takes some away. */
  ghost function TotalLeft(fifos: seq<Fifo>): (n: nat)
    requires Within(fifos)
  {
    if fifos == [] then 0 else Left(fifos[0]) + TotalLeft(fifos[1..])
  }

  lemma {:induction false} TotalWithout(fifos: seq<Fifo>, k: nat)
    requires Within(fifos) && k < |fifos|
    ensures Within(fifos[..k] + fifos[k + 1..])
    ensures TotalLeft(fifos) == TotalLeft(fifos[..k] + fifos[k + 1..]) + Left(fifos[k])
  {
    var r := fifos[..k] + fifos[k + 1..];
    if k == 0 {
      assert r == fifos[1..];
    } else {
      TotalWithout(fifos[1..], k - 1);
      assert r[0] == fifos[0] && r[1..] == fifos[1..][..k - 1] + fifos[1..][k..];
    }
  }

  lemma {:induction false} SettleKeepsTotal(q: Queue)
    requires Ok(q)
    ensures TotalLeft(Settle(q).fifos) == TotalLeft(q.fifos)
    decreases |q.fifos|
  {
    if q.fifos != [] && Avail(q.fifos[Current(q)], CHUNK) == 0 {
      RetireOk(q, Current(q));
      TotalWithout(q.fifos, Current(q));
      SettleKeepsTotal(Retire(q, Current(q)));
    }
  }

  lemma EmitLowersTotal(q: Queue)
    requires Ready(q)
    ensures TotalLeft(Emit(q).fifos) == TotalLeft(q.fifos) - |NextPacket(q).payload| < TotalLeft(q.fifos)
  {
    var k, r := Current(q), Emit(q);
    TotalWithout(q.fifos, k);
    TotalWithout(r.fifos, k);
    assert q.fifos[..k] == r.fifos[..k] && q.fifos[k + 1..] == r.fifos[k + 1..];
  }

  lemma TotalDrops(q: Queue)
    requires Ok(q)
    ensures Settle(q).fifos != [] ==> TotalLeft(Emit(Settle(q)).fifos) < TotalLeft(q.fifos)
  {
    SettleKeepsTotal(q);
    if Settle(q).fifos != [] {
      EmitLowersTotal(Settle(q));
    }
  }

  /** Bytes on the wire once all is sent, at most: a packet adds two bytes to one or more of a FIFO. */
  ghost function Work(s: State): (n: nat)
    requires StateOk(s)
  {
    |FrameAll(s.sent)| + 3 * TotalLeft(s.q.fifos)
  }

  /** Sending from FIFOs adds nothing to what there is to do, a command its frame. */
  lemma WorkNeverGrows(s: State, op: Op)
    requires StateOk(s) && OpOk(op) && !op.Activate?
    ensures Work(Apply(s, op)) <= Work(s) + (if op.Command? then |op.p.payload| + 2 else 0)
  {
    if op.Command? {
      FrameAllSnoc(s.sent, op.p);
    } else {
      SettleKeepsTotal(s.q);
      if op.Step? && Settle(s.q).fifos != [] {
        EmitLowersTotal(Settle(s.q));
        FrameAllSnoc(s.sent, NextPacket(Settle(s.q)));
      }
    }
  }

  /** Over a whole run nothing is added but the frames of its commands. */
  lemma {:induction false} WorkOfRun(pre: seq<Op>, more: seq<Op>)
    requires OpsOk(pre) && OpsOk(more) && NoneActivated(more)
    ensures OpsOk(pre + more) && Work(Exec(pre + more)) <= Work(Exec(pre)) + Frames(more)
    decreases |more|
  {
    if more == [] {
      assert pre + more == pre;
    } else {
      var n := |more| - 1;
      WorkOfRun(pre, more[..n]);
      assert pre + more == (pre + more[..n]) + [more[n]];
      ExecSnoc(pre + more[..n], more[n]);
      WorkNeverGrows(Exec(pre + more[..n]), more[n]);
    }
  }

  predicate NoneActivated(ops: seq<Op>)
  {
    forall i :: 0 <= i < |ops| ==> !ops[i].Activate?
  }

  /** The bytes that the commands among these take. */
  function Frames(ops: seq<Op>): (n: nat)
  {
    if ops == [] then 0
    else
      var last := ops[|ops| - 1];
      Frames(ops[..|ops| - 1]) + (if last.Command? then |last.p.payload| + 2 else 0)
  }

  lemma {:induction false} FramesOfSteps(first: seq<Op>, n: nat)
    ensures Frames(first + Steps(n)) == Frames(first)
    decreases n
  {
    if n == 0 {
      assert first + Steps(0) == first;
    } else {
      FramesOfSteps(first, n - 1);
      assert (first + Steps(n))[..|first| + n - 1] == first + Steps(n - 1);
    }
  }

  /** n packets' worth of FIFO sending. */
  function Steps(n: nat): (ops: seq<Op>)
    ensures |ops| == n && forall i :: 0 <= i < n ==> ops[i] == Step
  {
    seq(n, _ => Step)
  }

  lemma StepsSnoc(before: seq<Op>, n: nat)
    ensures before + Steps(n) + [Step] == before + Steps(n + 1)
  {
    assert Steps(n) + [Step] == Steps(n + 1);
    assert before + Steps(n) + [Step] == before + (Steps(n) + [Step]);
  }

  lemma StepsAdd(before: seq<Op>, n: nat, m: nat)
    ensures before + Steps(n) + Steps(m) == before + Steps(n + m)
  {
    assert Steps(n) + Steps(m) == Steps(n + m);
    assert before + Steps(n) + Steps(m) == before + (Steps(n) + Steps(m));
  }

  // ---------------------------------------------------------------- channel order

  lemma ActivatedSnoc(ops: seq<Op>, op: Op, m: nat)
    ensures Activated(ops + [op], m) == Activated(ops, m) + Added(op, m)
  {
    assert (ops + [op])[..|ops|] == ops;
  }

  ghost predicate Within(fifos: seq<Fifo>)
  {
    forall i :: 0 <= i < |fifos| ==> fifos[i].pos <= |fifos[i].data|
  }

  /** What one FIFO still has to send on channel m. */
  function Tail(f: Fifo, m: nat): (r: seq<byte>)
    requires f.pos <= |f.data|
  {
    if f.mux == m then f.data[f.pos..] else []
  }

  /** Data still queued for channel m, in queue order. */
  ghost function Rest(fifos: seq<Fifo>, m: nat): (r: seq<byte>)
    requires Within(fifos)
  {
    if fifos == [] then [] else Tail(fifos[0], m) + Rest(fifos[1..], m)
  }

  /** Data of every FIFO activated on channel m, in activation order. */
  ghost function Activated(ops: seq<Op>, m: nat): (r: seq<byte>)
  {
    if ops == [] then []
    else
      var op := ops[|ops| - 1];
      Activated(ops[..|ops| - 1], m) + Added(op, m)
  }

  lemma {:induction false} RestSnoc(a: seq<Fifo>, f: Fifo, m: nat)
    requires Within(a) && f.pos <= |f.data|
    ensures Within(a + [f]) && Rest(a + [f], m) == Rest(a, m) + Tail(f, m)
  {
    if a == [] {
      assert [f][1..] == [];
    } else {
      assert (a + [f])[0] == a[0] && (a + [f])[1..] == a[1..] + [f];
      RestSnoc(a[1..], f, m);
    }
  }

  lemma {:induction false} RestWithout(fifos: seq<Fifo>, k: nat, m: nat)
    requires Within(fifos) && k < |fifos| && Left(fifos[k]) == 0
    ensures Within(fifos[..k] + fifos[k + 1..])
    ensures Rest(fifos[..k] + fifos[k + 1..], m) == Rest(fifos, m)
  {
    var r := fifos[..k] + fifos[k + 1..];
    if k == 0 {
      assert r == fifos[1..];
    } else {
      RestWithout(fifos[1..], k - 1, m);
      assert r[0] == fifos[0] && r[1..] == fifos[1..][..k - 1] + fifos[1..][k..];
    }
  }

  lemma {:induction false} SettleKeepsRest(q: Queue, m: nat)
    requires Ok(q)
    ensures Rest(Settle(q).fifos, m) == Rest(q.fifos, m)
    decreases |q.fifos|
  {
    if q.fifos != [] && Avail(q.fifos[Current(q)], CHUNK) == 0 {
      RetireOk(q, Current(q));
      RestWithout(q.fifos, Current(q), m);
      SettleKeepsRest(Retire(q, Current(q)), m);
    }
  }

  /** A FIFO and the one to be sent in turns with it, as the two bit streams of an any-sequence command. */
  ghost predicate Partners(f: Fifo, g: Fifo)
  {
    f.interleave && !g.interleave && f.mux != g.mux
  }

  /** Packets that it takes to send the rest of a FIFO. */
  function PacketsLeft(f: Fifo): (n: nat)
    requires f.pos <= |f.data|
    ensures n == 0 <==> Left(f) == 0
  {
    if f.zeros then (Left(f) + ZEROS - 1) / ZEROS else (Left(f) + CHUNK - 1) / CHUNK
  }

  lemma OnePacketLess(q: Queue)
    requires Ready(q)
    ensures PacketsLeft(Emit(q).fifos[Current(q)]) == PacketsLeft(q.fifos[Current(q)]) - 1
  {
  }

  /** FIFOs in front of position n are exhausted. */
  ghost predicate ExhaustedTo(fifos: seq<Fifo>, n: nat)
    requires Within(fifos) && n <= |fifos|
  {
    forall i :: 0 <= i < n ==> Left(fifos[i]) == 0
  }

  /** FIFO i is followed by its partner, which has packets for all of its own but one. */
  ghost predicate HasPartner(fifos: seq<Fifo>, i: nat)
    requires Within(fifos) && i < |fifos|
  {
    i + 1 < |fifos| && Partners(fifos[i], fifos[i + 1]) && PacketsLeft(fifos[i]) <= PacketsLeft(fifos[i + 1]) + 1
  }

  /** Nothing is queued behind FIFO i but its partner. */
  ghost predicate AtEnd(fifos: seq<Fifo>, i: nat)
    requires i < |fifos|
  {
    i == |fifos| - 1 || (i == |fifos| - 2 && Partners(fifos[i], fifos[i + 1]))
  }

  /** The second of a pair is due: it has packets for all that the first has left, or nothing is behind it. */
  ghost predicate Due(fifos: seq<Fifo>, n: nat)
    requires Within(fifos) && n < |fifos|
  {
    && n > 0 && ExhaustedTo(fifos, n - 1) && Partners(fifos[n - 1], fifos[n])
    && (PacketsLeft(fifos[n - 1]) <= PacketsLeft(fifos[n]) || n == |fifos| - 1)
  }

  /** Interleaved FIFOs with something left, of the first n, have partners that will keep up. */
  ghost predicate OrderlyTo(q: Queue, n: nat)
    requires Ok(q) && n <= |q.fifos|
  {
    forall i :: 0 <= i < n && q.fifos[i].interleave && Left(q.fifos[i]) > 0 ==> KeepsUp(q, i)
  }

  /** The partner keeps up, whether it is due or has had its turn. */
  ghost predicate KeepsUp(q: Queue, i: nat)
    requires Ok(q) && i < |q.fifos|
  {
    HasPartner(q.fifos, i) && (q.next == i + 1 ==> PacketsLeft(q.fifos[i]) <= PacketsLeft(q.fifos[i + 1]))
  }

  /** Another FIFO may be queued without getting ahead of what is there. */
  ghost predicate Orderly(q: Queue)
    requires Ok(q)
  {
    OrderlyTo(q, |q.fifos|)
  }

  /**
   Interleaved FIFOs with something left come in pairs that keep up, or have nothing behind them, and a
   successor position has nothing in front of it but its partner. `half`: the last one awaits its partner.
   */
  ghost predicate Paired(q: Queue, half: bool)
    requires Ok(q)
  {
    && (half ==> q.fifos != [] && q.fifos[|q.fifos| - 1].interleave && OrderlyTo(q, |q.fifos| - 1))
    && (q.next < |q.fifos| ==> ExhaustedTo(q.fifos, q.next) || Due(q.fifos, q.next))
    && (forall i :: 0 <= i < |q.fifos| && q.fifos[i].interleave && Left(q.fifos[i]) > 0 ==>
          HasPartner(q.fifos, i) || AtEnd(q.fifos, i))
  }

  lemma RetirePaired(q: Queue)
    requires Ok(q) && Paired(q, false) && q.fifos != [] && Left(q.fifos[Current(q)]) == 0
    ensures Ok(Retire(q, Current(q))) && Paired(Retire(q, Current(q)), false)
  {
    var k := Current(q);
    var r := Retire(q, k);
    RetireOk(q, k);
    forall i | 0 <= i < |r.fifos| && r.fifos[i].interleave && Left(r.fifos[i]) > 0
      ensures HasPartner(r.fifos, i) || AtEnd(r.fifos, i)
    {
      if i < k {
        assert HasPartner(q.fifos, i) || AtEnd(q.fifos, i);
      } else {
        assert HasPartner(q.fifos, i + 1) || AtEnd(q.fifos, i + 1);
      }
    }
  }

  lemma {:induction false} SettlePaired(q: Queue)
    requires Ok(q) && Paired(q, false)
    ensures Paired(Settle(q), false)
    decreases |q.fifos|
  {
    if q.fifos != [] && Avail(q.fifos[Current(q)], CHUNK) == 0 {
      RetirePaired(q);
      SettlePaired(Retire(q, Current(q)));
    }
  }

  lemma EmitPaired(q: Queue)
    requires Ready(q) && Paired(q, false)
    ensures Paired(Emit(q), false)
  {
    var r, k := Emit(q), Current(q);
    OnePacketLess(q);
    forall i | 0 <= i < |r.fifos| && r.fifos[i].interleave && Left(r.fifos[i]) > 0
      ensures HasPartner(r.fifos, i) || AtEnd(r.fifos, i)
    {
      assert HasPartner(q.fifos, i) || AtEnd(q.fifos, i);
      assert i + 1 == k ==> Due(q.fifos, k);
    }
    if q.fifos[k].interleave && k + 1 < |q.fifos| {
      assert HasPartner(q.fifos, k) || AtEnd(q.fifos, k);
      assert ExhaustedTo(q.fifos, k);
      assert Due(r.fifos, k + 1);
    }
  }

  /** The FIFO in turn is the first of its channel that has something left. */
  ghost predicate InTurn(q: Queue)
    requires Ok(q) && q.fifos != []
  {
    forall i :: 0 <= i < Current(q) ==> Left(q.fifos[i]) == 0 || q.fifos[i].mux != q.fifos[Current(q)].mux
  }

  /** One packet takes its bytes from the front of what its channel still has to send. */
  lemma EmitInOrder(q: Queue, m: nat)
    requires Ready(q) && InTurn(q)
    ensures Rest(q.fifos, m) ==
            (if NextPacket(q).mux == FIFO_MIN + m then NextPacket(q).payload else []) + Rest(Emit(q).fifos, m)
  {
    var k := Current(q);
    var a, b := q.fifos, Emit(q).fifos;
    var sent := if NextPacket(q).mux == FIFO_MIN + m then NextPacket(q).payload else [];
    TailOfEmitted(q, m);
    RestAround(a, k, m);
    RestAround(b, k, m);
    assert a[..k] == b[..k] && a[k + 1..] == b[k + 1..];
    if sent != [] {
      RestOfOthers(a[..k], m);
    }
    BehindOther(Rest(a[..k], m), Tail(a[k], m), Tail(b[k], m), Rest(a[k + 1..], m), sent);
  }

  /** What a channel has to send, taken apart at one FIFO. */
  lemma {:induction false} RestAround(fifos: seq<Fifo>, k: nat, m: nat)
    requires Within(fifos) && k < |fifos|
    ensures Within(fifos[..k]) && Within(fifos[k + 1..])
    ensures Rest(fifos, m) == Rest(fifos[..k], m) + (Tail(fifos[k], m) + Rest(fifos[k + 1..], m))
  {
    if k > 0 {
      RestAround(fifos[1..], k - 1, m);
      assert fifos[1..][..k - 1] == fifos[..k][1..] && fifos[1..][k..] == fifos[k + 1..];
      Regroup(Tail(fifos[0], m), Rest(fifos[..k][1..], m), Tail(fifos[k], m) + Rest(fifos[k + 1..], m));
    }
  }

  lemma {:induction false} RestOfOthers(fifos: seq<Fifo>, m: nat)
    requires Within(fifos) && forall i :: 0 <= i < |fifos| ==> Left(fifos[i]) == 0 || fifos[i].mux != m
    ensures Rest(fifos, m) == []
  {
    if fifos != [] {
      RestOfOthers(fifos[1..], m);
    }
  }

  /** What a packet takes from its FIFO is at the front of what that has left. */
  lemma TailOfEmitted(q: Queue, m: nat)
    requires Ready(q)
    ensures var k := Current(q);
      Tail(q.fifos[k], m) == (if NextPacket(q).mux == FIFO_MIN + m then NextPacket(q).payload else []) + Tail(Emit(q).fifos[k], m)
  {
    var k := Current(q);
    var a, b := q.fifos, Emit(q).fifos;
    assert a[k].data[a[k].pos..] == NextPacket(q).payload + b[k].data[b[k].pos..];
  }

  /** Of two FIFOs of different channels, one has nothing for this channel. */
  lemma BehindOther(first: seq<byte>, was: seq<byte>, now: seq<byte>, rest: seq<byte>, sent: seq<byte>)
    requires was == sent + now && (first == [] || sent == [])
    ensures first + (was + rest) == sent + (first + (now + rest))
  {
    if first == [] {
      assert sent + now + rest == sent + (now + rest);
    }
  }

  /**
   A history in which every interleaved FIFO is directly followed by its partner, no other FIFO is queued
   unless the pairs before it are orderly, and commands stay off the FIFO channels.
   */
  ghost predicate WellPaired(ops: seq<Op>)
    requires OpsOk(ops)
  {
    ops != [] ==>
      var pre := ops[..|ops| - 1];
      WellPaired(pre) && MayFollow(pre, ops[|ops| - 1])
  }

  ghost predicate MayFollow(pre: seq<Op>, op: Op)
    requires OpsOk(pre)
  {
    if EndsHalf(pre) then op.Activate? && Partners(pre[|pre| - 1].f, op.f)
    else if op.Activate? then Orderly(Exec(pre).q)
    else op.Command? ==> op.p.mux < FIFO_MIN
  }

  ghost predicate EndsHalf(ops: seq<Op>)
  {
    ops != [] && ops[|ops| - 1].Activate? && ops[|ops| - 1].f.interleave
  }

  ghost predicate LastIs(q: Queue, f: Fifo)
  {
    q.fifos != [] && q.fifos[|q.fifos| - 1] == f
  }

  lemma AddPaired(q: Queue, f: Fifo, half: bool)
    requires Ok(q) && Paired(q, half) && FifoOk(f) && f.pos == 0
    requires if half then Partners(q.fifos[|q.fifos| - 1], f) else Orderly(q)
    ensures Ok(Add(q, f)) && Paired(Add(q, f), f.interleave)
  {
    var r := Add(q, f);
    var n := if half then |q.fifos| - 1 else |q.fifos|;
    forall i | 0 <= i < n && r.fifos[i].interleave && Left(r.fifos[i]) > 0
      ensures KeepsUp(r, i)
    {
      assert KeepsUp(q, i);
    }
    if q.next < |q.fifos| && Due(q.fifos, q.next) && !ExhaustedTo(q.fifos, q.next) {
      assert q.next - 1 < n ==> KeepsUp(q, q.next - 1);
    }
  }

  /** The pairing invariant over every well-paired history. */
  lemma {:induction false} ExecPaired(ops: seq<Op>)
    requires OpsOk(ops) && WellPaired(ops)
    ensures Paired(Exec(ops).q, EndsHalf(ops))
    ensures EndsHalf(ops) ==> LastIs(Exec(ops).q, ops[|ops| - 1].f)
  {
    if ops != [] {
      var pre, op := ops[..|ops| - 1], ops[|ops| - 1];
      ExecPaired(pre);
      match op
      case Activate(f) => AddPaired(Exec(pre).q, f, EndsHalf(pre));
      case Command(_) =>
      case Step =>
        SettlePaired(Exec(pre).q);
        if Settle(Exec(pre).q).fifos != [] {
          EmitPaired(Settle(Exec(pre).q));
        }
      case Choose => SettlePaired(Exec(pre).q);
    }
  }

  /** Bytes of channel m, sent and still queued, in that order. */
  ghost function Stream(s: State, m: nat): (r: seq<byte>)
    requires StateOk(s)
  {
    Payloads(s.sent, FIFO_MIN + m) + Rest(s.q.fifos, m)
  }

  /** A packet moves its bytes from the front of the queue to the end of what was sent. */
  lemma EmitKeepsStream(q: Queue, sent: seq<Packet>, m: nat)
    requires Ready(q) && Paired(q, false) && AllWellFormed(sent)
    ensures Payloads(sent + [NextPacket(q)], FIFO_MIN + m) + Rest(Emit(q).fifos, m)
         == Payloads(sent, FIFO_MIN + m) + Rest(q.fifos, m)
  {
    var p := NextPacket(q);
    EmitInOrder(q, m);
    PayloadsSnoc(sent, p, FIFO_MIN + m);
    Regroup(Payloads(sent, FIFO_MIN + m), if p.mux == FIFO_MIN + m then p.payload else [], Rest(Emit(q).fifos, m));
  }

  lemma StepKeepsStream(s: State, m: nat)
    requires StateOk(s) && Paired(s.q, false)
    ensures Stream(Apply(s, Step), m) == Stream(s, m)
  {
    var q := Settle(s.q);
    SettleKeepsRest(s.q, m);
    if q.fifos != [] {
      SettlePaired(s.q);
      EmitKeepsStream(q, s.sent, m);
      assert Apply(s, Step) == State(Emit(q), s.sent + [NextPacket(q)]);
    }
  }

  lemma ActivateExtendsStream(s: State, f: Fifo, m: nat)
    requires StateOk(s) && FifoOk(f) && f.pos == 0
    ensures Stream(Apply(s, Activate(f)), m) == Stream(s, m) + (if f.mux == m then f.data else [])
  {
    RestSnoc(s.q.fifos, f, m);
    assert f.data[0..] == f.data;
  }

  /**
   Per-channel order over whole runs: what was sent on a channel, followed by what its
   queued FIFOs still hold, is the data of its FIFOs in activation order.
   */
  lemma {:induction false} ChannelOrder(ops: seq<Op>, m: nat)
    requires OpsOk(ops) && WellPaired(ops)
    ensures Stream(Exec(ops), m) == Activated(ops, m)
  {
    if ops != [] {
      var pre, op := ops[..|ops| - 1], ops[|ops| - 1];
      ChannelOrder(pre, m);
      OpKeepsOrder(pre, op, m);
      assert Exec(ops) == Apply(Exec(pre), op);
    }
  }

  /** What an operation adds to the bytes of a channel, sent and queued. */
  function Added(op: Op, m: nat): (r: seq<byte>)
  {
    if op.Activate? && op.f.mux == m then op.f.data else []
  }

  lemma OpKeepsOrder(pre: seq<Op>, op: Op, m: nat)
    requires OpsOk(pre) && OpOk(op) && WellPaired(pre) && MayFollow(pre, op)
    ensures Stream(Apply(Exec(pre), op), m) == Stream(Exec(pre), m) + Added(op, m)
  {
    ExecPaired(pre);
    StateKeepsOrder(Exec(pre), op, m, EndsHalf(pre));
  }

  lemma StateKeepsOrder(s: State, op: Op, m: nat, half: bool)
    requires StateOk(s) && OpOk(op) && Paired(s.q, half)
    requires (half ==> op.Activate?) && (op.Command? ==> op.p.mux < FIFO_MIN)
    ensures Stream(Apply(s, op), m) == Stream(s, m) + Added(op, m)
  {
    match op {
      case Activate(f) => ActivateExtendsStream(s, f, m);
      case Command(p) => CommandKeepsStream(s, p, m);
      case Step => StepKeepsStream(s, m);
      case Choose => ChooseKeepsStream(s, m);
    }
    if !op.Activate? {
      assert Stream(s, m) + [] == Stream(s, m);
    }
  }

  lemma CommandKeepsStream(s: State, p: Packet, m: nat)
    requires StateOk(s) && WellFormed(p) && p.mux < FIFO_MIN
    ensures Stream(Apply(s, Command(p)), m) == Stream(s, m)
  {
    PayloadsSnoc(s.sent, p, FIFO_MIN + m);
    assert Payloads(s.sent, FIFO_MIN + m) + [] == Payloads(s.sent, FIFO_MIN + m);
  }

  lemma ChooseKeepsStream(s: State, m: nat)
    requires StateOk(s)
    ensures Stream(Apply(s, Choose), m) == Stream(s, m)
  {
    SettleKeepsRest(s.q, m);
  }

  // ------------------------------------------------------------- pairs of bounded lengths

  lemma RetireOrderly(q: Queue)
    requires Ok(q) && Orderly(q) && q.fifos != [] && Left(q.fifos[Current(q)]) == 0
    ensures Ok(Retire(q, Current(q))) && Orderly(Retire(q, Current(q)))
  {
    var k := Current(q);
    var r := Retire(q, k);
    RetireOk(q, k);
    forall i | 0 <= i < |r.fifos| && r.fifos[i].interleave && Left(r.fifos[i]) > 0
      ensures KeepsUp(r, i)
    {
      assert KeepsUp(q, if i < k then i else i + 1);
    }
  }

  lemma {:induction false} SettleOrderly(q: Queue)
    requires Ok(q) && Orderly(q)
    ensures Orderly(Settle(q))
    decreases |q.fifos|
  {
    if q.fifos != [] && Avail(q.fifos[Current(q)], CHUNK) == 0 {
      RetireOrderly(q);
      SettleOrderly(Retire(q, Current(q)));
    }
  }

  lemma EmitOrderly(q: Queue)
    requires Ready(q) && Orderly(q)
    ensures Orderly(Emit(q))
  {
    var r, k := Emit(q), Current(q);
    OnePacketLess(q);
    forall i | 0 <= i < |r.fifos| && r.fifos[i].interleave && Left(r.fifos[i]) > 0
      ensures KeepsUp(r, i)
    {
      assert KeepsUp(q, i);
    }
  }

  /** Every interleaved FIFO is followed by a partner that takes at most one packet less. */
  ghost predicate Balanced(ops: seq<Op>)
    requires OpsOk(ops)
  {
    ops != [] ==>
      var pre, op := ops[..|ops| - 1], ops[|ops| - 1];
      && Balanced(pre) && (op.Command? ==> op.p.mux < FIFO_MIN)
      && (EndsHalf(pre) ==> op.Activate? && MakesPair(pre[|pre| - 1].f, op.f))
  }

  /** A new FIFO and the next, which takes at most one packet less. */
  ghost predicate MakesPair(f: Fifo, g: Fifo)
  {
    f.pos == g.pos == 0 && Partners(f, g) && PacketsLeft(f) <= PacketsLeft(g) + 1
  }

  lemma AddOrderly(q: Queue, f: Fifo, half: bool)
    requires Ok(q) && Paired(q, half) && FifoOk(f) && f.pos == 0 && (!half ==> Orderly(q))
    requires half ==> MakesPair(q.fifos[|q.fifos| - 1], f)
    ensures OrderlyTo(Add(q, f), |q.fifos|)
  {
    var r, n := Add(q, f), |q.fifos|;
    forall i | 0 <= i < n && r.fifos[i].interleave && Left(r.fifos[i]) > 0
      ensures KeepsUp(r, i)
    {
      assert (half && i == n - 1) || KeepsUp(q, i);
    }
  }

  /** Then the order of the channels is kept, whenever FIFOs are queued. */
  lemma {:induction false} BalancedIsWellPaired(ops: seq<Op>)
    requires OpsOk(ops) && Balanced(ops)
    ensures WellPaired(ops)
    ensures !EndsHalf(ops) ==> Orderly(Exec(ops).q)
  {
    if ops != [] {
      var pre, op := ops[..|ops| - 1], ops[|ops| - 1];
      BalancedIsWellPaired(pre);
      ExecPaired(pre);
      var q := Exec(pre).q;
      match op
      case Activate(f) =>
        AddOrderly(q, f, EndsHalf(pre));
        if !f.interleave {
          PlainEnd(Add(q, f));
        }
      case Command(_) =>
      case Step =>
        SettleOrderly(q);
        if Settle(q).fifos != [] {
          EmitOrderly(Settle(q));
        }
      case Choose => SettleOrderly(q);
    }
  }

  /** A plain FIFO at the end needs no partner. */
  lemma PlainEnd(q: Queue)
    requires Ok(q) && q.fifos != [] && OrderlyTo(q, |q.fifos| - 1) && !q.fifos[|q.fifos| - 1].interleave
    ensures Orderly(q)
  {
  }

  // ------------------------------------------------------------- exactly when turns are kept

  /** The next packet comes from a FIFO behind another of its channel that has something left. */
  ghost predicate Overtakes(q: Queue)
    requires Ok(q)
  {
    Settle(q).fifos != [] && !InTurn(Settle(q))
  }

  /** No FIFO overtakes in a well-paired history. */
  lemma NeverOvertakes(ops: seq<Op>)
    requires OpsOk(ops) && WellPaired(ops) && !EndsHalf(ops)
    ensures !Overtakes(Exec(ops).q)
  {
    ExecPaired(ops);
    SettlePaired(Exec(ops).q);
  }

  /** One packet more. */
  ghost function Stepped(q: Queue): (r: Queue)
    requires Ok(q)
    ensures Ok(r)
  {
    var s := Settle(q);
    if s.fifos == [] then s else Emit(s)
  }

  ghost function SteppedBy(q: Queue, n: nat): (r: Queue)
    requires Ok(q)
    ensures Ok(r)
    decreases n
  {
    if n == 0 then q else SteppedBy(Stepped(q), n - 1)
  }

  lemma {:induction false} SteppedBySnoc(q: Queue, n: nat)
    requires Ok(q)
    ensures SteppedBy(q, n + 1) == Stepped(SteppedBy(q, n))
    decreases n
  {
    if n > 0 {
      SteppedBySnoc(Stepped(q), n - 1);
    }
  }

  lemma {:induction false} ExecSteps(ops: seq<Op>, n: nat)
    requires OpsOk(ops)
    ensures OpsOk(ops + Steps(n)) && Exec(ops + Steps(n)).q == SteppedBy(Exec(ops).q, n)
  {
    if n == 0 {
      assert ops + Steps(0) == ops;
    } else {
      ExecSteps(ops, n - 1);
      assert ops + Steps(n) == ops + Steps(n - 1) + [Step];
      ExecSnoc(ops + Steps(n - 1), Step);
      SteppedBySnoc(Exec(ops).q, n - 1);
    }
  }

  lemma {:induction false} StepsWellPaired(ops: seq<Op>, n: nat)
    requires OpsOk(ops) && WellPaired(ops) && !EndsHalf(ops)
    ensures OpsOk(ops + Steps(n)) && WellPaired(ops + Steps(n)) && !EndsHalf(ops + Steps(n))
  {
    if n == 0 {
      assert ops + Steps(0) == ops;
    } else {
      StepsWellPaired(ops, n - 1);
      StepsSnoc(ops, n - 1);
      assert (ops + Steps(n))[..|ops| + n - 1] == ops + Steps(n - 1);
    }
  }

  /** A pair, and a third FIFO with something to send on the channel of the first. */
  ghost predicate Contended(f: Fifo, g: Fifo, h: Fifo)
  {
    && FifoOk(f) && FifoOk(g) && FifoOk(h)
    && Partners(f, g) && !h.interleave && h.mux == f.mux && Left(h) > 0
  }

  /** With too few packets in the second, the first loses its turn once the second runs out. */
  lemma {:induction false} LosesTurn(f: Fifo, g: Fifo, h: Fifo) returns (n: nat)
    requires Contended(f, g, h) && PacketsLeft(f) > PacketsLeft(g) + 1
    ensures Overtakes(SteppedBy(Queue([f, g, h], 3), n))
    decreases Left(g)
  {
    var q := Queue([f, g, h], 3);
    var f' := f.(pos := f.pos + Avail(f, CHUNK));
    OnePacketLess(q);
    assert Settle(q) == q && Emit(q) == Queue([f', g, h], 1);
    if Left(g) == 0 {
      SkipsExhausted(f', g, h);
      assert SteppedBy(q, 1) == SteppedBy(Stepped(q), 0);
      return 1;
    }
    var q' := Queue([f', g, h], 1);
    var g' := g.(pos := g.pos + Avail(g, CHUNK));
    OnePacketLess(q');
    assert Settle(q') == q' && Emit(q') == Queue([f', g', h], 3);
    var m := LosesTurn(f', g', h);
    assert SteppedBy(q, m + 2) == SteppedBy(Stepped(q), m + 1) == SteppedBy(Stepped(Stepped(q)), m);
    return m + 2;
  }

  /** The successor position of an exhausted FIFO moves on to the one behind it. */
  lemma SkipsExhausted(f: Fifo, g: Fifo, h: Fifo)
    requires FifoOk(f) && FifoOk(g) && FifoOk(h) && h.mux == f.mux && Left(f) > 0 && Left(g) == 0 && Left(h) > 0
    ensures Overtakes(Queue([f, g, h], 1))
  {
    var q := Queue([f, g, h], 1);
    var r := Queue([f, h], 1);
    assert Retire(q, 1) == r;
    assert Settle(r) == r == Settle(q);
    assert Left(r.fifos[0]) > 0 && r.fifos[0].mux == r.fifos[Current(r)].mux;
  }

  ghost function Triple(f: Fifo, g: Fifo, h: Fifo): (ops: seq<Op>)
  {
    [Activate(f), Activate(g), Activate(h)]
  }

  lemma TripleQueue(f: Fifo, g: Fifo, h: Fifo)
    requires OpsOk(Triple(f, g, h))
    ensures Exec(Triple(f, g, h)) == State(Queue([f, g, h], 3), [])
  {
    var ops := Triple(f, g, h);
    assert ops == [ops[0]] + [ops[1]] + [ops[2]];
    assert [ops[0]] == [] + [ops[0]];
    ExecSnoc([], ops[0]);
    ExecSnoc([ops[0]], ops[1]);
    ExecSnoc([ops[0]] + [ops[1]], ops[2]);
  }

  lemma TripleBalanced(f: Fifo, g: Fifo, h: Fifo)
    requires Contended(f, g, h) && OpsOk(Triple(f, g, h)) && PacketsLeft(f) <= PacketsLeft(g) + 1
    ensures WellPaired(Triple(f, g, h)) && !EndsHalf(Triple(f, g, h))
  {
    var ops := Triple(f, g, h);
    assert OpOk(ops[0]) && OpOk(ops[1]) && OpOk(ops[2]);
    BalancedSnoc([], ops[0]);
    BalancedSnoc([] + [ops[0]], ops[1]);
    BalancedSnoc([] + [ops[0]] + [ops[1]], ops[2]);
    assert ops == [] + [ops[0]] + [ops[1]] + [ops[2]];
    BalancedIsWellPaired(ops);
  }

  lemma BalancedSnoc(pre: seq<Op>, op: Op)
    requires OpsOk(pre) && OpOk(op) && Balanced(pre) && !op.Command?
    requires EndsHalf(pre) ==> op.Activate? && MakesPair(pre[|pre| - 1].f, op.f)
    ensures OpsOk(pre + [op]) && Balanced(pre + [op])
  {
    assert (pre + [op])[..|pre|] == pre;
  }

  ghost predicate TurnsKept(q: Queue)
    requires Ok(q)
  {
    forall n: nat :: !Overtakes(SteppedBy(q, n))
  }

  /**
   Exactly when a pair keeps its turns before a third FIFO on the channel of its first: the first takes at
   most one packet more than the second. Otherwise bytes of the third overtake those left in the first.
   */
  lemma TurnsKeptExactlyIf(f: Fifo, g: Fifo, h: Fifo)
    requires Contended(f, g, h) && OpsOk(Triple(f, g, h))
    ensures TurnsKept(Exec(Triple(f, g, h)).q) <==> PacketsLeft(f) <= PacketsLeft(g) + 1
  {
    TripleQueue(f, g, h);
    if PacketsLeft(f) <= PacketsLeft(g) + 1 {
      TripleBalanced(f, g, h);
      forall n: nat ensures !Overtakes(SteppedBy(Queue([f, g, h], 3), n)) {
        ExecSteps(Triple(f, g, h), n);
        StepsWellPaired(Triple(f, g, h), n);
        NeverOvertakes(Triple(f, g, h) + Steps(n));
      }
    } else {
      var n := LosesTurn(f, g, h);
      assert !TurnsKept(Queue([f, g, h], 3));
    }
  }

  /**
   The pairs that sequences queue have equal lengths. They keep their turns unless the first stands for absent
   data of more than 512 bytes, which goes out in small packets, and the second does not; a command that
   writes so much is not deferred, so that nothing is queued behind it before it has gone out.
   */
  lemma EqualLengthsExactlyIf(f: Fifo, g: Fifo)
    requires f.pos == 0 && g.pos == 0 && |f.data| == |g.data|
    ensures PacketsLeft(f) <= PacketsLeft(g) + 1 <==> !f.zeros || g.zeros || |f.data| <= 2 * ZEROS
    ensures |f.data| + |g.data| < DEFER_MAX ==> PacketsLeft(f) <= PacketsLeft(g) + 1
  {
  }

  lemma ExecStep(ops: seq<Op>, q: Queue, r: Queue, p: Packet)
    requires OpsOk(ops) && Settle(Exec(ops).q) == q && q.fifos != [] && Emit(q) == r && NextPacket(q) == p
    ensures OpsOk(ops + [Step]) && Exec(ops + [Step]) == State(r, Exec(ops).sent + [p])
  {
    ExecSnoc(ops, Step);
  }

  /** A pair of absent data and real data of three small packets' length, and one byte behind it. */
  ghost predicate AbsentAgainstReal(f: Fifo, g: Fifo, h: Fifo)
  {
    && Contended(f, g, h) && f.pos == g.pos == h.pos == 0 && f.mux == 0
    && f.zeros && !g.zeros && !h.zeros && |f.data| == |g.data| == 3 * ZEROS && |h.data| == 1 && h.data[0] != 0
  }

  ghost function FourSteps(ops: seq<Op>): (r: seq<Op>)
  {
    ops + [Step] + [Step] + [Step] + [Step]
  }

  lemma AbsentSent(f: Fifo, g: Fifo, h: Fifo)
    requires AbsentAgainstReal(f, g, h)
    ensures var ops := FourSteps(Triple(f, g, h));
      OpsOk(ops) && Exec(ops).sent ==
        [] + [Packet(FIFO_MIN, f.data[..ZEROS])] + [Packet(FIFO_MIN + g.mux, g.data)]
        + [Packet(FIFO_MIN, f.data[ZEROS..2 * ZEROS])] + [Packet(FIFO_MIN, h.data)]
  {
    var ops := Triple(f, g, h);
    var f1, f2, g1 := f.(pos := ZEROS), f.(pos := 2 * ZEROS), g.(pos := 3 * ZEROS);
    var q0, q1, q2, q3 := Queue([f, g, h], 3), Queue([f1, g, h], 1), Queue([f1, g1, h], 3), Queue([f2, g1, h], 1);
    TripleQueue(f, g, h);
    FirstEmitted(f, g, h);
    ExecStep(ops, q0, q1, Packet(FIFO_MIN, f.data[..ZEROS]));
    SecondEmitted(f1, g, h);
    ExecStep(ops + [Step], q1, q2, Packet(FIFO_MIN + g.mux, g.data));
    FirstEmitted(f1, g1, h);
    ExecStep(ops + [Step] + [Step], q2, q3, Packet(FIFO_MIN, f.data[ZEROS..2 * ZEROS]));
    ThirdEmitted(f2, g1, h);
    ExecStep(ops + [Step] + [Step] + [Step], Queue([f2, h], 1), Queue([f2, h.(pos := 1)], 2), Packet(FIFO_MIN, h.data));
  }

  lemma FirstEmitted(f: Fifo, g: Fifo, h: Fifo)
    requires FifoOk(f) && FifoOk(g) && FifoOk(h) && f.interleave && f.zeros && Left(f) >= ZEROS
    ensures var q := Queue([f, g, h], 3);
      && Settle(q) == q && Emit(q) == Queue([f.(pos := f.pos + ZEROS), g, h], 1)
      && NextPacket(q) == Packet(FIFO_MIN + f.mux, f.data[f.pos..f.pos + ZEROS])
  {
  }

  lemma SecondEmitted(f: Fifo, g: Fifo, h: Fifo)
    requires FifoOk(f) && FifoOk(g) && FifoOk(h) && !g.interleave && !g.zeros && g.pos == 0 && 0 < |g.data| <= CHUNK
    ensures var q := Queue([f, g, h], 1);
      && Settle(q) == q && Emit(q) == Queue([f, g.(pos := |g.data|), h], 3)
      && NextPacket(q) == Packet(FIFO_MIN + g.mux, g.data)
  {
    assert g.data[0..|g.data|] == g.data;
  }

  lemma ThirdEmitted(f: Fifo, g: Fifo, h: Fifo)
    requires FifoOk(f) && FifoOk(g) && FifoOk(h) && Left(g) == 0 && !h.interleave && !h.zeros && h.pos == 0 && |h.data| == 1
    ensures var q := Queue([f, h], 1);
      && Settle(Queue([f, g, h], 1)) == q && Emit(q) == Queue([f, h.(pos := 1)], 2)
      && NextPacket(q) == Packet(FIFO_MIN + h.mux, h.data)
  {
    assert h.data[0..1] == h.data;
    assert Retire(Queue([f, g, h], 1), 1) == Queue([f, h], 1);
    assert Settle(Queue([f, h], 1)) == Queue([f, h], 1);
  }

  /** What reaches the channel then: a byte of the third FIFO where a zero is due. */
  lemma AbsentDataIsOvertaken(f: Fifo, g: Fifo, h: Fifo)
    requires AbsentAgainstReal(f, g, h)
    ensures var ops := Triple(f, g, h);
      OpsOk(FourSteps(ops)) && Payloads(Exec(FourSteps(ops)).sent, FIFO_MIN) == f.data[..2 * ZEROS] + h.data
      && !(Payloads(Exec(FourSteps(ops)).sent, FIFO_MIN) <= Activated(ops, 0))
  {
    AbsentSent(f, g, h);
    FourPayloads(Packet(FIFO_MIN, f.data[..ZEROS]), Packet(FIFO_MIN + g.mux, g.data),
      Packet(FIFO_MIN, f.data[ZEROS..2 * ZEROS]), Packet(FIFO_MIN, h.data));
    TripleActivated(f, g, h);
    assert f.data[..ZEROS] + f.data[ZEROS..2 * ZEROS] == f.data[..2 * ZEROS];
    assert (f.data[..2 * ZEROS] + h.data)[2 * ZEROS] == h.data[0] && (f.data + h.data)[2 * ZEROS] == f.data[2 * ZEROS];
  }

  lemma FourPayloads(p0: Packet, p1: Packet, p2: Packet, p3: Packet)
    requires p0.mux == p2.mux == p3.mux != p1.mux
    ensures Payloads([] + [p0] + [p1] + [p2] + [p3], p0.mux) == p0.payload + p2.payload + p3.payload
  {
    PayloadsSnoc([], p0, p0.mux);
    PayloadsSnoc([] + [p0], p1, p0.mux);
    PayloadsSnoc([] + [p0] + [p1], p2, p0.mux);
    PayloadsSnoc([] + [p0] + [p1] + [p2], p3, p0.mux);
  }

  lemma TripleActivated(f: Fifo, g: Fifo, h: Fifo)
    requires f.mux == h.mux != g.mux
    ensures Activated(Triple(f, g, h), f.mux) == f.data + h.data
  {
    var ops := Triple(f, g, h);
    assert ops == [] + [ops[0]] + [ops[1]] + [ops[2]];
    ActivatedSnoc([], ops[0], f.mux);
    ActivatedSnoc([] + [ops[0]], ops[1], f.mux);
    ActivatedSnoc([] + [ops[0]] + [ops[1]], ops[2], f.mux);
  }
}
