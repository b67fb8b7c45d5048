/**
 Deferred commands of an opened device, as a machine of values. Commands are packed into a packet in the
 hope that they will succeed; what to do with their replies is noted with the packet, of which at most
 four are under way.
 */
module PipeSteps {
  import opened Common

  const DEFERRED_MAX := 64
  const OUTPUT_MAX := 32
  const TX_BUFFER := 4096
  const CONTINUE_LENGTH := 4
  /** The longest command: a data register scan with all its lengths. Data goes through FIFOs instead. */
  const COMMAND_MAX := 36
  const BUFFERS := 4

  datatype Err = NoError | NetDown | ServerError | Other(code: nat)

  datatype PackStyle = PackNever | PackAuto | PackManual

  /** A note to handle one reply: whether there is a handler, and whether it is that of an assumed lock. */
  datatype Deferred = Deferred(id: nat, handler: bool, lock: bool)

  /** The note of a CONTINUE, without a handler. */
  const CONTINUE := Deferred(0, false, false)

  /** The reply to one command, and whether a handler can make sense of what comes with it. */
  datatype Response = Response(status: Err, parsed: bool)

  /** A handler run: for which command, and with what error. */
  datatype Ran = Ran(note: Deferred, err: Err)

  /**
   A packet as sent: its commands, how many of them are noted as deferred, and whether the last is waited for.
   The server answers it with one reply for each command, in order.
   */
  datatype Sent = Sent(cmds: seq<Deferred>, deferN: nat, sync: bool)

  // ------------------------------------------------------------- one reply packet

  /** The error handler i is given: its own reply's, unless an earlier one failed. */
  function Seen(notes: seq<Deferred>, reply: seq<Response>, i: nat): (e: Err)
    requires i < |notes|
    decreases i, 1
  {
    var before := After(notes, reply, i);
    if before != NoError then before
    else if i < |reply| then reply[i].status
    else ServerError
  }

  /** The error in force once n handlers have run. */
  function After(notes: seq<Deferred>, reply: seq<Response>, n: nat): (e: Err)
    requires n <= |notes|
    decreases n, 0
  {
    if n == 0 then NoError
    else
      var e := Seen(notes, reply, n - 1);
      if e == NoError && notes[n - 1].handler && !reply[n - 1].parsed then ServerError else e
  }

  /** The outcome of a packet, with the reply of a final command that is waited for. */
  function PacketError(notes: seq<Deferred>, reply: seq<Response>, sync: bool): (e: Err)
  {
    var e := After(notes, reply, |notes|);
    if e != NoError || !sync then e
    else if |notes| < |reply| then reply[|notes|].status
    else ServerError
  }

  /** Every handler of the packet, run in order. */
  function Runs(notes: seq<Deferred>, reply: seq<Response>): (r: seq<Ran>)
    ensures |r| == |notes| && forall i :: 0 <= i < |notes| ==> r[i] == Ran(notes[i], Seen(notes, reply, i))
  {
    seq(|notes|, i requires 0 <= i < |notes| => Ran(notes[i], Seen(notes, reply, i)))
  }

  /** The reply to the command came, reports success, and its handler can make sense of it. */
  predicate Succeeds(notes: seq<Deferred>, reply: seq<Response>, i: nat)
    requires i < |notes|
  {
    i < |reply| && reply[i].status == NoError && (notes[i].handler ==> reply[i].parsed)
  }

  /** What went wrong with the command. */
  function FailureOf(reply: seq<Response>, i: nat): (e: Err)
  {
    if i < |reply| && reply[i].status != NoError then reply[i].status else ServerError
  }

  /** Up to the first command of a packet that fails each handler sees success; behind it all see that failure. */
  lemma {:induction false} SeenIsFirstFailure(notes: seq<Deferred>, reply: seq<Response>, k: nat, n: nat)
    requires k <= n <= |notes| && forall i :: 0 <= i < k ==> Succeeds(notes, reply, i)
    requires k < n ==> !Succeeds(notes, reply, k)
    ensures After(notes, reply, n) == if k < n then FailureOf(reply, k) else NoError
    ensures forall i :: 0 <= i < n && i != k ==> Seen(notes, reply, i) == if i < k then NoError else FailureOf(reply, k)
    decreases n
  {
    if n > 0 {
      SeenIsFirstFailure(notes, reply, if k < n then k else n - 1, n - 1);
      assert Succeeds(notes, reply, n - 1) || k < n;
    }
  }

  /** Some assumed lock of the packet was refused. */
  predicate LockRefused(notes: seq<Deferred>, reply: seq<Response>, n: nat)
    requires n <= |notes|
  {
    exists i :: 0 <= i < n && notes[i].lock && Seen(notes, reply, i) != NoError
  }

  /** From the first failing reply on, every handler of the packet is told of that failure. */
  lemma {:induction false} FailureSticks(notes: seq<Deferred>, reply: seq<Response>, i: nat, j: nat)
    requires i < j <= |notes| && After(notes, reply, i) != NoError
    ensures After(notes, reply, j) == After(notes, reply, i)
    ensures Seen(notes, reply, j - 1) == After(notes, reply, i)
    decreases j
  {
    if i < j - 1 {
      FailureSticks(notes, reply, i, j - 1);
    }
  }

  predicate Fatal(e: Err)
  {
    e == NetDown || e == ServerError
  }

  // ------------------------------------------------------------- the machine

  /**
   The link, the packet being filled and those under way, and what has become of all that went before: the
   replies that came, the handlers that ran, the notes taken and the packets sent.
   */
  datatype Pipe = Pipe(
    connected: bool,
    locked: bool,
    lockFail: bool,
    filling: bool,
    fillNotes: seq<Deferred>,
    outputs: nat,
    txlen: nat,
    packed: seq<Deferred>,
    sends: seq<bool>,
    replies: seq<seq<Response>>,
    notes: seq<seq<Deferred>>,
    came: seq<seq<Response>>,
    ran: seq<Ran>,
    issued: seq<Deferred>,
    sent: seq<Sent>)

  /** A device just locked: which sends will work, and what replies will come. */
  function Start(sends: seq<bool>, replies: seq<seq<Response>>): (p: Pipe)
  {
    Pipe(true, true, false, false, [], 0, 0, [], sends, replies, [], [], [], [], [])
  }

  /** An action buffer is free. */
  predicate FreeLeft(p: Pipe)
  {
    |p.notes| + (if p.filling then 1 else 0) < BUFFERS
  }

  /** The oldest packet has its reply, and its handlers run. */
  function Replied(p: Pipe): (q: Pipe)
    requires p.notes != [] && p.replies != []
  {
    var list, reply := p.notes[0], p.replies[0];
    p.(replies := p.replies[1..], came := p.came + [reply], ran := p.ran + Runs(list, reply),
       lockFail := p.lockFail || LockRefused(list, reply, |list|))
  }

  /** Its buffer is free again. */
  function Recycled(p: Pipe): (q: Pipe)
    requires p.notes != []
  {
    p.(notes := p.notes[1..])
  }

  function Answer(p: Pipe): (q: Pipe)
    requires p.notes != [] && p.replies != []
  {
    Recycled(Replied(p))
  }

  /** The wait for the reply to the oldest packet; `sync` asks for the reply to a last command as well. */
  function Receive(p: Pipe, sync: bool): (r: (Pipe, Err))
    requires p.notes != []
  {
    if p.replies == [] then (p, NetDown) else (Answer(p), PacketError(p.notes[0], p.replies[0], sync))
  }

  function Fill(p: Pipe): (q: Pipe)
  {
    p.(filling := true, fillNotes := [], outputs := 0)
  }

  /** There is a buffer to fill, after waiting for a reply if none is free. */
  function Acquire(p: Pipe): (r: (Pipe, Err))
  {
    if p.filling then (p, NoError)
    else if FreeLeft(p) then (Fill(p), NoError)
    else
      var (q, e) := Receive(p, false);
      (if e == NoError then Fill(q) else q, e)
  }

  function Note(p: Pipe, note: Deferred): (q: Pipe)
  {
    p.(fillNotes := p.fillNotes + [note], issued := p.issued + [note])
  }

  function Pack(p: Pipe, command: Deferred, len: nat): (q: Pipe)
  {
    p.(packed := p.packed + [command], txlen := p.txlen + len)
  }

  predicate LinkSends(p: Pipe)
  {
    p.sends != [] && p.sends[0]
  }

  /** The transmit buffer goes out, or the link is lost. */
  function Emptied(p: Pipe): (q: Pipe)
  {
    p.(connected := LinkSends(p), sends := if p.sends == [] then [] else p.sends[1..], txlen := 0, packed := [])
  }

  /** The packet joins those under way. */
  function Enqueued(p: Pipe, packet: Sent): (q: Pipe)
  {
    p.(filling := false, notes := p.notes + [p.fillNotes], fillNotes := [], outputs := 0, sent := p.sent + [packet])
  }

  function Send(p: Pipe, packet: Sent): (q: Pipe)
  {
    var q := Emptied(p);
    if q.connected then Enqueued(q, packet) else q
  }

  /** The deferred commands packed so far. */
  function Deferrals(p: Pipe): (packet: Sent)
  {
    Sent(p.packed, |p.fillNotes|, false)
  }

  /** Sends what is packed without waiting, and starts the next packet with a CONTINUE. */
  function Continue(p: Pipe): (r: (Pipe, bool))
  {
    var q := Send(p, Deferrals(p));
    if !q.connected then (q, false)
    else
      var (a, e) := Acquire(q);
      if e != NoError then (a, false) else (Note(Pack(a, CONTINUE, CONTINUE_LENGTH), CONTINUE), !a.lockFail)
  }

  predicate Full(p: Pipe, outputs: nat)
  {
    |p.fillNotes| >= DEFERRED_MAX || p.outputs + outputs > OUTPUT_MAX
  }

  /** Has a buffer to fill and decides whether to defer. */
  function GetTx(p: Pipe, may: bool, outputs: nat): (r: (Pipe, Err, bool))
  {
    var (a, e) := Acquire(p);
    if e != NoError || !may then (a, e, false)
    else if Full(a, outputs) then var (c, ok) := Continue(a); (c, NoError, ok)
    else (a, NoError, true)
  }

  /** Packs a command, in the next packet if this one has no room left. */
  function StartCommand(p: Pipe, command: Deferred, len: nat): (r: (Pipe, bool))
  {
    if p.txlen + len <= TX_BUFFER then (Pack(p, command, len), true)
    else
      var (c, ok) := Continue(p);
      if ok && c.txlen + len <= TX_BUFFER then (Pack(c, command, len), true) else (c, false)
  }

  /** Waits for the replies to all packets under way; keeps the first failure, and ends at a fatal one. */
  function Drain(p: Pipe, sync: bool, sofar: Err): (r: (Pipe, Err))
    decreases |p.notes|
  {
    if p.notes == [] then (p, sofar)
    else
      var (q, e) := Receive(p, sync && |p.notes| == 1);
      if Fatal(e) then (q, e) else Drain(q, sync, if sofar == NoError then e else sofar)
  }

  /** A fatal error ends the connection; a lock found refused goes, and with it what is packed. */
  function TidyUp(p: Pipe, e: Err): (q: Pipe)
  {
    if Fatal(e) then p.(connected := false)
    else if p.locked && p.lockFail then p.(connected := true, locked := false, txlen := 0, packed := [])
    else p.(connected := true)
  }

  /** Sends what is being filled and waits for everything. */
  function SendReceive(p: Pipe, sync: bool, packet: Sent): (r: (Pipe, Err))
  {
    var q := if p.filling then Send(p, packet) else p;
    if !q.connected then (q, NetDown)
    else
      var (d, e) := Drain(q, sync, NoError);
      (TidyUp(d, e), e)
  }

  // ------------------------------------------------------------- commands

  /**
   How issuing a command ends. It may be packed but not sent although its reply was waited for, and is then kept
   for the next packet or dropped with the lock. The last two are defects: an action buffer was used when there
   was none, or the command's fields follow without a header.
   */
  datatype Outcome =
    | NotLocked | Refused(err: Err) | Queued | Answered(err: Err) | Flushed(err: Err) | LinkLost
    | Unsent(err: Err, kept: bool) | NullDereference | Headless

  /** A command: its note, its length, bytes it writes and outputs it has, and whether the server cannot refuse it. */
  datatype Command = Command(note: Deferred, len: nat, write: nat, outputs: nat, claimed: bool)

  /** The caller and the size of the command leave the choice to defer it. */
  predicate Deferrable(style: PackStyle, write: nat, outputs: nat)
  {
    style != PackNever && !(style == PackAuto && outputs > 0) && write < DEFER_MAX
  }

  predicate MayDefer(style: PackStyle, c: Command)
  {
    Deferrable(style, c.write, c.outputs)
  }

  function Expect(p: Pipe, outputs: nat): (q: Pipe)
  {
    p.(outputs := p.outputs + outputs)
  }

  /** Notes a packed command, or sends it and waits for its reply. */
  function Place(s: Pipe, c: Command, defer: bool): (r: (Pipe, Outcome))
  {
    if defer then (Expect(Note(s, c.note), c.outputs), Queued)
    else var (d, e) := SendReceive(s, true, Sent(s.packed, |s.fillNotes|, true)); (d, Answered(e))
  }

  /** Packs a command, then leaves it there or waits for its reply. */
  function Issue(p: Pipe, c: Command, defer: bool): (r: (Pipe, Outcome))
  {
    var (s, started) := StartCommand(p, c.note, c.len);
    if !s.connected then (s, LinkLost)
    else if !s.filling then
      if defer then (s, NullDereference)
      else var (d, e) := SendReceive(s, true, Deferrals(s)); (d, Unsent(e, d.locked))
    else if !started then (s, Headless)
    else Place(s, c, defer)
  }

  function Perform(p: Pipe, style: PackStyle, c: Command): (r: (Pipe, Outcome))
  {
    if !p.locked then (p, NotLocked)
    else
      var (g, e, defer) := GetTx(p, MayDefer(style, c), c.outputs);
      if e != NoError then (g, Refused(e))
      else if !g.connected then (g, LinkLost)
      else Issue(g, c, defer && c.claimed)
  }

  /** Everything issued so far is sent and answered. */
  function Flush(p: Pipe): (r: (Pipe, Err))
  {
    if p.locked && (p.filling || p.notes != []) then SendReceive(p, false, Deferrals(p)) else (p, NoError)
  }

  // ------------------------------------------------------------- runs

  datatype Op = Do(c: Command) | FlushAll

  function Step(p: Pipe, style: PackStyle, op: Op): (r: (Pipe, Outcome))
  {
    match op
    case Do(c) => Perform(p, style, c)
    case FlushAll => var (q, e) := Flush(p); (q, Flushed(e))
  }

  predicate Defect(o: Outcome)
  {
    o.NullDereference? || o.Headless?
  }

  /** The link is down, or memory is not what the code takes it for. */
  predicate Over(p: Pipe, o: Outcome)
  {
    !p.connected || Defect(o)
  }

  /** The operations of a device as one function. */
  function Stepper(style: PackStyle): (step: (Pipe, Op) -> (Pipe, Outcome))
  {
    (p: Pipe, op: Op) => Step(p, style, op)
  }

  /** A run, to its end or to the first operation after which it is over. */
  function Run(step: (Pipe, Op) -> (Pipe, Outcome), p: Pipe, ops: seq<Op>): (r: (Pipe, seq<Outcome>))
    ensures |r.1| <= |ops|
    decreases |ops|
  {
    if ops == [] then (p, [])
    else
      var (q, o) := step(p, ops[0]);
      if Over(q, o) then (q, [o])
      else var (r, os) := Run(step, q, ops[1..]); (r, [o] + os)
  }
}
