/** What holds of every run of a locked device, and a run in which a command gets the reply to another. */
module PipeResults {
  import opened Common
  import opened PipeSteps
  import opened PipeRuns

  // ------------------------------------------------------------- what is reported

  /** The outcome of packet k of those under way. */
  function OutcomeOf(p: Pipe, sync: bool, k: nat): (e: Err)
    requires k < |p.notes|
  {
    if k < |p.replies| then PacketError(p.notes[k], p.replies[k], sync && k == |p.notes| - 1) else NetDown
  }

  /** The first k packets under way all succeed. */
  predicate FirstSucceed(p: Pipe, sync: bool, k: nat)
    requires k <= |p.notes|
  {
    forall i :: 0 <= i < k ==> OutcomeOf(p, sync, i) == NoError
  }

  lemma {:induction false} DrainKeepsError(p: Pipe, sync: bool, sofar: Err)
    requires sofar != NoError
    ensures Drain(p, sync, sofar).1 == sofar || Fatal(Drain(p, sync, sofar).1)
    decreases |p.notes|
  {
    if p.notes != [] {
      var last := sync && |p.notes| == 1;
      var (q, e) := Receive(p, last);
      if !Fatal(e) {
        DrainKeepsError(q, sync, sofar);
      }
    }
  }

  /** The wait for all packets reports success if all of them succeed, else the first failure or a later fatal one. */
  lemma {:induction false} DrainTells(p: Pipe, sync: bool, k: nat)
    requires k <= |p.notes| && FirstSucceed(p, sync, k) && (k < |p.notes| ==> OutcomeOf(p, sync, k) != NoError)
    ensures var e := Drain(p, sync, NoError).1;
      if k == |p.notes| then e == NoError else e == OutcomeOf(p, sync, k) || Fatal(e)
    decreases |p.notes|
  {
    if p.notes != [] {
      var last := sync && |p.notes| == 1;
      var (q, e) := Receive(p, last);
      assert e == OutcomeOf(p, sync, 0);
      if k > 0 {
        assert q.notes == p.notes[1..] && q.replies == p.replies[1..];
        forall i | 0 <= i < |q.notes|
          ensures OutcomeOf(q, sync, i) == OutcomeOf(p, sync, i + 1)
        {
        }
        DrainTells(q, sync, k - 1);
      } else if !Fatal(e) {
        DrainKeepsError(q, sync, e);
      }
    }
  }

  lemma DrainSucceeds(p: Pipe, sync: bool)
    ensures Drain(p, sync, NoError).1 == NoError <==> FirstSucceed(p, sync, |p.notes|)
  {
    var k := FirstFailure(p, sync, |p.notes|);
    DrainTells(p, sync, k);
  }

  /** The packet of a command that is waited for goes out, and all packets are waited for. */
  lemma PacketOut(p: Pipe, style: PackStyle, c: Command) returns (q: Pipe)
    requires Good(p) && p.locked && CommandOk(c) && !NeedsBuffer(p, style, c) && LinkSends(p)
    requires Perform(p, style, c).1.Answered?
    ensures q.notes == p.notes + [p.fillNotes] && q.replies == p.replies
    ensures Perform(p, style, c).1 == Answered(Drain(q, true, NoError).1)
  {
    BufferFound(p);
    var g := Acquire(p).0;
    AlwaysRoom(g, c);
    q := Send(Pack(g, c.note, c.len), Waited(g, c.note));
  }

  /** The outcomes of packets under way, the last of them told apart. */
  lemma AllSucceed(q: Pipe, notes: seq<seq<Deferred>>, last: seq<Deferred>)
    requires q.notes == notes + [last]
    ensures FirstSucceed(q, true, |notes| + 1) <==>
      && |notes| < |q.replies| && PacketError(last, q.replies[|notes|], true) == NoError
      && forall i :: 0 <= i < |notes| ==> PacketError(notes[i], q.replies[i], false) == NoError
  {
    var n := |notes|;
    assert OutcomeOf(q, true, n) == if n < |q.replies| then PacketError(last, q.replies[n], true) else NetDown;
    if n < |q.replies| {
      forall i | 0 <= i < n
        ensures OutcomeOf(q, true, i) == PacketError(notes[i], q.replies[i], false)
      {
      }
    }
  }

  /** Exactly when a command that is waited for is told of success. */
  lemma AnsweredTells(p: Pipe, style: PackStyle, c: Command, e: Err)
    requires Good(p) && p.locked && CommandOk(c) && !NeedsBuffer(p, style, c) && LinkSends(p)
    requires Perform(p, style, c).1 == Answered(e)
    ensures e == NoError <==>
      && |p.notes| < |p.replies| && PacketError(p.fillNotes, p.replies[|p.notes|], true) == NoError
      && forall i :: 0 <= i < |p.notes| ==> PacketError(p.notes[i], p.replies[i], false) == NoError
  {
    var q := PacketOut(p, style, c);
    DrainSucceeds(q, true);
    AllSucceed(q, p.notes, p.fillNotes);
  }

  /** The first packet under way that fails, or n if the first n succeed. */
  lemma {:induction false} FirstFailure(p: Pipe, sync: bool, n: nat) returns (k: nat)
    requires n <= |p.notes|
    ensures k <= n && FirstSucceed(p, sync, k) && (k < n ==> OutcomeOf(p, sync, k) != NoError)
  {
    if n == 0 {
      k := 0;
    } else {
      k := FirstFailure(p, sync, n - 1);
      if k == n - 1 && OutcomeOf(p, sync, k) == NoError {
        k := n;
      }
    }
  }

  /**
   Reply i of a packet answers its command i, and handler i is run with it; but that handler was noted for the
   command behind if a command was left over in front. The last reply taken is one too early in the same way.
   */
  lemma ReplyTaken(s: Sent, reply: seq<Response>, i: nat)
    requires SentOk(s) && i <= s.deferN && forall k :: 0 <= k < i ==> Succeeds(DeferredOf(s), reply, k)
    ensures i < s.deferN ==> Runs(DeferredOf(s), reply)[i] == Ran(s.cmds[i + Strays(s)], ReplyTo(reply, i))
    ensures i == s.deferN && s.sync ==>
      s.cmds[|s.cmds| - 1] == s.cmds[i + Strays(s)] && PacketError(DeferredOf(s), reply, true) == ReplyTo(reply, i)
  {
    SeenIsFirstFailure(DeferredOf(s), reply, i, i);
  }

  /** What the server says to command i of a packet. */
  function ReplyTo(reply: seq<Response>, i: nat): (e: Err)
  {
    if i < |reply| then reply[i].status else ServerError
  }

  // ------------------------------------------------------------- link and lock behind a wait

  /** No reply came, or it could not be made sense of: nothing more can be said to the server. */
  predicate Lost(e: Err)
  {
    e == NetDown || e == ServerError
  }

  /** A wait ends the connection exactly if some packet got no reply or one without sense. */
  lemma {:induction false} DrainLoses(p: Pipe, sync: bool, sofar: Err)
    requires !Lost(sofar)
    ensures Fatal(Drain(p, sync, sofar).1) <==> exists k :: 0 <= k < |p.notes| && Lost(OutcomeOf(p, sync, k))
    decreases |p.notes|
  {
    if p.notes != [] {
      var last := sync && |p.notes| == 1;
      var (q, e) := Receive(p, last);
      assert e == OutcomeOf(p, sync, 0);
      if !Lost(e) {
        DrainLoses(q, sync, if sofar == NoError then e else sofar);
        RestOfOutcomes(p, sync);
      }
    }
  }

  lemma RestOfOutcomes(p: Pipe, sync: bool)
    requires p.notes != [] && p.replies != []
    ensures forall k :: 0 <= k < |p.notes| - 1 ==> OutcomeOf(Answer(p), sync, k) == OutcomeOf(p, sync, k + 1)
    ensures (exists k :: 0 <= k < |Answer(p).notes| && Lost(OutcomeOf(Answer(p), sync, k)))
       <==> (exists k :: 1 <= k < |p.notes| && Lost(OutcomeOf(p, sync, k)))
  {
    var q := Answer(p);
    forall k | 0 <= k < |p.notes| - 1
      ensures OutcomeOf(q, sync, k) == OutcomeOf(p, sync, k + 1)
    {
    }
    if k :| 1 <= k < |p.notes| && Lost(OutcomeOf(p, sync, k)) {
      assert OutcomeOf(q, sync, k - 1) == OutcomeOf(p, sync, k);
    }
  }

  /** An assumed lock is refused by its own reply, or because a command before it in the packet failed. */
  lemma RefusedExactlyIf(notes: seq<Deferred>, reply: seq<Response>)
    ensures LockRefused(notes, reply, |notes|) <==>
      exists i :: 0 <= i < |notes| && notes[i].lock && (ReplyTo(reply, i) != NoError || exists k :: 0 <= k < i && !Succeeds(notes, reply, k))
  {
    forall i | 0 <= i < |notes|
      ensures Seen(notes, reply, i) != NoError <==> ReplyTo(reply, i) != NoError || exists k :: 0 <= k < i && !Succeeds(notes, reply, k)
    {
      SeenFails(notes, reply, i);
    }
  }

  lemma SeenFails(notes: seq<Deferred>, reply: seq<Response>, i: nat)
    requires i < |notes|
    ensures Seen(notes, reply, i) != NoError <==> ReplyTo(reply, i) != NoError || exists k :: 0 <= k < i && !Succeeds(notes, reply, k)
  {
    var k := FirstFailing(notes, reply, i);
    SeenIsFirstFailure(notes, reply, k, i);
  }

  lemma {:induction false} FirstFailing(notes: seq<Deferred>, reply: seq<Response>, n: nat) returns (k: nat)
    requires n <= |notes|
    ensures k <= n && (forall i :: 0 <= i < k ==> Succeeds(notes, reply, i)) && (k < n ==> !Succeeds(notes, reply, k))
  {
    if n == 0 {
      k := 0;
    } else {
      k := FirstFailing(notes, reply, n - 1);
      if k == n - 1 && Succeeds(notes, reply, k) {
        k := n;
      }
    }
  }

  /** An assumed lock in packet k of those under way was refused. */
  predicate RefusedIn(p: Pipe, k: nat)
    requires k < |p.notes|
  {
    k < |p.replies| && LockRefused(p.notes[k], p.replies[k], |p.notes[k]|)
  }

  /** Behind a wait that did not end the connection a lock is known to be refused exactly if one was. */
  lemma {:induction false} DrainRefuses(p: Pipe, sync: bool, sofar: Err)
    requires !Lost(sofar) && !Fatal(Drain(p, sync, sofar).1)
    ensures Drain(p, sync, sofar).0.lockFail <==> p.lockFail || exists k :: 0 <= k < |p.notes| && RefusedIn(p, k)
    decreases |p.notes|
  {
    if p.notes != [] {
      var last := sync && |p.notes| == 1;
      var (q, e) := Receive(p, last);
      if !Fatal(e) {
        DrainRefuses(q, sync, if sofar == NoError then e else sofar);
        assert q == Answer(p);
        RestRefused(p);
      }
    }
  }

  lemma RestRefused(p: Pipe)
    requires p.notes != [] && p.replies != []
    ensures var q := Answer(p);
      q.lockFail || (exists k :: 0 <= k < |q.notes| && RefusedIn(q, k)) <==> p.lockFail || exists k :: 0 <= k < |p.notes| && RefusedIn(p, k)
  {
    var q := Answer(p);
    if k :| 0 <= k < |q.notes| && RefusedIn(q, k) {
      assert RefusedIn(p, k + 1);
    }
    if k :| 0 <= k < |p.notes| && RefusedIn(p, k) {
      assert if k == 0 then q.lockFail else RefusedIn(q, k - 1);
    }
    assert RefusedIn(p, 0) == LockRefused(p.notes[0], p.replies[0], |p.notes[0]|);
  }

  /**
   What a flush leaves: the link is up exactly if the packet went out and every packet got a reply that makes
   sense; and then the lock is kept exactly if none of the packets held an assumed lock that was refused.
   */
  lemma FlushLeaves(p: Pipe)
    requires Good(p) && p.filling
    ensures var q, s := Flush(p).0, p.(notes := p.notes + [p.fillNotes]);
      && (q.connected <==> LinkSends(p) && forall k :: 0 <= k < |s.notes| ==> !Lost(OutcomeOf(s, false, k)))
      && (q.connected ==> (q.locked <==> forall k :: 0 <= k < |s.notes| ==> !RefusedIn(s, k)))
  {
    var s := p.(notes := p.notes + [p.fillNotes]);
    var sent := Send(p, Deferrals(p));
    if LinkSends(p) {
      assert sent.notes == s.notes && sent.replies == s.replies && !sent.lockFail;
      assert forall k :: 0 <= k < |s.notes| ==> OutcomeOf(s, false, k) == OutcomeOf(sent, false, k) && RefusedIn(s, k) == RefusedIn(sent, k);
      DrainLoses(sent, false, NoError);
      SendReceiveKeeps(p, false, Deferrals(p));
      if !Fatal(Drain(sent, false, NoError).1) {
        DrainRefuses(sent, false, NoError);
        SendKeeps(p, Deferrals(p));
        DrainKeeps(sent, false, NoError);
      }
    }
  }

  // ------------------------------------------------------------- every run

  /** The run of a device from when it was locked. */
  function RunFrom(sends: seq<bool>, replies: seq<seq<Response>>, style: PackStyle, ops: seq<Op>): (r: (Pipe, seq<Outcome>))
  {
    Run(Stepper(style), Start(sends, replies), ops)
  }

  lemma RunFromKeeps(sends: seq<bool>, replies: seq<seq<Response>>, style: PackStyle, ops: seq<Op>)
    requires OpsOk(ops)
    ensures var (p, os) := RunFrom(sends, replies, style, ops); RunRight(Start(sends, replies), ops, p, os)
  {
    StartIsGood(sends, replies);
    StepperStepsWell(style);
    RunKeeps(Stepper(style), Start(sends, replies), ops);
  }

  /** Over every run, whatever fails, what was taken, handled and sent. */
  ghost predicate InOrder(p: Pipe, replies: seq<seq<Response>>)
  {
    && p.came <= replies && |p.came| <= |p.sent|
    && AllSentOk(p.sent) && Notes(p.ran) <= p.issued && p.issued == AllDeferred(p.sent) + p.fillNotes
    && p.ran == RunsOf(p.sent, p.came)
    && (Done(p) ==> Notes(p.ran) == p.issued)
  }

  /** No array of fixed size is ever full beyond its end. */
  predicate WithinBounds(p: Pipe)
  {
    |p.notes| + (if p.filling then 1 else 0) <= BUFFERS && |p.fillNotes| <= DEFERRED_MAX && p.outputs <= OUTPUT_MAX
  }

  lemma SaneIsInOrder(p: Pipe, q: Pipe)
    requires Sane(q) && Follows(p, q) && p.came == []
    ensures InOrder(q, p.replies) && WithinBounds(q)
  {
    assert p.replies == [] + p.replies == q.came + q.replies;
    AllHandled(q);
  }

  /**
   Over every run, whatever fails: the replies that came are the first ones the server sent; the handlers that
   ran are the first ones noted, once each and in order, each packet's with the reply to that packet; the
   packets sent hold their deferred commands, at most one left over in front and at most one waited for behind;
   at most four buffers are in use, within their bounds. With nothing under way every note has been handled. No
   operation uses a buffer that is not there, leaves out the header of a command or refuses one for want of a buffer.
   */
  lemma HandledInOrder(sends: seq<bool>, replies: seq<seq<Response>>, style: PackStyle, ops: seq<Op>)
    requires OpsOk(ops)
    ensures var (p, os) := RunFrom(sends, replies, style, ops); InOrder(p, replies) && WithinBounds(p) && AllOrderly(os)
  {
    RunFromKeeps(sends, replies, style, ops);
    SaneIsInOrder(Start(sends, replies), RunFrom(sends, replies, style, ops).0);
  }

  /**
   Over every run to its end: the commands in the packets sent and in the one being filled are those that were
   accepted, once each and in order, but for the CONTINUEs; the notes are those of the queued ones. As many
   commands were sent without a note or a wait as were kept unsent. After a flush with the link up all notes
   have been handled.
   */
  lemma EveryCommandOnce(sends: seq<bool>, replies: seq<seq<Response>>, style: PackStyle, ops: seq<Op>, p: Pipe, os: seq<Outcome>)
    requires OpsOk(ops) && RunFrom(sends, replies, style, ops) == (p, os) && Completed(p, ops, os)
    ensures Real(Wire(p)) == Accepted(ops, os, false) && Real(p.issued) == Accepted(ops, os, true)
    ensures Astray(p) == Kept(os)
    ensures Flush(p).0.connected ==> Real(Notes(Flush(p).0.ran)) == Accepted(ops, os, true)
  {
    RunFromKeeps(sends, replies, style, ops);
    var start := Start(sends, replies);
    assert Real(Wire(start)) == [] && Real(start.issued) == [] && Astray(start) == 0;
    FlushKeeps(p);
  }

  lemma {:induction false} StraysCount(ss: seq<Sent>)
    requires AllSentOk(ss)
    ensures StraysOf(ss) >= 0 && (StraysOf(ss) == 0 <==> forall i :: 0 <= i < |ss| ==> Strays(ss[i]) == 0)
  {
    if ss != [] {
      var n := |ss| - 1;
      StraysCount(ss[..n]);
      assert forall i :: 0 <= i < n ==> ss[..n][i] == ss[i];
      assert StraysOf(ss) == 0 ==> forall i :: 0 <= i < |ss| ==> Strays(ss[i]) == 0;
    }
  }

  /**
   After a run to its end every command in every packet is noted or waited for, so that each handler and each
   caller is told of the reply to its own command, exactly if no command was kept unsent.
   */
  lemma OwnRepliesExactlyIf(sends: seq<bool>, replies: seq<seq<Response>>, style: PackStyle, ops: seq<Op>, p: Pipe, os: seq<Outcome>)
    requires OpsOk(ops) && RunFrom(sends, replies, style, ops) == (p, os) && Completed(p, ops, os)
    ensures (p.packed == p.fillNotes && forall i :: 0 <= i < |p.sent| ==> Strays(p.sent[i]) == 0) <==> Kept(os) == 0
  {
    RunFromKeeps(sends, replies, style, ops);
    EveryCommandOnce(sends, replies, style, ops, p, os);
    StraysCount(p.sent);
  }

  /** After every run to its end each command ends exactly as the room, the link and the oldest reply have it. */
  lemma EveryCommandEnds(sends: seq<bool>, replies: seq<seq<Response>>, style: PackStyle, ops: seq<Op>, p: Pipe, os: seq<Outcome>, c: Command)
    requires OpsOk(ops) && RunFrom(sends, replies, style, ops) == (p, os) && Completed(p, ops, os) && CommandOk(c)
    ensures PerformEnds(p, style, c, Perform(p, style, c).1)
  {
    RunFromKeeps(sends, replies, style, ops);
    PerformKeeps(p, style, c);
  }

  /** The caller and the size of the command allow it to be deferred, in numbers. */
  predicate Allowed(style: PackStyle, c: Command)
  {
    c.claimed && c.write < 1024 && match style
      case PackNever => false
      case PackAuto => c.outputs == 0
      case PackManual => true
  }

  /** A packet already holds 64 notes, or would have to wait for more than 32 outputs. */
  predicate Crammed(p: Pipe, c: Command)
  {
    p.filling && (|p.fillNotes| == 64 || p.outputs + c.outputs > 32)
  }

  /** Exactly when a command is deferred: if that is allowed, and the packet has room or can make way. */
  lemma QueuedExactlyIf(p: Pipe, style: PackStyle, c: Command)
    requires Good(p) && CommandOk(c)
    ensures Perform(p, style, c).1 == Queued <==>
      p.locked && Allowed(style, c) && (Crammed(p, c) ==> LinkSends(p) && !Starved(p))
  {
    PerformKeeps(p, style, c);
  }

  /** No step queues a command. */
  ghost predicate NeverQueues(step: (Pipe, Op) -> (Pipe, Outcome))
  {
    forall p, op {:trigger step(p, op)} :: Good(p) && OpOk(op) ==> step(p, op).1 != Queued
  }

  lemma {:induction false} NeverQueued(step: (Pipe, Op) -> (Pipe, Outcome), p: Pipe, ops: seq<Op>)
    requires StepsWell(step) && NeverQueues(step) && Good(p) && OpsOk(ops)
    ensures Accepted(ops, Run(step, p, ops).1, true) == []
    decreases |ops|
  {
    if ops != [] {
      var (q, o) := step(p, ops[0]);
      StepWell(step, p, ops, q, o);
      if q.connected {
        NeverQueued(step, q, ops[1..]);
        var rest := Run(step, q, ops[1..]).1;
        assert ([o] + rest)[1..] == rest;
      }
    }
  }

  /** A caller that asked for no packing gets none: over every run no command is deferred. */
  lemma NeverPacked(sends: seq<bool>, replies: seq<seq<Response>>, ops: seq<Op>)
    requires OpsOk(ops)
    ensures Accepted(ops, RunFrom(sends, replies, PackNever, ops).1, true) == []
  {
    StartIsGood(sends, replies);
    StepperStepsWell(PackNever);
    forall p, op {:trigger Good(p), OpOk(op)} | Good(p) && OpOk(op)
      ensures Step(p, PackNever, op).1 != Queued
    {
      if op.Do? {
        QueuedExactlyIf(p, PackNever, op.c);
      }
    }
    NeverQueued(Stepper(PackNever), Start(sends, replies), ops);
  }

  /**
   The command behind one that was kept unsent: if it is waited for, both go in one packet, and it is told what
   the server said to the other.
   */
  lemma NextIsMisled(p: Pipe, style: PackStyle, c: Command, q: Pipe, e: Err, next: Command)
    requires Good(p) && CommandOk(c) && Perform(p, style, c) == (q, Unsent(e, true)) && q.connected
    requires CommandOk(next) && !(MayDefer(style, next) && next.claimed) && LinkSends(q) && q.replies != []
    ensures var (r, o) := Perform(q, style, next);
      && o == Answered(ReplyTo(q.replies[0], 0))
      && r.sent == q.sent + [Sent([c.note, next.note], 0, true)] && r.came == q.came + [q.replies[0]]
      && r.sends == q.sends[1..] && r.replies == q.replies[1..] && r.connected == !Fatal(ReplyTo(q.replies[0], 0))
  {
    PerformKeeps(p, style, c);
    BufferFound(q);
    var g := Fill(q);
    AlwaysRoom(g, next);
    var s, packet := Pack(g, next.note, next.len), Waited(g, next.note);
    assert Perform(q, style, next) == Issue(g, next, false) == Place(s, next, false);
    assert s.packed == [c.note, next.note];
    DrainOne(Send(s, packet));
  }

  /** The wait for a packet that holds nothing but commands without a note and one that is waited for. */
  lemma DrainOne(p: Pipe)
    requires p.notes == [[]] && p.replies != [] && !p.lockFail
    ensures Drain(p, true, NoError) == (Answer(p), ReplyTo(p.replies[0], 0)) && !Answer(p).lockFail
  {
    var q := Answer(p);
    assert q.notes == [];
    assert Drain(q, true, ReplyTo(p.replies[0], 0)) == (q, ReplyTo(p.replies[0], 0));
  }

  // ------------------------------------------------------------- a run that goes wrong

  /** An instruction register scan: that of a claimed instruction may be deferred, any other is waited for. */
  function Short(id: nat, claimed: bool): (c: Command)
  {
    Command(Deferred(id, true, false), 16, 0, 0, claimed)
  }

  /** The server refuses the first command of a packet, and with it all behind. */
  function Refusal(code: nat): (reply: seq<Response>)
  {
    [Response(Other(code), true)]
  }

  function Refusals(n: nat, code: nat): (replies: seq<seq<Response>>)
  {
    if n == 0 then [] else [Refusal(code)] + Refusals(n - 1, code)
  }

  /** None of the notes is that of a lock. */
  predicate Plain(notes: seq<Deferred>)
  {
    forall i :: 0 <= i < |notes| ==> !notes[i].lock
  }

  lemma RefusedPacket(notes: seq<Deferred>, code: nat, sync: bool)
    requires notes != [] && Plain(notes)
    ensures PacketError(notes, Refusal(code), sync) == Other(code) && !LockRefused(notes, Refusal(code), |notes|)
  {
    SeenIsFirstFailure(notes, Refusal(code), 0, |notes|);
  }

  predicate AllPlain(notes: seq<seq<Deferred>>)
  {
    forall i :: 0 <= i < |notes| ==> notes[i] != [] && Plain(notes[i])
  }

  lemma ReceiveRefused(p: Pipe, sync: bool, code: nat, rest: seq<seq<Response>>)
    requires AllPlain(p.notes) && p.notes != [] && p.replies == Refusals(|p.notes|, code) + rest
    ensures Receive(p, sync) == (Answer(p), Other(code)) && SameFill(p, Answer(p)) && Answer(p).lockFail == p.lockFail
    ensures AllPlain(Answer(p).notes) && Answer(p).replies == Refusals(|Answer(p).notes|, code) + rest
  {
    RefusedPacket(p.notes[0], code, sync);
  }

  lemma DrainOn(p: Pipe, sync: bool, sofar: Err, code: nat)
    requires p.notes != [] && p.replies != [] && Receive(p, sync && |p.notes| == 1) == (Answer(p), Other(code)) && (sofar == NoError || sofar == Other(code))
    ensures Drain(p, sync, sofar) == Drain(Answer(p), sync, Other(code))
  {
  }

  lemma {:induction false} DrainRefused(p: Pipe, sync: bool, sofar: Err, code: nat, rest: seq<seq<Response>>)
    requires AllPlain(p.notes) && p.replies == Refusals(|p.notes|, code) + rest && (sofar == NoError || sofar == Other(code))
    ensures var (q, e) := Drain(p, sync, sofar);
      && q.notes == [] && q.replies == rest && q.lockFail == p.lockFail && SameFill(p, q)
      && e == if p.notes == [] then sofar else Other(code)
    decreases |p.notes|
  {
    if p.notes != [] {
      ReceiveRefused(p, sync && |p.notes| == 1, code, rest);
      DrainOn(p, sync, sofar, code);
      DrainRefused(Answer(p), sync, Other(code), code, rest);
    }
  }

  /** So many packets of short commands under way and so many notes in the one being filled. */
  ghost predicate Crowded(p: Pipe, n: nat, m: nat, replies: seq<seq<Response>>)
  {
    && n < BUFFERS && 1 <= m <= DEFERRED_MAX && Good(p) && p.locked && p.filling && p.packed == p.fillNotes
    && |p.notes| == n && |p.fillNotes| == m && p.outputs == 0 && AllPlain(p.notes) && Plain(p.fillNotes)
    && p.sends == Yes(5 - n) && p.replies == replies
  }

  function Yes(n: nat): (sends: seq<bool>)
    ensures |sends| == n
  {
    if n == 0 then [] else [true] + Yes(n - 1)
  }

  lemma FirstShort(sends: seq<bool>, replies: seq<seq<Response>>, id: nat)
    requires sends == Yes(5)
    ensures var (q, o) := Perform(Start(sends, replies), PackManual, Short(id, true)); o == Queued && Crowded(q, 0, 1, replies)
  {
    StartIsGood(sends, replies);
    PerformKeeps(Start(sends, replies), PackManual, Short(id, true));
  }

  lemma OneMoreNote(p: Pipe, n: nat, m: nat, replies: seq<seq<Response>>, id: nat)
    requires Crowded(p, n, m, replies) && m < DEFERRED_MAX
    ensures var (q, o) := Perform(p, PackManual, Short(id, true)); o == Queued && Crowded(q, n, m + 1, replies)
  {
    PerformKeeps(p, PackManual, Short(id, true));
    AlwaysRoom(p, Short(id, true));
  }

  lemma OneMorePacket(p: Pipe, n: nat, replies: seq<seq<Response>>, id: nat)
    requires Crowded(p, n, DEFERRED_MAX, replies) && n < 3
    ensures var (q, o) := Perform(p, PackManual, Short(id, true)); o == Queued && Crowded(q, n + 1, 2, replies)
  {
    PerformKeeps(p, PackManual, Short(id, true));
    ContinueKeeps(p);
    AlwaysRoom(Continue(p).0, Short(id, true));
  }

  /** The fourth packet goes out, and the reply to the first is a refusal. */
  lemma NoBufferFound(p: Pipe, code: nat, rest: seq<seq<Response>>) returns (g: Pipe)
    requires Crowded(p, 3, DEFERRED_MAX, Refusals(4, code) + rest)
    ensures Continue(p) == (g, false) && g.connected && g.locked && !g.lockFail && !g.filling && g.txlen == 0
    ensures g.sends == [true] && AllPlain(g.notes) && |g.notes| == 3 && g.replies == Refusals(|g.notes|, code) + rest
  {
    var q := Send(p, Deferrals(p));
    g := Answer(q);
    ReceiveRefused(q, false, code, rest);
  }

  /** With four packets of notes and the first refused, the next command is not sent, but kept. */
  lemma OneTooMany(p: Pipe, code: nat, last: seq<Response>, id: nat)
    requires Crowded(p, 3, DEFERRED_MAX, Refusals(4, code) + [last])
    ensures var (q, o) := Perform(p, PackManual, Short(id, true));
      o == Unsent(Other(code), true) && q.connected && q.sends == [true] && q.replies == [last]
  {
    var c := Short(id, true);
    var g := NoBufferFound(p, code, [last]);
    assert Perform(p, PackManual, c) == Issue(g, c, false);
    var s := Pack(g, c.note, c.len);
    DrainRefused(s, true, NoError, code, [last]);
  }

  /** So many short commands that may be deferred, and others behind. */
  function Shorts(id: nat, n: nat, rest: seq<Op>): (ops: seq<Op>)
    decreases n
  {
    if n == 0 then rest else [Do(Short(id, true))] + Shorts(id + 1, n - 1, rest)
  }

  function AllQueued(n: nat, rest: seq<Outcome>): (os: seq<Outcome>)
    ensures |os| == n + |rest|
    ensures forall i :: 0 <= i < |os| ==> os[i] == if i < n then Queued else rest[i - n]
  {
    if n == 0 then rest else [Queued] + AllQueued(n - 1, rest)
  }

  /** How many commands there is room for in a crowded state. */
  function Left(n: nat, m: nat): (k: nat)
    requires n <= 3 && 1 <= m <= DEFERRED_MAX
  {
    (3 - n) * (DEFERRED_MAX - 1) + (DEFERRED_MAX - m)
  }

  /** The states with room for so many short commands. */
  ghost function HasLeft(replies: seq<seq<Response>>): (room: (Pipe, nat) -> bool)
  {
    (p: Pipe, k: nat) => exists n: nat, m: nat :: Crowded(p, n, m, replies) && k == Left(n, m)
  }

  /** While there is room a step queues a short command, and there is room for one less. */
  ghost predicate Crowds(step: (Pipe, Op) -> (Pipe, Outcome), room: (Pipe, nat) -> bool)
  {
    forall p, k: nat, id {:trigger room(p, k), step(p, Do(Short(id, true)))} :: room(p, k) && k > 0 ==>
      var (q, o) := step(p, Do(Short(id, true)));
      o == Queued && q.connected && room(q, k - 1)
  }

  lemma OneMore(p: Pipe, k: nat, id: nat, replies: seq<seq<Response>>)
    requires HasLeft(replies)(p, k) && k > 0
    ensures var (q, o) := Perform(p, PackManual, Short(id, true)); o == Queued && q.connected && HasLeft(replies)(q, k - 1)
  {
    var n: nat, m: nat :| Crowded(p, n, m, replies) && k == Left(n, m);
    if m < DEFERRED_MAX {
      OneMoreNote(p, n, m, replies, id);
      assert k - 1 == Left(n, m + 1);
    } else {
      OneMorePacket(p, n, replies, id);
      assert k - 1 == Left(n + 1, 2);
    }
  }

  lemma StepperCrowds(replies: seq<seq<Response>>)
    ensures Crowds(Stepper(PackManual), HasLeft(replies))
  {
    forall p, k: nat, id {:trigger HasLeft(replies)(p, k), Short(id, true)} | HasLeft(replies)(p, k) && k > 0
      ensures var (q, o) := Perform(p, PackManual, Short(id, true)); o == Queued && q.connected && HasLeft(replies)(q, k - 1)
    {
      OneMore(p, k, id, replies);
    }
  }

  lemma OneQueued(step: (Pipe, Op) -> (Pipe, Outcome), p: Pipe, id: nat, k: nat, rest: seq<Op>, q: Pipe)
    requires step(p, Do(Short(id, true))) == (q, Queued) && q.connected && k > 0
    ensures var r := Run(step, q, Shorts(id + 1, k - 1, rest));
      Run(step, p, Shorts(id, k, rest)) == (r.0, [Queued] + r.1)
  {
    RunOn(step, p, Do(Short(id, true)), Shorts(id + 1, k - 1, rest), q, Queued);
  }

  /** Commands are queued until all is full. */
  lemma {:induction false} CrowdedOn(step: (Pipe, Op) -> (Pipe, Outcome), room: (Pipe, nat) -> bool, p: Pipe, id: nat, k: nat, rest: seq<Op>)
    returns (q: Pipe)
    requires Crowds(step, room) && room(p, k)
    ensures room(q, 0)
    ensures Run(step, p, Shorts(id, k, rest)) == (Run(step, q, rest).0, AllQueued(k, Run(step, q, rest).1))
    decreases k
  {
    if k == 0 {
      q := p;
    } else {
      var r := step(p, Do(Short(id, true))).0;
      OneQueued(step, p, id, k, rest, r);
      q := CrowdedOn(step, room, r, id + 1, k - 1, rest);
    }
  }

  /** The first command of the packet succeeds, the second is refused. */
  function MisleadingReply(code: nat): (reply: seq<Response>)
  {
    [Response(NoError, true), Response(Other(code), true)]
  }

  /** The last packet holds a command that was kept and the next; the one succeeded and the other was refused. */
  predicate Misled(p: Pipe, id: nat, code: nat)
  {
    && p.connected && p.sent != [] && p.came != []
    && p.sent[|p.sent| - 1] == Sent([Short(id, true).note, Short(id + 1, false).note], 0, true)
    && p.came[|p.came| - 1] == MisleadingReply(code)
  }

  /** From four full packets on, the first of them refused: a command that may be deferred and one that is waited for. */
  lemma FullOn(step: (Pipe, Op) -> (Pipe, Outcome), p: Pipe, id: nat, code: nat, q: Pipe, os: seq<Outcome>)
    requires step == Stepper(PackManual) && Crowded(p, 3, DEFERRED_MAX, Refusals(4, code) + [MisleadingReply(code)])
    requires Run(step, p, [Do(Short(id, true)), Do(Short(id + 1, false))]) == (q, os)
    ensures os == [Unsent(Other(code), true), Answered(NoError)] && Misled(q, id, code)
  {
    var c, next := Short(id, true), Short(id + 1, false);
    OneTooMany(p, code, MisleadingReply(code), id);
    var (r, o) := Perform(p, PackManual, c);
    NextIsMisled(p, PackManual, c, r, Other(code), next);
    var (s, o') := Perform(r, PackManual, next);
    RunTwo(step, p, Do(c), Do(next), r, o, s, o');
  }

  lemma RunTwo(step: (Pipe, Op) -> (Pipe, Outcome), p: Pipe, op: Op, op': Op, q: Pipe, o: Outcome, r: Pipe, o': Outcome)
    requires step(p, op) == (q, o) && !Over(q, o) && step(q, op') == (r, o')
    ensures Run(step, p, [op, op']) == (r, [o, o'])
  {
    RunOn(step, q, op', [], r, o');
    RunOn(step, p, op, [op'], q, o);
    assert [op] + [op'] == [op, op'] && [op'] + [] == [op'];
    assert [o] + [o'] == [o, o'] && [o'] + [] == [o'];
  }

  /**
   253 scans are deferred, which fills four packets, and the server refuses the first. The next scan, which may be
   deferred too, is not sent, but kept; the one behind it, which is waited for, is told what the server said to
   the one that was kept: success, although it was itself refused.
   */
  lemma MisledReached(n: nat, code: nat, p: Pipe, os: seq<Outcome>)
    requires n == BUFFERS * (DEFERRED_MAX - 1) + 1
    requires (p, os) == RunFrom(Yes(5), Refusals(4, code) + [MisleadingReply(code)], PackManual,
      Shorts(1, n, [Do(Short(n + 1, true)), Do(Short(n + 2, false))]))
    ensures os == AllQueued(n, [Unsent(Other(code), true), Answered(NoError)]) && Misled(p, n + 1, code)
  {
    var replies := Refusals(4, code) + [MisleadingReply(code)];
    var rest := [Do(Short(n + 1, true)), Do(Short(n + 2, false))];
    var full := FillsUp(Stepper(PackManual), n, replies, rest);
    var (r, last) := Run(Stepper(PackManual), full, rest);
    FullOn(Stepper(PackManual), full, n + 1, code, r, last);
  }

  /** From the start on, commands are queued until all is full. */
  lemma FillsUp(step: (Pipe, Op) -> (Pipe, Outcome), n: nat, replies: seq<seq<Response>>, rest: seq<Op>) returns (q: Pipe)
    requires step == Stepper(PackManual) && n == BUFFERS * (DEFERRED_MAX - 1) + 1
    ensures Crowded(q, 3, DEFERRED_MAX, replies)
    ensures Run(step, Start(Yes(5), replies), Shorts(1, n, rest)) == (Run(step, q, rest).0, AllQueued(n, Run(step, q, rest).1))
  {
    var start := Start(Yes(5), replies);
    FirstShort(start.sends, replies, 1);
    var p := step(start, Do(Short(1, true))).0;
    OneQueued(step, start, 1, n, rest, p);
    assert Crowded(p, 0, 1, replies) && n - 1 == Left(0, 1);
    StepperCrowds(replies);
    q := CrowdedOn(step, HasLeft(replies), p, 2, n - 1, rest);
    NoneLeft(q, replies);
  }

  lemma NoneLeft(p: Pipe, replies: seq<seq<Response>>)
    requires HasLeft(replies)(p, 0)
    ensures Crowded(p, 3, DEFERRED_MAX, replies)
  {
    var n: nat, m: nat :| Crowded(p, n, m, replies) && 0 == Left(n, m);
    assert n == 3 && m == DEFERRED_MAX;
  }
}
