/** What every run of the deferred commands keeps, and how each command ends. */
module PipeRuns {
  import opened Common
  import opened PipeSteps

  // ------------------------------------------------------------- the books

  function Notes(rs: seq<Ran>): (ns: seq<Deferred>)
    ensures |ns| == |rs| && forall i :: 0 <= i < |rs| ==> ns[i] == rs[i].note
  {
    seq(|rs|, i requires 0 <= i < |rs| => rs[i].note)
  }

  /** Commands of a packet that are neither noted nor waited for: those left over from before it was filled. */
  function Strays(s: Sent): (n: int)
  {
    |s.cmds| - s.deferN - if s.sync then 1 else 0
  }

  /** A packet holds at most one command left over, then those noted and, if one is waited for, that one last. */
  predicate SentOk(s: Sent)
  {
    0 <= Strays(s) <= 1
  }

  predicate AllSentOk(ss: seq<Sent>)
  {
    forall i :: 0 <= i < |ss| ==> SentOk(ss[i])
  }

  function DeferredOf(s: Sent): (r: seq<Deferred>)
    requires SentOk(s)
  {
    s.cmds[Strays(s)..Strays(s) + s.deferN]
  }

  /** The deferred commands of all packets. */
  function AllDeferred(sent: seq<Sent>): (r: seq<Deferred>)
    requires AllSentOk(sent)
  {
    if sent == [] then []
    else
      var n := |sent| - 1;
      AllDeferred(sent[..n]) + DeferredOf(sent[n])
  }

  lemma AllDeferredSnoc(sent: seq<Sent>, packet: Sent)
    requires AllSentOk(sent) && SentOk(packet)
    ensures AllSentOk(sent + [packet]) && AllDeferred(sent + [packet]) == AllDeferred(sent) + DeferredOf(packet)
  {
    assert (sent + [packet])[..|sent|] == sent;
  }

  /** Every handler of the packets with a reply, each packet's run with its own. */
  function RunsOf(sent: seq<Sent>, came: seq<seq<Response>>): (r: seq<Ran>)
    requires AllSentOk(sent) && |came| <= |sent|
    decreases |came|
  {
    if came == [] then []
    else
      var n := |came| - 1;
      RunsOf(sent, came[..n]) + Runs(DeferredOf(sent[n]), came[n])
  }

  lemma RunsOfSnoc(sent: seq<Sent>, came: seq<seq<Response>>, reply: seq<Response>)
    requires AllSentOk(sent) && |came| < |sent|
    ensures RunsOf(sent, came + [reply]) == RunsOf(sent, came) + Runs(DeferredOf(sent[|came|]), reply)
  {
    assert (came + [reply])[..|came|] == came;
  }

  lemma {:induction false} RunsOfMore(sent: seq<Sent>, packet: Sent, came: seq<seq<Response>>)
    requires AllSentOk(sent) && SentOk(packet) && |came| <= |sent|
    ensures AllSentOk(sent + [packet]) && RunsOf(sent + [packet], came) == RunsOf(sent, came)
    decreases |came|
  {
    if came != [] {
      RunsOfMore(sent, packet, came[..|came| - 1]);
    }
  }

  /**
   The notes under way are those of the packets without a reply. The handlers of the others have run, each with
   the reply to its own packet. Every note ever taken is in a packet sent or in the one being filled, in order.
   */
  ghost predicate Ledger(sent: seq<Sent>, came: seq<seq<Response>>, ran: seq<Ran>, notes: seq<seq<Deferred>>,
    fillNotes: seq<Deferred>, issued: seq<Deferred>)
  {
    && AllSentOk(sent) && |sent| == |came| + |notes|
    && (forall i :: 0 <= i < |notes| ==> notes[i] == DeferredOf(sent[|came| + i]))
    && ran == RunsOf(sent, came)
    && issued == AllDeferred(sent) + fillNotes
  }

  ghost predicate Books(p: Pipe)
  {
    Ledger(p.sent, p.came, p.ran, p.notes, p.fillNotes, p.issued)
  }

  /** The books are right and no fixed-size array overflows. */
  ghost predicate Sane(p: Pipe)
  {
    && Books(p)
    && |p.notes| + (if p.filling then 1 else 0) <= BUFFERS
    && |p.fillNotes| <= DEFERRED_MAX && p.outputs <= OUTPUT_MAX
    && (!p.filling ==> p.fillNotes == [] && p.outputs == 0)
  }

  /** Commands in the transmit buffer that are not noted. */
  function Extra(p: Pipe): (n: int)
  {
    |p.packed| - |p.fillNotes|
  }

  /** The transmit buffer holds at most one command left over, and those noted. */
  predicate Packed(p: Pipe)
  {
    0 <= Extra(p) <= 1 && p.packed[Extra(p)..] == p.fillNotes
  }

  /**
   Between operations the transmit buffer holds the commands noted and at most one before them, all of them
   short; packets are under way only while another is being filled; and no lock has been refused unless it is gone.
   */
  ghost predicate Good(p: Pipe)
  {
    && Sane(p) && p.connected && Packed(p) && p.txlen <= COMMAND_MAX * |p.packed|
    && (p.filling ==> p.locked) && (!p.filling ==> Done(p)) && (p.locked ==> !p.lockFail)
  }

  /** Nothing is being filled or under way. */
  predicate Done(p: Pipe)
  {
    !p.filling && p.notes == []
  }

  /** Replies are taken in order, and what has happened stays. */
  ghost predicate Follows(p: Pipe, q: Pipe)
  {
    && p.came + p.replies == q.came + q.replies
    && p.ran <= q.ran && p.issued <= q.issued && p.sent <= q.sent
  }

  // ------------------------------------------------------------- what each step keeps

  lemma StartIsGood(sends: seq<bool>, replies: seq<seq<Response>>)
    ensures Good(Start(sends, replies))
  {
    var p := Start(sends, replies);
  }

  lemma RefusedLockFails(notes: seq<Deferred>, reply: seq<Response>)
    ensures LockRefused(notes, reply, |notes|) ==> After(notes, reply, |notes|) != NoError
  {
    if LockRefused(notes, reply, |notes|) {
      var i :| 0 <= i < |notes| && notes[i].lock && Seen(notes, reply, i) != NoError;
      assert After(notes, reply, i + 1) != NoError;
      if i + 1 < |notes| {
        FailureSticks(notes, reply, i + 1, |notes|);
      }
    }
  }

  /** The books with the oldest packet answered. */
  lemma AnsweredBooks(p: Pipe, reply: seq<Response>, runs: seq<Ran>)
    requires Books(p) && p.notes != [] && runs == Runs(p.notes[0], reply)
    ensures Ledger(p.sent, p.came + [reply], p.ran + runs, p.notes[1..], p.fillNotes, p.issued)
  {
    assert p.notes[0] == DeferredOf(p.sent[|p.came| + 0]);
    RunsOfSnoc(p.sent, p.came, reply);
  }

  lemma AnswerKeeps(p: Pipe)
    requires Sane(p) && p.notes != [] && p.replies != []
    ensures Sane(Answer(p)) && Follows(p, Answer(p))
  {
    AnsweredBooks(p, p.replies[0], Runs(p.notes[0], p.replies[0]));
    assert p.replies == [p.replies[0]] + p.replies[1..];
  }

  lemma ReceiveKeeps(p: Pipe, sync: bool)
    requires Sane(p) && p.notes != []
    ensures var (q, e) := Receive(p, sync);
      && Sane(q) && Follows(p, q)
      && (if p.replies == [] then q == p else q == Answer(p))
      && (e == NoError ==> q.lockFail == p.lockFail)
  {
    if p.replies != [] {
      AnswerKeeps(p);
      RefusedLockFails(p.notes[0], p.replies[0]);
    }
  }

  lemma NoteKeeps(p: Pipe, note: Deferred)
    requires Sane(p) && p.filling && |p.fillNotes| < DEFERRED_MAX
    ensures Sane(Note(p, note)) && Follows(p, Note(p, note))
  {
    Regroup(AllDeferred(p.sent), p.fillNotes, [note]);
  }

  lemma EnqueuedBooks(p: Pipe, packet: Sent)
    requires Books(p) && SentOk(packet) && DeferredOf(packet) == p.fillNotes
    ensures Ledger(p.sent + [packet], p.came, p.ran, p.notes + [p.fillNotes], [], p.issued)
  {
    RunsOfMore(p.sent, packet, p.came);
    AllDeferredSnoc(p.sent, packet);
  }

  lemma SendKeeps(p: Pipe, packet: Sent)
    requires Sane(p) && p.filling && SentOk(packet) && DeferredOf(packet) == p.fillNotes
    ensures Sane(Send(p, packet)) && Follows(p, Send(p, packet))
  {
    EnqueuedBooks(p, packet);
  }

  /** The oldest packet under way gets no reply, or one that reports a failure. */
  predicate OldestFails(p: Pipe)
  {
    p.notes != [] && (p.replies == [] || PacketError(p.notes[0], p.replies[0], false) != NoError)
  }

  lemma AcquireKeeps(p: Pipe)
    requires Sane(p)
    ensures var (q, e) := Acquire(p);
      && Sane(q) && Follows(p, q)
      && (e != NoError <==> !p.filling && !FreeLeft(p) && OldestFails(p))
      && (q.filling <==> e == NoError)
      && (e == NoError ==> q.lockFail == p.lockFail)
      && (p.filling ==> q == p) && (!p.filling ==> q.fillNotes == [] && q.outputs == 0)
      && q.packed == p.packed && q.txlen == p.txlen && q.sends == p.sends && q.connected == p.connected && q.locked == p.locked
      && q.issued == p.issued && q.sent == p.sent
  {
    if !p.filling && !FreeLeft(p) {
      ReceiveKeeps(p, false);
    }
  }

  /** No buffer is free but the one being filled, and the packet whose reply would free one has failed. */
  predicate Starved(p: Pipe)
  {
    p.filling && !FreeLeft(p) && OldestFails(p)
  }

  /** Once the packet is sent, a buffer for the next is found unless the sender was starved. */
  lemma SentAcquires(p: Pipe)
    requires Sane(p) && p.filling && Packed(p) && LinkSends(p)
    ensures var q := Send(p, Deferrals(p));
      Sane(q) && Follows(p, q) && (!FreeLeft(q) && OldestFails(q) <==> Starved(p))
  {
    SendKeeps(p, Deferrals(p));
    var q := Send(p, Deferrals(p));
    assert |p.notes| > 0 ==> q.notes[0] == p.notes[0];
  }

  lemma ContinueKeeps(p: Pipe)
    requires Sane(p) && p.filling && Packed(p)
    ensures var (q, ok) := Continue(p);
      && Sane(q) && Follows(p, q) && q.locked == p.locked
      && (q.connected <==> LinkSends(p))
      && (q.connected ==> (q.filling <==> !Starved(p)) && q.sent == p.sent + [Deferrals(p)])
      && (q.connected && q.filling ==>
            && q.packed == q.fillNotes == [CONTINUE] && q.txlen == CONTINUE_LENGTH && q.outputs == 0
            && q.issued == p.issued + [CONTINUE] && q.lockFail == p.lockFail)
      && (q.connected && !q.filling ==> q.packed == [] && q.txlen == 0 && q.issued == p.issued)
      && (!q.connected ==> q.issued == p.issued)
      && (ok <==> q.connected && q.filling && !p.lockFail)
  {
    if LinkSends(p) {
      SentAcquires(p);
      var q := Send(p, Deferrals(p));
      AcquireKeeps(q);
      var (a, e) := Acquire(q);
      if e == NoError {
        NoteKeeps(Pack(a, CONTINUE, CONTINUE_LENGTH), CONTINUE);
      }
    } else {
      SendKeeps(p, Deferrals(p));
    }
  }

  /** Waiting for replies leaves the packet being filled as it is. */
  predicate SameFill(p: Pipe, q: Pipe)
  {
    && q.filling == p.filling && q.fillNotes == p.fillNotes && q.outputs == p.outputs
    && q.txlen == p.txlen && q.packed == p.packed && q.sends == p.sends
    && q.connected == p.connected && q.locked == p.locked && q.issued == p.issued && q.sent == p.sent
  }

  lemma {:induction false} DrainKeeps(p: Pipe, sync: bool, sofar: Err)
    requires Sane(p) && !Fatal(sofar)
    ensures var (q, e) := Drain(p, sync, sofar);
      Sane(q) && Follows(p, q) && SameFill(p, q) && (!Fatal(e) ==> q.notes == [])
    decreases |p.notes|
  {
    if p.notes != [] {
      var last := sync && |p.notes| == 1;
      ReceiveKeeps(p, last);
      var (q, e) := Receive(p, last);
      assert SameFill(p, q);
      if !Fatal(e) {
        var sofar' := if sofar == NoError then e else sofar;
        DrainKeeps(q, sync, sofar');
        FollowsOn(p, q, Drain(q, sync, sofar').0);
      }
    }
  }

  lemma FollowsOn(p: Pipe, q: Pipe, r: Pipe)
    requires Follows(p, q) && Follows(q, r)
    ensures Follows(p, r)
  {
  }

  /** The handlers that have run are those of the packets with a reply. */
  lemma {:induction false} HandledAre(sent: seq<Sent>, came: seq<seq<Response>>)
    requires AllSentOk(sent) && |came| <= |sent|
    ensures Notes(RunsOf(sent, came)) == AllDeferred(sent[..|came|])
    decreases |came|
  {
    if came != [] {
      var n := |came| - 1;
      HandledAre(sent, came[..n]);
      assert sent[..n + 1][..n] == sent[..n] && came[..n][..n] == came[..n];
      var last := Runs(DeferredOf(sent[n]), came[n]);
      assert Notes(last) == DeferredOf(sent[n]);
      assert Notes(RunsOf(sent, came[..n]) + last) == Notes(RunsOf(sent, came[..n])) + Notes(last);
    }
  }

  lemma {:induction false} FirstDeferred(sent: seq<Sent>, k: nat)
    requires AllSentOk(sent) && k <= |sent|
    ensures AllDeferred(sent[..k]) <= AllDeferred(sent)
    decreases |sent| - k
  {
    if k == |sent| {
      assert sent[..k] == sent;
    } else {
      FirstDeferred(sent, k + 1);
      assert sent[..k + 1] == sent[..k] + [sent[k]];
      AllDeferredSnoc(sent[..k], sent[k]);
    }
  }

  /** With nothing left under way or being filled, every note has been handled. */
  lemma AllHandled(p: Pipe)
    requires Sane(p)
    ensures Notes(p.ran) <= p.issued && (Done(p) ==> Notes(p.ran) == p.issued)
  {
    HandledAre(p.sent, p.came);
    FirstDeferred(p.sent, |p.came|);
    if Done(p) {
      assert p.sent[..|p.came|] == p.sent && AllDeferred(p.sent) + [] == AllDeferred(p.sent);
    }
  }

  lemma TidyUpKeeps(p: Pipe, e: Err)
    requires Sane(p)
    ensures Sane(TidyUp(p, e)) && Follows(p, TidyUp(p, e))
  {
  }

  /** The transmit buffer is as it was. */
  predicate SameBuffer(p: Pipe, q: Pipe)
  {
    q.packed == p.packed && q.txlen == p.txlen
  }

  /** Whether the packet can go out. */
  predicate CanSend(p: Pipe, packet: Sent)
  {
    p.filling ==> packet.cmds == p.packed && SentOk(packet) && DeferredOf(packet) == p.fillNotes
  }

  lemma SendReceiveKeeps(p: Pipe, sync: bool, packet: Sent)
    requires Sane(p) && p.connected && CanSend(p, packet)
    ensures var (q, e) := SendReceive(p, sync, packet);
      && Sane(q) && Follows(p, q) && q.connected == !Fatal(e) && q.issued == p.issued
      && (q.connected ==> Done(q) && (p.locked ==> (q.locked <==> !q.lockFail)))
      && (q.connected && p.filling ==> q.sent == p.sent + [packet] && q.packed == [] && q.txlen == 0)
      && (q.connected && !p.filling && p.locked ==> q.sent == p.sent && (if q.locked then SameBuffer(p, q) else q.packed == [] && q.txlen == 0))
  {
    var q := if p.filling then Send(p, packet) else p;
    if p.filling {
      SendKeeps(p, packet);
    }
    if q.connected {
      DrainKeeps(q, sync, NoError);
      var (d, e) := Drain(q, sync, NoError);
      TidyUpKeeps(d, e);
      FollowsOn(p, q, d);
      FollowsOn(p, d, TidyUp(d, e));
    }
  }

  // ------------------------------------------------------------- one command

  /** The command is no longer than the longest and has at most one output. */
  predicate CommandOk(c: Command)
  {
    c.len <= COMMAND_MAX && c.outputs <= 1 && c.note != CONTINUE
  }

  /** The packet being filled has no room for another note or for the outputs, and must make way. */
  predicate NeedsBuffer(p: Pipe, style: PackStyle, c: Command)
  {
    p.filling && MayDefer(style, c) && Full(p, c.outputs)
  }

  /** Between operations there is always a buffer to fill: packets are under way only while one is filled. */
  lemma BufferFound(p: Pipe)
    requires Good(p)
    ensures var (q, e) := Acquire(p);
      && e == NoError && q == (if p.filling then p else Fill(p)) && Sane(q)
      && (p.locked ==> Good(q))
  {
    AcquireKeeps(p);
  }

  /** The transmit buffer has room for any command between operations. */
  lemma AlwaysRoom(p: Pipe, c: Command)
    requires Good(p) && CommandOk(c)
    ensures p.txlen + c.len <= TX_BUFFER && StartCommand(p, c.note, c.len) == (Pack(p, c.note, c.len), true)
  {
  }

  /** Every command that has gone out or is packed, in order. */
  function Wire(p: Pipe): (r: seq<Deferred>)
  {
    WireOf(p.sent) + p.packed
  }

  function WireOf(ss: seq<Sent>): (r: seq<Deferred>)
  {
    if ss == [] then [] else WireOf(ss[..|ss| - 1]) + ss[|ss| - 1].cmds
  }

  /** Commands in the packets that are neither noted nor waited for. */
  function StraysOf(ss: seq<Sent>): (n: int)
  {
    if ss == [] then 0 else StraysOf(ss[..|ss| - 1]) + Strays(ss[|ss| - 1])
  }

  /** Commands sent or packed that are neither noted nor waited for. */
  function Astray(p: Pipe): (n: int)
  {
    StraysOf(p.sent) + Extra(p)
  }

  lemma WireOfSnoc(ss: seq<Sent>, s: Sent)
    ensures WireOf(ss + [s]) == WireOf(ss) + s.cmds && StraysOf(ss + [s]) == StraysOf(ss) + Strays(s)
  {
    assert (ss + [s])[..|ss|] == ss;
  }

  /** The commands that a caller has asked for: all but the CONTINUEs. */
  function Real(ds: seq<Deferred>): (r: seq<Deferred>)
  {
    if ds == [] then []
    else
      var last := ds[|ds| - 1];
      Real(ds[..|ds| - 1]) + (if last == CONTINUE then [] else [last])
  }

  lemma RealSnoc(ds: seq<Deferred>, d: Deferred)
    ensures Real(ds + [d]) == Real(ds) + (if d == CONTINUE then [] else [d])
  {
    assert (ds + [d])[..|ds|] == ds;
  }

  /** A new packet starts with a CONTINUE. */
  function Continued(ds: seq<Deferred>, made: bool): (r: seq<Deferred>)
  {
    WithNote(ds, CONTINUE, made)
  }

  function WithNote(ds: seq<Deferred>, note: Deferred, more: bool): (r: seq<Deferred>)
  {
    if more then ds + [note] else ds
  }

  lemma ContinueOnWire(p: Pipe)
    requires Sane(p) && p.filling && Packed(p) && LinkSends(p)
    ensures var q := Continue(p).0; Wire(q) == Continued(Wire(p), q.filling) && Astray(q) == Astray(p)
  {
    ContinueKeeps(p);
    WireOfSnoc(p.sent, Deferrals(p));
  }

  /** The last packet sent ends with this command and was waited for. */
  predicate Awaited(p: Pipe, note: Deferred)
  {
    p.sent != [] && var s := p.sent[|p.sent| - 1]; s.sync && s.cmds != [] && s.cmds[|s.cmds| - 1] == note
  }

  /** The command is in a packet or will be in the next. */
  predicate OnWire(o: Outcome)
  {
    o.Queued? || o.Answered? || (o.Unsent? && o.kept)
  }

  /** Neither link lost nor memory misused nor a command refused for want of a buffer. */
  predicate Regular(o: Outcome)
  {
    o.NotLocked? || o.Queued? || o.Answered? || o.Unsent?
  }

  /** What is packed, noted and sent once a command has been dealt with, if the link is still up. */
  ghost predicate IssuedRight(g: Pipe, c: Command, made: bool, q: Pipe, o: Outcome)
  {
    && Good(q)
    && Wire(q) == WithNote(Continued(Wire(g), made), c.note, OnWire(o))
    && q.issued == WithNote(Continued(g.issued, made), c.note, o.Queued?)
    && Astray(q) == Astray(g) + (if o.Unsent? && o.kept then 1 else 0)
    && (o.Queued? ==> q.packed != [] && q.packed[|q.packed| - 1] == c.note)
    && (o.Answered? ==> Done(q) && Awaited(q, c.note) && q.packed == [])
    && (o.Unsent? ==> Done(q) && o.kept == q.locked && q.packed == (if o.kept then [c.note] else []))
  }

  /** A command is dealt with in order, and its outcome is regular unless the link was lost. */
  ghost predicate Issued(g: Pipe, c: Command, made: bool, q: Pipe, o: Outcome)
  {
    Sane(q) && Follows(g, q) && (Regular(o) || (o == LinkLost && !q.connected)) && (q.connected ==> IssuedRight(g, c, made, q, o))
  }

  lemma PlaceDeferred(g: Pipe, c: Command)
    requires Good(g) && g.filling && CommandOk(c) && !Full(g, c.outputs)
    ensures var (q, o) := Place(Pack(g, c.note, c.len), c, true); o == Queued && Issued(g, c, false, q, o)
  {
    var s := Pack(g, c.note, c.len);
    NoteKeeps(s, c.note);
    var q := Place(s, c, true).0;
    assert q.packed[Extra(q)..] == q.fillNotes;
    assert WireOf(g.sent) + (g.packed + [c.note]) == Wire(g) + [c.note];
  }

  /** A packet that ends with a command that is waited for. */
  function Waited(g: Pipe, note: Deferred): (packet: Sent)
  {
    Sent(g.packed + [note], |g.fillNotes|, true)
  }

  lemma PlaceWaited(g: Pipe, c: Command)
    requires Good(g) && g.filling && CommandOk(c)
    ensures var (q, o) := Place(Pack(g, c.note, c.len), c, false); o.Answered? && Issued(g, c, false, q, o)
  {
    var s, packet := Pack(g, c.note, c.len), Waited(g, c.note);
    assert DeferredOf(packet) == g.fillNotes;
    SendReceiveKeeps(s, true, packet);
    WireOfSnoc(s.sent, packet);
    assert WireOf(g.sent) + (g.packed + [c.note]) + [] == Wire(g) + [c.note];
  }

  /** What `Issue` needs of the packet being filled. */
  ghost predicate CanIssue(g: Pipe, c: Command, defer: bool)
  {
    Good(g) && g.filling && CommandOk(c) && (defer ==> !Full(g, c.outputs))
  }

  lemma IssueKeeps(g: Pipe, c: Command, defer: bool)
    requires CanIssue(g, c, defer)
    ensures var (q, o) := Issue(g, c, defer);
      (if defer then o == Queued else o.Answered?) && Issued(g, c, false, q, o)
  {
    AlwaysRoom(g, c);
    if defer {
      PlaceDeferred(g, c);
    } else {
      PlaceWaited(g, c);
    }
  }

  /**
   Exactly how a command ends. It is lost if room must be made and the link does not send. If room must be
   made and the packet whose buffer could come free has failed, it is not sent although a reply is waited for.
   Otherwise it is queued or waited for.
   */
  predicate PerformEnds(p: Pipe, style: PackStyle, c: Command, o: Outcome)
  {
    if !p.locked then o == NotLocked
    else if NeedsBuffer(p, style, c) && !LinkSends(p) then o == LinkLost
    else if NeedsBuffer(p, style, c) && Starved(p) then o.Unsent?
    else if MayDefer(style, c) && c.claimed then o == Queued
    else o.Answered?
  }

  /** The packet being filled makes way, and the next one starts with a CONTINUE. */
  predicate MakesWay(p: Pipe, style: PackStyle, c: Command)
  {
    p.locked && NeedsBuffer(p, style, c) && !Starved(p)
  }

  /** A command leaves everything in order and ends as it should. */
  ghost predicate PerformedWell(p: Pipe, style: PackStyle, c: Command, q: Pipe, o: Outcome)
  {
    PerformEnds(p, style, c, o) && Issued(p, c, MakesWay(p, style, c), q, o)
  }

  lemma PerformWithRoom(p: Pipe, style: PackStyle, c: Command)
    requires Good(p) && p.locked && CommandOk(c) && !NeedsBuffer(p, style, c)
    ensures var (q, o) := Perform(p, style, c); PerformedWell(p, style, c, q, o)
  {
    BufferFound(p);
    var g := Acquire(p).0;
    var defer := MayDefer(style, c) && c.claimed;
    IssueKeeps(g, c, defer);
    assert Perform(p, style, c) == Issue(g, c, defer);
    FollowsOn(p, g, Issue(g, c, defer).0);
  }

  lemma PerformMakingRoom(p: Pipe, style: PackStyle, c: Command)
    requires Good(p) && p.locked && CommandOk(c) && NeedsBuffer(p, style, c) && LinkSends(p) && !Starved(p)
    ensures var (q, o) := Perform(p, style, c); PerformedWell(p, style, c, q, o)
  {
    ContinueKeeps(p);
    ContinueOnWire(p);
    var (g, ok) := Continue(p);
    IssueKeeps(g, c, c.claimed);
    assert Perform(p, style, c) == Issue(g, c, c.claimed);
    FollowsOn(p, g, Issue(g, c, c.claimed).0);
  }

  /** A command that is packed while no buffer is being filled: the wait is for the packets before it. */
  lemma WaitsUnsent(g: Pipe, c: Command)
    requires Sane(g) && g.connected && g.locked && !g.filling && g.packed == [] && g.txlen == 0 && CommandOk(c)
    ensures var (q, o) := Issue(g, c, false); o.Unsent? && Issued(g, c, false, q, o)
  {
    var s := Pack(g, c.note, c.len);
    SendReceiveKeeps(s, true, Deferrals(s));
    assert WireOf(g.sent) + [] + [c.note] == WireOf(g.sent) + [c.note];
  }

  lemma PerformWithoutRoom(p: Pipe, style: PackStyle, c: Command)
    requires Good(p) && p.locked && CommandOk(c) && NeedsBuffer(p, style, c) && (!LinkSends(p) || Starved(p))
    ensures var (q, o) := Perform(p, style, c); PerformedWell(p, style, c, q, o)
  {
    ContinueKeeps(p);
    var g := Continue(p).0;
    if LinkSends(p) {
      ContinueOnWire(p);
      WaitsUnsent(g, c);
      assert Perform(p, style, c) == Issue(g, c, false);
      FollowsOn(p, g, Issue(g, c, false).0);
    }
  }

  lemma PerformKeeps(p: Pipe, style: PackStyle, c: Command)
    requires Good(p) && CommandOk(c)
    ensures var (q, o) := Perform(p, style, c); PerformedWell(p, style, c, q, o)
  {
    if p.locked {
      if !NeedsBuffer(p, style, c) {
        PerformWithRoom(p, style, c);
      } else if LinkSends(p) && !Starved(p) {
        PerformMakingRoom(p, style, c);
      } else {
        PerformWithoutRoom(p, style, c);
      }
    }
  }

  lemma FlushKeeps(p: Pipe)
    requires Good(p)
    ensures var (q, e) := Flush(p);
      && Sane(q) && Follows(p, q) && q.issued == p.issued
      && (q.connected ==> Good(q) && Done(q) && Notes(q.ran) == q.issued && Wire(q) == Wire(p) && Astray(q) == Astray(p))
  {
    if p.locked && !Done(p) {
      SendReceiveKeeps(p, false, Deferrals(p));
      WireOfSnoc(p.sent, Deferrals(p));
    }
    if Flush(p).0.connected {
      AllHandled(Flush(p).0);
    }
  }

  // ------------------------------------------------------------- whole runs

  predicate OpOk(op: Op)
  {
    op.Do? ==> CommandOk(op.c)
  }

  predicate OpsOk(ops: seq<Op>)
  {
    forall i :: 0 <= i < |ops| ==> OpOk(ops[i])
  }

  /** The commands that were accepted, in order: queued, answered or kept; only the queued ones if `queued`. */
  function Accepted(ops: seq<Op>, os: seq<Outcome>, queued: bool): (r: seq<Deferred>)
    requires |os| <= |ops|
  {
    if os == [] then [] else One(ops[0], os[0], queued) + Accepted(ops[1..], os[1..], queued)
  }

  function One(op: Op, o: Outcome, queued: bool): (r: seq<Deferred>)
  {
    if op.Do? && (o.Queued? || (OnWire(o) && !queued)) then [op.c.note] else []
  }

  /** How many commands were packed but not sent although they were waited for, and kept. */
  function Kept(os: seq<Outcome>): (n: nat)
  {
    if os == [] then 0 else OneKept(os[0]) + Kept(os[1..])
  }

  function OneKept(o: Outcome): (n: nat)
  {
    if o.Unsent? && o.kept then 1 else 0
  }

  /** What was asked for and accepted is what was added to the wire and to the notes. */
  ghost predicate Accounted(p: Pipe, q: Pipe, accepted: seq<Deferred>, queued: seq<Deferred>, kept: nat)
  {
    && Good(q)
    && Real(Wire(q)) == Real(Wire(p)) + accepted
    && Real(q.issued) == Real(p.issued) + queued
    && Astray(q) == Astray(p) + kept
  }

  lemma OneMoreReal(was: seq<Deferred>, made: bool, note: Deferred, more: bool)
    requires note != CONTINUE
    ensures Real(WithNote(Continued(was, made), note, more)) == Real(was) + (if more then [note] else [])
  {
    var c := Continued(was, made);
    RealSnoc(was, CONTINUE);
    RealSnoc(c, note);
    assert Real(was) + [] == Real(was) == Real(c);
  }

  /** The outcome of an operation as it should be: no memory misused, and no command refused for want of a buffer. */
  predicate Orderly(o: Outcome)
  {
    Regular(o) || o.Flushed? || o.LinkLost?
  }

  /** An operation leaves everything in order, and all that was accepted accounted for. */
  ghost predicate SteppedWell(p: Pipe, op: Op, q: Pipe, o: Outcome)
  {
    && Sane(q) && Follows(p, q) && Orderly(o)
    && (q.connected ==> Accounted(p, q, One(op, o, false), One(op, o, true), OneKept(o)))
  }

  lemma CommandAccounted(p: Pipe, c: Command, made: bool, q: Pipe, o: Outcome)
    requires CommandOk(c) && IssuedRight(p, c, made, q, o)
    ensures Accounted(p, q, One(Do(c), o, false), One(Do(c), o, true), OneKept(o))
  {
    OneMoreReal(Wire(p), made, c.note, OnWire(o));
    OneMoreReal(p.issued, made, c.note, o.Queued?);
  }

  lemma StepKeeps(p: Pipe, style: PackStyle, op: Op)
    requires Good(p) && OpOk(op)
    ensures var (q, o) := Step(p, style, op); SteppedWell(p, op, q, o)
  {
    match op {
      case FlushAll => FlushKeeps(p);
      case Do(c) =>
        PerformKeeps(p, style, c);
        var (q, o) := Perform(p, style, c);
        if q.connected {
          CommandAccounted(p, c, MakesWay(p, style, c), q, o);
        }
    }
  }

  /** Every step of the machine does. */
  ghost predicate StepsWell(step: (Pipe, Op) -> (Pipe, Outcome))
  {
    forall p, op {:trigger step(p, op)} :: Good(p) && OpOk(op) ==> SteppedWell(p, op, step(p, op).0, step(p, op).1)
  }

  lemma StepperStepsWell(style: PackStyle)
    ensures StepsWell(Stepper(style))
  {
    forall p, op | Good(p) && OpOk(op)
      ensures SteppedWell(p, op, Step(p, style, op).0, Step(p, style, op).1)
    {
      StepKeeps(p, style, op);
    }
  }

  /** The run came to its end. */
  predicate Completed(p: Pipe, ops: seq<Op>, os: seq<Outcome>)
  {
    |os| == |ops| && p.connected
  }

  lemma AccountedOn(p: Pipe, q: Pipe, r: Pipe, a: seq<Deferred>, b: seq<Deferred>, m: nat, c: seq<Deferred>, d: seq<Deferred>, n: nat)
    requires Accounted(p, q, a, b, m) && Accounted(q, r, c, d, n)
    ensures Accounted(p, r, a + c, b + d, m + n)
  {
    Regroup(Real(Wire(p)), a, c);
    Regroup(Real(p.issued), b, d);
  }

  predicate AllOrderly(os: seq<Outcome>)
  {
    forall i :: 0 <= i < |os| ==> Orderly(os[i])
  }

  ghost predicate RunRight(p: Pipe, ops: seq<Op>, q: Pipe, os: seq<Outcome>)
  {
    && |os| <= |ops| && Sane(q) && Follows(p, q) && AllOrderly(os) && (q.connected ==> |os| == |ops|)
    && (q.connected ==> Accounted(p, q, Accepted(ops, os, false), Accepted(ops, os, true), Kept(os)))
  }

  lemma RunRightOn(p: Pipe, q: Pipe, r: Pipe, ops: seq<Op>, o: Outcome, os: seq<Outcome>)
    requires ops != [] && SteppedWell(p, ops[0], q, o) && q.connected && RunRight(q, ops[1..], r, os)
    ensures RunRight(p, ops, r, [o] + os)
  {
    var all := [o] + os;
    FollowsOn(p, q, r);
    assert all[1..] == os;
    if r.connected {
      AccountedOn(p, q, r, One(ops[0], o, false), One(ops[0], o, true), OneKept(o),
        Accepted(ops[1..], os, false), Accepted(ops[1..], os, true), Kept(os));
    }
  }

  lemma RunOn(step: (Pipe, Op) -> (Pipe, Outcome), p: Pipe, op: Op, rest: seq<Op>, q: Pipe, o: Outcome)
    requires step(p, op) == (q, o)
    ensures Run(step, p, [op] + rest) ==
      if Over(q, o) then (q, [o]) else (Run(step, q, rest).0, [o] + Run(step, q, rest).1)
  {
    assert ([op] + rest)[1..] == rest;
  }

  lemma RunRightEmpty(p: Pipe)
    requires Good(p)
    ensures RunRight(p, [], p, [])
  {
    assert Real(Wire(p)) + [] == Real(Wire(p)) && Real(p.issued) + [] == Real(p.issued);
  }

  lemma RunRightOver(p: Pipe, q: Pipe, ops: seq<Op>, o: Outcome)
    requires ops != [] && SteppedWell(p, ops[0], q, o) && !q.connected
    ensures RunRight(p, ops, q, [o])
  {
  }

  /** One step of a run: it goes on exactly while the link is up. */
  lemma StepWell(step: (Pipe, Op) -> (Pipe, Outcome), p: Pipe, ops: seq<Op>, q: Pipe, o: Outcome)
    requires StepsWell(step) && Good(p) && OpsOk(ops) && ops != [] && step(p, ops[0]) == (q, o)
    ensures SteppedWell(p, ops[0], q, o) && OpsOk(ops[1..]) && (q.connected ==> Good(q)) && (Over(q, o) <==> !q.connected)
  {
    FirstOpOk(ops);
    assert SteppedWell(p, ops[0], step(p, ops[0]).0, step(p, ops[0]).1);
  }

  lemma {:induction false} RunKeeps(step: (Pipe, Op) -> (Pipe, Outcome), p: Pipe, ops: seq<Op>)
    requires StepsWell(step) && Good(p) && OpsOk(ops)
    ensures RunRight(p, ops, Run(step, p, ops).0, Run(step, p, ops).1)
    decreases |ops|
  {
    if ops == [] {
      RunRightEmpty(p);
    } else {
      var (q, o) := step(p, ops[0]);
      StepWell(step, p, ops, q, o);
      if q.connected {
        RunKeeps(step, q, ops[1..]);
        RunRightOn(p, q, Run(step, q, ops[1..]).0, ops, o, Run(step, q, ops[1..]).1);
      } else {
        RunRightOver(p, q, ops, o);
      }
    }
  }

  lemma FirstOpOk(ops: seq<Op>)
    requires OpsOk(ops) && ops != []
    ensures OpOk(ops[0]) && OpsOk(ops[1..])
  {
  }
}
