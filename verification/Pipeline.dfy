/**
 Deferred commands of an opened device, in place: four action buffers go round between a free list, the
 packet being filled and the queue of packets awaiting a reply.
 */
module Pipeline {
  import opened Common
  import opened PipeSteps
  import opened PipeRuns

  class Actions {
    var next: Actions?
    var deferred: seq<Deferred>
    var outputN: nat

    constructor (next: Actions?)
      ensures this.next == next && deferred == [] && outputN == 0
    {
      this.next, deferred, outputN := next, [], 0;
    }
  }

  class OpenJs {
    const packStyle: PackStyle
    var connected: bool
    var locked: bool
    var lockFail: bool

    var free: Actions?
    var fill: Actions?
    var nextActions: Actions?
    var lastActions: Actions?

    /** The transmit buffer: bytes used and commands in it. */
    var txlen: nat
    var packed: seq<Deferred>

    /** The link: whether each send works, the replies in the order they will come. */
    var sends: seq<bool>
    var replies: seq<seq<Response>>

    /** Handlers run so far. */
    var ran: seq<Ran>

    ghost const all: set<Actions>
    ghost var freeList: seq<Actions>
    ghost var pending: seq<Actions>
    /** The state as a value of the machine, with all that has happened. */
    ghost var now: Pipe

    static ghost function Following(list: seq<Actions>, i: nat): (next: Actions?)
    {
      if i + 1 < |list| then list[i + 1] else null
    }

    static ghost predicate Linked(head: Actions?, list: seq<Actions>)
      reads list`next
    {
      && head == (if list == [] then null else list[0])
      && (forall i :: 0 <= i < |list| ==> list[i].next == Following(list, i))
    }

    static ghost predicate Distinct(list: seq<Actions>)
    {
      forall i, j :: 0 <= i < j < |list| ==> list[i] != list[j]
    }

    /** The four buffers are partitioned among the free list, the pending queue and the fill slot. */
    ghost predicate Partitioned()
      reads this`fill, this`freeList, this`pending
    {
      && |freeList| + |pending| + (if fill == null then 0 else 1) == BUFFERS
      && Distinct(freeList) && Distinct(pending)
      && (forall i :: 0 <= i < |freeList| ==> freeList[i] in all && freeList[i] !in pending && freeList[i] != fill)
      && (forall i :: 0 <= i < |pending| ==> pending[i] in all && pending[i] != fill)
      && (fill != null ==> fill in all)
    }

    /** The partition, and the pointers that make it up. */
    ghost predicate Buffers()
      reads this`free, this`fill, this`nextActions, this`lastActions, this`freeList, this`pending, all`next
    {
      && Partitioned()
      && (fill != null ==> fill.next == null)
      && Linked(free, freeList) && Linked(nextActions, pending)
      && (pending != [] ==> lastActions == pending[|pending| - 1])
    }

    /** The link and the transmit buffer are as the machine has them. */
    ghost predicate Fields()
      reads this`now, this`connected, this`locked, this`lockFail, this`txlen, this`packed, this`sends, this`replies, this`ran
    {
      && connected == now.connected && locked == now.locked && lockFail == now.lockFail
      && txlen == now.txlen && packed == now.packed && sends == now.sends && replies == now.replies && ran == now.ran
    }

    /** The buffers in the queue hold what the machine has under way. */
    ghost predicate QueueNoted()
      reads this`now, this`pending, all`deferred
    {
      |now.notes| == |pending| && forall i :: 0 <= i < |pending| ==> pending[i] in all && pending[i].deferred == now.notes[i]
    }

    /** The buffers hold what the machine does. */
    ghost predicate Noted()
      reads this`now, this`fill, this`pending, all`deferred, all`outputN
    {
      && QueueNoted()
      && (fill != null <==> now.filling)
      && (fill != null ==> fill in all && fill.deferred == now.fillNotes && fill.outputN == now.outputs)
    }

    constructor OpenLocked(packStyle: PackStyle, sends: seq<bool>, replies: seq<seq<Response>>)
      ensures Buffers() && Noted() && Fields() && now == Start(sends, replies) && this.packStyle == packStyle
      ensures fresh(all) && |all| == BUFFERS
    {
      var a3 := new Actions(null);
      var a2 := new Actions(a3);
      var a1 := new Actions(a2);
      var a0 := new Actions(a1);
      free, fill, nextActions, lastActions := a0, null, null, null;
      freeList, pending, all := [a0, a1, a2, a3], [], {a0, a1, a2, a3};
      connected, locked, lockFail, txlen, packed, ran := true, true, false, 0, [], [];
      now := Start(sends, replies);
      this.packStyle, this.sends, this.replies := packStyle, sends, replies;
      new;
      FreshBuffers(a0, a1, a2, a3);
      FourElements(a0, a1, a2, a3);
    }

    lemma FreshBuffers(a0: Actions, a1: Actions, a2: Actions, a3: Actions)
      requires free == a0 && fill == null && nextActions == null && freeList == [a0, a1, a2, a3] && pending == []
      requires all == {a0, a1, a2, a3}
      requires a0.next == a1 && a1.next == a2 && a2.next == a3 && a3.next == null
      requires a0 != a1 && a0 != a2 && a0 != a3 && a1 != a2 && a1 != a3 && a2 != a3
      ensures Buffers()
    {
      assert Following(freeList, 0) == a1 && Following(freeList, 1) == a2 && Following(freeList, 2) == a3;
    }

    // ------------------------------------------------------------- buffers going round

    /** Sends the packet being filled; its action buffer joins the end of the pending queue. */
    method SendCommand(ghost packet: Sent)
      requires Buffers() && Noted() && Fields() && fill != null
      modifies this`now, this`connected, this`sends, this`txlen, this`packed
      modifies this`nextActions, this`lastActions, this`fill, this`pending, all`next
      ensures Buffers() && Noted() && Fields() && now == Send(old(now), packet)
    {
      ClientSend();
      if connected {
        LinkFill();
        label linked:
        NoteSent(packet);
        BuffersKept@linked();
      }
    }

    /** The client sends its transmit buffer, and starts on an empty one. */
    method ClientSend()
      requires Noted() && Fields()
      modifies this`now, this`connected, this`sends, this`txlen, this`packed
      ensures Noted() && Fields() && now == Emptied(old(now))
    {
      connected := sends != [] && sends[0];
      sends := if sends == [] then [] else sends[1..];
      txlen, packed := 0, [];
      now := Emptied(now);
    }

    method LinkFill()
      requires Buffers() && fill != null
      modifies this`nextActions, this`lastActions, this`fill, this`pending, all`next
      ensures Buffers() && fill == null && pending == old(pending) + [old(fill)]
    {
      if nextActions == null {
        nextActions := fill;
      } else {
        lastActions.next := fill;
      }
      lastActions := fill;
      pending, fill := pending + [fill], null;
    }

    /** What the fill buffer held goes with it to the end of the queue. */
    ghost method NoteSent(packet: Sent)
      requires Fields() && fill == null && |pending| == |now.notes| + 1
      requires forall i :: 0 <= i < |now.notes| ==> pending[i] in all && pending[i].deferred == now.notes[i]
      requires pending[|now.notes|] in all && pending[|now.notes|].deferred == now.fillNotes
      modifies this`now
      ensures Noted() && Fields() && now == Enqueued(old(now), packet)
    {
      now := Enqueued(now, packet);
    }

    // ------------------------------------------------------------- replies

    /** Takes the replies of one packet apart and runs the handlers, in the order of the commands. */
    method RunHandlers(list: seq<Deferred>, reply: seq<Response>) returns (error: Err)
      modifies this`ran, this`lockFail
      ensures ran == old(ran) + Runs(list, reply) && error == After(list, reply, |list|)
      ensures lockFail <==> old(lockFail) || LockRefused(list, reply, |list|)
    {
      error := NoError;
      ghost var runs := Runs(list, reply);
      for i := 0 to |list|
        invariant ran == old(ran) + runs[..i] && error == After(list, reply, i)
        invariant lockFail <==> old(lockFail) || LockRefused(list, reply, i)
      {
        if error == NoError {
          error := if i < |reply| then reply[i].status else ServerError;
        }
        assert error == Seen(list, reply, i) && runs[..i + 1] == runs[..i] + [Ran(list[i], error)];
        ran := ran + [Ran(list[i], error)];
        if list[i].lock && error != NoError {
          lockFail := true;
        }
        if list[i].handler && error == NoError && !reply[i].parsed {
          error := ServerError;
        }
      }
    }

    /** Takes the next reply for that of the oldest packet and runs its handlers. */
    method TakeReply(list: seq<Deferred>, sync: bool) returns (error: Err)
      requires Noted() && Fields() && now.notes != [] && list == now.notes[0] && replies != []
      modifies this`now, this`replies, this`ran, this`lockFail
      ensures Noted() && Fields() && now == Replied(old(now))
      ensures error == PacketError(list, old(now).replies[0], sync)
    {
      var reply := replies[0];
      replies := replies[1..];
      error := ReadReply(list, reply, sync);
      now := Replied(now);
    }

    /** Runs the handlers of a packet, and then takes the reply to a last command if that is asked for. */
    method ReadReply(list: seq<Deferred>, reply: seq<Response>, sync: bool) returns (error: Err)
      modifies this`ran, this`lockFail
      ensures ran == old(ran) + Runs(list, reply) && error == PacketError(list, reply, sync)
      ensures lockFail <==> old(lockFail) || LockRefused(list, reply, |list|)
    {
      error := RunHandlers(list, reply);
      if error == NoError && sync {
        error := if |list| < |reply| then reply[|list|].status else ServerError;
      }
    }

    /** The buffer of the answered packet goes from the head of the pending queue to the head of the free list. */
    method Recycle()
      requires Buffers() && Noted() && pending != []
      modifies this`nextActions, this`free, this`freeList, this`pending, this`now, all`next
      ensures Buffers() && Noted() && now == Recycled(old(now))
      ensures pending == old(pending)[1..] && freeList == [old(pending)[0]] + old(freeList)
    {
      FreeOldest();
      label freed:
      now := Recycled(now);
      BuffersKept@freed();
    }

    method FreeOldest()
      requires Buffers() && pending != []
      modifies this`nextActions, this`free, this`freeList, this`pending, all`next
      ensures Buffers() && pending == old(pending)[1..] && freeList == [old(pending)[0]] + old(freeList)
    {
      var actions: Actions := nextActions;
      assert actions == pending[0] && actions in pending;
      nextActions := actions.next;
      actions.next := free;
      free := actions;
      freeList, pending := [actions] + freeList, pending[1..];
    }

    /** Waits for the reply to the oldest packet; `sync` asks for the reply to a last command as well. */
    method ReceiveResponse(sync: bool) returns (error: Err)
      requires Buffers() && Noted() && Fields() && pending != []
      modifies this`now, this`replies, this`ran, this`lockFail, this`nextActions, this`free, this`freeList, this`pending
      modifies all`next
      ensures Buffers() && Noted() && Fields() && (now, error) == Receive(old(now), sync)
    {
      if replies == [] {
        return NetDown;
      }
      error := AnswerNext(sync);
    }

    /** The handlers of the oldest packet run, and its buffer is free again. */
    method AnswerNext(sync: bool) returns (error: Err)
      requires Buffers() && Noted() && Fields() && pending != [] && replies != []
      modifies this`now, this`replies, this`ran, this`lockFail, this`nextActions, this`free, this`freeList, this`pending
      modifies all`next
      ensures Buffers() && Noted() && Fields() && now == Answer(old(now))
      ensures error == PacketError(old(now).notes[0], old(now).replies[0], sync)
    {
      error := AnswerOldest(sync);
      Recycle();
    }

    /** The handlers of the oldest packet run, its buffer still in the queue. */
    method AnswerOldest(sync: bool) returns (error: Err)
      requires Buffers() && Noted() && Fields() && pending != [] && replies != []
      modifies this`now, this`replies, this`ran, this`lockFail
      ensures Buffers() && Noted() && Fields() && now == Replied(old(now))
      ensures error == PacketError(old(now).notes[0], old(now).replies[0], sync)
    {
      var list := Oldest();
      error := TakeReply(list, sync);
    }

    /** What is noted in the buffer at the head of the queue. */
    method Oldest() returns (list: seq<Deferred>)
      requires Buffers() && Noted() && pending != []
      ensures list == now.notes[0]
    {
      assert nextActions == pending[0];
      list := nextActions.deferred;
    }

    // ------------------------------------------------------------- filling buffers

    /** The head of the free list is cleared and becomes the fill buffer. */
    method TakeFree()
      requires Buffers() && Noted() && Fields() && fill == null && free != null
      modifies this`now, this`fill, this`free, this`freeList, all
      ensures Buffers() && Noted() && Fields() && now == Fill(old(now))
    {
      assert free == freeList[0];
      Clear(free);
      Unlink();
      Refill();
    }

    ghost method Refill()
      requires Fields() && QueueNoted() && fill != null && fill in all && fill.deferred == [] && fill.outputN == 0
      modifies this`now
      ensures Noted() && Fields() && now == Fill(old(now))
    {
      now := Fill(now);
    }

    method Clear(a: Actions)
      requires Buffers() && Noted() && fill == null && a in freeList && a in all
      modifies a`deferred, a`outputN
      ensures Noted() && a.deferred == [] && a.outputN == 0
    {
      assert forall i :: 0 <= i < |pending| ==> pending[i] != a;
      a.deferred, a.outputN := [], 0;
    }

    method Unlink()
      requires Buffers() && fill == null && free != null && free in all
      modifies this`fill, this`free, this`freeList, all`next
      ensures Buffers() && fill == old(free) && freeList == old(freeList)[1..]
    {
      fill := free;
      free := fill.next;
      fill.next := null;
      freeList := freeList[1..];
    }

    /** There is a buffer to fill, after waiting for a reply if none is free. */
    method Acquire() returns (error: Err)
      requires Buffers() && Noted() && Fields()
      modifies this`now, this`fill, this`free, this`freeList, this`replies, this`ran, this`lockFail
      modifies this`nextActions, this`pending, all
      ensures Buffers() && Noted() && Fields() && (now, error) == PipeSteps.Acquire(old(now))
    {
      error := NoError;
      if fill == null {
        if free == null {
          assert |pending| == BUFFERS;
          error := ReceiveResponse(false);
          if error != NoError {
            return;
          }
        }
        TakeFree();
      }
    }

    /** Notes in the fill buffer that the command just packed is assumed to succeed. */
    method AssumeSuccess(note: Deferred)
      requires Buffers() && Noted() && Fields() && fill != null && |fill.deferred| < DEFERRED_MAX
      modifies this`now, all`deferred
      ensures Buffers() && Noted() && Fields() && now == Note(old(now), note)
    {
      assert forall i :: 0 <= i < |pending| ==> pending[i] != fill;
      fill.deferred := fill.deferred + [note];
      now := Note(now, note);
    }

    /** The command's output comes later and the fill buffer waits for it. */
    method ExpectOutput(n: nat)
      requires Buffers() && Noted() && Fields() && fill != null && fill.outputN + n <= OUTPUT_MAX
      modifies this`now, all`outputN
      ensures Buffers() && Noted() && Fields() && now == Expect(old(now), n)
    {
      assert forall i :: 0 <= i < |pending| ==> pending[i] != fill;
      fill.outputN := fill.outputN + n;
      now := Expect(now, n);
    }

    /** Sends what is packed without waiting, and starts the next packet with a CONTINUE. */
    method SendContinue() returns (ok: bool)
      requires Buffers() && Noted() && Fields() && fill != null
      modifies this`now, this`connected, this`sends, this`lastActions, this`packed, this`txlen
      modifies this`fill, this`free, this`freeList, this`replies, this`ran, this`lockFail
      modifies this`nextActions, this`pending, all
      ensures Buffers() && Noted() && Fields() && (now, ok) == Continue(old(now))
    {
      SendCommand(Deferrals(now));
      if !connected {
        return false;
      }
      var error := Acquire();
      if error != NoError {
        return false;
      }
      PackContinue();
      ok := !lockFail;
    }

    method PackContinue()
      requires Buffers() && Noted() && Fields() && fill != null && |fill.deferred| < DEFERRED_MAX
      modifies this`now, this`packed, this`txlen, all`deferred
      ensures Buffers() && Noted() && Fields() && now == Note(Pack(old(now), CONTINUE, CONTINUE_LENGTH), CONTINUE)
    {
      AddCommand(CONTINUE, CONTINUE_LENGTH);
      AssumeSuccess(CONTINUE);
    }

    method AddCommand(command: Deferred, len: nat)
      requires Noted() && Fields()
      modifies this`now, this`packed, this`txlen
      ensures Noted() && Fields() && now == Pack(old(now), command, len)
    {
      packed, txlen := packed + [command], txlen + len;
      now := Pack(now, command, len);
    }

    // ------------------------------------------------------------- waiting

    /** Waits for the replies to all pending packets; the last one's may include that of a final command. */
    method Drain(sync: bool) returns (error: Err)
      requires Buffers() && Noted() && Fields()
      modifies this`now, this`replies, this`ran, this`lockFail, this`nextActions, this`free, this`freeList, this`pending
      modifies all`next
      ensures Buffers() && Noted() && Fields() && (now, error) == PipeSteps.Drain(old(now), sync, NoError)
    {
      error := NoError;
      ghost var start := now;
      while nextActions != null
        invariant Buffers() && Noted() && Fields() && PipeSteps.Drain(now, sync, error) == PipeSteps.Drain(start, sync, NoError)
        decreases |pending|
      {
        assert nextActions == pending[0] && (nextActions.next == null <==> |pending| == 1);
        var answer := ReceiveResponse(sync && nextActions.next == null);
        if Fatal(answer) {
          return answer;
        }
        error := if error == NoError then answer else error;
      }
    }

    /** Sends what is being filled and waits for every reply. */
    method SendReceive(sync: bool, ghost packet: Sent) returns (error: Err)
      requires Buffers() && Noted() && Fields() && connected
      modifies this`now, this`connected, this`locked, this`sends, this`lastActions, this`packed, this`txlen
      modifies this`fill
      modifies this`now, this`replies, this`ran, this`lockFail, this`nextActions, this`free, this`freeList, this`pending
      modifies all`next
      ensures Buffers() && Noted() && Fields() && (now, error) == PipeSteps.SendReceive(old(now), sync, packet)
    {
      if fill != null {
        SendCommand(packet);
        if !connected {
          return NetDown;
        }
      }
      error := WaitForAll(sync);
    }

    method WaitForAll(sync: bool) returns (error: Err)
      requires Buffers() && Noted() && Fields()
      modifies this`now, this`connected, this`locked, this`packed, this`txlen
      modifies this`now, this`replies, this`ran, this`lockFail, this`nextActions, this`free, this`freeList, this`pending
      modifies all`next
      ensures Buffers() && Noted() && Fields()
      ensures var (d, e) := PipeSteps.Drain(old(now), sync, NoError); (now, error) == (PipeSteps.TidyUp(d, e), e)
    {
      error := Drain(sync);
      label drained:
      TidyUp(error);
      BuffersKept@drained();
    }

    /** The buffers are where they were if no pointer to one has changed. */
    twostate lemma BuffersKept()
      requires old(Buffers()) && unchanged(all`next)
      requires unchanged(this`free, this`fill, this`nextActions, this`lastActions, this`freeList, this`pending)
      ensures Buffers()
    {
    }

    /** A fatal error ends the connection; a lock found refused goes, and with it what is packed. */
    method TidyUp(error: Err)
      requires Noted() && Fields()
      modifies this`now, this`connected, this`locked, this`packed, this`txlen
      ensures Noted() && Fields() && now == PipeSteps.TidyUp(old(now), error)
    {
      connected := !Fatal(error);
      if connected && locked && lockFail {
        locked, txlen, packed := false, 0, [];
      }
      now := PipeSteps.TidyUp(now, error);
    }

    /** Everything issued so far is sent and answered. */
    method Flush() returns (error: Err)
      requires Buffers() && Noted() && Fields() && connected
      modifies this`now, this`connected, this`locked, this`sends, this`lastActions, this`packed, this`txlen
      modifies this`fill
      modifies this`now, this`replies, this`ran, this`lockFail, this`nextActions, this`free, this`freeList, this`pending
      modifies all`next
      ensures Buffers() && Noted() && Fields() && (now, error) == PipeSteps.Flush(old(now))
    {
      error := NoError;
      if locked && (fill != null || nextActions != null) {
        error := SendReceive(false, Deferrals(now));
      }
    }

    // ------------------------------------------------------------- one command

    /** Has a buffer to fill and decides whether to defer the command. */
    method GetTxMessage(write: nat, n: nat) returns (error: Err, defer: bool)
      requires Buffers() && Noted() && Fields()
      modifies this`now, this`connected, this`sends, this`lastActions, this`packed, this`txlen
      modifies this`fill, this`free, this`freeList, this`replies, this`ran, this`lockFail
      modifies this`nextActions, this`pending, all
      ensures Buffers() && Noted() && Fields()
      ensures (now, error, defer) == GetTx(old(now), Deferrable(packStyle, write, n), n)
    {
      defer := false;
      error := Acquire();
      if error == NoError && Deferrable(packStyle, write, n) {
        if |fill.deferred| >= DEFERRED_MAX || fill.outputN + n > OUTPUT_MAX {
          defer := SendContinue();
        } else {
          defer := true;
        }
      }
    }

    /** Packs a command, in the next packet if this one has no room left. */
    method StartCommand(command: Deferred, len: nat) returns (started: bool)
      requires Buffers() && Noted() && Fields() && (txlen + len > TX_BUFFER ==> fill != null)
      modifies this`now, this`connected, this`sends, this`lastActions, this`packed, this`txlen
      modifies this`fill, this`free, this`freeList, this`replies, this`ran, this`lockFail
      modifies this`nextActions, this`pending, all
      ensures Buffers() && Noted() && Fields() && (now, started) == PipeSteps.StartCommand(old(now), command, len)
    {
      if txlen + len <= TX_BUFFER {
        AddCommand(command, len);
        return true;
      }
      started := StartNext(command, len);
    }

    method StartNext(command: Deferred, len: nat) returns (started: bool)
      requires Buffers() && Noted() && Fields() && fill != null
      modifies this`now, this`connected, this`sends, this`lastActions, this`packed, this`txlen
      modifies this`fill, this`free, this`freeList, this`replies, this`ran, this`lockFail
      modifies this`nextActions, this`pending, all
      ensures Buffers() && Noted() && Fields()
      ensures var (c, ok) := Continue(old(now));
        (now, started) == if ok && c.txlen + len <= TX_BUFFER then (Pack(c, command, len), true) else (c, false)
    {
      started := SendContinue();
      started := started && txlen + len <= TX_BUFFER;
      if started {
        AddCommand(command, len);
      }
    }

    /** Notes a packed command, or sends it and waits for its reply. */
    method Place(c: Command, defer: bool) returns (o: Outcome)
      requires Buffers() && Noted() && Fields() && connected && fill != null
      requires defer ==> |fill.deferred| < DEFERRED_MAX && fill.outputN + c.outputs <= OUTPUT_MAX
      modifies this, all
      ensures Buffers() && Noted() && Fields() && (now, o) == PipeSteps.Place(old(now), c, defer)
    {
      if defer {
        AssumeSuccess(c.note);
        ExpectOutput(c.outputs);
        return Queued;
      }
      var error := SendReceive(true, Sent(packed, |fill.deferred|, true));
      o := Answered(error);
    }

    /** Packs a command, then leaves it there or waits for its reply. */
    method Issue(c: Command, defer: bool) returns (o: Outcome)
      requires Buffers() && Noted() && Fields() && CanStart(now, c, defer)
      modifies this, all
      ensures Buffers() && Noted() && Fields() && (now, o) == PipeSteps.Issue(old(now), c, defer)
    {
      StartRoom(now, c, defer);
      var started := StartCommand(c.note, c.len);
      if !connected {
        return LinkLost;
      }
      if fill == null {
        if defer {
          return NullDereference;
        }
        var error := SendReceive(true, Deferrals(now));
        return Unsent(error, locked);
      }
      if !started {
        return Headless;
      }
      o := Place(c, defer);
    }

    /** One command of the locked device. */
    method Perform(c: Command) returns (o: Outcome)
      requires Buffers() && Noted() && Fields() && Good(now) && CommandOk(c)
      modifies this, all
      ensures Buffers() && Noted() && Fields() && (now, o) == PipeSteps.Perform(old(now), packStyle, c)
    {
      if !locked {
        return NotLocked;
      }
      GetTxStarts(now, packStyle, c);
      var error, defer := GetTxMessage(c.write, c.outputs);
      if error != NoError {
        return Refused(error);
      }
      if !connected {
        return LinkLost;
      }
      o := Issue(c, defer && c.claimed);
    }

    // ------------------------------------------------------------- whole runs

    method Step(op: Op) returns (o: Outcome)
      requires Buffers() && Noted() && Fields() && Good(now) && OpOk(op)
      modifies this, all
      ensures Buffers() && Noted() && Fields() && (now, o) == PipeSteps.Step(old(now), packStyle, op)
    {
      match op
      case Do(c) => o := Perform(c);
      case FlushAll =>
        var error := Flush();
        o := Flushed(error);
    }

    /** Any sequence of commands and flushes, up to the first that goes wrong. */
    method Run(ops: seq<Op>) returns (os: seq<Outcome>)
      requires Buffers() && Noted() && Fields() && Good(now) && OpsOk(ops)
      modifies this, all
      ensures Buffers() && Noted() && Fields() && (now, os) == PipeSteps.Run(Stepper(packStyle), old(now), ops)
    {
      StepperStepsWell(packStyle);
      os := RunWith(ops, Stepper(packStyle));
    }

    method RunWith(ops: seq<Op>, ghost step: (Pipe, PipeSteps.Op) -> (Pipe, Outcome)) returns (os: seq<Outcome>)
      requires Buffers() && Noted() && Fields() && Good(now) && OpsOk(ops) && step == Stepper(packStyle) && StepsWell(step)
      modifies this, all
      ensures Buffers() && Noted() && Fields() && (now, os) == PipeSteps.Run(step, old(now), ops)
    {
      os := [];
      ghost var start := now;
      var i := 0;
      RunStarts(step, start, ops);
      while i < |ops|
        invariant i <= |ops| && Buffers() && Noted() && Fields() && Good(now)
        invariant RunSoFar(step, start, ops, now, i, os)
      {
        ghost var before := now;
        assert OpOk(ops[i]);
        var o := Step(ops[i]);
        assert (now, o) == step(before, ops[i]);
        RunNext(step, start, ops, before, i, os, now, o);
        os := os + [o];
        if !connected || Defect(o) {
          return;
        }
        i := i + 1;
      }
      RunEnds(step, start, ops, now, os);
    }

    /** The four buffers are exactly those on the free list, in the queue and in the fill slot, each in one place. */
    lemma Partition()
      requires Buffers() && |all| == BUFFERS
      ensures all == Elements(freeList) + Elements(pending) + (if fill == null then {} else {fill})
      ensures Elements(freeList) !! Elements(pending)
      ensures fill != null ==> fill !in Elements(freeList) && fill !in Elements(pending)
    {
      var f, p := Elements(freeList), Elements(pending);
      var slot: set<Actions> := if fill == null then {} else {fill};
      CountDistinct(freeList);
      CountDistinct(pending);
      assert f !! p && f !! slot && p !! slot;
      assert |f + p + slot| == BUFFERS && f + p + slot <= all;
      SubsetOfSameSize(f + p + slot, all);
    }
  }

  /** What `Issue` needs: room for a note if it defers, and no overflow without a packet being filled. */
  ghost predicate CanStart(p: Pipe, c: Command, defer: bool)
  {
    && p.connected && Sane(p) && c.outputs <= OUTPUT_MAX
    && (if p.filling then Packed(p) && (defer ==> !Full(p, c.outputs)) else !defer && p.txlen + c.len <= TX_BUFFER)
  }

  lemma StartRoom(p: Pipe, c: Command, defer: bool)
    requires CanStart(p, c, defer)
    ensures var (s, started) := StartCommand(p, c.note, c.len);
      started && s.filling && defer ==> |s.fillNotes| < DEFERRED_MAX && s.outputs + c.outputs <= OUTPUT_MAX
  {
    if p.filling && p.txlen + c.len > TX_BUFFER {
      ContinueKeeps(p);
    }
  }

  lemma GetTxStarts(p: Pipe, style: PackStyle, c: Command)
    requires Good(p) && p.locked && CommandOk(c)
    ensures var (g, e, defer) := GetTx(p, MayDefer(style, c), c.outputs);
      e == NoError && g.connected ==> CanStart(g, c, defer && c.claimed)
  {
    BufferFound(p);
    if NeedsBuffer(p, style, c) {
      ContinueKeeps(p);
    }
  }

  /** The whole run is what happened so far and the run of the rest from here. */
  ghost predicate RunSoFar(step: (Pipe, Op) -> (Pipe, Outcome), start: Pipe, ops: seq<Op>, p: Pipe, i: nat, os: seq<Outcome>)
    requires i <= |ops|
  {
    var rest := Run(step, p, ops[i..]);
    Run(step, start, ops) == (rest.0, os + rest.1)
  }

  lemma RunStarts(step: (Pipe, Op) -> (Pipe, Outcome), p: Pipe, ops: seq<Op>)
    ensures RunSoFar(step, p, ops, p, 0, [])
  {
    assert ops[0..] == ops;
    assert [] + Run(step, p, ops).1 == Run(step, p, ops).1;
  }

  lemma RunNext(step: (Pipe, Op) -> (Pipe, Outcome), start: Pipe, ops: seq<Op>, p: Pipe, i: nat, os: seq<Outcome>, q: Pipe, o: Outcome)
    requires i < |ops| && RunSoFar(step, start, ops, p, i, os) && step(p, ops[i]) == (q, o)
    ensures if Over(q, o) then Run(step, start, ops) == (q, os + [o]) else RunSoFar(step, start, ops, q, i + 1, os + [o])
  {
    assert ops[i..] == [ops[i]] + ops[i + 1..];
    RunOn(step, p, ops[i], ops[i + 1..], q, o);
    var rest := Run(step, q, ops[i + 1..]).1;
    assert os + ([o] + rest) == os + [o] + rest;
  }

  lemma RunEnds(step: (Pipe, Op) -> (Pipe, Outcome), start: Pipe, ops: seq<Op>, p: Pipe, os: seq<Outcome>)
    requires RunSoFar(step, start, ops, p, |ops|, os)
    ensures Run(step, start, ops) == (p, os)
  {
    assert ops[|ops|..] == [] && os + [] == os;
  }

  lemma FourElements<T>(a: T, b: T, c: T, d: T)
    requires a != b && a != c && a != d && b != c && b != d && c != d
    ensures |{a, b, c, d}| == 4
  {
    assert {a, b, c, d} == {a, b, c} + {d} && {a, b, c} == {a, b} + {c};
  }

  ghost function Elements(list: seq<Actions>): (s: set<Actions>)
  {
    set a | a in list
  }

  lemma {:induction false} CountDistinct(list: seq<Actions>)
    requires OpenJs.Distinct(list)
    ensures |Elements(list)| == |list|
  {
    if list != [] {
      var init, last := list[..|list| - 1], list[|list| - 1];
      CountDistinct(init);
      assert list == init + [last];
      assert last !in init;
      assert Elements(list) == Elements(init) + {last};
    }
  }

  lemma SubsetOfSameSize(a: set<Actions>, b: set<Actions>)
    requires a <= b && |a| == |b|
    ensures a == b
  {
    assert |b - a| == |b| - |a|;
  }
}
