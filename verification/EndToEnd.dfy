/** Both ends of the link together: what one end frames, the other ends up holding. */
module EndToEnd {
  import opened Bytes
  import opened Common
  import opened Framing
  import opened RxDemux
  import opened TxQueue
  import opened TxLink
  import opened RxLink

  /** Whatever part of the wire has been received, its packets are the first that were framed; all of it, all of them. */
  lemma PacketsRoundTrip(ops: seq<Op>, taken: seq<byte>)
    requires OpsOk(ops) && taken <= FrameAll(Exec(ops).sent)
    ensures Parse(taken) <= Exec(ops).sent
    ensures taken == FrameAll(Exec(ops).sent) ==> Parse(taken) == Exec(ops).sent
  {
    var sent := Exec(ops).sent;
    ParseOfPrefix(sent, taken);
    ParseUndoesFrame(sent, []);
    assert FrameAll(sent) + [] == FrameAll(sent);
  }

  /** What one link has received of what another has written are the first packets that one has framed. */
  lemma LinksAgree(tx: TxLink, rx: RxLink)
    requires tx.Valid() && rx.Valid() && rx.taken <= tx.wire
    ensures rx.packets <= tx.sent
    ensures tx.open && tx.Idle() && rx.taken == tx.wire ==> rx.packets == tx.sent
  {
    rx.PacketsAreParsed();
    PacketsRoundTrip(tx.ops, rx.taken);
    if tx.open && tx.Idle() {
      assert tx.Pending() == [];
    }
  }

  /**
   A sender that has written everything and a receiver that was brought all of it: the same packets at both ends,
   and the messages of the command channel at the one are those of the other, one by one.
   */
  lemma AllArrives(tx: TxLink, rx: RxLink)
    requires tx.Valid() && tx.open && tx.Idle() && rx.Valid() && rx.stream == tx.wire && rx.incoming == []
    ensures rx.packets == tx.sent && rx.d.cmds == PayloadsOn(tx.sent, 0) && rx.d.notes == PayloadsOn(tx.sent, 1)
  {
    assert rx.taken == rx.taken + rx.incoming == tx.wire;
    LinksAgree(tx, rx);
    RepliesInOrder(rx.events, rx.d);
  }

  /**
   Sender and receiver of one direction: the FIFO data activated at one end is what the
   buffers of the same channel hold at the other, followed by what has not been sent yet.
   */
  lemma ChannelRoundTrip(ops: seq<Op>, es: seq<Event>, d: Demux, m: nat)
    requires OpsOk(ops) && WellPaired(ops) && m < CHANNELS
    requires Reaches(es, d) && Arrivals(es) == Parse(FrameAll(Exec(ops).sent))
    ensures DemuxOk(d)
    ensures Contents(d.chans[m].fifos) + Rest(Exec(ops).q.fifos, m) == TxQueue.Activated(ops, m)
  {
    PacketsRoundTrip(ops, FrameAll(Exec(ops).sent));
    ChannelConserved(es, d, m);
    ChannelOrder(ops, m);
  }

  /** The data of each FIFO activated on a channel, in order. */
  ghost function Sources(ops: seq<Op>, m: nat): (r: seq<seq<byte>>)
  {
    if ops == [] then []
    else
      var op := ops[|ops| - 1];
      Sources(ops[..|ops| - 1], m) + (if op.Activate? && op.f.mux == m then [op.f.data] else [])
  }

  lemma {:induction false} SourcesFlatten(ops: seq<Op>, m: nat)
    ensures Flatten(Sources(ops, m)) == TxQueue.Activated(ops, m)
  {
    if ops != [] {
      var pre, op := ops[..|ops| - 1], ops[|ops| - 1];
      SourcesFlatten(pre, m);
      if op.Activate? && op.f.mux == m {
        FlattenSnoc(Sources(pre, m), op.f.data);
      } else {
        assert Sources(pre, m) + [] == Sources(pre, m);
      }
    }
  }

  /** Receive buffers of the same lengths as the sources, in the same order. */
  ghost predicate Mirrors(fifos: seq<RFifo>, sources: seq<seq<byte>>)
  {
    |fifos| == |sources| && forall i :: 0 <= i < |fifos| ==> fifos[i].cap == |sources[i]|
  }

  /** Full buffers of matching lengths with matching bytes overall match one by one. */
  lemma {:induction false} SplitByLength(fifos: seq<RFifo>, sources: seq<seq<byte>>)
    requires Mirrors(fifos, sources) && Contents(fifos) == Flatten(sources)
    requires forall i :: 0 <= i < |fifos| ==> |fifos[i].got| <= fifos[i].cap
    ensures forall i :: 0 <= i < |fifos| ==> fifos[i].got == sources[i]
    decreases |fifos|
  {
    if fifos != [] {
      var n := |fifos| - 1;
      var init, last := fifos[..n], sources[..n];
      assert sources == last + [sources[n]];
      FlattenSnoc(last, sources[n]);
      ContentsBound(init, last);
      assert |fifos[n].got| == |sources[n]|;
      assert (Contents(init) + fifos[n].got)[|Contents(init)|..] == fifos[n].got;
      assert (Flatten(last) + sources[n])[|Flatten(last)|..] == sources[n];
      assert (Contents(init) + fifos[n].got)[..|Contents(init)|] == Contents(init);
      assert (Flatten(last) + sources[n])[..|Flatten(last)|] == Flatten(last);
      SplitByLength(init, last);
    }
  }

  lemma {:induction false} ContentsBound(fifos: seq<RFifo>, sources: seq<seq<byte>>)
    requires Mirrors(fifos, sources)
    requires forall i :: 0 <= i < |fifos| ==> |fifos[i].got| <= fifos[i].cap
    ensures |Contents(fifos)| <= |Flatten(sources)|
    decreases |fifos|
  {
    if fifos != [] {
      var n := |fifos| - 1;
      assert sources == sources[..n] + [sources[n]];
      FlattenSnoc(sources[..n], sources[n]);
      ContentsBound(fifos[..n], sources[..n]);
    }
  }

  /**
   End to end: when the sender has emptied its queue and all its bytes have come, every receive
   buffer activated to mirror a FIFO holds exactly that FIFO's data.
   */
  lemma BuffersRoundTrip(ops: seq<Op>, es: seq<Event>, d: Demux, m: nat)
    requires OpsOk(ops) && WellPaired(ops) && Exec(ops).q.fifos == [] && m < CHANNELS
    requires Reaches(es, d) && Arrivals(es) == Parse(FrameAll(Exec(ops).sent))
    requires DemuxOk(d) && Mirrors(d.chans[m].fifos, Sources(ops, m))
    ensures forall i :: 0 <= i < |d.chans[m].fifos| ==> d.chans[m].fifos[i].got == Sources(ops, m)[i]
  {
    ChannelRoundTrip(ops, es, d, m);
    SourcesFlatten(ops, m);
    SplitByLength(d.chans[m].fifos, Sources(ops, m));
  }

  /**
   The two links of one direction: once the sender is idle with nothing queued and all it wrote has come, the
   receive buffers of a channel that mirror the FIFOs activated hold just their data.
   */
  lemma LinkBuffersAgree(tx: TxLink, rx: RxLink, m: nat)
    requires tx.Valid() && tx.open && tx.Idle() && tx.queue == [] && WellPaired(tx.ops) && m < CHANNELS
    requires rx.Valid() && rx.taken == tx.wire && NothingLost(rx.events)
    requires DemuxOk(rx.d) && Mirrors(rx.d.chans[m].fifos, Sources(tx.ops, m))
    ensures forall i :: 0 <= i < |rx.d.chans[m].fifos| ==> rx.d.chans[m].fifos[i].got == Sources(tx.ops, m)[i]
  {
    LinksAgree(tx, rx);
    PacketsRoundTrip(tx.ops, FrameAll(tx.sent));
    BuffersRoundTrip(tx.ops, rx.events, rx.d, m);
  }
}
