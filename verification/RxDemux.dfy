/**
 What the receiving end makes of a list of packets: command replies, notifications,
 and for each FIFO channel the buffers activated on it, filled one after the other.
 */
module RxDemux {
  import opened Bytes
  import opened Common
  import opened Framing

  const FIFO_MIN := 4
  const CHANNELS := 12

  /** A receive buffer of known length and what has arrived in it. */
  datatype RFifo = RFifo(cap: nat, got: seq<byte>)

  /** Every buffer activated on a channel; those before `head` are full and out of the queue. */
  datatype Channel = Channel(fifos: seq<RFifo>, head: nat)

  datatype Demux = Demux(cmds: seq<seq<byte>>, notes: seq<seq<byte>>, chans: seq<Channel>)

  predicate ChannelOk(c: Channel)
  {
    && c.head <= |c.fifos|
    && (forall i :: 0 <= i < c.head ==> |c.fifos[i].got| == c.fifos[i].cap)
    && (forall i :: c.head <= i < |c.fifos| ==> |c.fifos[i].got| < c.fifos[i].cap)
    && (forall i :: c.head < i < |c.fifos| ==> c.fifos[i].got == [])
  }

  predicate DemuxOk(d: Demux)
  {
    |d.chans| == CHANNELS && forall m :: 0 <= m < CHANNELS ==> ChannelOk(d.chans[m])
  }

  function Empty(): (d: Demux)
    ensures DemuxOk(d)
  {
    Demux([], [], seq(CHANNELS, _ => Channel([], 0)))
  }

  /** A packet of this length does not overrun the waiting buffer. */
  predicate Fits(c: Channel, len: nat)
    requires ChannelOk(c)
  {
    c.head < |c.fifos| ==> |c.fifos[c.head].got| + len <= c.fifos[c.head].cap
  }

  /** The payload goes to the buffer at the head, which leaves the queue when full; without one it is lost. */
  function Fill(c: Channel, payload: seq<byte>): (r: Channel)
    requires ChannelOk(c) && Fits(c, |payload|)
    ensures ChannelOk(r)
  {
    if c.head == |c.fifos| then c
    else
      var f := c.fifos[c.head].(got := c.fifos[c.head].got + payload);
      Channel(c.fifos[c.head := f], if |f.got| >= f.cap then c.head + 1 else c.head)
  }

  predicate Accepts(d: Demux, p: Packet)
    requires DemuxOk(d) && WellFormed(p)
  {
    p.mux >= FIFO_MIN ==> Fits(d.chans[p.mux - FIFO_MIN], |p.payload|)
  }

  function Deliver(d: Demux, p: Packet): (r: Demux)
    requires DemuxOk(d) && WellFormed(p) && Accepts(d, p)
    ensures DemuxOk(r)
  {
    if p.mux >= FIFO_MIN then
      d.(chans := d.chans[p.mux - FIFO_MIN := Fill(d.chans[p.mux - FIFO_MIN], p.payload)])
    else if p.mux == 0 then d.(cmds := d.cmds + [p.payload])
    else if p.mux == 1 then d.(notes := d.notes + [p.payload])
    else d
  }

  function Append(c: Channel, cap: nat): (r: Channel)
    requires ChannelOk(c) && cap > 0
    ensures ChannelOk(r)
  {
    Channel(c.fifos + [RFifo(cap, [])], c.head)
  }

  function AddFifo(d: Demux, m: nat, cap: nat): (r: Demux)
    requires DemuxOk(d) && m < CHANNELS && cap > 0
    ensures DemuxOk(r)
  {
    d.(chans := d.chans[m := Append(d.chans[m], cap)])
  }

  /** What happens to the receiving side: a buffer is activated, or a packet is complete. */
  datatype Event = Activated(m: nat, cap: nat) | Arrived(p: Packet)

  predicate EventOk(e: Event)
  {
    match e
    case Activated(m, cap) => m < CHANNELS && cap > 0
    case Arrived(p) => WellFormed(p)
  }

  predicate EventsOk(es: seq<Event>)
  {
    forall i :: 0 <= i < |es| ==> EventOk(es[i])
  }

  /** The state after a list of events; None once a packet overruns its buffer. */
  function Replay(es: seq<Event>): (d: Option<Demux>)
    requires EventsOk(es)
    ensures d.Some? ==> DemuxOk(d.value)
  {
    if es == [] then Some(Empty())
    else
      var before := Replay(es[..|es| - 1]);
      if before.None? then None
      else match es[|es| - 1]
        case Activated(m, cap) => Some(AddFifo(before.value, m, cap))
        case Arrived(p) => if Accepts(before.value, p) then Some(Deliver(before.value, p)) else None
  }

  lemma ReplaySnoc(es: seq<Event>, e: Event)
    requires EventsOk(es) && EventOk(e)
    ensures EventsOk(es + [e])
    ensures Replay(es + [e]) ==
            if Replay(es).None? then None
            else match e
              case Activated(m, cap) => Some(AddFifo(Replay(es).value, m, cap))
              case Arrived(p) => if Accepts(Replay(es).value, p) then Some(Deliver(Replay(es).value, p)) else None
  {
    assert (es + [e])[..|es|] == es;
  }

  function Arrivals(es: seq<Event>): (ps: seq<Packet>)
  {
    if es == [] then []
    else if es[|es| - 1].Arrived? then Arrivals(es[..|es| - 1]) + [es[|es| - 1].p]
    else Arrivals(es[..|es| - 1])
  }

  function Activations(es: seq<Event>): (acts: seq<Event>)
    ensures forall i :: 0 <= i < |acts| ==> acts[i].Activated?
  {
    if es == [] then []
    else if es[|es| - 1].Activated? then Activations(es[..|es| - 1]) + [es[|es| - 1]]
    else Activations(es[..|es| - 1])
  }

  function ArrivalEvents(ps: seq<Packet>): (es: seq<Event>)
    ensures |es| == |ps| && forall i :: 0 <= i < |es| ==> es[i] == Arrived(ps[i])
  {
    seq(|ps|, i requires 0 <= i < |ps| => Arrived(ps[i]))
  }

  /** These events lead to this state, with these packets among them. */
  predicate History(es: seq<Event>, d: Demux, ps: seq<Packet>)
  {
    EventsOk(es) && Replay(es) == Some(d) && Arrivals(es) == ps
  }

  lemma HistoryActivated(es: seq<Event>, d: Demux, ps: seq<Packet>, m: nat, cap: nat)
    requires History(es, d, ps) && m < CHANNELS && cap > 0
    ensures DemuxOk(d) && History(es + [Activated(m, cap)], AddFifo(d, m, cap), ps)
  {
    ReplaySnoc(es, Activated(m, cap));
    assert (es + [Activated(m, cap)])[..|es|] == es;
  }

  lemma HistoryArrived(es: seq<Event>, d: Demux, ps: seq<Packet>, p: Packet)
    requires History(es, d, ps) && WellFormed(p) && DemuxOk(d) && Accepts(d, p)
    ensures History(es + [Arrived(p)], Deliver(d, p), ps + [p])
  {
    ReplaySnoc(es, Arrived(p));
    assert (es + [Arrived(p)])[..|es|] == es;
  }

  // ----------------------------------------------------------- how the stream is cut does not matter

  /** A buffer is waiting for the packet, if it is one for a FIFO. */
  predicate Awaited(d: Demux, p: Packet)
    requires DemuxOk(d) && WellFormed(p)
  {
    p.mux >= FIFO_MIN ==> d.chans[p.mux - FIFO_MIN].head < |d.chans[p.mux - FIFO_MIN].fifos|
  }

  /** At every arrival on a FIFO channel a buffer is waiting. */
  predicate NothingLost(es: seq<Event>)
    requires EventsOk(es)
  {
    es != [] ==>
      && NothingLost(es[..|es| - 1])
      && (es[|es| - 1].Arrived? && Replay(es[..|es| - 1]).Some? ==>
            Awaited(Replay(es[..|es| - 1]).value, es[|es| - 1].p))
  }

  lemma NothingLostSnoc(es: seq<Event>, e: Event)
    requires EventsOk(es) && EventOk(e)
    ensures EventsOk(es + [e])
    ensures NothingLost(es + [e]) <==>
            NothingLost(es) && (e.Arrived? && Replay(es).Some? ==> Awaited(Replay(es).value, e.p))
  {
    assert (es + [e])[..|es|] == es;
  }

  /** A buffer activated later would have made no difference had it been activated before. */
  lemma ActivateEarlier(d: Demux, m: nat, cap: nat, p: Packet)
    requires DemuxOk(d) && m < CHANNELS && cap > 0 && WellFormed(p)
    requires Accepts(d, p) && Awaited(d, p)
    ensures Accepts(AddFifo(d, m, cap), p) && Awaited(AddFifo(d, m, cap), p)
    ensures Deliver(AddFifo(d, m, cap), p) == AddFifo(Deliver(d, p), m, cap)
  {
    if p.mux == FIFO_MIN + m {
      var c := d.chans[m];
      assert Fill(Append(c, cap), p.payload) == Append(Fill(c, p.payload), cap);
    }
  }

  function Canonical(acts: seq<Event>, ps: seq<Packet>): (es: seq<Event>)
  {
    acts + ArrivalEvents(ps)
  }

  lemma CanonicalSnoc(acts: seq<Event>, ps: seq<Packet>, p: Packet)
    ensures Canonical(acts, ps + [p]) == Canonical(acts, ps) + [Arrived(p)]
  {
  }

  /** The state of such a history, when it has one and nothing was lost. */
  predicate Reaches(es: seq<Event>, d: Demux)
  {
    EventsOk(es) && NothingLost(es) && Replay(es) == Some(d)
  }

  lemma {:induction false} ActivateBeforeAll(acts: seq<Event>, ps: seq<Packet>, m: nat, cap: nat, d: Demux)
    requires AllWellFormed(ps) && m < CHANNELS && cap > 0
    requires Reaches(Canonical(acts, ps), d)
    ensures DemuxOk(d) && Reaches(Canonical(acts + [Activated(m, cap)], ps), AddFifo(d, m, cap))
    decreases |ps|
  {
    var e := Activated(m, cap);
    if ps == [] {
      assert Canonical(acts, ps) == acts && Canonical(acts + [e], ps) == acts + [e];
      ReplaySnoc(acts, e);
      NothingLostSnoc(acts, e);
    } else {
      var before, p := ps[..|ps| - 1], ps[|ps| - 1];
      assert ps == before + [p];
      CanonicalSnoc(acts, before, p);
      CanonicalSnoc(acts + [e], before, p);
      var es := Canonical(acts, before);
      assert EventsOk(es) by {
        assert es == Canonical(acts, ps)[..|es|];
      }
      ReplaySnoc(es, Arrived(p));
      NothingLostSnoc(es, Arrived(p));
      var d0 := Replay(es).value;
      ActivateBeforeAll(acts, before, m, cap, d0);
      ActivateEarlier(d0, m, cap, p);
      ReplaySnoc(Canonical(acts + [e], before), Arrived(p));
      NothingLostSnoc(Canonical(acts + [e], before), Arrived(p));
    }
  }

  /**
   When no packet finds its channel without a buffer, what the receiver holds depends only on
   the buffers activated and the packets that came, not on how the two were interleaved.
   */
  lemma {:induction false} OrderOfActivationIsFree(es: seq<Event>, d: Demux)
    requires Reaches(es, d)
    ensures AllWellFormed(Arrivals(es)) && Reaches(Canonical(Activations(es), Arrivals(es)), d)
    decreases |es|
  {
    if es != [] {
      var pre, e := es[..|es| - 1], es[|es| - 1];
      assert es == pre + [e];
      ReplaySnoc(pre, e);
      NothingLostSnoc(pre, e);
      var d0 := Replay(pre).value;
      OrderOfActivationIsFree(pre, d0);
      match e
      case Activated(m, cap) => ActivateBeforeAll(Activations(pre), Arrivals(pre), m, cap, d0);
      case Arrived(p) =>
        CanonicalSnoc(Activations(pre), Arrivals(pre), p);
        ReplaySnoc(Canonical(Activations(pre), Arrivals(pre)), e);
        NothingLostSnoc(Canonical(Activations(pre), Arrivals(pre)), e);
    }
  }

  // ----------------------------------------------------------- conservation on a channel

  /** All bytes held by the buffers of a channel, in order of activation. */
  function Contents(fifos: seq<RFifo>): (r: seq<byte>)
  {
    if fifos == [] then [] else Contents(fifos[..|fifos| - 1]) + fifos[|fifos| - 1].got
  }

  lemma {:induction false} ContentsEmptyTail(fifos: seq<RFifo>, k: nat)
    requires k <= |fifos| && forall i :: k <= i < |fifos| ==> fifos[i].got == []
    ensures Contents(fifos) == Contents(fifos[..k])
    decreases |fifos|
  {
    if k == |fifos| {
      assert fifos[..k] == fifos;
    } else {
      ContentsEmptyTail(fifos[..|fifos| - 1], k);
      assert fifos[..|fifos| - 1][..k] == fifos[..k];
    }
  }

  lemma FillExtends(c: Channel, payload: seq<byte>)
    requires ChannelOk(c) && Fits(c, |payload|) && c.head < |c.fifos|
    ensures Contents(Fill(c, payload).fifos) == Contents(c.fifos) + payload
  {
    var r, h := Fill(c, payload), c.head;
    ContentsEmptyTail(c.fifos, h + 1);
    ContentsEmptyTail(r.fifos, h + 1);
    assert r.fifos[..h + 1][..h] == c.fifos[..h] == c.fifos[..h + 1][..h];
  }

  lemma AddConserves(d: Demux, k: nat, cap: nat, m: nat)
    requires DemuxOk(d) && k < CHANNELS && m < CHANNELS && cap > 0
    ensures Contents(AddFifo(d, k, cap).chans[m].fifos) == Contents(d.chans[m].fifos)
  {
    var old_fifos := d.chans[m].fifos;
    assert (old_fifos + [RFifo(cap, [])])[..|old_fifos|] == old_fifos;
  }

  lemma DeliverExtends(d: Demux, p: Packet, m: nat)
    requires DemuxOk(d) && WellFormed(p) && Accepts(d, p) && Awaited(d, p) && m < CHANNELS
    ensures Contents(Deliver(d, p).chans[m].fifos)
         == Contents(d.chans[m].fifos) + (if p.mux == FIFO_MIN + m then p.payload else [])
  {
    if p.mux == FIFO_MIN + m {
      FillExtends(d.chans[m], p.payload);
    }
  }

  /** The payloads of one channel, packet by packet. */
  function PayloadsOn(ps: seq<Packet>, mux: nat): (r: seq<seq<byte>>)
  {
    if ps == [] then []
    else PayloadsOn(ps[..|ps| - 1], mux) + (if ps[|ps| - 1].mux == mux then [ps[|ps| - 1].payload] else [])
  }

  /** Over every history the replies are the payloads of channel 0 and the notifications those of channel 1, in order. */
  lemma {:induction false} RepliesInOrder(es: seq<Event>, d: Demux)
    requires EventsOk(es) && Replay(es) == Some(d)
    ensures d.cmds == PayloadsOn(Arrivals(es), 0) && d.notes == PayloadsOn(Arrivals(es), 1)
    decreases |es|
  {
    if es != [] {
      var pre, e := es[..|es| - 1], es[|es| - 1];
      RepliesInOrder(pre, Replay(pre).value);
      if e.Arrived? {
        assert Arrivals(es)[..|Arrivals(es)| - 1] == Arrivals(pre);
      }
    }
  }

  /** Over every history that loses nothing, a channel's buffers hold exactly its payload bytes in order. */
  lemma {:induction false} ChannelConserved(es: seq<Event>, d: Demux, m: nat)
    requires Reaches(es, d) && m < CHANNELS
    ensures DemuxOk(d) && Contents(d.chans[m].fifos) == Payloads(Arrivals(es), FIFO_MIN + m)
    decreases |es|
  {
    if es != [] {
      var pre, e := es[..|es| - 1], es[|es| - 1];
      assert es == pre + [e];
      ReplaySnoc(pre, e);
      NothingLostSnoc(pre, e);
      var d0 := Replay(pre).value;
      ChannelConserved(pre, d0, m);
      match e
      case Activated(k, cap) => AddConserves(d0, k, cap, m);
      case Arrived(p) =>
        DeliverExtends(d0, p, m);
        PayloadsSnoc(Arrivals(pre), p, FIFO_MIN + m);
    }
  }
}
