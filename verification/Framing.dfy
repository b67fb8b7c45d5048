/**
 The packet format of the multiplexed link: a two-byte header holding the
 channel number and the payload length less one, then the payload.
 */
module Framing {
  import opened Bytes
  import opened Common

  const MAX_PAYLOAD := 0x1000

  datatype Packet = Packet(mux: nat, payload: seq<byte>)

  predicate WellFormed(p: Packet)
  {
    p.mux < 16 && 1 <= |p.payload| <= MAX_PAYLOAD
  }

  predicate AllWellFormed(ps: seq<Packet>)
  {
    forall i :: 0 <= i < |ps| ==> WellFormed(ps[i])
  }

  /** The header word: length less one in the low twelve bits, channel above. */
  function HeaderWord(mux: nat, len: nat): (w: nat)
    requires mux < 16 && 1 <= len <= MAX_PAYLOAD
    ensures w < 0x1_0000 && w / 0x1000 == mux && w % 0x1000 + 1 == len
  {
    (len - 1) + mux * 0x1000
  }

  function Header(mux: nat, len: nat): (h: seq<byte>)
    requires mux < 16 && 1 <= len <= MAX_PAYLOAD
    ensures |h| == 2
  {
    [HeaderWord(mux, len) / 256, HeaderWord(mux, len) % 256]
  }

  /** The channel stands in the high four bits of the first byte, the length less one in the other twelve. */
  lemma HeaderLayout(mux: nat, len: nat)
    requires mux < 16 && 1 <= len <= MAX_PAYLOAD
    ensures var h := Header(mux, len); h[0] / 16 == mux && h[0] % 16 == (len - 1) / 256 && h[1] == (len - 1) % 256
  {
    var w := len - 1;
    assert HeaderWord(mux, len) == 256 * (16 * mux + w / 256) + w % 256;
  }

  function Frame(p: Packet): (r: seq<byte>)
    requires WellFormed(p)
    ensures |r| == |p.payload| + 2
  {
    Header(p.mux, |p.payload|) + p.payload
  }

  /** The wire image of a list of packets. */
  function FrameAll(ps: seq<Packet>): (r: seq<byte>)
    requires AllWellFormed(ps)
  {
    if ps == [] then [] else Frame(ps[0]) + FrameAll(ps[1..])
  }

  lemma {:induction false} FrameAllAppend(a: seq<Packet>, b: seq<Packet>)
    requires AllWellFormed(a) && AllWellFormed(b)
    ensures FrameAll(a + b) == FrameAll(a) + FrameAll(b)
  {
    if a == [] {
      assert a + b == b;
    } else {
      assert (a + b)[0] == a[0] && (a + b)[1..] == a[1..] + b;
      FrameAllAppend(a[1..], b);
    }
  }

  lemma FrameAllSnoc(a: seq<Packet>, p: Packet)
    requires AllWellFormed(a) && WellFormed(p)
    ensures AllWellFormed(a + [p]) && FrameAll(a + [p]) == FrameAll(a) + Frame(p)
  {
    FrameAllAppend(a, [p]);
    assert FrameAll([p]) == Frame(p) + FrameAll([]);
  }

  /** What a header says of the packet it starts. */
  function HeaderMux(h0: byte, h1: byte): (mux: nat)
    ensures mux < 16
  {
    (h0 * 256 + h1) / 0x1000
  }

  function HeaderLen(h0: byte, h1: byte): (len: nat)
    ensures 1 <= len <= MAX_PAYLOAD
  {
    1 + (h0 * 256 + h1) % 0x1000
  }

  /** The stream holds at least one whole packet. */
  predicate HasPacket(s: seq<byte>)
  {
    |s| >= 2 && |s| >= 2 + HeaderLen(s[0], s[1])
  }

  function FirstPacket(s: seq<byte>): (p: Packet)
    requires HasPacket(s)
    ensures WellFormed(p) && |Frame(p)| <= |s|
  {
    Packet(HeaderMux(s[0], s[1]), s[2..2 + HeaderLen(s[0], s[1])])
  }

  /** Reference demultiplexer input: every whole packet of a byte stream, in order. */
  function Parse(s: seq<byte>): (ps: seq<Packet>)
    ensures AllWellFormed(ps)
    decreases |s|
  {
    if HasPacket(s) then
      [FirstPacket(s)] + Parse(s[|Frame(FirstPacket(s))|..])
    else []
  }

  lemma HeaderInverse(mux: nat, len: nat)
    requires mux < 16 && 1 <= len <= MAX_PAYLOAD
    ensures HeaderMux(Header(mux, len)[0], Header(mux, len)[1]) == mux
    ensures HeaderLen(Header(mux, len)[0], Header(mux, len)[1]) == len
  {
    var w := HeaderWord(mux, len);
    assert w / 256 * 256 + w % 256 == w;
  }

  lemma WordInverse(h0: byte, h1: byte)
    ensures Header(HeaderMux(h0, h1), HeaderLen(h0, h1)) == [h0, h1]
  {
    var w := h0 * 256 + h1;
    assert HeaderWord(w / 0x1000, 1 + w % 0x1000) == w;
    assert w / 256 == h0 && w % 256 == h1;
  }

  lemma FirstPacketOfFrame(p: Packet, rest: seq<byte>)
    requires WellFormed(p)
    ensures HasPacket(Frame(p) + rest) && FirstPacket(Frame(p) + rest) == p
  {
    HeaderInverse(p.mux, |p.payload|);
    var s := Frame(p) + rest;
    assert s[0] == Header(p.mux, |p.payload|)[0] && s[1] == Header(p.mux, |p.payload|)[1];
    assert s[2..2 + |p.payload|] == p.payload;
  }

  /** Parsing undoes framing, whatever incomplete packet follows. */
  lemma {:induction false} ParseUndoesFrame(ps: seq<Packet>, tail: seq<byte>)
    requires AllWellFormed(ps) && !HasPacket(tail)
    ensures Parse(FrameAll(ps) + tail) == ps
  {
    if ps == [] {
      assert FrameAll(ps) + tail == tail;
    } else {
      var s := FrameAll(ps) + tail;
      var more := FrameAll(ps[1..]) + tail;
      assert s == Frame(ps[0]) + more;
      FirstPacketOfFrame(ps[0], more);
      assert s[|Frame(ps[0])|..] == more;
      ParseUndoesFrame(ps[1..], tail);
    }
  }

  /** A packet that a stream starts with is there as soon as all its bytes are. */
  lemma FirstPacketOfPrefix(p: Packet, rest: seq<byte>, taken: seq<byte>)
    requires WellFormed(p) && taken <= Frame(p) + rest
    ensures HasPacket(taken) <==> |Frame(p)| <= |taken|
    ensures HasPacket(taken) ==> FirstPacket(taken) == p && taken[|Frame(p)|..] <= rest
  {
    var s := Frame(p) + rest;
    FirstPacketOfFrame(p, rest);
    if |taken| >= 2 {
      assert taken[0] == s[0] && taken[1] == s[1];
      if HasPacket(taken) {
        assert taken[2..2 + |p.payload|] == s[2..2 + |p.payload|];
        assert s[|Frame(p)|..] == rest;
      }
    }
  }

  /** Whatever part of the frames has come, its packets are the first of those that were framed. */
  lemma {:induction false} ParseOfPrefix(ps: seq<Packet>, taken: seq<byte>)
    requires AllWellFormed(ps) && taken <= FrameAll(ps)
    ensures Parse(taken) <= ps
  {
    if ps != [] {
      FirstPacketOfPrefix(ps[0], FrameAll(ps[1..]), taken);
      if HasPacket(taken) {
        ParseOfPrefix(ps[1..], taken[|Frame(ps[0])|..]);
      }
    }
  }

  /** The bytes a parse leaves over: an incomplete packet, possibly empty. */
  function Leftover(s: seq<byte>): (t: seq<byte>)
    ensures !HasPacket(t)
    decreases |s|
  {
    if HasPacket(s) then Leftover(s[|Frame(FirstPacket(s))|..]) else s
  }

  /** Every stream is the frames of its packets and a leftover: framing undoes parsing. */
  lemma {:induction false} FrameUndoesParse(s: seq<byte>)
    ensures FrameAll(Parse(s)) + Leftover(s) == s
    decreases |s|
  {
    if HasPacket(s) {
      var p := FirstPacket(s);
      var rest := s[|Frame(p)|..];
      FrameOfFirst(s);
      FrameUndoesParse(rest);
      FrameAllCons(p, Parse(rest));
      Regroup(Frame(p), FrameAll(Parse(rest)), Leftover(rest));
    }
  }

  lemma FrameOfFirst(s: seq<byte>)
    requires HasPacket(s)
    ensures var p := FirstPacket(s); Frame(p) + s[|Frame(p)|..] == s
  {
    WordInverse(s[0], s[1]);
    assert Frame(FirstPacket(s)) == s[..|Frame(FirstPacket(s))|];
  }

  lemma FrameAllCons(p: Packet, ps: seq<Packet>)
    requires WellFormed(p) && AllWellFormed(ps)
    ensures AllWellFormed([p] + ps) && FrameAll([p] + ps) == Frame(p) + FrameAll(ps)
  {
    assert ([p] + ps)[1..] == ps;
  }

  /** Payload bytes of one channel, in order. */
  function Payloads(ps: seq<Packet>, mux: nat): (r: seq<byte>)
  {
    if ps == [] then []
    else Payloads(ps[..|ps| - 1], mux) + (if ps[|ps| - 1].mux == mux then ps[|ps| - 1].payload else [])
  }

  lemma PayloadsSnoc(ps: seq<Packet>, p: Packet, mux: nat)
    ensures Payloads(ps + [p], mux) == Payloads(ps, mux) + (if p.mux == mux then p.payload else [])
  {
    assert (ps + [p])[..|ps|] == ps;
  }
}
