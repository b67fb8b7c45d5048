/**
 Hubs of nodes and the hubs behind their bridges: listing every node with its path, and finding
 a node again from what was listed.
 */
module HubTree {
  import opened Bytes
  import opened Common

  const MAX_HIERARCHIES := 8
  const NODE_ID_BRIDGE := 0xFF
  const MFG_ID_ALTERA := 0x6E

  /** A discovered hub: the codes of its nodes, and the hubs behind those that are bridges. */
  datatype Hub = Hub(idcodes: seq<nat>, selBits: nat, irBits: nat, children: seq<Option<Hub>>)

  function MfgId(idcode: nat): (id: nat)
  {
    idcode / 0x100 % 0x800
  }

  function NodeId(idcode: nat): (id: nat)
  {
    idcode / 0x8_0000 % 0x100
  }

  predicate IsBridge(idcode: nat)
  {
    NodeId(idcode) == NODE_ID_BRIDGE && MfgId(idcode) == MFG_ID_ALTERA
  }

  /** At most 255 nodes, and hubs only behind bridges. */
  predicate WellFormed(h: Hub)
  {
    && |h.children| == |h.idcodes| <= 255
    && (forall i :: 0 <= i < |h.children| && h.children[i].Some? ==> IsBridge(h.idcodes[i]))
    && (forall i :: 0 <= i < |h.children| ==> ChildWellFormed(h, h.children[i]))
  }

  predicate ChildWellFormed(h: Hub, c: Option<Hub>)
    requires c in h.children
    decreases h, 0
  {
    c.Some? ==> WellFormed(c.value)
  }

  // ------------------------------------------------------------- the records wanted

  /** A node: its code and the positions that lead to it from the top hub. */
  datatype Node = Node(idcode: nat, path: seq<nat>)

  /** Every node in pre-order, a bridge before the nodes behind it; hubs too deep are left out. */
  function Listing(h: Hub, prefix: seq<nat>): (ns: seq<Node>)
    requires WellFormed(h)
    decreases h, |h.idcodes| + 1
  {
    if |prefix| >= MAX_HIERARCHIES then [] else ListingFrom(h, prefix, 0)
  }

  function ListingFrom(h: Hub, prefix: seq<nat>, i: nat): (ns: seq<Node>)
    requires WellFormed(h) && i <= |h.idcodes|
    decreases h, |h.idcodes| - i
  {
    if i == |h.idcodes| then []
    else [Node(h.idcodes[i], prefix + [i])] + Behind(h, prefix, i) + ListingFrom(h, prefix, i + 1)
  }

  /** The nodes of the hub behind position i. */
  function Behind(h: Hub, prefix: seq<nat>, i: nat): (ns: seq<Node>)
    requires WellFormed(h) && i < |h.idcodes|
    decreases h, 0
  {
    assert ChildWellFormed(h, h.children[i]);
    if h.children[i].Some? then Listing(h.children[i].value, prefix + [i]) else []
  }

  /** Nodes of this hub and of all hubs behind it, however deep. */
  function Count(h: Hub): (n: nat)
    requires WellFormed(h)
    decreases h, |h.idcodes| + 1
  {
    |h.idcodes| + CountFrom(h, 0)
  }

  function CountFrom(h: Hub, i: nat): (n: nat)
    requires WellFormed(h) && i <= |h.children|
    decreases h, |h.children| - i
  {
    if i == |h.children| then 0
    else
      assert ChildWellFormed(h, h.children[i]);
      (if h.children[i].Some? then Count(h.children[i].value) else 0) + CountFrom(h, i + 1)
  }

  /** The whole tree fits in the eight levels a record has room for. */
  predicate Shallow(h: Hub, level: nat)
    requires WellFormed(h)
    decreases h, 1
  {
    level < MAX_HIERARCHIES && forall i :: 0 <= i < |h.children| ==> ChildShallow(h, h.children[i], level)
  }

  predicate ChildShallow(h: Hub, c: Option<Hub>, level: nat)
    requires WellFormed(h) && c in h.children
    decreases h, 0
  {
    assert exists i :: 0 <= i < |h.children| && h.children[i] == c && ChildWellFormed(h, h.children[i]);
    c.Some? ==> Shallow(c.value, level + 1)
  }

  // ------------------------------------------------------------- the records written

  /** A record: positions beyond `positionN` mean nothing. */
  datatype HierId = HierId(idcode: nat, positionN: nat, positions: seq<byte>)

  predicate Slot(r: HierId)
  {
    |r.positions| == MAX_HIERARCHIES
  }

  function NodeOf(r: HierId): (n: Node)
    requires Slot(r) && r.positionN < MAX_HIERARCHIES
  {
    Node(r.idcode, r.positions[..r.positionN + 1])
  }

  /**
   The ancestor positions in force behind position i: those of this hub, copied into the first slot of
   the child, but for a child at position 0, which keeps whatever was in its slot.
   */
  function ChildPrefix(prefix: seq<nat>, slots: seq<HierId>, at: nat, i: nat): (p: seq<nat>)
    ensures |p| == |prefix| + 1 && p[|prefix|] == i
  {
    (if i == 0 && at < |slots| && Slot(slots[at]) && |prefix| <= MAX_HIERARCHIES then slots[at].positions[..|prefix|] else prefix) + [i]
  }

  /** What the listing code writes from slot `at` on, given what the slots held before. */
  function Written(h: Hub, prefix: seq<nat>, slots: seq<HierId>, at: nat): (ns: seq<Node>)
    requires WellFormed(h)
    decreases h, |h.idcodes| + 1
  {
    if |prefix| >= MAX_HIERARCHIES then [] else WrittenFrom(h, prefix, slots, at, 0)
  }

  function WrittenFrom(h: Hub, prefix: seq<nat>, slots: seq<HierId>, at: nat, i: nat): (ns: seq<Node>)
    requires WellFormed(h) && i <= |h.idcodes|
    decreases h, |h.idcodes| - i
  {
    if i == |h.idcodes| then []
    else
      var behind := WrittenBehind(h, prefix, slots, at + 1, i);
      [Node(h.idcodes[i], prefix + [i])] + behind + WrittenFrom(h, prefix, slots, at + 1 + |behind|, i + 1)
  }

  function WrittenBehind(h: Hub, prefix: seq<nat>, slots: seq<HierId>, at: nat, i: nat): (ns: seq<Node>)
    requires WellFormed(h) && i < |h.idcodes|
    decreases h, 0
  {
    assert ChildWellFormed(h, h.children[i]);
    if h.children[i].Some? then Written(h.children[i].value, ChildPrefix(prefix, slots, at, i), slots, at) else []
  }

  /** Right in everything but the ancestors' positions. */
  ghost predicate OwnRight(w: Node, n: Node)
  {
    && w.idcode == n.idcode && |w.path| == |n.path| > 0
    && w.path[|w.path| - 1] == n.path[|n.path| - 1]
  }

  ghost predicate AllOwnRight(ws: seq<Node>, ns: seq<Node>)
  {
    |ws| == |ns| && forall k :: 0 <= k < |ws| ==> OwnRight(ws[k], ns[k])
  }

  /** Whatever the slots held: as many records as nodes, in pre-order, each with its code, level and own position. */
  lemma {:induction false} WrittenInOrder(h: Hub, w: seq<nat>, prefix: seq<nat>, slots: seq<HierId>, at: nat)
    requires WellFormed(h) && |w| == |prefix|
    ensures AllOwnRight(Written(h, w, slots, at), Listing(h, prefix))
    decreases h, |h.idcodes| + 1
  {
    if |prefix| < MAX_HIERARCHIES {
      WrittenFromInOrder(h, w, prefix, slots, at, 0);
    }
  }

  lemma {:induction false} WrittenFromInOrder(h: Hub, w: seq<nat>, prefix: seq<nat>, slots: seq<HierId>, at: nat, i: nat)
    requires WellFormed(h) && |w| == |prefix| && i <= |h.idcodes|
    ensures AllOwnRight(WrittenFrom(h, w, slots, at, i), ListingFrom(h, prefix, i))
    decreases h, |h.idcodes| - i
  {
    if i < |h.idcodes| {
      assert ChildWellFormed(h, h.children[i]);
      if h.children[i].Some? {
        WrittenInOrder(h.children[i].value, ChildPrefix(w, slots, at + 1, i), prefix + [i], slots, at + 1);
      }
      WrittenFromInOrder(h, w, prefix, slots, at + 1 + |WrittenBehind(h, w, slots, at + 1, i)|, i + 1);
    }
  }

  // ------------------------------------------------------------- when the ancestors' positions are right

  /** A hub behind position 0 that has nodes to list. */
  predicate ZeroChild(h: Hub, level: nat)
    requires WellFormed(h)
  {
    h.children != [] && h.children[0].Some? && level + 1 < MAX_HIERARCHIES && h.children[0].value.idcodes != []
  }

  /** What a slot held before the listing: anything, or the same position throughout. */
  ghost predicate Before(slots: seq<HierId>, held: Option<byte>)
  {
    held.Some? ==> forall k :: 0 <= k < |slots| ==> slots[k].positions == seq(MAX_HIERARCHIES, _ => held.value)
  }

  /** The positions that lead to a hub are those that the slots held before. */
  predicate Lucky(prefix: seq<nat>, held: Option<byte>)
  {
    prefix == [] || (held.Some? && forall k :: 0 <= k < |prefix| ==> prefix[k] == held.value)
  }

  /** No hub has such a child, but the top one and those for whose way the slots held the right positions. */
  predicate ZeroFree(h: Hub, prefix: seq<nat>, held: Option<byte>)
    requires WellFormed(h)
    decreases h, |h.children| + 1
  {
    (ZeroChild(h, |prefix|) ==> Lucky(prefix, held)) && forall i :: 0 <= i < |h.children| ==> ChildZeroFree(h, i, prefix, held)
  }

  predicate ChildZeroFree(h: Hub, i: nat, prefix: seq<nat>, held: Option<byte>)
    requires WellFormed(h) && i < |h.children|
    decreases h, 0
  {
    assert ChildWellFormed(h, h.children[i]);
    h.children[i].Some? && |prefix| + 1 < MAX_HIERARCHIES ==> ZeroFree(h.children[i].value, prefix + [i], held)
  }

  /** Without such hubs every record is right. */
  lemma {:induction false} WrittenIsRight(h: Hub, prefix: seq<nat>, slots: seq<HierId>, at: nat, held: Option<byte>)
    requires WellFormed(h) && Before(slots, held) && (|prefix| < MAX_HIERARCHIES ==> ZeroFree(h, prefix, held))
    requires at + |Listing(h, prefix)| <= |slots|
    ensures Written(h, prefix, slots, at) == Listing(h, prefix)
    decreases h, |h.idcodes| + 1
  {
    if |prefix| < MAX_HIERARCHIES {
      WrittenFromIsRight(h, prefix, slots, at, 0, held);
    }
  }

  lemma {:induction false} WrittenFromIsRight(h: Hub, prefix: seq<nat>, slots: seq<HierId>, at: nat, i: nat, held: Option<byte>)
    requires WellFormed(h) && |prefix| < MAX_HIERARCHIES && Before(slots, held) && ZeroFree(h, prefix, held) && i <= |h.idcodes|
    requires at + |ListingFrom(h, prefix, i)| <= |slots|
    ensures WrittenFrom(h, prefix, slots, at, i) == ListingFrom(h, prefix, i)
    decreases h, |h.idcodes| - i
  {
    if i < |h.idcodes| {
      BehindIsRight(h, prefix, slots, at + 1, i, held);
      WrittenFromIsRight(h, prefix, slots, at + 1 + |WrittenBehind(h, prefix, slots, at + 1, i)|, i + 1, held);
    }
  }

  lemma {:induction false} BehindIsRight(h: Hub, prefix: seq<nat>, slots: seq<HierId>, at: nat, i: nat, held: Option<byte>)
    requires WellFormed(h) && |prefix| < MAX_HIERARCHIES && Before(slots, held) && ZeroFree(h, prefix, held) && i < |h.idcodes|
    requires at + |Behind(h, prefix, i)| <= |slots|
    ensures WrittenBehind(h, prefix, slots, at, i) == Behind(h, prefix, i)
    decreases h, 0
  {
    assert ChildWellFormed(h, h.children[i]) && ChildZeroFree(h, i, prefix, held);
    if h.children[i].Some? {
      var child := h.children[i].value;
      var p := ChildPrefix(prefix, slots, at, i);
      if |prefix| + 1 >= MAX_HIERARCHIES || child.idcodes == [] {
        NothingThere(child, p, prefix + [i], slots, at);
      } else {
        if i == 0 {
          SomethingThere(child, prefix + [i]);
          assert ZeroChild(h, |prefix|) && p == prefix + [i];
        }
        WrittenIsRight(child, p, slots, at, held);
      }
    }
  }

  lemma SomethingThere(h: Hub, prefix: seq<nat>)
    requires WellFormed(h) && |prefix| < MAX_HIERARCHIES && h.idcodes != []
    ensures |Listing(h, prefix)| > 0
  {
  }

  /** A hub too deep or without nodes puts nothing in the list, right or wrong. */
  lemma NothingThere(h: Hub, w: seq<nat>, prefix: seq<nat>, slots: seq<HierId>, at: nat)
    requires WellFormed(h) && |w| == |prefix| && (|prefix| >= MAX_HIERARCHIES || h.idcodes == [])
    ensures Written(h, w, slots, at) == Listing(h, prefix) == []
    ensures h.idcodes == [] ==> forall held :: ZeroFree(h, prefix, held)
  {
    if h.idcodes == [] {
      assert WrittenFrom(h, w, slots, at, 0) == [] && ListingFrom(h, prefix, 0) == [];
    }
  }

  /** A position that no node can have. */
  const NOWHERE: byte := 0xFF

  function Kept(held: Option<byte>): (p: byte)
  {
    if held.Some? then held.value else NOWHERE
  }

  /** Slots that show whether the listing is right: if they may have held anything, they held nothing a node can have. */
  ghost predicate Telling(slots: seq<HierId>, held: Option<byte>)
  {
    Before(slots, Some(Kept(held)))
  }

  ghost predicate Real(prefix: seq<nat>)
  {
    forall k :: 0 <= k < |prefix| ==> prefix[k] < NOWHERE
  }

  lemma {:induction false} RightOnlyIfZeroFree(h: Hub, prefix: seq<nat>, slots: seq<HierId>, at: nat, held: Option<byte>)
    requires WellFormed(h) && |prefix| < MAX_HIERARCHIES && Telling(slots, held) && Real(prefix)
    requires at + |Listing(h, prefix)| <= |slots|
    requires Written(h, prefix, slots, at) == Listing(h, prefix)
    ensures ZeroFree(h, prefix, held)
    decreases h, |h.idcodes| + 1
  {
    RightFromOnlyIfZeroFree(h, prefix, slots, at, 0, held);
  }

  lemma {:induction false} RightFromOnlyIfZeroFree(h: Hub, prefix: seq<nat>, slots: seq<HierId>, at: nat, i: nat, held: Option<byte>)
    requires WellFormed(h) && |prefix| < MAX_HIERARCHIES && Telling(slots, held) && Real(prefix) && i <= |h.idcodes|
    requires at + |ListingFrom(h, prefix, i)| <= |slots|
    requires WrittenFrom(h, prefix, slots, at, i) == ListingFrom(h, prefix, i)
    ensures forall j :: i <= j < |h.children| ==> ChildZeroFree(h, j, prefix, held)
    ensures i == 0 && ZeroChild(h, |prefix|) ==> Lucky(prefix, held)
    decreases h, |h.idcodes| - i
  {
    if i < |h.idcodes| {
      var w, n := WrittenBehind(h, prefix, slots, at + 1, i), Behind(h, prefix, i);
      var ws := WrittenFrom(h, prefix, slots, at + 1 + |w|, i + 1);
      var ns := ListingFrom(h, prefix, i + 1);
      BehindInOrder(h, prefix, slots, at + 1, i);
      EqualParts(Node(h.idcodes[i], prefix + [i]), w, ws, n, ns);
      RightFromOnlyIfZeroFree(h, prefix, slots, at + 1 + |w|, i + 1, held);
      BehindOnlyIfZeroFree(h, prefix, slots, at + 1, i, held);
    }
  }

  lemma BehindInOrder(h: Hub, prefix: seq<nat>, slots: seq<HierId>, at: nat, i: nat)
    requires WellFormed(h) && i < |h.idcodes|
    ensures |WrittenBehind(h, prefix, slots, at, i)| == |Behind(h, prefix, i)|
  {
    assert ChildWellFormed(h, h.children[i]);
    if h.children[i].Some? {
      WrittenInOrder(h.children[i].value, ChildPrefix(prefix, slots, at, i), prefix + [i], slots, at);
    }
  }

  lemma EqualParts(x: Node, w: seq<Node>, ws: seq<Node>, n: seq<Node>, ns: seq<Node>)
    requires [x] + w + ws == [x] + n + ns && |w| == |n|
    ensures w == n && ws == ns
  {
    assert w == ([x] + w + ws)[1..1 + |w|] && n == ([x] + n + ns)[1..1 + |w|];
    assert ws == ([x] + w + ws)[1 + |w|..] && ns == ([x] + n + ns)[1 + |w|..];
  }

  lemma RightOnlyIfLucky(prefix: seq<nat>, slots: seq<HierId>, at: nat, i: nat, held: Option<byte>)
    requires Telling(slots, held) && Real(prefix) && |prefix| < MAX_HIERARCHIES && at < |slots|
    requires ChildPrefix(prefix, slots, at, i) == prefix + [i]
    ensures i == 0 ==> Lucky(prefix, held)
  {
    if i == 0 && |prefix| > 0 {
      var p := ChildPrefix(prefix, slots, at, i);
      forall k | 0 <= k < |prefix|
        ensures prefix[k] == Kept(held)
      {
        assert (prefix + [i])[k] == prefix[k] && p[k] == slots[at].positions[k];
      }
      assert prefix[0] == Kept(held);
    }
  }

  lemma {:induction false} BehindOnlyIfZeroFree(h: Hub, prefix: seq<nat>, slots: seq<HierId>, at: nat, i: nat, held: Option<byte>)
    requires WellFormed(h) && |prefix| < MAX_HIERARCHIES && Telling(slots, held) && Real(prefix) && i < |h.idcodes|
    requires at + |Behind(h, prefix, i)| <= |slots|
    requires WrittenBehind(h, prefix, slots, at, i) == Behind(h, prefix, i)
    ensures ChildZeroFree(h, i, prefix, held)
    ensures i == 0 && ZeroChild(h, |prefix|) ==> Lucky(prefix, held)
    decreases h, 0
  {
    assert ChildWellFormed(h, h.children[i]);
    if h.children[i].Some? && |prefix| + 1 < MAX_HIERARCHIES {
      var child := h.children[i].value;
      var p := ChildPrefix(prefix, slots, at, i);
      if child.idcodes == [] {
        NothingThere(child, p, prefix + [i], slots, at);
      } else {
        SamePrefix(child, p, prefix + [i], slots, at);
        RightOnlyIfLucky(prefix, slots, at, i, held);
        RightOnlyIfZeroFree(child, p, slots, at, held);
      }
    }
  }

  /** The first record tells what leads to its hub. */
  lemma SamePrefix(h: Hub, w: seq<nat>, prefix: seq<nat>, slots: seq<HierId>, at: nat)
    requires WellFormed(h) && |w| == |prefix| < MAX_HIERARCHIES && h.idcodes != []
    requires Written(h, w, slots, at) == Listing(h, prefix)
    ensures w == prefix && |Listing(h, prefix)| > 0
  {
    assert WrittenFrom(h, w, slots, at, 0)[0].path == w + [0];
    assert Written(h, w, slots, at)[0].path == w + [0];
    assert Listing(h, prefix)[0].path == prefix + [0];
    assert w == (w + [0])[..|w|] && prefix == (prefix + [0])[..|w|];
  }

  /**
   Exactly when the listing is right for slots that held the same position throughout: if and only if hubs with
   nodes behind position 0 are found only at the top or behind that position alone. In a zeroed workspace
   those are the hubs behind position 0 of one another.
   */
  lemma ListingRightIffHeld(h: Hub, slots: seq<HierId>, position: byte)
    requires WellFormed(h) && Before(slots, Some(position)) && |slots| >= |Listing(h, [])|
    ensures Written(h, [], slots, 0) == Listing(h, []) <==> ZeroFree(h, [], Some(position))
  {
    if ZeroFree(h, [], Some(position)) {
      WrittenIsRight(h, [], slots, 0, Some(position));
    }
    if Written(h, [], slots, 0) == Listing(h, []) {
      RightOnlyIfZeroFree(h, [], slots, 0, Some(position));
    }
  }

  /**
   Exactly when the listing is right: the ancestors' positions of all records are right whatever the
   slots held before, if and only if no hub below the top has a hub with nodes behind position 0.
   */
  lemma ListingRightIff(h: Hub)
    requires WellFormed(h)
    ensures (forall slots: seq<HierId> :: |slots| >= |Listing(h, [])| ==> Written(h, [], slots, 0) == Listing(h, []))
       <==> ZeroFree(h, [], None)
  {
    if ZeroFree(h, [], None) {
      forall slots: seq<HierId> | |slots| >= |Listing(h, [])|
        ensures Written(h, [], slots, 0) == Listing(h, [])
      {
        WrittenIsRight(h, [], slots, 0, None);
      }
    } else {
      var blank := HierId(0, 0, seq(MAX_HIERARCHIES, _ => NOWHERE));
      var slots := seq(|Listing(h, [])|, _ => blank);
      if Written(h, [], slots, 0) == Listing(h, []) {
        RightOnlyIfZeroFree(h, [], slots, 0, None);
      }
    }
  }
}
