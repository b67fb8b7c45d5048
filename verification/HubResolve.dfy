/** From the record of a node back to the hub and the node it came from. */
module HubResolve {
  import opened Bytes
  import opened Common
  import opened HubTree

  /** The hub that a path of positions leads to. */
  function HubAt(h: Hub, path: seq<nat>): (r: Option<Hub>)
    decreases path
  {
    if path == [] then Some(h)
    else if path[0] < |h.children| && h.children[path[0]].Some? then HubAt(h.children[path[0]].value, path[1..])
    else None
  }

  /** The path of a node leads to it: all but the last position to its hub, the last to the node. */
  predicate Leads(h: Hub, n: Node)
  {
    && n.path != []
    && var last := |n.path| - 1;
    && HubAt(h, n.path[..last]).Some?
    && n.path[last] < |HubAt(h, n.path[..last]).value.idcodes|
    && HubAt(h, n.path[..last]).value.idcodes[n.path[last]] == n.idcode
  }

  /** One step further down at the far end. */
  lemma {:induction false} HubAtSnoc(h: Hub, path: seq<nat>, i: nat)
    ensures HubAt(h, path + [i]) ==
      if HubAt(h, path).Some? && i < |HubAt(h, path).value.children| then HubAt(h, path).value.children[i] else None
  {
    if path == [] {
      assert path + [i] == [i];
      if i < |h.children| && h.children[i].Some? {
        assert HubAt(h.children[i].value, [i][1..]) == h.children[i];
      }
    } else {
      assert (path + [i])[1..] == path[1..] + [i];
      if path[0] < |h.children| && h.children[path[0]].Some? {
        HubAtSnoc(h.children[path[0]].value, path[1..], i);
      }
    }
  }

  lemma {:induction false} HubAtWellFormed(h: Hub, path: seq<nat>)
    requires WellFormed(h) && HubAt(h, path).Some?
    ensures WellFormed(HubAt(h, path).value)
    decreases path
  {
    if path != [] {
      assert ChildWellFormed(h, h.children[path[0]]);
      HubAtWellFormed(h.children[path[0]].value, path[1..]);
    }
  }

  // ------------------------------------------------------------- the listing holds exactly the nodes

  /** Every record of the listing of the hub at `prefix` leads to its node. */
  lemma {:induction false} ListedLeads(top: Hub, h: Hub, prefix: seq<nat>, n: Node)
    requires WellFormed(h) && HubAt(top, prefix) == Some(h) && n in Listing(h, prefix)
    ensures Leads(top, n) && |prefix| < |n.path| <= MAX_HIERARCHIES && n.path[..|prefix|] == prefix
    decreases h, |h.idcodes| + 1
  {
    ListedFromLeads(top, h, prefix, 0, n);
  }

  lemma {:induction false} ListedFromLeads(top: Hub, h: Hub, prefix: seq<nat>, i: nat, n: Node)
    requires WellFormed(h) && HubAt(top, prefix) == Some(h) && i <= |h.idcodes| && n in ListingFrom(h, prefix, i)
    requires |prefix| < MAX_HIERARCHIES
    ensures Leads(top, n) && |prefix| < |n.path| <= MAX_HIERARCHIES && n.path[..|prefix|] == prefix && n.path[|prefix|] >= i
    decreases h, |h.idcodes| - i
  {
    if n == Node(h.idcodes[i], prefix + [i]) {
      assert n.path[..|prefix|] == prefix;
    } else if n in Behind(h, prefix, i) {
      assert ChildWellFormed(h, h.children[i]);
      HubAtSnoc(top, prefix, i);
      ListedLeads(top, h.children[i].value, prefix + [i], n);
      assert prefix == (prefix + [i])[..|prefix|] == n.path[..|prefix|];
    } else {
      ListedFromLeads(top, h, prefix, i + 1, n);
    }
  }

  /** Every node within eight levels is listed. */
  lemma {:induction false} LeadsListed(top: Hub, h: Hub, prefix: seq<nat>, n: Node)
    requires WellFormed(h) && HubAt(top, prefix) == Some(h)
    requires Leads(top, n) && |prefix| < |n.path| <= MAX_HIERARCHIES && n.path[..|prefix|] == prefix
    ensures n in Listing(h, prefix)
    decreases |n.path| - |prefix|
  {
    var i := n.path[|prefix|];
    if |n.path| == |prefix| + 1 {
      assert n.path == prefix + [i];
    } else {
      StepInside(top, n.path[..|n.path| - 1], |prefix|);
      assert n.path[..|n.path| - 1][..|prefix|] == prefix;
      HubAtSnoc(top, prefix, i);
      assert n.path[..|prefix| + 1] == prefix + [i] == n.path[..|n.path| - 1][..|prefix| + 1];
      assert ChildWellFormed(h, h.children[i]);
      LeadsListed(top, h.children[i].value, prefix + [i], n);
      assert n in Behind(h, prefix, i);
    }
    PartOfListing(h, prefix, 0, i, n);
  }

  /** A path that leads somewhere leads somewhere at every step. */
  lemma {:induction false} StepInside(top: Hub, path: seq<nat>, k: nat)
    requires HubAt(top, path).Some? && k < |path|
    ensures HubAt(top, path[..k + 1]).Some?
    decreases |path| - k
  {
    if k + 1 == |path| {
      assert path[..k + 1] == path;
    } else {
      StepInside(top, path, k + 1);
      assert path[..k + 2] == path[..k + 1] + [path[k + 1]];
      HubAtSnoc(top, path[..k + 1], path[k + 1]);
    }
  }

  lemma {:induction false} PartOfListing(h: Hub, prefix: seq<nat>, j: nat, i: nat, n: Node)
    requires WellFormed(h) && j <= i < |h.idcodes|
    requires n == Node(h.idcodes[i], prefix + [i]) || n in Behind(h, prefix, i)
    ensures n in ListingFrom(h, prefix, j)
    decreases i - j
  {
    if j < i {
      PartOfListing(h, prefix, j + 1, i, n);
    }
  }

  /** The listing of a tree holds exactly the nodes that paths of up to eight positions lead to. */
  lemma ListingIsComplete(top: Hub, n: Node)
    requires WellFormed(top)
    ensures n in Listing(top, []) <==> Leads(top, n) && |n.path| <= MAX_HIERARCHIES
  {
    if n in Listing(top, []) {
      ListedLeads(top, top, [], n);
    } else if Leads(top, n) && |n.path| <= MAX_HIERARCHIES {
      LeadsListed(top, top, [], n);
    }
  }

  // ------------------------------------------------------------- distinct paths

  lemma {:induction false} PathsDiffer(top: Hub, h: Hub, prefix: seq<nat>, j: nat, k: nat)
    requires WellFormed(h) && HubAt(top, prefix) == Some(h) && j < k < |Listing(h, prefix)|
    ensures Listing(h, prefix)[j].path != Listing(h, prefix)[k].path
    decreases h, |h.idcodes| + 1
  {
    PathsFromDiffer(top, h, prefix, 0, j, k);
  }

  lemma {:induction false} PathsFromDiffer(top: Hub, h: Hub, prefix: seq<nat>, i: nat, j: nat, k: nat)
    requires WellFormed(h) && HubAt(top, prefix) == Some(h) && |prefix| < MAX_HIERARCHIES && i <= |h.idcodes|
    requires j < k < |ListingFrom(h, prefix, i)|
    ensures ListingFrom(h, prefix, i)[j].path != ListingFrom(h, prefix, i)[k].path
    decreases h, |h.idcodes| - i
  {
    var ns, behind, rest := ListingFrom(h, prefix, i), Behind(h, prefix, i), ListingFrom(h, prefix, i + 1);
    assert ns == [Node(h.idcodes[i], prefix + [i])] + behind + rest;
    var b := 1 + |behind|;
    HubAtSnoc(top, prefix, i);
    assert ChildWellFormed(h, h.children[i]);
    if j >= b {
      assert ns[j] == rest[j - b] && ns[k] == rest[k - b];
      PathsFromDiffer(top, h, prefix, i + 1, j - b, k - b);
    } else {
      assert ns[j].path[|prefix|] == i by {
        if j > 0 {
          assert ns[j] == behind[j - 1];
          ListedLeads(top, h.children[i].value, prefix + [i], ns[j]);
          assert ns[j].path[|prefix|] == (prefix + [i])[|prefix|];
        }
      }
      if k >= b {
        assert ns[k] == rest[k - b];
        ListedFromLeads(top, h, prefix, i + 1, ns[k]);
      } else {
        assert ns[k] == behind[k - 1];
        if j == 0 {
          ListedLeads(top, h.children[i].value, prefix + [i], ns[k]);
        } else {
          assert ns[j] == behind[j - 1];
          PathsDiffer(top, h.children[i].value, prefix + [i], j - 1, k - 1);
        }
      }
    }
  }

  /** No two records name the same path. */
  lemma PathsAreDistinct(top: Hub, j: nat, k: nat)
    requires WellFormed(top) && j < |Listing(top, [])| && k < |Listing(top, [])|
    ensures j != k ==> Listing(top, [])[j].path != Listing(top, [])[k].path
  {
    if j < k {
      PathsDiffer(top, top, [], j, k);
    } else if k < j {
      PathsDiffer(top, top, [], k, j);
    }
  }

  // ------------------------------------------------------------- opening a node

  datatype Resolved = Opened(hub: Hub, index: nat) | NoMatchingNodes | InternalError

  /** Node i answers to the record: its code, and its position or the wild card. */
  predicate Answers(h: Hub, i: nat, r: HierId)
    requires Slot(r) && r.positionN < MAX_HIERARCHIES
  {
    i < |h.idcodes| && h.idcodes[i] == r.idcode && (r.positions[r.positionN] == 0xFF || r.positions[r.positionN] == i)
  }

  /** What the search owes: the first node that answers on the hub that the positions lead to, or why there is none. */
  ghost predicate Outcome(top: Hub, r: HierId, o: Resolved)
    requires Slot(r) && r.positionN < MAX_HIERARCHIES
  {
    var at := HubAt(top, r.positions[..r.positionN]);
    match o
    case Opened(hub, index) =>
      at == Some(hub) && Answers(hub, index, r) && forall i :: 0 <= i < index ==> !Answers(hub, i, r)
    case InternalError =>
      exists k: nat :: Ends(top, r, k) && r.positions[k] < |HubAt(top, r.positions[..k]).value.idcodes|
    case NoMatchingNodes =>
      || (at.Some? && forall i :: 0 <= i < |at.value.idcodes| ==> !Answers(at.value, i, r))
      || exists k: nat :: Ends(top, r, k) && r.positions[k] >= |HubAt(top, r.positions[..k]).value.idcodes|
  }

  /** The positions stop leading anywhere at level k. */
  ghost predicate Ends(top: Hub, r: HierId, k: nat)
    requires Slot(r) && r.positionN < MAX_HIERARCHIES
  {
    k < r.positionN && HubAt(top, r.positions[..k]).Some? && HubAt(top, r.positions[..k + 1]).None?
  }

  /** The node on this hub that answers, if any. */
  method FindNode(h: Hub, r: HierId) returns (o: Resolved)
    requires Slot(r) && r.positionN < MAX_HIERARCHIES
    ensures o.Opened? ==> o.hub == h && Answers(h, o.index, r) && forall j :: 0 <= j < o.index ==> !Answers(h, j, r)
    ensures !o.Opened? ==> o == NoMatchingNodes && forall j :: 0 <= j < |h.idcodes| ==> !Answers(h, j, r)
  {
    var i := 0;
    while i < |h.idcodes|
      invariant i <= |h.idcodes| && forall j :: 0 <= j < i ==> !Answers(h, j, r)
    {
      if h.idcodes[i] == r.idcode && (r.positions[r.positionN] == 0xFF || r.positions[r.positionN] == i) {
        return Opened(h, i);
      }
      i := i + 1;
    }
    return NoMatchingNodes;
  }

  /**
   The position on this level among those of the hub. The wild card of the upper levels is a value no
   byte has, so only the position itself is found.
   */
  method FindBridge(h: Hub, position: byte) returns (matched: bool, index: nat)
    ensures matched <==> position < |h.idcodes|
    ensures matched ==> index == position
  {
    matched, index := false, 0;
    while index < |h.idcodes|
      invariant index <= |h.idcodes| && index <= position
    {
      if position == index {
        return true, index;
      }
      index := index + 1;
    }
  }

  /** Down the levels of the record, to the node it names. */
  method OpenNode(top: Hub, r: HierId) returns (o: Resolved)
    requires WellFormed(top) && Slot(r) && r.positionN < MAX_HIERARCHIES
    ensures Outcome(top, r, o)
  {
    var hub := top;
    var level := 0;
    while level < r.positionN
      invariant level <= r.positionN && HubAt(top, r.positions[..level]) == Some(hub)
    {
      var matched, i := FindBridge(hub, r.positions[level]);
      assert r.positions[..level + 1] == r.positions[..level] + [r.positions[level] as nat];
      HubAtSnoc(top, r.positions[..level], r.positions[level]);
      HubAtWellFormed(top, r.positions[..level]);
      if !matched {
        assert Ends(top, r, level);
        return NoMatchingNodes;
      }
      if hub.children[i].None? {
        assert Ends(top, r, level);
        return InternalError;
      }
      hub := hub.children[i].value;
      level := level + 1;
    }
    o := FindNode(hub, r);
  }

  /** There and back: the record of any listed node leads to the very hub and position it was listed from. */
  lemma ListedIsOpened(top: Hub, k: nat, r: HierId, o: Resolved)
    requires WellFormed(top) && k < |Listing(top, [])| && Slot(r) && r.positionN < MAX_HIERARCHIES
    requires NodeOf(r) == Listing(top, [])[k] && Outcome(top, r, o)
    ensures HubAt(top, r.positions[..r.positionN]).Some?
    ensures o == Opened(HubAt(top, r.positions[..r.positionN]).value, r.positions[r.positionN])
  {
    var n := Listing(top, [])[k];
    ListedLeads(top, top, [], n);
    assert n.path[..r.positionN] == r.positions[..r.positionN];
    var h := HubAt(top, r.positions[..r.positionN]).value;
    HubAtWellFormed(top, r.positions[..r.positionN]);
    assert Answers(h, r.positions[r.positionN], r);
    forall j: nat | j < r.positionN
      ensures !Ends(top, r, j)
    {
      StepInside(top, r.positions[..r.positionN], j);
      assert r.positions[..r.positionN][..j + 1] == r.positions[..j + 1];
    }
  }
}
