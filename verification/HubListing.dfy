/**
 The listing of a hub tree into the caller's array of records, in place and by recursion, and the
 search for the node that a record names.
 */
module HubListing {
  import opened Bytes
  import opened Common
  import opened HubTree

  datatype Error = NoError | TooManyHierarchies | TooManyDevices

  // ------------------------------------------------------------- counting

  /** No hub with nodes lies too deep to be listed. */
  predicate Fills(h: Hub, level: nat)
    requires WellFormed(h)
    decreases h, 1
  {
    (level < MAX_HIERARCHIES || h.idcodes == []) && forall i :: 0 <= i < |h.children| ==> ChildFills(h, h.children[i], level)
  }

  predicate ChildFills(h: Hub, c: Option<Hub>, level: nat)
    requires WellFormed(h) && c in h.children
    decreases h, 0
  {
    assert exists i :: 0 <= i < |h.children| && h.children[i] == c && ChildWellFormed(h, h.children[i]);
    c.Some? ==> Fills(c.value, level + 1)
  }

  lemma {:induction false} ShallowFills(h: Hub, level: nat)
    requires WellFormed(h) && Shallow(h, level)
    ensures Fills(h, level)
    decreases h
  {
    forall i | 0 <= i < |h.children|
      ensures ChildFills(h, h.children[i], level)
    {
      assert ChildWellFormed(h, h.children[i]) && ChildShallow(h, h.children[i], level);
      if h.children[i].Some? {
        ShallowFills(h.children[i].value, level + 1);
      }
    }
  }

  /** The count bounds the records, and is their number exactly if no hub with nodes lies too deep. */
  lemma {:induction false} ListingWithinCount(h: Hub, prefix: seq<nat>)
    requires WellFormed(h)
    ensures |Listing(h, prefix)| <= Count(h)
    ensures |Listing(h, prefix)| == Count(h) <==> Fills(h, |prefix|)
    decreases h, |h.idcodes| + 1
  {
    if |prefix| < MAX_HIERARCHIES {
      ListingFromWithinCount(h, prefix, 0);
    }
  }

  /** The children from i on are listed whole. */
  predicate FillsFrom(h: Hub, level: nat, i: nat)
    requires WellFormed(h)
  {
    forall j :: i <= j < |h.children| ==> ChildFills(h, h.children[j], level)
  }

  lemma {:induction false} ListingFromWithinCount(h: Hub, prefix: seq<nat>, i: nat)
    requires WellFormed(h) && |prefix| < MAX_HIERARCHIES && i <= |h.idcodes|
    ensures |ListingFrom(h, prefix, i)| <= Rest(h, i)
    ensures |ListingFrom(h, prefix, i)| == Rest(h, i) <==> FillsFrom(h, |prefix|, i)
    decreases h, |h.idcodes| - i
  {
    if i < |h.idcodes| {
      BehindWithinCount(h, prefix, i);
      RestStep(h, i);
      ListingFromWithinCount(h, prefix, i + 1);
      assert FillsFrom(h, |prefix|, i) <==> ChildFills(h, h.children[i], |prefix|) && FillsFrom(h, |prefix|, i + 1);
    }
  }

  lemma {:induction false} BehindWithinCount(h: Hub, prefix: seq<nat>, i: nat)
    requires WellFormed(h) && i < |h.idcodes|
    ensures |Behind(h, prefix, i)| <= CountBehind(h, i)
    ensures |Behind(h, prefix, i)| == CountBehind(h, i) <==> ChildFills(h, h.children[i], |prefix|)
    decreases h, 0
  {
    assert ChildWellFormed(h, h.children[i]);
    if h.children[i].Some? {
      assert |prefix + [i]| == |prefix| + 1;
      ListingWithinCount(h.children[i].value, prefix + [i]);
    }
  }

  /** Nodes from position i on, and all behind them. */
  function Rest(h: Hub, i: nat): (n: nat)
    requires WellFormed(h) && i <= |h.idcodes|
  {
    |h.idcodes| - i + CountFrom(h, i)
  }

  /** Nodes behind position i. */
  function CountBehind(h: Hub, i: nat): (n: nat)
    requires WellFormed(h) && i < |h.idcodes|
  {
    assert ChildWellFormed(h, h.children[i]);
    if h.children[i].Some? then Count(h.children[i].value) else 0
  }

  lemma RestStep(h: Hub, i: nat)
    requires WellFormed(h) && i < |h.idcodes|
    ensures Rest(h, i) == 1 + CountBehind(h, i) + Rest(h, i + 1)
    ensures Rest(h, 0) == Count(h) && Rest(h, |h.idcodes|) == 0
  {
    assert ChildWellFormed(h, h.children[i]);
  }

  // ------------------------------------------------------------- results

  /** The error that comes back: each hub behind a bridge replaces what was there before. */
  function ListError(h: Hub, level: nat): (e: Error)
    requires WellFormed(h)
    decreases h, |h.idcodes| + 1
  {
    if level >= MAX_HIERARCHIES then TooManyHierarchies else ErrorFrom(h, level, 0, NoError)
  }

  function ErrorFrom(h: Hub, level: nat, i: nat, error: Error): (e: Error)
    requires WellFormed(h) && i <= |h.idcodes|
    decreases h, |h.idcodes| - i
  {
    if i == |h.idcodes| then error
    else
      assert ChildWellFormed(h, h.children[i]);
      ErrorFrom(h, level, i + 1, if h.children[i].Some? then ListError(h.children[i].value, level + 1) else error)
  }

  /** Up to the last of the first n positions with a hub behind it; 0 if there is none. */
  function LastBridge(h: Hub, n: nat): (k: nat)
    requires n <= |h.children|
    ensures k <= n && (k > 0 ==> h.children[k - 1].Some?) && forall j :: k <= j < n ==> h.children[j].None?
  {
    if n == 0 || h.children[n - 1].Some? then n else LastBridge(h, n - 1)
  }

  /** From each hub to the last one behind it: that way leads too deep. */
  predicate DeepLast(h: Hub, level: nat)
    requires WellFormed(h)
    decreases h
  {
    level >= MAX_HIERARCHIES ||
      var k := LastBridge(h, |h.children|);
      k > 0 && (assert ChildWellFormed(h, h.children[k - 1]); DeepLast(h.children[k - 1].value, level + 1))
  }

  /** The error after the first n positions is that of the last hub behind them. */
  function ErrorAfter(h: Hub, level: nat, n: nat): (e: Error)
    requires WellFormed(h) && n <= |h.children|
  {
    var k := LastBridge(h, n);
    if k == 0 then NoError
    else
      assert ChildWellFormed(h, h.children[k - 1]);
      ListError(h.children[k - 1].value, level + 1)
  }

  lemma {:induction false} ErrorIsLast(h: Hub, level: nat, i: nat)
    requires WellFormed(h) && i <= |h.idcodes|
    ensures ErrorFrom(h, level, i, ErrorAfter(h, level, i)) == ErrorAfter(h, level, |h.idcodes|)
    decreases |h.idcodes| - i
  {
    if i < |h.idcodes| {
      assert ChildWellFormed(h, h.children[i]);
      ErrorIsLast(h, level, i + 1);
    }
  }

  /** The listing reports a hub too deep exactly if the way to the last hub of all leads too deep. */
  lemma {:induction false} ErrorExactlyIfDeepLast(h: Hub, level: nat)
    requires WellFormed(h)
    ensures ListError(h, level) == if DeepLast(h, level) then TooManyHierarchies else NoError
    decreases h
  {
    if level < MAX_HIERARCHIES {
      ErrorIsLast(h, level, 0);
      var k := LastBridge(h, |h.children|);
      if k > 0 {
        assert ChildWellFormed(h, h.children[k - 1]);
        ErrorExactlyIfDeepLast(h.children[k - 1].value, level + 1);
      }
    }
  }

  /**
   Exactly when nodes are missing from a listing without an error: some hub with nodes lies too deep, and the
   way to the last hub of all does not lead too deep, so that what was reported before is forgotten.
   */
  lemma HiddenExactlyIf(h: Hub)
    requires WellFormed(h)
    ensures ListError(h, 0) == NoError && |Listing(h, [])| < Count(h) <==> !Fills(h, 0) && !DeepLast(h, 0)
  {
    ErrorExactlyIfDeepLast(h, 0);
    ListingWithinCount(h, []);
  }

  /** A tree with no hub too deep is listed without an error. */
  lemma {:induction false} ShallowHasNoError(h: Hub, level: nat)
    requires WellFormed(h) && Shallow(h, level)
    ensures ListError(h, level) == NoError
    decreases h
  {
    ErrorExactlyIfDeepLast(h, level);
    var k := LastBridge(h, |h.children|);
    if k > 0 {
      assert ChildWellFormed(h, h.children[k - 1]) && ChildShallow(h, h.children[k - 1], level);
      ErrorExactlyIfDeepLast(h.children[k - 1].value, level + 1);
      ShallowHasNoError(h.children[k - 1].value, level + 1);
    }
  }

  /** A chain of n hubs below one another, and nothing else. */
  function Tower(n: nat): (h: Hub)
    ensures WellFormed(h) && |h.idcodes| == 1
  {
    var bridge := 0xFF * 0x8_0000 + 0x6E * 0x100;
    assert IsBridge(bridge);
    if n == 0 then
      var h := Hub([0], 1, 4, [None]);
      assert ChildWellFormed(h, None);
      h
    else
      var h := Hub([bridge], 1, 4, [Some(Tower(n - 1))]);
      assert ChildWellFormed(h, h.children[0]);
      h
  }

  /** Two hubs side by side below one. */
  function Pair(left: Hub, right: Hub): (h: Hub)
    requires WellFormed(left) && WellFormed(right)
    ensures WellFormed(h)
  {
    var bridge := 0xFF * 0x8_0000 + 0x6E * 0x100;
    assert IsBridge(bridge);
    var h := Hub([bridge, bridge], 2, 4, [Some(left), Some(right)]);
    assert ChildWellFormed(h, h.children[0]) && ChildWellFormed(h, h.children[1]);
    h
  }

  lemma PairListed(left: Hub, right: Hub)
    requires WellFormed(left) && WellFormed(right)
    ensures |Listing(Pair(left, right), [])| == 2 + |Listing(left, [0])| + |Listing(right, [1])|
    ensures Count(Pair(left, right)) == 2 + Count(left) + Count(right)
    ensures ListError(Pair(left, right), 0) == ListError(right, 1)
  {
    var h := Pair(left, right);
    assert [] + [0] == [0] && [] + [1] == [1];
    assert |Behind(h, [], 1)| == |Listing(right, [1])| && |Behind(h, [], 0)| == |Listing(left, [0])|;
    assert ListingFrom(h, [], 2) == [];
    assert |ListingFrom(h, [], 1)| == 1 + |Listing(right, [1])|;
    RestStep(h, 0);
    RestStep(h, 1);
    assert ErrorFrom(h, 0, 1, ListError(left, 1)) == ErrorFrom(h, 0, 2, ListError(right, 1)) == ListError(right, 1);
  }

  /**
   The error does not tell that nodes are missing: behind the first bridge the tree is too deep, and
   the hub behind the second wipes that out.
   */
  lemma ErrorIsForgotten()
    ensures exists h: Hub :: WellFormed(h) && ListError(h, 0) == NoError && |Listing(h, [])| < Count(h)
  {
    var left, right := Tower(7), Tower(0);
    PairListed(left, right);
    TowerIsCut(7, [0]);
    TowerIsCut(0, [1]);
    assert ErrorFrom(right, 1, 1, NoError) == ErrorFrom(right, 1, 0, NoError) == NoError;
    assert ListError(Pair(left, right), 0) == NoError;
  }

  lemma {:induction false} TowerIsCut(n: nat, prefix: seq<nat>)
    requires |prefix| <= MAX_HIERARCHIES
    ensures Count(Tower(n)) == n + 1
    ensures |Listing(Tower(n), prefix)| == if n + 1 <= MAX_HIERARCHIES - |prefix| then n + 1 else MAX_HIERARCHIES - |prefix|
  {
    var t := Tower(n);
    assert ListingFrom(t, prefix, 1) == [] && CountFrom(t, 1) == 0;
    assert ChildWellFormed(t, t.children[0]);
    if n > 0 && |prefix| < MAX_HIERARCHIES {
      TowerIsCut(n - 1, prefix + [0]);
      assert t.children[0] == Some(Tower(n - 1)) && Behind(t, prefix, 0) == Listing(Tower(n - 1), prefix + [0]);
      assert ListingFrom(t, prefix, 0) == [Node(t.idcodes[0], prefix + [0])] + Behind(t, prefix, 0) + ListingFrom(t, prefix, 1);
    } else if n > 0 {
      TowerIsCut(n - 1, prefix);
    }
  }

  // ------------------------------------------------------------- listing in place

  ghost predicate Slots(now: seq<HierId>)
  {
    forall k :: 0 <= k < |now| ==> Slot(now[k])
  }

  /** The records from slot `at` on are these nodes. */
  ghost predicate Holds(now: seq<HierId>, at: nat, ns: seq<Node>)
  {
    && Slots(now) && at + |ns| <= |now|
    && forall k :: at <= k < at + |ns| ==> now[k].positionN < MAX_HIERARCHIES && NodeOf(now[k]) == ns[k - at]
  }

  /** The hub behind position j leaves the slot after its last record touched: at the least it is prepared. */
  predicate ChildTouches(h: Hub, level: nat, j: nat)
    requires WellFormed(h) && j < |h.children|
    decreases h, 0
  {
    && h.children[j].Some?
    && (assert ChildWellFormed(h, h.children[j]);
        level + 1 >= MAX_HIERARCHIES || h.children[j].value.idcodes == [] || Touches(h.children[j].value, level + 1))
  }

  /** The slot after the last record is touched: the last hub of all that is prepared for has no records. */
  predicate Touches(h: Hub, level: nat)
    requires WellFormed(h)
    decreases h, 1
  {
    level < MAX_HIERARCHIES && h.idcodes != [] && ChildTouches(h, level, |h.idcodes| - 1)
  }

  /** The level and the position that the slot was last prepared with. */
  function ChildMark(h: Hub, level: nat, j: nat): (m: (nat, nat))
    requires WellFormed(h) && j < |h.children| && level < MAX_HIERARCHIES && ChildTouches(h, level, j)
    ensures level <= m.0 < MAX_HIERARCHIES
    decreases h, 0
  {
    assert ChildWellFormed(h, h.children[j]);
    if level + 1 >= MAX_HIERARCHIES || h.children[j].value.idcodes == [] then (level, j) else Mark(h.children[j].value, level + 1)
  }

  function Mark(h: Hub, level: nat): (m: (nat, nat))
    requires WellFormed(h) && Touches(h, level)
    ensures level <= m.0 < MAX_HIERARCHIES
    decreases h, 1
  {
    ChildMark(h, level, |h.idcodes| - 1)
  }

  /** The slot bears that mark. */
  ghost predicate Marked(now: seq<HierId>, at: nat, m: (nat, nat))
  {
    at < |now| && m.0 < |now[at].positions| && now[at].positions[m.0] == m.1
  }

  /** The slot touched lies behind all that the nodes need: the last hub is empty, and no node is left out. */
  predicate Overruns(h: Hub, level: nat)
    requires WellFormed(h)
  {
    Touches(h, level) && Fills(h, level)
  }

  /** Apart from the slots of [from, to), and slot `to` if it was touched, the array holds what it held. */
  ghost predicate Apart(slots: seq<HierId>, now: seq<HierId>, from: nat, to: nat, touched: bool)
  {
    && |slots| == |now|
    && forall k :: 0 <= k < |now| && (k < from || k > to || (k == to && !touched)) ==> now[k] == slots[k]
  }

  /** What is written depends on no slot up to the first. */
  lemma {:induction false} WrittenReads(h: Hub, w: seq<nat>, s: seq<HierId>, t: seq<HierId>, at: nat)
    requires WellFormed(h) && |s| == |t|
    requires forall k :: at < k < |s| ==> s[k] == t[k]
    ensures Written(h, w, s, at) == Written(h, w, t, at)
    decreases h, |h.idcodes| + 1
  {
    if |w| < MAX_HIERARCHIES {
      WrittenFromReads(h, w, s, t, at, 0);
    }
  }

  lemma {:induction false} WrittenFromReads(h: Hub, w: seq<nat>, s: seq<HierId>, t: seq<HierId>, at: nat, i: nat)
    requires WellFormed(h) && |s| == |t| && i <= |h.idcodes|
    requires forall k :: at < k < |s| ==> s[k] == t[k]
    ensures WrittenFrom(h, w, s, at, i) == WrittenFrom(h, w, t, at, i)
    decreases h, |h.idcodes| - i
  {
    if i < |h.idcodes| {
      BehindReads(h, w, s, t, at + 1, i);
      var behind := WrittenBehind(h, w, s, at + 1, i);
      WrittenFromReads(h, w, s, t, at + 1 + |behind|, i + 1);
    }
  }

  lemma {:induction false} BehindReads(h: Hub, w: seq<nat>, s: seq<HierId>, t: seq<HierId>, at: nat, i: nat)
    requires WellFormed(h) && |s| == |t| && i < |h.idcodes|
    requires forall k :: at <= k < |s| ==> s[k] == t[k]
    ensures WrittenBehind(h, w, s, at, i) == WrittenBehind(h, w, t, at, i)
    decreases h, 0
  {
    assert ChildWellFormed(h, h.children[i]);
    if h.children[i].Some? {
      assert ChildPrefix(w, s, at, i) == ChildPrefix(w, t, at, i);
      WrittenReads(h.children[i].value, ChildPrefix(w, s, at, i), s, t, at);
    }
  }

  /** The positions of the levels above, taken over from the first slot of the hub. */
  method CopyAncestors(ids: array<HierId>, first: nat, index: nat, hierarchy: nat)
    requires first < index < ids.Length && hierarchy <= MAX_HIERARCHIES && Slots(ids[..])
    modifies ids
    ensures Slots(ids[..]) && forall k :: 0 <= k < ids.Length && k != index ==> ids[k] == old(ids[k])
    ensures ids[index].positions == old(ids[first]).positions[..hierarchy] + old(ids[index]).positions[hierarchy..]
    ensures ids[index] == old(ids[index]).(positions := ids[index].positions)
  {
    ghost var was := ids[..];
    var upper := hierarchy;
    while upper > 0
      invariant 0 <= upper <= hierarchy && Slot(ids[index])
      invariant forall k :: 0 <= k < ids.Length && k != index ==> ids[k] == was[k]
      invariant ids[index] == was[index].(positions := ids[index].positions)
      invariant forall u :: 0 <= u < MAX_HIERARCHIES ==>
        ids[index].positions[u] == was[if upper <= u < hierarchy then first else index].positions[u]
    {
      upper := upper - 1;
      ids[index] := ids[index].(positions := ids[index].positions[upper := ids[first].positions[upper]]);
    }
  }

  /** The record of node i. */
  method WriteRecord(idcode: nat, i: byte, ids: array<HierId>, first: nat, index: nat, hierarchy: nat, ghost w: seq<nat>)
    requires first <= index < ids.Length && hierarchy < MAX_HIERARCHIES && Slots(ids[..])
    requires i == 0 <==> first == index
    requires ids[first].positions[..hierarchy] == w
    modifies ids
    ensures Slots(ids[..]) && ids[index].positionN == hierarchy && NodeOf(ids[index]) == Node(idcode, w + [i])
    ensures forall k :: 0 <= k < ids.Length && k != index ==> ids[k] == old(ids[k])
    ensures ids[first].positions[..hierarchy] == w
  {
    if i > 0 {
      CopyAncestors(ids, first, index, hierarchy);
      assert ids[..][index].positions[..hierarchy] == w;
    }
    ids[index] := HierId(idcode, hierarchy, ids[index].positions[hierarchy := i]);
  }

  /** The first slot of the hub behind position i gets the positions that lead there. */
  method Prepare(i: byte, ids: array<HierId>, first: nat, index: nat, hierarchy: nat, ghost w: seq<nat>)
    requires first < index < ids.Length && hierarchy < MAX_HIERARCHIES && Slots(ids[..])
    requires ids[first].positions[..hierarchy] == w
    modifies ids
    ensures Slots(ids[..]) && ids[index].positions[..hierarchy + 1] == ChildPrefix(w, old(ids[..]), index, i)
    ensures forall k :: 0 <= k < ids.Length && k != index ==> ids[k] == old(ids[k])
  {
    if i > 0 {
      CopyAncestors(ids, first, index, hierarchy);
      assert ids[..][index].positions[..hierarchy] == w;
    }
    ids[index] := ids[index].(positions := ids[index].positions[hierarchy := i]);
  }

  /** The loop's state before position i: what is listed so far, what is still to be written, and room for it. */
  ghost predicate Listed(h: Hub, w: seq<nat>, slots: seq<HierId>, now: seq<HierId>, off: nat, i: nat, done: seq<Node>, room: nat)
    requires WellFormed(h) && |w| < MAX_HIERARCHIES
  {
    && i <= |h.idcodes|
    && Holds(now, off, done)
    && Apart(slots, now, off, off + |done|, i > 0 && ChildTouches(h, |w|, i - 1))
    && (i > 0 && ChildTouches(h, |w|, i - 1) ==> Marked(now, off + |done|, ChildMark(h, |w|, i - 1)))
    && (i == 0 ==> done == [] && now == slots)
    && (i > 0 ==> done != [])
    && (off < |now| ==> now[off].positions[..|w|] == w)
    && Written(h, w, slots, off) == done + WrittenFrom(h, w, slots, off + |done|, i)
    && Rest(h, i) <= room && (!FillsTo(h, |w|, i) ==> Rest(h, i) < room)
    && off + |done| + room <= |now|
    && |done| + Rest(h, i) <= Count(h)
  }

  /** The children before i are listed whole. */
  predicate FillsTo(h: Hub, level: nat, i: nat)
    requires WellFormed(h) && i <= |h.children|
  {
    forall j :: 0 <= j < i ==> ChildFills(h, h.children[j], level)
  }

  /** Likewise, with node i recorded and the hub behind it still to come. */
  ghost predicate Recorded(h: Hub, w: seq<nat>, slots: seq<HierId>, now: seq<HierId>, off: nat, i: nat, done: seq<Node>, room: nat)
    requires WellFormed(h) && |w| < MAX_HIERARCHIES
  {
    && i < |h.idcodes| && done != []
    && Holds(now, off, done)
    && Apart(slots, now, off, off + |done| - 1, true)
    && now[off].positions[..|w|] == w
    && (var behind := WrittenBehind(h, w, slots, off + |done|, i);
        Written(h, w, slots, off) == done + behind + WrittenFrom(h, w, slots, off + |done| + |behind|, i + 1))
    && CountBehind(h, i) + Rest(h, i + 1) <= room
    && (!FillsTo(h, |w|, i) ==> CountBehind(h, i) + Rest(h, i + 1) < room)
    && off + |done| + room <= |now|
    && |done| + CountBehind(h, i) + Rest(h, i + 1) <= Count(h)
  }

  lemma RecordedNext(h: Hub, w: seq<nat>, slots: seq<HierId>, off: nat, i: nat, done: seq<Node>)
    requires WellFormed(h) && i < |h.idcodes|
    requires Written(h, w, slots, off) == done + WrittenFrom(h, w, slots, off + |done|, i)
    ensures var done' := done + [Node(h.idcodes[i], w + [i])];
            var behind := WrittenBehind(h, w, slots, off + |done'|, i);
            Written(h, w, slots, off) == done' + behind + WrittenFrom(h, w, slots, off + |done'| + |behind|, i + 1)
  {
  }

  method RecordNode(h: Hub, hierarchy: nat, ids: array<HierId>, off: nat, i: nat, used: nat, room: nat,
      ghost w: seq<nat>, ghost slots: seq<HierId>, ghost done: seq<Node>)
    returns (ghost done': seq<Node>)
    requires WellFormed(h) && |w| == hierarchy < MAX_HIERARCHIES && i < |h.idcodes| && used == |done|
    requires Listed(h, w, slots, ids[..], off, i, done, room)
    modifies ids
    ensures room > 0 && |done'| == |done| + 1 && Recorded(h, w, slots, ids[..], off, i, done', room - 1)
  {
    RestStep(h, i);
    RecordedNext(h, w, slots, off, i, done);
    WriteRecord(h.idcodes[i], i, ids, off, off + used, hierarchy, w);
    done' := done + [Node(h.idcodes[i], w + [i])];
  }

  /** No hub behind the node: the loop goes on. */
  lemma NothingBehind(h: Hub, w: seq<nat>, slots: seq<HierId>, now: seq<HierId>, off: nat, i: nat, done: seq<Node>, room: nat)
    requires WellFormed(h) && |w| < MAX_HIERARCHIES && Recorded(h, w, slots, now, off, i, done, room) && h.children[i].None?
    ensures Listed(h, w, slots, now, off, i + 1, done, room)
  {
    assert WrittenBehind(h, w, slots, off + |done|, i) == [];
    assert done + [] == done;
  }

  /** What the hub behind the node listed goes behind the node. */
  lemma SomethingBehind(h: Hub, w: seq<nat>, slots: seq<HierId>, before: seq<HierId>, now: seq<HierId>, off: nat, i: nat,
      done: seq<Node>, room: nat, behind: seq<Node>)
    requires WellFormed(h) && |w| < MAX_HIERARCHIES && Recorded(h, w, slots, before, off, i, done, room)
    requires behind == WrittenBehind(h, w, slots, off + |done|, i) && |behind| <= CountBehind(h, i)
    requires |behind| == CountBehind(h, i) ==> ChildFills(h, h.children[i], |w|)
    requires Apart(before, now, off + |done|, off + |done| + |behind|, ChildTouches(h, |w|, i))
    requires ChildTouches(h, |w|, i) ==> Marked(now, off + |done| + |behind|, ChildMark(h, |w|, i))
    requires Holds(now, off + |done|, behind)
    ensures Listed(h, w, slots, now, off, i + 1, done + behind, room - |behind|)
  {
    forall k | off <= k < off + |done + behind|
      ensures now[k].positionN < MAX_HIERARCHIES && NodeOf(now[k]) == (done + behind)[k - off]
    {
      if k < off + |done| {
        assert now[k] == before[k];
      }
    }
    assert now[off] == before[off];
  }

  /** The hub behind the node fits, and the slot after it if it is touched. */
  lemma RoomBehind(h: Hub, hierarchy: nat, off: nat, i: nat, done: nat, room: nat, length: nat)
    requires WellFormed(h) && i < |h.idcodes| && h.children[i].Some? && hierarchy < MAX_HIERARCHIES
    requires CountBehind(h, i) + Rest(h, i + 1) <= room && off + done + room <= length
    requires !FillsTo(h, hierarchy, i) ==> CountBehind(h, i) + Rest(h, i + 1) < room
    requires done + CountBehind(h, i) + Rest(h, i + 1) <= Count(h)
    requires Overruns(h, hierarchy) ==> off + Count(h) < length
    ensures off + done < length && ChildWellFormed(h, h.children[i])
    ensures Overruns(h.children[i].value, hierarchy + 1) ==> off + done + Count(h.children[i].value) < length
  {
    var child := h.children[i].value;
    assert ChildWellFormed(h, h.children[i]);
    if i + 1 < |h.idcodes| {
      RestStep(h, i + 1);
    } else if FillsTo(h, hierarchy, i) && Fills(child, hierarchy + 1) {
      assert Fills(h, hierarchy) by {
        assert ChildFills(h, h.children[i], hierarchy);
      }
      assert Count(child) > 0 || ChildTouches(h, hierarchy, i);
      assert Touches(child, hierarchy + 1) ==> ChildTouches(h, hierarchy, i);
      assert ChildTouches(h, hierarchy, i) ==> Overruns(h, hierarchy);
    }
  }

  /**
   The records of a hub and of all behind it, from slot `off` on: as many as there are, or the error
   that stops it. No other slot is touched but, exactly if `Touches`, the one after the last record. The
   array must have that slot only where it lies behind all that the nodes need.
   */
  method GetHierIds(h: Hub, hierarchy: nat, ids: array<HierId>, off: nat, room: nat, ghost w: seq<nat>)
    returns (error: Error, used: nat)
    requires WellFormed(h) && |w| == hierarchy <= MAX_HIERARCHIES
    requires Slots(ids[..]) && off + room <= ids.Length
    requires hierarchy < MAX_HIERARCHIES && off < ids.Length ==> ids[off].positions[..hierarchy] == w
    requires Overruns(h, hierarchy) && Count(h) <= room ==> off + Count(h) < ids.Length
    modifies ids
    ensures error == if hierarchy >= MAX_HIERARCHIES then TooManyHierarchies
                     else if room < Count(h) then TooManyDevices else ListError(h, hierarchy)
    ensures hierarchy >= MAX_HIERARCHIES || room < Count(h) ==> used == 0 && ids[..] == old(ids[..])
    ensures room >= Count(h) ==>
      && used == |Written(h, w, old(ids[..]), off)| <= Count(h)
      && Holds(ids[..], off, Written(h, w, old(ids[..]), off))
    ensures Slots(ids[..]) && Apart(old(ids[..]), ids[..], off, off + used, room >= Count(h) && Touches(h, hierarchy))
    ensures room >= Count(h) && Touches(h, hierarchy) ==> Marked(ids[..], off + used, Mark(h, hierarchy))
    decreases h, 5
  {
    used := 0;
    if hierarchy >= MAX_HIERARCHIES {
      return TooManyHierarchies, 0;
    }
    if room < Count(h) {
      return TooManyDevices, 0;
    }
    error, used := ListNodes(h, hierarchy, ids, off, room, w);
  }

  lemma ListedAtStart(h: Hub, w: seq<nat>, slots: seq<HierId>, off: nat, room: nat)
    requires WellFormed(h) && |w| < MAX_HIERARCHIES && Slots(slots)
    requires Count(h) <= room && off + room <= |slots| && (off < |slots| ==> slots[off].positions[..|w|] == w)
    ensures Listed(h, w, slots, slots, off, 0, [], room)
  {
    assert Written(h, w, slots, off) == [] + WrittenFrom(h, w, slots, off, 0);
  }

  lemma ListedAtEnd(h: Hub, w: seq<nat>, slots: seq<HierId>, now: seq<HierId>, off: nat, done: seq<Node>, room: nat)
    requires WellFormed(h) && |w| < MAX_HIERARCHIES && Listed(h, w, slots, now, off, |h.idcodes|, done, room)
    ensures done == Written(h, w, slots, off) && |done| <= Count(h)
    ensures Holds(now, off, done) && Apart(slots, now, off, off + |done|, Touches(h, |w|))
    ensures Touches(h, |w|) ==> Marked(now, off + |done|, Mark(h, |w|))
  {
    assert WrittenFrom(h, w, slots, off + |done|, |h.idcodes|) == [] && done + [] == done;
  }

  /** The loop over the nodes of the hub. */
  method ListNodes(h: Hub, hierarchy: nat, ids: array<HierId>, off: nat, room: nat, ghost w: seq<nat>)
    returns (error: Error, used: nat)
    requires WellFormed(h) && |w| == hierarchy < MAX_HIERARCHIES
    requires Slots(ids[..]) && Count(h) <= room && off + room <= ids.Length
    requires off < ids.Length ==> ids[off].positions[..hierarchy] == w
    requires Overruns(h, hierarchy) ==> off + Count(h) < ids.Length
    modifies ids
    ensures error == ListError(h, hierarchy)
    ensures used == |Written(h, w, old(ids[..]), off)| <= Count(h)
    ensures Holds(ids[..], off, Written(h, w, old(ids[..]), off))
    ensures Apart(old(ids[..]), ids[..], off, off + used, Touches(h, hierarchy))
    ensures Touches(h, hierarchy) ==> Marked(ids[..], off + used, Mark(h, hierarchy))
    decreases h, 4
  {
    ghost var slots, done, left := ids[..], [], room;
    error, used, done, left := ListAll(h, hierarchy, ids, off, room, w);
    ListedAtEnd(h, w, slots, ids[..], off, done, left);
  }

  method ListAll(h: Hub, hierarchy: nat, ids: array<HierId>, off: nat, room: nat, ghost w: seq<nat>)
    returns (error: Error, used: nat, ghost done: seq<Node>, ghost left: nat)
    requires WellFormed(h) && |w| == hierarchy < MAX_HIERARCHIES
    requires Slots(ids[..]) && Count(h) <= room && off + room <= ids.Length
    requires off < ids.Length ==> ids[off].positions[..hierarchy] == w
    requires Overruns(h, hierarchy) ==> off + Count(h) < ids.Length
    modifies ids
    ensures error == ListError(h, hierarchy) && used == |done|
    ensures Listed(h, w, old(ids[..]), ids[..], off, |h.idcodes|, done, left)
    decreases h, 3
  {
    error, used := NoError, 0;
    ghost var slots := ids[..];
    done := [];
    var spare, i := room, 0;
    ListedAtStart(h, w, slots, off, room);
    while i < |h.idcodes|
      invariant i <= |h.idcodes| && used == |done|
      invariant Listed(h, w, slots, ids[..], off, i, done, spare)
      invariant ErrorFrom(h, hierarchy, i, error) == ListError(h, hierarchy)
    {
      var n;
      error, n, done := ListNode(h, hierarchy, ids, off, i, used, spare, error, w, slots, done);
      used, spare, i := used + n, spare - n, i + 1;
    }
    left := spare;
  }

  /** Node i and all behind it. */
  method ListNode(h: Hub, hierarchy: nat, ids: array<HierId>, off: nat, i: nat, used: nat, room: nat, sofar: Error,
      ghost w: seq<nat>, ghost slots: seq<HierId>, ghost done: seq<Node>)
    returns (error: Error, n: nat, ghost done': seq<Node>)
    requires WellFormed(h) && |w| == hierarchy < MAX_HIERARCHIES && i < |h.idcodes| && used == |done|
    requires Listed(h, w, slots, ids[..], off, i, done, room)
    requires Overruns(h, hierarchy) ==> off + Count(h) < ids.Length
    modifies ids
    ensures n <= room && |done'| == |done| + n && Listed(h, w, slots, ids[..], off, i + 1, done', room - n)
    ensures ErrorFrom(h, hierarchy, i + 1, error) == ErrorFrom(h, hierarchy, i, sofar)
    decreases h, 2
  {
    assert ChildWellFormed(h, h.children[i]);
    done' := RecordNode(h, hierarchy, ids, off, i, used, room, w, slots, done);
    error, n := sofar, 1;
    if h.children[i].Some? {
      RoomBehind(h, hierarchy, off, i, used + 1, room - 1, ids.Length);
      var behind;
      error, behind, done' := ListBehind(h, hierarchy, ids, off, i, used + 1, room - 1, w, slots, done');
      n := n + behind;
    } else {
      NothingBehind(h, w, slots, ids[..], off, i, done', room - 1);
    }
  }

  /** The hub behind node i, into the slots after the node's own. */
  method ListBehind(h: Hub, hierarchy: nat, ids: array<HierId>, off: nat, i: nat, used: nat, room: nat,
      ghost w: seq<nat>, ghost slots: seq<HierId>, ghost done: seq<Node>)
    returns (error: Error, n: nat, ghost done': seq<Node>)
    requires WellFormed(h) && |w| == hierarchy < MAX_HIERARCHIES && i < |h.idcodes| && used == |done|
    requires h.children[i].Some? && ChildWellFormed(h, h.children[i])
    requires Recorded(h, w, slots, ids[..], off, i, done, room) && off + used < ids.Length
    requires Overruns(h.children[i].value, hierarchy + 1) ==> off + used + Count(h.children[i].value) < ids.Length
    modifies ids
    ensures n <= room && |done'| == |done| + n && Listed(h, w, slots, ids[..], off, i + 1, done', room - n)
    ensures error == ListError(h.children[i].value, hierarchy + 1)
    decreases h, 1
  {
    ghost var recorded := ids[..];
    ghost var behind := WrittenBehind(h, w, slots, off + used, i);
    error, n := ListChild(h, hierarchy, ids, off, i, off + used, room, w, slots);
    done' := done + behind;
    SomethingBehind(h, w, slots, recorded, ids[..], off, i, done, room, behind);
  }

  /** The hub behind node i: its first slot is prepared, then it is listed from there on. */
  method ListChild(h: Hub, hierarchy: nat, ids: array<HierId>, off: nat, i: nat, at: nat, room: nat, ghost w: seq<nat>, ghost slots: seq<HierId>)
    returns (error: Error, n: nat)
    requires WellFormed(h) && |w| == hierarchy < MAX_HIERARCHIES && i < |h.idcodes|
    requires h.children[i].Some? && ChildWellFormed(h, h.children[i])
    requires Slots(ids[..]) && off < at < ids.Length && at + room <= ids.Length && CountBehind(h, i) <= room
    requires ids[off].positions[..hierarchy] == w && |slots| == ids.Length && forall k :: at <= k < ids.Length ==> ids[k] == slots[k]
    requires Overruns(h.children[i].value, hierarchy + 1) ==> at + Count(h.children[i].value) < ids.Length
    modifies ids
    ensures error == ListError(h.children[i].value, hierarchy + 1)
    ensures var behind := WrittenBehind(h, w, slots, at, i);
      && n == |behind| <= CountBehind(h, i) && (n == CountBehind(h, i) ==> ChildFills(h, h.children[i], hierarchy))
      && Holds(ids[..], at, behind)
    ensures Apart(old(ids[..]), ids[..], at, at + n, ChildTouches(h, hierarchy, i))
    ensures ChildTouches(h, hierarchy, i) ==> Marked(ids[..], at + n, ChildMark(h, hierarchy, i))
    decreases h, 0
  {
    var child := h.children[i].value;
    ghost var recorded := ids[..];
    Prepare(i, ids, off, at, hierarchy, w);
    ghost var prepared := ids[..];
    ghost var w' := ChildPrefix(w, recorded, at, i);
    assert w' == ChildPrefix(w, slots, at, i);
    WrittenReads(child, w', slots, prepared, at);
    assert CountBehind(h, i) == Count(child);
    error, n := GetHierIds(child, hierarchy + 1, ids, at, room, w');
    ErrorExactlyIfDeepLast(child, hierarchy + 1);
    BehindCounts(h, i, w', prepared, at);
    NoRecords(child, w', prepared, at);
    assert prepared[at].positions[hierarchy] == prepared[at].positions[..hierarchy + 1][hierarchy];
    TouchesLifted(h, hierarchy, i, recorded, prepared, ids[..], at, n);
  }

  /** As many records as there are nodes behind, if none of them lies too deep. */
  lemma BehindCounts(h: Hub, i: nat, w': seq<nat>, prepared: seq<HierId>, at: nat)
    requires WellFormed(h) && i < |h.idcodes| && h.children[i].Some? && ChildWellFormed(h, h.children[i]) && |w'| > 0
    ensures var n := |Written(h.children[i].value, w', prepared, at)|;
      n <= CountBehind(h, i) && (n == CountBehind(h, i) ==> ChildFills(h, h.children[i], |w'| - 1))
  {
    var child := h.children[i].value;
    WrittenInOrder(child, w', w', prepared, at);
    ListingWithinCount(child, w');
  }

  /** What the hub behind left untouched and marked, seen from the hub above it. */
  lemma TouchesLifted(h: Hub, level: nat, i: nat, recorded: seq<HierId>, prepared: seq<HierId>, now: seq<HierId>, at: nat, n: nat)
    requires WellFormed(h) && level < MAX_HIERARCHIES && i < |h.idcodes| && h.children[i].Some? && ChildWellFormed(h, h.children[i])
    requires |recorded| == |prepared| && at < |prepared| && |prepared[at].positions| == MAX_HIERARCHIES
    requires prepared[at].positions[level] == i
    requires forall k :: 0 <= k < |recorded| && k != at ==> prepared[k] == recorded[k]
    requires n == 0 <==> level + 1 >= MAX_HIERARCHIES || h.children[i].value.idcodes == []
    requires n == 0 ==> !Touches(h.children[i].value, level + 1)
    requires Apart(prepared, now, at, at + n, Touches(h.children[i].value, level + 1))
    requires Touches(h.children[i].value, level + 1) ==> Marked(now, at + n, Mark(h.children[i].value, level + 1))
    ensures Apart(recorded, now, at, at + n, ChildTouches(h, level, i))
    ensures ChildTouches(h, level, i) ==> Marked(now, at + n, ChildMark(h, level, i))
  {
    if n == 0 {
      assert now[at] == prepared[at];
    }
  }

  /** Nothing is written for a hub too deep or without nodes, and something for any other. */
  lemma NoRecords(h: Hub, w: seq<nat>, slots: seq<HierId>, at: nat)
    requires WellFormed(h)
    ensures Written(h, w, slots, at) == [] <==> |w| >= MAX_HIERARCHIES || h.idcodes == []
    ensures |w| >= MAX_HIERARCHIES || h.idcodes == [] ==> !Touches(h, |w|)
  {
    if |w| < MAX_HIERARCHIES && h.idcodes == [] {
      assert WrittenFrom(h, w, slots, at, 0) == [];
    }
  }

  /** A workspace all zeros. */
  ghost predicate Zeroed(slots: seq<HierId>)
  {
    Before(slots, Some(0))
  }

  /**
   The whole tree from the top. Whatever the slots held, there is one record a node, in pre-order, each
   with its code, level and own position; in a tree whose lower hubs have nothing behind position 0 the
   ancestors' positions are right too, as they are in a zeroed workspace if that position leads to those hubs; in a tree of at most eight levels no node is missing.
   */
  method ListTree(top: Hub, ids: array<HierId>, room: nat) returns (error: Error, used: nat)
    requires WellFormed(top) && Slots(ids[..]) && room <= ids.Length
    requires Overruns(top, 0) && Count(top) <= room ==> Count(top) < ids.Length
    modifies ids
    ensures room < Count(top) ==> error == TooManyDevices && ids[..] == old(ids[..])
    ensures room >= Count(top) ==> error == ListError(top, 0) && used == |Listing(top, [])|
    ensures room >= Count(top) ==>
      Holds(ids[..], 0, Written(top, [], old(ids[..]), 0)) && AllOwnRight(Written(top, [], old(ids[..]), 0), Listing(top, []))
    ensures room >= Count(top) && ZeroFree(top, [], None) ==> Holds(ids[..], 0, Listing(top, []))
    ensures room >= Count(top) && old(Zeroed(ids[..])) && ZeroFree(top, [], Some(0)) ==> Holds(ids[..], 0, Listing(top, []))
    ensures forall k :: Count(top) <= k < ids.Length && !(k == Count(top) <= room && Overruns(top, 0)) ==> ids[k] == old(ids[k])
    ensures room >= Count(top) && Overruns(top, 0) ==> Marked(ids[..], Count(top), Mark(top, 0))
    ensures room >= Count(top) && Shallow(top, 0) ==> error == NoError && used == Count(top)
  {
    ghost var slots := ids[..];
    error, used := GetHierIds(top, 0, ids, 0, room, []);
    WrittenInOrder(top, [], [], slots, 0);
    ListingWithinCount(top, []);
    if Shallow(top, 0) {
      ShallowHasNoError(top, 0);
      ShallowFills(top, 0);
    }
    if room >= Count(top) && ZeroFree(top, [], None) {
      WrittenIsRight(top, [], slots, 0, None);
    }
    if room >= Count(top) && Zeroed(slots) && ZeroFree(top, [], Some(0)) {
      WrittenIsRight(top, [], slots, 0, Some(0));
    }
  }
}
