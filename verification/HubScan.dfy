/**
 The discovery of the hubs behind a hub, and the select words: the one that addresses a hub during the
 discovery, and the ones built again from a record when a node is opened.
 */
module HubScan {
  import opened Bits
  import opened Bytes
  import opened Common
  import opened HubResolve
  import opened HubTree

  datatype ScanError = NoError | Failure | LinkError

  /** What the hardware answers when a hub is addressed: its own code, and the codes of its nodes. */
  datatype Reply = Reply(hubError: ScanError, hubIdcode: nat, nodeError: ScanError, codes: seq<nat>)

  function IrBits(idcode: nat): (n: nat) { idcode % 0x100 }

  function NodeCount(idcode: nat): (n: nat)
    ensures n <= 255
  {
    idcode / 0x8_0000 % 0x100
  }

  function Version(idcode: nat): (n: nat) { idcode / 0x800_0000 % 0x20 }

  /** There is a hub that this program can work with. */
  predicate Present(r: Reply)
  {
    r.hubError == NoError && MfgId(r.hubIdcode) == MFG_ID_ALTERA && Version(r.hubIdcode) == 1 && IrBits(r.hubIdcode) != 0
  }

  function Codes(r: Reply): (codes: seq<nat>)
    ensures |codes| == NodeCount(r.hubIdcode)
    ensures |r.codes| == NodeCount(r.hubIdcode) ==> codes == r.codes
  {
    seq(NodeCount(r.hubIdcode), i => if 0 <= i < |r.codes| then r.codes[i] else 0)
  }

  /** A code of five bits of version, eight of node (or node count), eleven of manufacturer and eight below. */
  function Idcode(version: nat, node: nat, mfg: nat, low: nat): (code: nat)
  {
    low + 0x100 * (mfg + 0x800 * (node + 0x100 * version))
  }

  /** What is read off a code are the fields it was put together from. */
  lemma CodeFields(version: nat, node: nat, mfg: nat, low: nat)
    requires version < 0x20 && node < 0x100 && mfg < 0x800 && low < 0x100
    ensures var code := Idcode(version, node, mfg, low);
      && Version(code) == version && NodeCount(code) == NodeId(code) == node && MfgId(code) == mfg && IrBits(code) == low
      && (IsBridge(code) <==> node == 0xFF && mfg == 0x6E)
      && forall r: Reply :: r.hubIdcode == code ==> (Present(r) <==> r.hubError == NoError && mfg == 0x6E && version == 1 && low != 0)
  {
    var code := Idcode(version, node, mfg, low);
    var top := node + 0x100 * version;
    var mid := mfg + 0x800 * top;
    DivUnique(code, 0x100, mid, low);
    DivUnique(mid, 0x800, top, mfg);
    DivUnique(code, 0x8_0000, top, low + 0x100 * mfg);
    DivUnique(top, 0x100, version, node);
    DivUnique(code, 0x800_0000, version, low + 0x100 * mfg + 0x8_0000 * node);
  }

  /** Just wide enough to select one of n nodes or the hub itself. */
  predicate SelWidth(n: nat, sel: nat)
  {
    n + 1 <= Pow2(sel) && (sel > 0 ==> Pow2(sel - 1) < n + 1)
  }

  /** The word that addresses the hub whose select fields, `bits` wide together, have this value: left-aligned in 64 bits. */
  function Address(value: nat, bits: nat): (word: nat)
    requires bits <= 64
  {
    Shl(value, 64 - bits)
  }

  /** The value of the select fields of the hub behind position i. */
  function Below(value: nat, sel: nat, i: nat): (v: nat)
  {
    Shl(value, sel) + i + 1
  }

  /** The hub is what the hardware answers at its address, and so is every hub behind it. */
  ghost predicate Scanned(hw: nat -> Reply, scan: bool, h: Hub, bits: nat, value: nat)
    requires bits < 64
    decreases h
  {
    var r := hw(Address(value, bits));
    && Present(r) && |h.children| == |h.idcodes|
    && h.irBits == IrBits(r.hubIdcode) && SelWidth(NodeCount(r.hubIdcode), h.selBits)
    && h.idcodes == (if bits + h.selBits + h.irBits <= 64 then Codes(r) else [])
    && forall i :: 0 <= i < |h.children| ==>
         Branch(hw, scan, r.nodeError == NoError, h.idcodes[i], h.children[i], bits + h.selBits, Below(value, h.selBits, i))
  }

  /** There is a hub behind a node exactly if the node is a bridge and a hub answers there. */
  ghost predicate Branch(hw: nat -> Reply, scan: bool, read: bool, idcode: nat, c: Option<Hub>, bits: nat, value: nat)
    decreases c
  {
    && bits < 64
    && (c.Some? <==> scan && read && IsBridge(idcode) && Present(hw(Address(value, bits))))
    && (c.Some? ==> Scanned(hw, scan, c.value, bits, value))
  }

  /**
   The error that comes back for a hub: too many select bits, its nodes not read, or whatever the hub
   behind the last of its bridges gave, which hides what the others gave.
   */
  ghost function HubError(hw: nat -> Reply, scan: bool, h: Hub, bits: nat, value: nat): (e: ScanError)
    requires bits < 64
    decreases h, |h.children| + 1
  {
    var r := hw(Address(value, bits));
    if bits + h.selBits + h.irBits > 64 then Failure
    else if NodeCount(r.hubIdcode) > 0 && r.nodeError != NoError then r.nodeError
    else if scan && h.irBits > 0 then BranchError(hw, h, |h.children|, bits + h.selBits, value)
    else NoError
  }

  ghost function BranchError(hw: nat -> Reply, h: Hub, n: nat, bits: nat, value: nat): (e: ScanError)
    requires n <= |h.children| && bits < 64
    decreases h, n
  {
    if n == 0 then NoError
    else if n <= |h.idcodes| && IsBridge(h.idcodes[n - 1]) then
      var v := Below(value, h.selBits, n - 1);
      if h.children[n - 1].Some? then HubError(hw, true, h.children[n - 1].value, bits, v)
      else hw(Address(v, bits)).hubError
    else BranchError(hw, h, n - 1, bits, value)
  }

  lemma {:induction false} BranchErrorReads(hw: nat -> Reply, h: Hub, h': Hub, n: nat, bits: nat, value: nat)
    requires n <= |h.children| && n <= |h'.children| && bits < 64 && h.idcodes == h'.idcodes && h.selBits == h'.selBits
    requires h.children[..n] == h'.children[..n]
    ensures BranchError(hw, h, n, bits, value) == BranchError(hw, h', n, bits, value)
    decreases n
  {
    if n > 0 {
      assert h.children[n - 1] == h.children[..n][n - 1] == h'.children[n - 1];
      assert h.children[..n - 1] == h.children[..n][..n - 1] == h'.children[..n - 1];
      BranchErrorReads(hw, h, h', n - 1, bits, value);
    }
  }

  /** The select word of a hub one level further down. */
  lemma BelowAddress(value: nat, bits: nat, sel: nat, i: nat)
    requires value < Pow2(bits) && bits + sel <= 64 && i + 1 < Pow2(sel)
    ensures Or(Shl(i + 1, 64 - (bits + sel)), Address(value, bits)) == Address(Below(value, sel, i), bits + sel)
    ensures Below(value, sel, i) < Pow2(bits + sel)
  {
    var n := 64 - (bits + sel);
    FieldBelow(value, i + 1, sel, n);
    FieldBound(value, i + 1, sel, bits);
  }

  /** Moved up together, a field and the one below it are the fields moved up one by one. */
  lemma FieldsMove(value: nat, x: nat, sel: nat, n: nat)
    requires x < Pow2(sel)
    ensures Shl(x, n) < Pow2(sel + n)
    ensures Shl(Shl(value, sel) + x, n) == Shl(value, sel + n) + Shl(x, n)
  {
    ShlLess(x, Pow2(sel), n);
    Pow2Shl(sel, n);
    ShlAdd(value, sel, n);
    ShlSum(Shl(value, sel), x, n);
  }

  lemma FieldBelow(value: nat, x: nat, sel: nat, n: nat)
    requires x < Pow2(sel)
    ensures Or(Shl(value, sel + n), Shl(x, n)) == Shl(Shl(value, sel) + x, n)
    ensures Or(Shl(x, n), Shl(value, sel + n)) == Shl(Shl(value, sel) + x, n)
  {
    FieldsMove(value, x, sel, n);
    OrIsSum(value, Shl(x, n), sel + n);
  }

  /**
   Discovers the hub addressed by `parentSelect` and, if `scan`, all hubs behind it. Each level takes at
   least one of the 64 bits of the word, so the discovery ends whatever the hardware answers.
   */
  method ReadHub(hw: nat -> Reply, scan: bool, parentBits: nat, parentSelect: nat, ghost value: nat)
    returns (error: ScanError, present: bool, hub: Hub)
    requires parentBits < 64 && value < Pow2(parentBits) && parentSelect == Address(value, parentBits)
    ensures present <==> Present(hw(parentSelect))
    ensures present ==> Scanned(hw, scan, hub, parentBits, value)
    ensures !present ==> hub == Hub([], 0, 0, [])
    ensures error == if present then HubError(hw, scan, hub, parentBits, value) else hw(parentSelect).hubError
    decreases 64 - parentBits, 1
  {
    var r := hw(parentSelect);
    if !Present(r) {
      return r.hubError, false, Hub([], 0, 0, []);
    }
    present := true;
    var n := NodeCount(r.hubIdcode);
    var sel := CeilLog2(n + 1);
    var ir := IrBits(r.hubIdcode);
    if parentBits + sel + ir > 64 {
      return Failure, true, Hub([], sel, ir, []);
    }
    var idcodes := Codes(r);
    error := if n > 0 then r.nodeError else NoError;
    var children: seq<Option<Hub>> := seq(n, _ => None);
    if scan && error == NoError {
      error, children := ScanChildren(hw, idcodes, sel, ir, parentBits, parentSelect, value);
    }
    hub := Hub(idcodes, sel, ir, children);
  }

  /** The hubs behind the bridges; the error of the last one comes back. */
  method ScanChildren(hw: nat -> Reply, idcodes: seq<nat>, sel: nat, ir: nat, parentBits: nat, parentSelect: nat, ghost value: nat)
    returns (error: ScanError, children: seq<Option<Hub>>)
    requires SelWidth(|idcodes|, sel) && ir > 0 && parentBits + sel + ir <= 64
    requires value < Pow2(parentBits) && parentSelect == Address(value, parentBits)
    ensures |children| == |idcodes|
    ensures error == BranchError(hw, Hub(idcodes, sel, ir, children), |children|, parentBits + sel, value)
    ensures forall j :: 0 <= j < |idcodes| ==> Branch(hw, true, true, idcodes[j], children[j], parentBits + sel, Below(value, sel, j))
    decreases 64 - parentBits, 0
  {
    error, children := NoError, [];
    while |children| < |idcodes|
      invariant |children| <= |idcodes|
      invariant error == BranchError(hw, Hub(idcodes, sel, ir, children), |children|, parentBits + sel, value)
      invariant forall j :: 0 <= j < |children| ==> Branch(hw, true, true, idcodes[j], children[j], parentBits + sel, Below(value, sel, j))
    {
      var i := |children|;
      var found: Option<Hub> := None;
      if IsBridge(idcodes[i]) {
        assert sel > 0;
        var bits := parentBits + sel;
        BelowAddress(value, parentBits, sel, i);
        var select := Or(Shl(i + 1, 64 - bits), parentSelect);
        var present, child;
        error, present, child := ReadHub(hw, true, bits, select, Below(value, sel, i));
        if present {
          found := Some(child);
        }
      }
      BranchErrorReads(hw, Hub(idcodes, sel, ir, children), Hub(idcodes, sel, ir, children + [found]), i, parentBits + sel, value);
      children := children + [found];
    }
  }

  lemma {:induction false} ScannedWellFormed(hw: nat -> Reply, scan: bool, h: Hub, bits: nat, value: nat)
    requires bits < 64 && Scanned(hw, scan, h, bits, value)
    ensures WellFormed(h)
    decreases h
  {
    forall i | 0 <= i < |h.children|
      ensures ChildWellFormed(h, h.children[i]) && (h.children[i].Some? ==> IsBridge(h.idcodes[i]))
    {
      var r := hw(Address(value, bits));
      assert Branch(hw, scan, r.nodeError == NoError, h.idcodes[i], h.children[i], bits + h.selBits, Below(value, h.selBits, i));
      if h.children[i].Some? {
        ScannedWellFormed(hw, scan, h.children[i].value, bits + h.selBits, Below(value, h.selBits, i));
      }
    }
  }

  // ------------------------------------------------------------- errors that are forgotten

  /** The hub itself could not be read: too many bits, or its nodes gave an error. */
  ghost predicate Unread(hw: nat -> Reply, h: Hub, bits: nat, value: nat)
    requires bits < 64
  {
    var r := hw(Address(value, bits));
    bits + h.selBits + h.irBits > 64 || (NodeCount(r.hubIdcode) > 0 && r.nodeError != NoError)
  }

  /** No hub gave an error, neither this one nor any that was looked for behind it. */
  ghost predicate AllRead(hw: nat -> Reply, scan: bool, h: Hub, bits: nat, value: nat)
    requires bits < 64
    decreases h, 1
  {
    && !Unread(hw, h, bits, value)
    && (scan ==> forall j :: 0 <= j < |h.children| ==> BranchRead(hw, h, j, bits, value))
  }

  ghost predicate BranchRead(hw: nat -> Reply, h: Hub, j: nat, bits: nat, value: nat)
    requires j < |h.children|
    decreases h, 0
  {
    var below := bits + h.selBits;
    j < |h.idcodes| && below < 64 && (IsBridge(h.idcodes[j]) ==>
      var v := Below(value, h.selBits, j);
      if h.children[j].Some? then AllRead(hw, true, h.children[j].value, below, v)
      else hw(Address(v, below)).hubError == NoError)
  }

  /** Up to the last of the first n nodes that is a bridge; 0 if there is none. */
  function LastBridgeNode(idcodes: seq<nat>, n: nat): (k: nat)
    requires n <= |idcodes|
    ensures k <= n && (k > 0 ==> IsBridge(idcodes[k - 1])) && forall j :: k <= j < n ==> !IsBridge(idcodes[j])
  {
    if n == 0 || IsBridge(idcodes[n - 1]) then n else LastBridgeNode(idcodes, n - 1)
  }

  /** From each hub to what is behind its last bridge: no error on that way. */
  ghost predicate LastRead(hw: nat -> Reply, scan: bool, h: Hub, bits: nat, value: nat)
    requires bits < 64
    decreases h
  {
    && !Unread(hw, h, bits, value)
    && (scan && |h.children| == |h.idcodes| && LastBridgeNode(h.idcodes, |h.idcodes|) > 0 ==>
          var j := LastBridgeNode(h.idcodes, |h.idcodes|) - 1;
          var v := Below(value, h.selBits, j);
          bits + h.selBits < 64 &&
          if h.children[j].Some? then LastRead(hw, true, h.children[j].value, bits + h.selBits, v)
          else hw(Address(v, bits + h.selBits)).hubError == NoError)
  }

  lemma {:induction false} BranchErrorIsLast(hw: nat -> Reply, h: Hub, n: nat, bits: nat, value: nat)
    requires n <= |h.children| == |h.idcodes| && bits < 64
    ensures BranchError(hw, h, n, bits, value) == BranchError(hw, h, LastBridgeNode(h.idcodes, n), bits, value)
    decreases n
  {
    if n > 0 && !IsBridge(h.idcodes[n - 1]) {
      BranchErrorIsLast(hw, h, n - 1, bits, value);
    }
  }

  /** A discovery reports an error exactly if there is one on the way from each hub to its last bridge. */
  lemma {:induction false} ErrorExactlyIfLast(hw: nat -> Reply, scan: bool, h: Hub, bits: nat, value: nat)
    requires bits < 64 && Scanned(hw, scan, h, bits, value)
    ensures HubError(hw, scan, h, bits, value) == NoError <==> LastRead(hw, scan, h, bits, value)
    decreases h
  {
    var k := LastBridgeNode(h.idcodes, |h.idcodes|);
    if !Unread(hw, h, bits, value) && scan {
      BranchErrorIsLast(hw, h, |h.children|, bits + h.selBits, value);
      if k > 0 {
        var v := Below(value, h.selBits, k - 1);
        var r := hw(Address(value, bits));
        assert Branch(hw, scan, r.nodeError == NoError, h.idcodes[k - 1], h.children[k - 1], bits + h.selBits, v);
        if h.children[k - 1].Some? {
          ErrorExactlyIfLast(hw, true, h.children[k - 1].value, bits + h.selBits, v);
        }
      }
    }
  }

  /** Without any error none is reported. */
  lemma {:induction false} AllReadIsLastRead(hw: nat -> Reply, scan: bool, h: Hub, bits: nat, value: nat)
    requires bits < 64 && Scanned(hw, scan, h, bits, value) && AllRead(hw, scan, h, bits, value)
    ensures LastRead(hw, scan, h, bits, value)
    decreases h
  {
    var k := LastBridgeNode(h.idcodes, |h.idcodes|);
    if scan && k > 0 {
      assert BranchRead(hw, h, k - 1, bits, value);
      var v := Below(value, h.selBits, k - 1);
      var r := hw(Address(value, bits));
      assert Branch(hw, scan, r.nodeError == NoError, h.idcodes[k - 1], h.children[k - 1], bits + h.selBits, v);
      if h.children[k - 1].Some? {
        AllReadIsLastRead(hw, true, h.children[k - 1].value, bits + h.selBits, v);
      }
    }
  }

  /** The code of a hub with so many nodes and instruction bits. */
  function HubCode(nodes: nat, ir: nat): (idcode: nat)
    requires nodes < 0x100 && 0 < ir < 0x100
    ensures IrBits(idcode) == ir && NodeCount(idcode) == nodes && Version(idcode) == 1 && MfgId(idcode) == MFG_ID_ALTERA
  {
    0x800_0000 + nodes * 0x8_0000 + MFG_ID_ALTERA * 0x100 + ir
  }

  const BRIDGE: nat := NODE_ID_BRIDGE * 0x8_0000 + MFG_ID_ALTERA * 0x100

  /** Hardware with a hub of two bridges: behind the first the link fails, behind the second there is nothing. */
  function FailingBridge(first: nat): (hw: nat -> Reply)
  {
    (word: nat) =>
      if word == 0 then Reply(NoError, HubCode(2, 4), NoError, [BRIDGE, BRIDGE])
      else Reply(if word == first then LinkError else NoError, 0, NoError, [])
  }

  function TwoBridges(): (h: Hub) { Hub([BRIDGE, BRIDGE], 2, 4, [None, None]) }

  lemma TwoBridgesScanned(hw: nat -> Reply, v: nat)
    requires hw(Address(v, 0)) == Reply(NoError, HubCode(2, 4), NoError, [BRIDGE, BRIDGE])
    requires hw(Address(Below(v, 2, 0), 2)) == Reply(LinkError, 0, NoError, [])
    requires hw(Address(Below(v, 2, 1), 2)) == Reply(NoError, 0, NoError, [])
    ensures Scanned(hw, true, TwoBridges(), 0, v) && LastRead(hw, true, TwoBridges(), 0, v) && !AllRead(hw, true, TwoBridges(), 0, v)
  {
    var r, h := hw(Address(v, 0)), TwoBridges();
    assert Pow2(2) == 4 && Pow2(1) == 2;
    assert Codes(r) == [BRIDGE, BRIDGE];
    forall i | 0 <= i < 2
      ensures Branch(hw, true, true, h.idcodes[i], h.children[i], 0 + h.selBits, Below(v, h.selBits, i))
    {
    }
    assert !BranchRead(hw, h, 0, 0, v);
  }

  /** There the discovery reports no error, though the first bridge gave one. */
  lemma ScanErrorIsForgotten(v: nat)
    requires v == 0
    ensures var hw := FailingBridge(Address(Below(v, 2, 0), 2));
      && Scanned(hw, true, TwoBridges(), 0, v)
      && HubError(hw, true, TwoBridges(), 0, v) == NoError && !AllRead(hw, true, TwoBridges(), 0, v)
  {
    var a, b := Below(v, 2, 0), Below(v, 2, 1);
    var hw := FailingBridge(Address(a, 2));
    ShlZero(64);
    ShlNotZero(a, 62);
    ShlNotZero(b, 62);
    ShlLess(a, b, 62);
    TwoBridgesScanned(hw, v);
    ErrorExactlyIfLast(hw, true, TwoBridges(), 0, v);
  }
}
