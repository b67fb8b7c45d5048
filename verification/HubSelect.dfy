/**
 The select bits on the way to a node: the word that addressed its hub during the discovery, and the
 words that are packed for it when it is opened.
 */
module HubSelect {
  import opened Bits
  import opened Bytes
  import opened Common
  import opened HubResolve
  import opened HubScan
  import opened HubTree

  /** Every hub has select bits enough for its nodes. */
  ghost predicate Fits(h: Hub)
    decreases h
  {
    && WellFormed(h) && |h.idcodes| < Pow2(h.selBits)
    && forall i :: 0 <= i < |h.children| && h.children[i].Some? ==> Fits(h.children[i].value)
  }

  /** Select bits of the hubs passed on a path. */
  function Width(h: Hub, path: seq<nat>): (n: nat)
    requires HubAt(h, path).Some?
    decreases path
  {
    if path == [] then 0 else h.selBits + Width(h.children[path[0]].value, path[1..])
  }

  /** The select fields of a path as one number, below fields of this value. */
  function Value(h: Hub, path: seq<nat>, value: nat): (v: nat)
    requires HubAt(h, path).Some?
    decreases path
  {
    if path == [] then value
    else Value(h.children[path[0]].value, path[1..], Below(value, h.selBits, path[0]))
  }

  /** What is packed for select field `select` of the hub at the end of a path, above its instruction bits. */
  function OpenValue(top: Hub, path: seq<nat>, select: nat): (v: nat)
    requires HubAt(top, path).Some?
  {
    Shl(Value(top, path, 0), HubAt(top, path).value.selBits) + select
  }

  lemma {:induction false} Snoc(h: Hub, path: seq<nat>, i: nat, value: nat)
    requires HubAt(h, path + [i]).Some?
    ensures HubAt(h, path).Some? && i < |HubAt(h, path).value.children|
    ensures HubAt(h, path).value.children[i] == HubAt(h, path + [i])
    ensures Value(h, path + [i], value) == Below(Value(h, path, value), HubAt(h, path).value.selBits, i)
    ensures Width(h, path + [i]) == Width(h, path) + HubAt(h, path).value.selBits
    decreases path
  {
    HubAtSnoc(h, path, i);
    if path == [] {
      assert path + [i] == [i] && [i][1..] == [];
      var c := h.children[i].value;
      assert Value(c, [], Below(value, h.selBits, i)) == Below(value, h.selBits, i) && Width(c, []) == 0;
    } else {
      assert (path + [i])[1..] == path[1..] + [i];
      Snoc(h.children[path[0]].value, path[1..], i, Below(value, h.selBits, path[0]));
    }
  }

  // ------------------------------------------------------------- the discovery

  lemma {:induction false} ScannedFits(hw: nat -> Reply, scan: bool, h: Hub, bits: nat, value: nat)
    requires bits < 64 && Scanned(hw, scan, h, bits, value)
    ensures Fits(h)
    decreases h
  {
    ScannedWellFormed(hw, scan, h, bits, value);
    forall i | 0 <= i < |h.children| && h.children[i].Some?
      ensures Fits(h.children[i].value)
    {
      ChildIsScanned(hw, scan, h, bits, value, i);
      ScannedFits(hw, scan, h.children[i].value, bits + h.selBits, Below(value, h.selBits, i));
    }
  }

  lemma ChildIsScanned(hw: nat -> Reply, scan: bool, h: Hub, bits: nat, value: nat, i: nat)
    requires bits < 64 && Scanned(hw, scan, h, bits, value) && i < |h.children| && h.children[i].Some?
    ensures bits + h.selBits < 64 && Scanned(hw, scan, h.children[i].value, bits + h.selBits, Below(value, h.selBits, i))
  {
    var r := hw(Address(value, bits));
    assert Branch(hw, scan, r.nodeError == NoError, h.idcodes[i], h.children[i], bits + h.selBits, Below(value, h.selBits, i));
  }

  /** Each hub of the tree is what the hardware answered at the address made of its path. */
  lemma {:induction false} ScannedAtPath(hw: nat -> Reply, scan: bool, h: Hub, path: seq<nat>, bits: nat, value: nat)
    requires bits < 64 && Scanned(hw, scan, h, bits, value) && HubAt(h, path).Some?
    ensures bits + Width(h, path) < 64
    ensures Scanned(hw, scan, HubAt(h, path).value, bits + Width(h, path), Value(h, path, value))
    decreases path
  {
    if path != [] {
      ChildIsScanned(hw, scan, h, bits, value, path[0]);
      ScannedAtPath(hw, scan, h.children[path[0]].value, path[1..], bits + h.selBits, Below(value, h.selBits, path[0]));
    }
  }

  /** The fields of a path stay within their own bits, below the value they start from. */
  lemma {:induction false} ValueInRange(h: Hub, path: seq<nat>, value: nat)
    requires Fits(h) && HubAt(h, path).Some?
    ensures Shl(value, Width(h, path)) <= Value(h, path, value) < Shl(value, Width(h, path)) + Pow2(Width(h, path))
    decreases path
  {
    if path != [] {
      var c, v := h.children[path[0]].value, Below(value, h.selBits, path[0]);
      var w := Width(c, path[1..]);
      ValueInRange(c, path[1..], v);
      FieldsMove(value, path[0] + 1, h.selBits, w);
      ShlLess(path[0] + 1, Pow2(h.selBits), w);
      Pow2Shl(h.selBits, w);
    }
  }

  /** The first field of a path can be read off the address. */
  lemma FirstField(h: Hub, path: seq<nat>, bits: nat, value: nat)
    requires Fits(h) && HubAt(h, path).Some? && path != [] && bits + Width(h, path) <= 64
    ensures Shr(Address(Value(h, path, value), bits + Width(h, path)), 64 - bits - h.selBits) == Below(value, h.selBits, path[0])
  {
    var c, v := h.children[path[0]].value, Below(value, h.selBits, path[0]);
    var w := Width(c, path[1..]);
    ValueInRange(c, path[1..], v);
    TopPart(v, w, 64 - bits - Width(h, path), Value(h, path, value));
  }

  lemma TopPart(v: nat, w: nat, m: nat, x: nat)
    requires Shl(v, w) <= x < Shl(v, w) + Pow2(w)
    ensures Shr(Shl(x, m), w + m) == v
  {
    var rest := x - Shl(v, w);
    FieldsMove(v, rest, w, m);
    ShrOfSum(v, Shl(rest, m), w + m);
  }

  lemma {:induction false} AddressesDifferBelow(h: Hub, p: seq<nat>, q: seq<nat>, bits: nat, value: nat)
    requires Fits(h) && HubAt(h, p).Some? && HubAt(h, q).Some? && p != q
    requires bits + Width(h, p) <= 64 && bits + Width(h, q) <= 64
    ensures Address(Value(h, p, value), bits + Width(h, p)) != Address(Value(h, q, value), bits + Width(h, q))
    decreases p
  {
    if p == [] {
      OwnAddressDiffers(h, q, bits, value);
    } else if q == [] {
      OwnAddressDiffers(h, p, bits, value);
    } else {
      FirstField(h, p, bits, value);
      FirstField(h, q, bits, value);
      if p[0] == q[0] {
        assert p == [p[0]] + p[1..] && q == [q[0]] + q[1..];
        AddressesDifferBelow(h.children[p[0]].value, p[1..], q[1..], bits + h.selBits, Below(value, h.selBits, p[0]));
      }
    }
  }

  lemma OwnAddressDiffers(h: Hub, q: seq<nat>, bits: nat, value: nat)
    requires Fits(h) && HubAt(h, q).Some? && q != [] && bits + Width(h, q) <= 64
    ensures Address(value, bits) != Address(Value(h, q, value), bits + Width(h, q))
  {
    FirstField(h, q, bits, value);
    OwnField(value, bits, h.selBits);
  }

  /** Where a hub below has its field, the address of the hub itself has zeros. */
  lemma OwnField(value: nat, bits: nat, sel: nat)
    requires bits + sel <= 64
    ensures Shr(Address(value, bits), 64 - bits - sel) == Shl(value, sel)
  {
    var m := 64 - bits - sel;
    ShlAdd(value, sel, m);
    ShrOfSum(Shl(value, sel), 0, m);
  }

  /** No two hubs of a discovered tree were addressed by the same word. */
  lemma AddressesDiffer(hw: nat -> Reply, scan: bool, top: Hub, p: seq<nat>, q: seq<nat>)
    requires Scanned(hw, scan, top, 0, 0) && HubAt(top, p).Some? && HubAt(top, q).Some? && p != q
    ensures Width(top, p) < 64 && Width(top, q) < 64
    ensures Address(Value(top, p, 0), Width(top, p)) != Address(Value(top, q, 0), Width(top, q))
  {
    ScannedFits(hw, scan, top, 0, 0);
    ScannedAtPath(hw, scan, top, p, 0, 0);
    ScannedAtPath(hw, scan, top, q, 0, 0);
    AddressesDifferBelow(top, p, q, 0, 0);
  }

  // ------------------------------------------------------------- opening

  /** The byte that selects a position; 0xFF wraps round to the hub itself. */
  function Select(position: byte): (s: byte)
  {
    (position + 1) % 0x100
  }

  /** The hubs on the way to the node of a record, from the top hub to the node's own. */
  ghost predicate OnTheWay(top: Hub, hubs: seq<Hub>, r: HierId)
  {
    && Slot(r) && r.positionN < MAX_HIERARCHIES && |hubs| == r.positionN + 1
    && forall k :: 0 <= k <= r.positionN ==> HubAt(top, r.positions[..k]) == Some(hubs[k])
  }

  /** Bits below the select field of level k: the fields of the lower levels and the instruction. */
  function BitsBelow(hubs: seq<Hub>, k: nat): (n: nat)
    requires k < |hubs|
    decreases |hubs| - k
  {
    if k == |hubs| - 1 then hubs[k].irBits else BitsBelow(hubs, k + 1) + hubs[k + 1].selBits
  }

  /** The shift of level k, done in a 32-bit signed number, loses nothing. */
  predicate IntShiftFits(hubs: seq<Hub>, r: HierId, k: nat)
    requires Slot(r) && k < |hubs| && k < MAX_HIERARCHIES
  {
    Shl(Select(r.positions[k]), BitsBelow(hubs, k)) < 0x8000_0000
  }

  /** So do the shifts of all levels from k to above the node's own. */
  predicate ShiftsFit(hubs: seq<Hub>, r: HierId, k: nat)
    requires Slot(r) && r.positionN < MAX_HIERARCHIES && |hubs| == r.positionN + 1 && k <= r.positionN
    decreases r.positionN - k
  {
    k == r.positionN || (IntShiftFits(hubs, r, k) && ShiftsFit(hubs, r, k + 1))
  }

  /** The select field of a level above the node's own, and the value of the fields with it. */
  lemma FieldOfLevel(top: Hub, hubs: seq<Hub>, r: HierId, k: nat)
    requires OnTheWay(top, hubs, r) && Fits(top) && 0 < k <= r.positionN
    ensures Select(r.positions[k - 1]) < Pow2(hubs[k - 1].selBits)
    ensures Value(top, r.positions[..k], 0)
      == Shl(Value(top, r.positions[..k - 1], 0), hubs[k - 1].selBits) + Select(r.positions[k - 1])
  {
    var path: seq<nat> := r.positions[..k - 1];
    var i: nat := r.positions[k - 1];
    assert r.positions[..k] == path + [i];
    Snoc(top, path, i, 0);
    FitsAt(top, path);
    var at := HubAt(top, path).value;
    assert at == hubs[k - 1] && i < |at.children| == |at.idcodes| <= 255;
  }

  lemma InsertField(v: nat, x: nat, sel: nat, width: nat, fields: nat)
    requires x < Pow2(sel) && fields < Pow2(width)
    ensures Shl(Shl(v, sel) + x, width) + fields == Shl(v, sel + width) + (Shl(x, width) + fields)
    ensures Shl(x, width) + fields < Pow2(sel + width)
  {
    FieldsMove(v, x, sel, width);
    FieldBound(x, fields, width, sel);
  }

  lemma {:induction false} FitsAt(h: Hub, path: seq<nat>)
    requires Fits(h) && HubAt(h, path).Some?
    ensures Fits(HubAt(h, path).value)
    decreases path
  {
    if path != [] {
      FitsAt(h.children[path[0]].value, path[1..]);
    }
  }

  ghost function OpenWord(top: Hub, hubs: seq<Hub>, r: HierId): (w: nat)
    requires OnTheWay(top, hubs, r)
  {
    Shl(OpenValue(top, r.positions[..r.positionN], Select(r.positions[r.positionN])), hubs[r.positionN].irBits)
  }

  /** The fields packed so far are the low ones of the goal, below the value of those that are not. */
  ghost predicate LowFields(goal: nat, value: nat, width: nat, fields: nat)
  {
    fields < Pow2(width) && goal == Shl(value, width) + fields
  }

  lemma NextField(goal: nat, value: nat, width: nat, fields: nat, value': nat, select: nat, sel: nat, ir: nat)
    requires LowFields(goal, value, width, fields) && value == Shl(value', sel) + select && select < Pow2(sel)
    ensures LowFields(goal, value', sel + width, Shl(select, width) + fields)
    ensures Or(Shl(fields, ir), Shl(select, width + ir)) == Shl(Shl(select, width) + fields, ir)
  {
    InsertField(value', select, sel, width, fields);
    FieldBelow(select, fields, width, ir);
  }

  /** The values and widths of the fields down to each level, level by level. */
  ghost predicate Ladder(hubs: seq<Hub>, r: HierId, values: seq<nat>, widths: seq<nat>)
    requires Slot(r) && r.positionN < MAX_HIERARCHIES && |hubs| == r.positionN + 1
  {
    && |values| == |widths| == r.positionN + 1 && values[0] == 0 && widths[0] == 0
    && forall k :: 0 < k <= r.positionN ==> Rung(hubs, r, values, widths, k)
  }

  ghost predicate Rung(hubs: seq<Hub>, r: HierId, values: seq<nat>, widths: seq<nat>, k: nat)
    requires Slot(r) && 0 < k < MAX_HIERARCHIES && k < |hubs| && k < |values| == |widths|
  {
    && Select(r.positions[k - 1]) < Pow2(hubs[k - 1].selBits)
    && values[k] == Shl(values[k - 1], hubs[k - 1].selBits) + Select(r.positions[k - 1])
    && widths[k] == widths[k - 1] + hubs[k - 1].selBits
  }

  /** The fields of the levels above the node's own, from below upwards. */
  method PackLevels(hubs: seq<Hub>, r: HierId, first: nat, ghost values: seq<nat>, ghost widths: seq<nat>)
    returns (word: Option<nat>, width: nat)
    requires Slot(r) && r.positionN < MAX_HIERARCHIES && |hubs| == r.positionN + 1 && Ladder(hubs, r, values, widths)
    requires first < Pow2(hubs[r.positionN].selBits)
    ensures word.Some? <==> ShiftsFit(hubs, r, 0)
    ensures word.Some? ==> word.value == Shl(Shl(values[r.positionN], hubs[r.positionN].selBits) + first, hubs[r.positionN].irBits)
    ensures width == hubs[r.positionN].selBits + widths[r.positionN]
  {
    var level := r.positionN;
    var ir := hubs[level].irBits;
    var packed: nat := Shl(first, ir);
    width := hubs[level].selBits;
    ghost var goal: nat, fields: nat := Shl(values[level], width) + first, first;
    var exact := true;
    while level > 0
      invariant 0 <= level <= r.positionN && width + ir == BitsBelow(hubs, level) + hubs[level].selBits
      invariant LowFields(goal, values[level], width, fields)
      invariant width + widths[level] == hubs[r.positionN].selBits + widths[r.positionN]
      invariant exact <==> ShiftsFit(hubs, r, level)
      invariant exact ==> packed == Shl(fields, ir)
    {
      assert Rung(hubs, r, values, widths, level);
      level := level - 1;
      var select: nat := Select(r.positions[level]);
      NextField(goal, values[level + 1], width, fields, values[level], select, hubs[level].selBits, ir);
      exact := exact && Shl(select, width + ir) < 0x8000_0000;
      packed := Or(packed, Shl(select, width + ir));
      fields := Shl(select, width) + fields;
      width := hubs[level].selBits + width;
    }
    ShlZero(width);
    word := if exact then Some(packed) else None;
  }

  lemma LadderOfPath(top: Hub, hubs: seq<Hub>, r: HierId) returns (values: seq<nat>, widths: seq<nat>)
    requires OnTheWay(top, hubs, r) && Fits(top)
    ensures Ladder(hubs, r, values, widths)
    ensures values[r.positionN] == Value(top, r.positions[..r.positionN], 0)
    ensures widths[r.positionN] == Width(top, r.positions[..r.positionN])
  {
    values := seq(r.positionN + 1, k requires 0 <= k <= r.positionN => Value(top, r.positions[..k], 0));
    widths := seq(r.positionN + 1, k requires 0 <= k <= r.positionN => Width(top, r.positions[..k]));
    forall k | 0 < k <= r.positionN
      ensures Rung(hubs, r, values, widths, k)
    {
      FieldOfLevel(top, hubs, r, k);
      WidthStep(top, hubs, r, k);
    }
    assert r.positions[..0] == [];
  }

  /**
   The word that opens the node of a record, packed from the node upwards. The fields above the node's
   own are shifted as 32-bit signed numbers: when one does not fit there is no word to rely on.
   */
  method PackSelect(hubs: seq<Hub>, r: HierId, ghost top: Hub) returns (word: Option<nat>, total: nat)
    requires OnTheWay(top, hubs, r) && Fits(top)
    requires Select(r.positions[r.positionN]) < Pow2(hubs[r.positionN].selBits)
    ensures word.Some? <==> ShiftsFit(hubs, r, 0)
    ensures word.Some? ==> word.value == OpenWord(top, hubs, r)
    ensures total == hubs[r.positionN].irBits + hubs[r.positionN].selBits + Width(top, r.positions[..r.positionN])
  {
    ghost var values, widths := LadderOfPath(top, hubs, r);
    var width;
    word, width := PackLevels(hubs, r, Select(r.positions[r.positionN]), values, widths);
    total := width + hubs[r.positionN].irBits;
  }

  lemma WidthStep(top: Hub, hubs: seq<Hub>, r: HierId, k: nat)
    requires OnTheWay(top, hubs, r) && 0 < k <= r.positionN
    ensures Width(top, r.positions[..k]) == Width(top, r.positions[..k - 1]) + hubs[k - 1].selBits
  {
    assert r.positions[..k] == r.positions[..k - 1] + [r.positions[k - 1] as nat];
    Snoc(top, r.positions[..k - 1], r.positions[k - 1], 0);
  }

  /**
   The two packers agree: left-aligned, the word that opens a node is the word that addressed its hub
   during the discovery with the node's own select field added below it.
   */
  lemma SelectWordsAgree(hw: nat -> Reply, scan: bool, top: Hub, path: seq<nat>, select: nat)
    requires Scanned(hw, scan, top, 0, 0) && HubAt(top, path).Some? && HubAt(top, path).value.idcodes != []
    requires select <= |HubAt(top, path).value.idcodes|
    ensures var h := HubAt(top, path).value;
            var total := Width(top, path) + h.selBits + h.irBits;
            && total <= 64
            && Shl(Shl(OpenValue(top, path, select), h.irBits), 64 - total)
               == Or(Address(Value(top, path, 0), Width(top, path)), Shl(Shl(select, h.irBits), 64 - total))
            && Shl(OpenValue(top, path, select), h.irBits) < Pow2(total)
  {
    var h := HubAt(top, path).value;
    BitsFit(hw, scan, top, path);
    WordsAgree(Value(top, path, 0), Width(top, path), h.selBits, select, h.irBits);
  }

  /** All fields of a node on a discovered hub fit 64 bits, each within its own. */
  lemma BitsFit(hw: nat -> Reply, scan: bool, top: Hub, path: seq<nat>)
    requires Scanned(hw, scan, top, 0, 0) && HubAt(top, path).Some? && HubAt(top, path).value.idcodes != []
    ensures var h := HubAt(top, path).value;
      && Width(top, path) + h.selBits + h.irBits <= 64
      && |h.idcodes| < Pow2(h.selBits) && Value(top, path, 0) < Pow2(Width(top, path))
  {
    ScannedAtPath(hw, scan, top, path, 0, 0);
    ScannedFits(hw, scan, top, 0, 0);
    FitsAt(top, path);
    ValueInRange(top, path, 0);
    ShlZero(Width(top, path));
  }

  lemma WordsAgree(v: nat, b: nat, sel: nat, x: nat, ir: nat)
    requires v < Pow2(b) && x < Pow2(sel) && b + sel + ir <= 64
    ensures var m := 64 - (b + sel + ir);
      Shl(Shl(Shl(v, sel) + x, ir), m) == Or(Address(v, b), Shl(Shl(x, ir), m))
    ensures Shl(Shl(v, sel) + x, ir) < Pow2(b + sel + ir)
  {
    var m := 64 - (b + sel + ir);
    ShlAdd(Shl(v, sel) + x, ir, m);
    ShlAdd(x, ir, m);
    FieldBelow(v, x, sel, ir + m);
    FieldBound(v, x, sel, b);
    FieldBound(Shl(v, sel) + x, 0, ir, b + sel);
  }

  // ------------------------------------------------------------- a tree that cannot be opened

  /** Hardware with a hub of one bridge at the top and, at this word, a hub of one node with 30 instruction bits. */
  function TwoHubs(below: nat): (hw: nat -> Reply)
  {
    (word: nat) =>
      if word == 0 then Reply(ScanError.NoError, HubCode(1, 4), ScanError.NoError, [BRIDGE])
      else if word == below then Reply(ScanError.NoError, HubCode(1, 30), ScanError.NoError, [0])
      else Reply(ScanError.LinkError, 0, ScanError.NoError, [])
  }

  function LowerHub(): (h: Hub) { Hub([0], 1, 30, [None]) }

  function UpperHub(): (h: Hub) { Hub([BRIDGE], 1, 4, [Some(LowerHub())]) }

  lemma LowerHubScanned(hw: nat -> Reply, value: nat, bits: nat)
    requires bits <= 33 && hw(Address(value, bits)) == Reply(ScanError.NoError, HubCode(1, 30), ScanError.NoError, [0])
    ensures Scanned(hw, true, LowerHub(), bits, value)
  {
    var r, h := hw(Address(value, bits)), LowerHub();
    assert Pow2(1) == 2 && Pow2(0) == 1 && !IsBridge(0);
    assert Codes(r) == [0];
    assert Branch(hw, true, true, h.idcodes[0], h.children[0], bits + h.selBits, Below(value, h.selBits, 0));
  }

  lemma UpperHubScanned(hw: nat -> Reply, v: nat, below: nat)
    requires v == 0 && below == Below(v, 1, 0)
    requires hw(Address(v, 0)) == Reply(ScanError.NoError, HubCode(1, 4), ScanError.NoError, [BRIDGE])
    requires hw(Address(below, 1)) == Reply(ScanError.NoError, HubCode(1, 30), ScanError.NoError, [0])
    ensures Scanned(hw, true, UpperHub(), 0, v)
  {
    var r, h := hw(Address(v, 0)), UpperHub();
    LowerHubScanned(hw, below, 1);
    assert Pow2(1) == 2 && Pow2(0) == 1;
    assert Codes(r) == [BRIDGE];
    assert Branch(hw, true, true, h.idcodes[0], h.children[0], 0 + h.selBits, Below(v, h.selBits, 0));
  }

  lemma ThirtyOneBits(x: nat)
    requires x == 1
    ensures Shl(x, 31) == 0x8000_0000
  {
    ShlAdd(x, 12, 19);
    ShlAdd(4096, 12, 7);
    assert Shl(x, 12) == 4096 && Shl(4096, 12) == 0x100_0000 && Shl(0x100_0000, 7) == 0x8000_0000;
  }

  lemma TwoHubsScanned(v: nat, below: nat)
    requires v == 0 && below == Below(v, 1, 0)
    ensures Scanned(TwoHubs(Address(below, 1)), true, UpperHub(), 0, v)
  {
    ShlNotZero(below, 63);
    ShlZero(64);
    UpperHubScanned(TwoHubs(Address(below, 1)), v, below);
  }

  lemma LowerNodeShift(hubs: seq<Hub>, r: HierId)
    requires hubs == [UpperHub(), LowerHub()] && Slot(r) && r.positionN == 1 && r.positions[0] == 0
    ensures !ShiftsFit(hubs, r, 0)
  {
    assert BitsBelow(hubs, 1) == 30 && BitsBelow(hubs, 0) == 31;
    ThirtyOneBits(Select(r.positions[0]));
  }

  /** That tree is discovered, and the node on its lower hub is listed, but its word cannot be packed. */
  lemma ShiftCanOverflow(r: HierId, v: nat, below: nat)
    requires v == 0 && below == Below(v, 1, 0)
    requires Slot(r) && r.positionN == 1 && r.positions[..2] == [0, 0] && r.idcode == 0
    ensures var top := UpperHub();
      && Scanned(TwoHubs(Address(below, 1)), true, top, 0, v) && Leads(top, NodeOf(r))
      && OnTheWay(top, [top, LowerHub()], r) && !ShiftsFit([top, LowerHub()], r, 0)
  {
    var top := UpperHub();
    TwoHubsScanned(v, below);
    assert r.positions[0] == r.positions[..2][0] && r.positions[1] == r.positions[..2][1];
    assert r.positions[..1] == [0] && r.positions[..0] == [];
    LowerNodeShift([top, LowerHub()], r);
  }
}
