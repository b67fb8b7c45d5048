/**
 The claims a node is opened with, and the values written to its overlay register: what is claimed for
 the node is what is written for it, with the select bits of the node above both.
 */
module Overlay {
  import opened Bytes
  import opened Bits

  datatype ClaimType =
    | Ir | IrShared | IrSharedOverlay | IrOverlaid | IrSharedOverlaid | IrWeak
    | OverlayOnly | OverlayShared | OverlayWeak

  datatype Claim = Claim(kind: ClaimType, length: nat, value: nat)

  datatype Style = NoClaim | SafeClaim | IfAvailable

  const WORD_BITS := 64

  function AllOnes(): (w: nat)
  {
    Pow2(WORD_BITS) - 1
  }

  lemma {:induction false} OnesBelow(w: nat, j: nat)
    requires j < w
    ensures Shr(Pow2(w) - 1, j) % 2 == 1
    decreases j
  {
    assert (Pow2(w) - 1) / 2 == Pow2(w - 1) - 1;
    if j > 0 {
      OnesBelow(w - 1, j - 1);
    }
  }

  /** The value that claims all has every bit of a 64-bit word set. */
  lemma AllBitsSet(j: nat)
    requires j < 64
    ensures Shr(AllOnes(), j) % 2 == 1 && AllOnes() < Pow2(64)
  {
    OnesBelow(64, j);
  }

  predicate OverlayKind(t: ClaimType) { t.OverlayOnly? || t.OverlayShared? || t.OverlayWeak? }

  predicate WeakKind(t: ClaimType) { t.IrWeak? || t.OverlayWeak? }

  /** The type with the weak bit set, where that is one. */
  predicate WeakOf(t: ClaimType, w: ClaimType)
  {
    (t.Ir? && w.IrWeak?) || (t.OverlayOnly? && w.OverlayWeak?) || (WeakKind(t) && w == t)
  }

  /** The numbers of the types: bit 0 for overlay values, bit 11 for weak claims. */
  function Code(t: ClaimType): (n: nat)
  {
    match t
    case Ir => 0x000 case IrShared => 0x100 case IrSharedOverlay => 0x300 case IrOverlaid => 0x400
    case IrSharedOverlaid => 0x500 case IrWeak => 0x800
    case OverlayOnly => 0x001 case OverlayShared => 0x101 case OverlayWeak => 0x801
  }

  /** What is asked of types is asked of the bits of their numbers. */
  lemma CodesTell(t: ClaimType, w: ClaimType)
    ensures OverlayKind(t) <==> Code(t) % 2 == 1
    ensures WeakKind(t) <==> Code(t) / 0x800 % 2 == 1
    ensures WeakOf(t, w) <==> Code(w) == if Code(t) / 0x800 % 2 == 1 then Code(t) else Code(t) + 0x800
  {
  }

  // ------------------------------------------------------------- checking claims

  /** A claim for just this value; lengths matter for overlay values, but not those of length 0. */
  predicate Exactly(c: Claim, t: ClaimType, value: nat, length: nat)
  {
    c.value == value && (OverlayKind(t) ==> c.length == length || c.length == 0)
  }

  /** A weak claim for all values. */
  predicate AnyIfFree(c: Claim, t: ClaimType, length: nat)
  {
    c.value == AllOnes() && WeakOf(t, c.kind) && (OverlayKind(t) ==> c.length == length || c.length == 0)
  }

  function StyleOf(claims: seq<Claim>, t: ClaimType, value: nat, length: nat): (s: Style)
  {
    if exists c :: c in claims && Exactly(c, t, value, length) then (if WeakKind(t) then IfAvailable else SafeClaim)
    else if exists c :: c in claims && AnyIfFree(c, t, length) then IfAvailable
    else NoClaim
  }

  method ClaimedClass(claims: seq<Claim>, t: ClaimType, value: nat, length: nat) returns (style: Style)
    ensures style == StyleOf(claims, t, value, length)
  {
    var i := 0;
    while i < |claims|
      invariant i <= |claims| && forall c :: c in claims[..i] ==> !Exactly(c, t, value, length)
    {
      if claims[i].value == value {
        if OverlayKind(t) {
          if claims[i].length == length || claims[i].length == 0 {
            assert claims[i] in claims && Exactly(claims[i], t, value, length);
            return if WeakKind(t) then IfAvailable else SafeClaim;
          }
        } else {
          assert claims[i] in claims && Exactly(claims[i], t, value, length);
          return if WeakKind(t) then IfAvailable else SafeClaim;
        }
      }
      i := i + 1;
    }
    assert claims[..i] == claims;
    i := 0;
    while i < |claims|
      invariant i <= |claims| && forall c :: c in claims[..i] ==> !AnyIfFree(c, t, length)
    {
      if claims[i].value == AllOnes() && WeakOf(t, claims[i].kind) {
        if OverlayKind(t) {
          if claims[i].length == length || claims[i].length == 0 {
            assert claims[i] in claims && AnyIfFree(claims[i], t, length);
            return IfAvailable;
          }
        } else {
          assert claims[i] in claims && AnyIfFree(claims[i], t, length);
          return IfAvailable;
        }
      }
      i := i + 1;
    }
    assert claims[..i] == claims;
    return NoClaim;
  }

  // ------------------------------------------------------------- opening a node

  /** Bits above the mask of the node. */
  method AboveMask(update: nat, node: nat, width: nat) returns (bad: bool)
    requires node <= width && update < Pow2(width)
    ensures bad <==> update >= Pow2(node)
  {
    AndHighMask(update, node, width);
    bad := And(update, Pow2(width) - Pow2(node)) != 0;
  }

  datatype OpenError = LengthError | InvalidParameter

  datatype Opening = Refused(error: OpenError) | Claims(claims: seq<Claim>)

  /** What a node's claim becomes for the device. */
  function Modified(c: Claim, select: nat, total: nat): (m: seq<Claim>)
  {
    match c.kind
    case Ir | IrShared | IrWeak => [Claim(c.kind, 0, c.value)]
    case IrSharedOverlay | IrOverlaid | IrSharedOverlaid => []
    case OverlayOnly | OverlayShared | OverlayWeak =>
      [Claim(c.kind, total, if c.value != AllOnes() then Or(c.value, select) else AllOnes())]
  }

  /** A claim a node may make: its own instructions, and overlay values without select bits. */
  predicate Allowed(c: Claim, overlayIr: nat, overlaidIr: nat, node: nat)
  {
    match c.kind
    case Ir | IrShared | IrWeak => true
    case IrSharedOverlay => c.value == overlayIr
    case IrOverlaid | IrSharedOverlaid => c.value == overlaidIr
    case OverlayOnly | OverlayShared | OverlayWeak => c.value == AllOnes() || c.value < Pow2(node)
  }

  function ModifiedAll(claims: seq<Claim>, select: nat, total: nat): (m: seq<Claim>)
  {
    if claims == [] then []
    else ModifiedAll(claims[..|claims| - 1], select, total) + Modified(claims[|claims| - 1], select, total)
  }

  lemma {:induction false} ModifiedIn(claims: seq<Claim>, select: nat, total: nat, c: Claim)
    requires c in claims
    ensures forall m :: m in Modified(c, select, total) ==> m in ModifiedAll(claims, select, total)
  {
    if c != claims[|claims| - 1] {
      assert c in claims[..|claims| - 1];
      ModifiedIn(claims[..|claims| - 1], select, total, c);
    }
  }

  /** The select bits lie above the instruction of the node and within the register. */
  predicate InRange(select: nat, total: nat, node: nat)
  {
    0 < node <= 32 && total <= WORD_BITS && Low(select, node) == 0 && (total < WORD_BITS ==> node <= total && select < Pow2(total))
  }

  /** The checks of the select word against the node's length and the whole length. */
  method CheckSelect(select: nat, total: nat, node: nat) returns (refused: bool, error: OpenError)
    ensures !refused <==> InRange(select, total, node)
    ensures refused ==> (error == LengthError <==> node == 0 || node > 32 || total > WORD_BITS)
  {
    if node == 0 || node > 32 || total > WORD_BITS {
      return true, LengthError;
    }
    var mask := Pow2(node) - 1;
    AndLowMask(select, node);
    OrRange(mask, select, total);
    MaskWithin(node, total);
    refused := And(mask, select) != 0 || (Or(mask, select) >= Pow2(total) && total < WORD_BITS);
    error := InvalidParameter;
  }

  /** The claims for the device: the node's instructions, what keeps others off, and the node's claims with its select bits. */
  function DeviceClaims(overlayIr: nat, overlaidIr: nat, select: nat, total: nat, force: nat, program: nat, claims: seq<Claim>): (m: seq<Claim>)
  {
    [Claim(IrSharedOverlay, 0, overlayIr), Claim(IrSharedOverlaid, 0, overlaidIr)]
    + (if program != AllOnes() then [Claim(IrShared, 0, program)] else [])
    + (if force != AllOnes() then [Claim(OverlayShared, total, force)] else [])
    + ModifiedAll(claims, select, total)
  }

  predicate AllAllowed(claims: seq<Claim>, overlayIr: nat, overlaidIr: nat, node: nat)
  {
    forall c :: c in claims ==> Allowed(c, overlayIr, overlaidIr, node)
  }

  predicate SomeOverlay(claims: seq<Claim>)
  {
    exists c :: c in claims && OverlayKind(c.kind)
  }

  /** So far: whether the first n claims are all allowed, and whether one is for an overlay value. */
  predicate AllowedUpTo(claims: seq<Claim>, n: nat, overlayIr: nat, overlaidIr: nat, node: nat)
    requires n <= |claims|
  {
    n == 0 || (AllowedUpTo(claims, n - 1, overlayIr, overlaidIr, node) && Allowed(claims[n - 1], overlayIr, overlaidIr, node))
  }

  predicate OverlayUpTo(claims: seq<Claim>, n: nat)
    requires n <= |claims|
  {
    n > 0 && (OverlayUpTo(claims, n - 1) || OverlayKind(claims[n - 1].kind))
  }

  lemma {:induction false} UpTo(claims: seq<Claim>, n: nat, overlayIr: nat, overlaidIr: nat, node: nat)
    requires n <= |claims|
    ensures AllowedUpTo(claims, n, overlayIr, overlaidIr, node) <==> AllAllowed(claims[..n], overlayIr, overlaidIr, node)
    ensures OverlayUpTo(claims, n) <==> SomeOverlay(claims[..n])
    ensures AllAllowed(claims, overlayIr, overlaidIr, node) ==> AllowedUpTo(claims, n, overlayIr, overlaidIr, node)
  {
    if n > 0 {
      UpTo(claims, n - 1, overlayIr, overlaidIr, node);
      assert claims[..n] == claims[..n - 1] + [claims[n - 1]];
      assert claims[n - 1] in claims;
    }
  }

  lemma OneMoreModified(claims: seq<Claim>, i: nat, select: nat, total: nat, first: seq<Claim>)
    requires i < |claims|
    ensures first + ModifiedAll(claims[..i + 1], select, total)
      == first + ModifiedAll(claims[..i], select, total) + Modified(claims[i], select, total)
  {
    assert claims[..i + 1][..i] == claims[..i];
  }

  method ModifyAll(claims: seq<Claim>, overlayIr: nat, overlaidIr: nat, select: nat, total: nat, node: nat, first: seq<Claim>)
    returns (ok: bool, mod: seq<Claim>)
    requires node <= 32 && forall c :: c in claims ==> c.value < Pow2(WORD_BITS)
    ensures ok <==> AllAllowed(claims, overlayIr, overlaidIr, node) && SomeOverlay(claims)
    ensures ok ==> mod == first + ModifiedAll(claims, select, total)
  {
    ok, mod := true, first;
    var claimed, i := false, 0;
    while i < |claims| && ok
      invariant i <= |claims|
      invariant ok <==> AllowedUpTo(claims, i, overlayIr, overlaidIr, node)
      invariant claimed <==> OverlayUpTo(claims, i)
      invariant mod == first + ModifiedAll(claims[..i], select, total)
    {
      var add, over;
      ok, over, add := Modify(claims[i], overlayIr, overlaidIr, select, total, node);
      mod, claimed := mod + add, claimed || over;
      OneMoreModified(claims, i, select, total, first);
      i := i + 1;
    }
    UpTo(claims, i, overlayIr, overlaidIr, node);
    assert i == |claims| ==> claims[..i] == claims;
    ok := ok && claimed;
  }

  method OpenNode(overlayIr: nat, overlaidIr: nat, select: nat, total: nat, node: nat, force: nat, program: nat, claims: seq<Claim>)
    returns (r: Opening)
    requires forall c :: c in claims ==> c.value < Pow2(WORD_BITS)
    ensures r == Refused(LengthError) <==> node == 0 || node > 32 || total > WORD_BITS
    ensures r.Claims? <==>
      InRange(select, total, node) && AllAllowed(claims, overlayIr, overlaidIr, node) && SomeOverlay(claims)
    ensures r.Claims? ==> r.claims == DeviceClaims(overlayIr, overlaidIr, select, total, force, program, claims)
  {
    var refused, error := CheckSelect(select, total, node);
    if refused {
      return Refused(error);
    }
    var mod := [Claim(IrSharedOverlay, 0, overlayIr), Claim(IrSharedOverlaid, 0, overlaidIr)];
    if program != AllOnes() {
      mod := mod + [Claim(IrShared, 0, program)];
    }
    if force != AllOnes() {
      mod := mod + [Claim(OverlayShared, total, force)];
    }
    var ok;
    ok, mod := ModifyAll(claims, overlayIr, overlaidIr, select, total, node, mod);
    return if ok then Claims(mod) else Refused(InvalidParameter);
  }

  lemma MaskWithin(node: nat, total: nat)
    requires node > 0
    ensures Pow2(node) - 1 < Pow2(total) <==> node <= total
  {
    if node <= total {
      Pow2Monotone(node, total);
    } else {
      Pow2Monotone(total, node - 1);
      assert Pow2(node) == 2 * Pow2(node - 1);
    }
  }

  /** One claim: whether it is allowed, whether it is for an overlay value, and what it becomes. */
  method Modify(c: Claim, overlayIr: nat, overlaidIr: nat, select: nat, total: nat, node: nat)
    returns (ok: bool, overlay: bool, add: seq<Claim>)
    requires c.value < Pow2(WORD_BITS) && node <= 32
    ensures ok <==> Allowed(c, overlayIr, overlaidIr, node)
    ensures overlay <==> OverlayKind(c.kind)
    ensures add == Modified(c, select, total)
  {
    ok, overlay, add := true, false, [];
    match c.kind
    case Ir | IrShared | IrWeak => add := [Claim(c.kind, 0, c.value)];
    case IrSharedOverlay => ok := c.value == overlayIr;
    case IrOverlaid | IrSharedOverlaid => ok := c.value == overlaidIr;
    case OverlayOnly | OverlayShared | OverlayWeak =>
      if c.value != AllOnes() {
        var bad := AboveMask(c.value, node, WORD_BITS);
        ok := !bad;
        add := [Claim(c.kind, total, Or(c.value, select))];
      } else {
        add := [Claim(c.kind, total, AllOnes())];
      }
      overlay := true;
  }

  /** Every select word made from a node's index is in range, whatever the widths discovered. */
  lemma IndexSelectInRange(index: nat, sel: nat, ir: nat)
    requires index + 1 < Pow2(sel) && 0 < ir <= 32 && sel + ir <= WORD_BITS
    ensures InRange(Shl(index + 1, ir), sel + ir, ir)
  {
    ShrOfSum(index + 1, 0, ir);
    FieldBound(index + 1, 0, ir, sel);
  }

  // ------------------------------------------------------------- writing a value

  /** The bytes of the low `bits` bits of a word, lowest first. */
  function Serial(x: nat, bits: nat): (s: seq<byte>)
    decreases bits
  {
    if bits == 0 then [] else [x % 0x100] + Serial(x / 0x100, if bits > 8 then bits - 8 else 0)
  }

  /** The word that bytes spell. */
  function Spelled(s: seq<byte>): (x: nat)
  {
    if s == [] then 0 else s[0] + 0x100 * Spelled(s[1..])
  }

  lemma {:induction false} SpelledSerial(x: nat, bits: nat)
    requires x < Pow2(bits)
    ensures Spelled(Serial(x, bits)) == x && |Serial(x, bits)| == (bits + 7) / 8
  {
    if bits > 0 {
      var rest := if bits > 8 then bits - 8 else 0;
      Pow2Monotone(bits, rest + 8);
      ByteOfBits(rest);
      assert x / 0x100 < Pow2(rest);
      SpelledSerial(x / 0x100, rest);
    }
  }

  lemma ByteOfBits(n: nat)
    ensures Pow2(n + 8) == 0x100 * Pow2(n)
  {
    assert Pow2(n + 8) == 4 * Pow2(n + 6);
    assert Pow2(n + 6) == 4 * Pow2(n + 4);
    assert Pow2(n + 4) == 4 * Pow2(n + 2);
  }

  lemma ShiftByte(x: nat)
    ensures Shl(x, 8) == 0x100 * x
  {
    assert Shl(x, 8) == 4 * Shl(x, 6);
    assert Shl(x, 6) == 4 * Shl(x, 4);
    assert Shl(x, 4) == 4 * Shl(x, 2);
    assert Shl(x, 2) == 2 * Shl(x, 1) && Shl(x, 1) == 2 * Shl(x, 0);
  }

  /** The write data of a value, as a loop over the bytes. */
  method Serialise(x: nat, bits: nat) returns (data: seq<byte>)
    ensures data == Serial(x, bits)
  {
    data := [];
    var i: nat, rest: nat := 0, x;
    while i < bits
      invariant Serial(x, bits) == data + Serial(rest, if i < bits then bits - i else 0)
      decreases bits - i
    {
      assert data + ([rest % 0x100] + Serial(rest / 0x100, if bits - i > 8 then bits - i - 8 else 0))
        == data + [rest % 0x100] + Serial(rest / 0x100, if bits - i > 8 then bits - i - 8 else 0);
      data := data + [rest % 0x100];
      rest, i := rest / 0x100, i + 8;
    }
  }

  /** The word rebuilt from the write data, byte by byte. */
  method Rebuild(data: seq<byte>) returns (word: nat)
    ensures word == Spelled(data)
  {
    word := 0;
    var i: nat, k: nat := 0, 0;
    while k < |data|
      invariant k <= |data| && i == 8 * k
      invariant word < Pow2(i) && Spelled(data) == word + Shl(Spelled(data[k..]), i)
    {
      OrIsSum(data[k], word, i);
      RebuildStep(data, k, i, word);
      word := Or(word, Shl(data[k], i));
      k, i := k + 1, i + 8;
    }
    ShlZero(i);
  }

  lemma RebuildStep(data: seq<byte>, k: nat, i: nat, word: nat)
    requires k < |data| && word < Pow2(i)
    ensures Shl(data[k], i) + word < Pow2(i + 8)
    ensures Shl(Spelled(data[k..]), i) + word == Shl(Spelled(data[k + 1..]), i + 8) + (Shl(data[k], i) + word)
  {
    assert data[k..][1..] == data[k + 1..];
    ByteOfBits(0);
    ShiftByte(Spelled(data[k + 1..]));
    FieldBound(data[k], word, i, 8);
    ShlAdd(Spelled(data[k + 1..]), 8, i);
    ShlSum(data[k], 0x100 * Spelled(data[k + 1..]), i);
  }

  datatype AccessError = None | BadValue | NotClaimed

  /**
   The write of a value to the overlay register of a node: the value with the node's select bits above
   it, byte by byte, then checked against the device's claims as the scan rebuilds it.
   */
  method AccessOverlay(update: nat, select: nat, total: nat, node: nat, claims: seq<Claim>)
    returns (error: AccessError, safe: bool, data: seq<byte>)
    requires InRange(select, total, node) && node < 32 && total <= 32 && update < Pow2(32)
    ensures error == BadValue <==> update >= Pow2(node)
    ensures update < Pow2(node) ==>
      && data == Serial(update + select, total) && Spelled(data) == update + select
      && (error == NotClaimed <==> StyleOf(claims, OverlayOnly, update + select, total) == NoClaim)
      && (safe <==> StyleOf(claims, OverlayOnly, update + select, total) == SafeClaim)
  {
    data, safe := [], false;
    var bad := AboveMask(update, node, 32);
    if bad {
      return BadValue, safe, data;
    }
    WordInRange(update, select, total, node);
    var overlay;
    data, overlay := Assemble(Or(update, select), total);
    var style := ClaimedClass(claims, OverlayOnly, overlay, total);
    safe := style == SafeClaim;
    error := if style == NoClaim then NotClaimed else None;
  }

  /** The word as it is written, and as it is put together again to be checked. */
  method Assemble(word: nat, total: nat) returns (data: seq<byte>, overlay: nat)
    requires total <= 32 && word < Pow2(total)
    ensures data == Serial(word, total) && Spelled(data) == word == overlay
  {
    data := Serialise(word, total);
    SpelledSerial(word, total);
    overlay := Rebuild(data);
  }

  lemma WordInRange(update: nat, select: nat, total: nat, node: nat)
    requires InRange(select, total, node) && update < Pow2(node) && total < WORD_BITS
    ensures Or(update, select) == update + select < Pow2(total)
  {
    Split(select, node);
    OrIsSum(Shr(select, node), update, node);
    OrRange(update, select, total);
    Pow2Monotone(node, total);
  }

  /**
   What a node claims is what it may write: a value claimed when the node was opened is found claimed
   when it is written, though neither side ever compares the node's own value.
   */
  lemma ClaimedIsSafe(overlayIr: nat, overlaidIr: nat, select: nat, total: nat, node: nat, force: nat, program: nat,
      claims: seq<Claim>, c: Claim)
    requires InRange(select, total, node) && total < WORD_BITS
    requires c in claims && OverlayKind(c.kind) && c.value < Pow2(node) && c.value != AllOnes()
    ensures StyleOf(DeviceClaims(overlayIr, overlaidIr, select, total, force, program, claims), OverlayOnly,
      c.value + select, total) == SafeClaim
  {
    var device := DeviceClaims(overlayIr, overlaidIr, select, total, force, program, claims);
    WordInRange(c.value, select, total, node);
    var m := Claim(c.kind, total, Or(c.value, select));
    assert m in Modified(c, select, total);
    ModifiedIn(claims, select, total, c);
    assert m in device && Exactly(m, OverlayOnly, c.value + select, total);
  }

  lemma {:induction false} ModifiedFrom(claims: seq<Claim>, select: nat, total: nat, m: Claim)
    requires m in ModifiedAll(claims, select, total)
    ensures exists c :: c in claims && m in Modified(c, select, total)
  {
    var last := claims[|claims| - 1];
    if m in Modified(last, select, total) {
      assert last in claims;
    } else {
      ModifiedFrom(claims[..|claims| - 1], select, total, m);
      var c :| c in claims[..|claims| - 1] && m in Modified(c, select, total);
      assert c in claims;
    }
  }

  /**
   The kinds under which the device's claims are made: the overlay instruction is shared, the overlaid one too and
   by that node alone, and the node's own claims keep their kinds.
   */
  lemma KindsKept(overlayIr: nat, overlaidIr: nat, select: nat, total: nat, force: nat, program: nat, claims: seq<Claim>, m: Claim)
    requires m in DeviceClaims(overlayIr, overlaidIr, select, total, force, program, claims)
    ensures match m.kind
      case IrSharedOverlay => m.value == overlayIr
      case IrSharedOverlaid => m.value == overlaidIr
      case IrOverlaid => false
      case IrShared => m.value == program || exists c :: c in claims && c.kind == m.kind && c.value == m.value
      case OverlayShared => m.value == force || exists c :: c in claims && c.kind == m.kind
      case Ir | IrWeak => exists c :: c in claims && c.kind == m.kind && c.value == m.value
      case OverlayOnly | OverlayWeak => exists c :: c in claims && c.kind == m.kind
  {
    if m in ModifiedAll(claims, select, total) {
      ModifiedFrom(claims, select, total, m);
      var c :| c in claims && m in Modified(c, select, total);
      assert c.kind == m.kind && !m.kind.IrOverlaid? && !m.kind.IrSharedOverlay? && !m.kind.IrSharedOverlaid?;
    }
  }

  /** What is claimed for every node: the two instructions, and what was claimed by the node itself, each under its kind. */
  lemma AllClaimed(overlayIr: nat, overlaidIr: nat, select: nat, total: nat, force: nat, program: nat, claims: seq<Claim>, c: Claim)
    ensures var device := DeviceClaims(overlayIr, overlaidIr, select, total, force, program, claims);
      && Claim(IrSharedOverlay, 0, overlayIr) in device && Claim(IrSharedOverlaid, 0, overlaidIr) in device
      && (program != AllOnes() ==> Claim(IrShared, 0, program) in device)
      && (force != AllOnes() ==> Claim(OverlayShared, total, force) in device)
      && (c in claims && (c.kind.Ir? || c.kind.IrShared? || c.kind.IrWeak?) ==> Claim(c.kind, 0, c.value) in device)
      && (c in claims && OverlayKind(c.kind) ==> exists m :: m in device && m.kind == c.kind && m.length == total)
  {
    var device := DeviceClaims(overlayIr, overlaidIr, select, total, force, program, claims);
    assert device[0] in device && device[1] in device;
    if c in claims {
      ModifiedIn(claims, select, total, c);
      if Modified(c, select, total) != [] {
        var m := Modified(c, select, total)[0];
        assert m in Modified(c, select, total) && m in device;
      }
    }
  }

  predicate Grants(c: Claim, x: nat, select: nat)
  {
    if OverlayKind(c.kind) then c.value != AllOnes() && x == Or(c.value, select)
    else (c.kind.Ir? || c.kind.IrShared? || c.kind.IrWeak?) && x == c.value
  }

  /** A claim for just one value counts the node's own claims, weak ones too, and the values of instructions. */
  ghost predicate Granted(x: nat, overlayIr: nat, overlaidIr: nat, select: nat, total: nat, force: nat, program: nat, claims: seq<Claim>)
  {
    || x == overlayIr || x == overlaidIr || x == program || x == force
    || exists c :: c in claims && Grants(c, x, select)
  }

  /**
   Exactly which values are taken for claimed without asking the server. Types are not compared: a
   weak claim passes like any other, and so do the values of claimed instructions.
   */
  lemma SafeExactlyIfGranted(x: nat, overlayIr: nat, overlaidIr: nat, select: nat, total: nat, force: nat, program: nat, claims: seq<Claim>)
    requires x < AllOnes() && total > 0
    ensures StyleOf(DeviceClaims(overlayIr, overlaidIr, select, total, force, program, claims), OverlayOnly, x, total) == SafeClaim
      <==> Granted(x, overlayIr, overlaidIr, select, total, force, program, claims)
  {
    var device := DeviceClaims(overlayIr, overlaidIr, select, total, force, program, claims);
    if m :| m in device && Exactly(m, OverlayOnly, x, total) {
      ClaimedIsGranted(m, overlayIr, overlaidIr, select, total, force, program, claims);
    }
    if Granted(x, overlayIr, overlaidIr, select, total, force, program, claims) {
      GrantedIsClaimed(x, overlayIr, overlaidIr, select, total, force, program, claims);
    }
  }

  lemma ClaimedIsGranted(m: Claim, overlayIr: nat, overlaidIr: nat, select: nat, total: nat, force: nat, program: nat, claims: seq<Claim>)
    requires m in DeviceClaims(overlayIr, overlaidIr, select, total, force, program, claims) && m.value < AllOnes()
    ensures Granted(m.value, overlayIr, overlaidIr, select, total, force, program, claims)
  {
    if m in ModifiedAll(claims, select, total) {
      ModifiedFrom(claims, select, total, m);
      var c :| c in claims && m in Modified(c, select, total);
      assert Grants(c, m.value, select);
    }
  }

  lemma GrantedIsClaimed(x: nat, overlayIr: nat, overlaidIr: nat, select: nat, total: nat, force: nat, program: nat, claims: seq<Claim>)
    requires x < AllOnes() && Granted(x, overlayIr, overlaidIr, select, total, force, program, claims)
    ensures exists m :: m in DeviceClaims(overlayIr, overlaidIr, select, total, force, program, claims) && Exactly(m, OverlayOnly, x, total)
  {
    var device := DeviceClaims(overlayIr, overlaidIr, select, total, force, program, claims);
    if x == overlayIr {
      assert device[0] in device && Exactly(device[0], OverlayOnly, x, total);
    } else if x == overlaidIr {
      assert device[1] in device && Exactly(device[1], OverlayOnly, x, total);
    } else if x == program {
      var m := Claim(IrShared, 0, program);
      assert m in device && Exactly(m, OverlayOnly, x, total);
    } else if x == force {
      var m := Claim(OverlayShared, total, force);
      assert m in device && Exactly(m, OverlayOnly, x, total);
    } else {
      var c :| c in claims && Grants(c, x, select);
      ModifiedIn(claims, select, total, c);
      var m := Modified(c, select, total)[0];
      assert m in Modified(c, select, total) && m in device && Exactly(m, OverlayOnly, x, total);
    }
  }
}
