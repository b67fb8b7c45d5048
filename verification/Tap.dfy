/**
 The TAP controller as the client follows it (clause 6.1 of IEEE Std 1149.1), and the guard on
 bit sequences sent through an individually opened device.
 */
module Tap {
  import opened Bits
  import opened Bytes

  datatype TapState =
    | TestLogicReset | RunTestIdle
    | SelectDrScan | CaptureDr | ShiftDr | Exit1Dr | PauseDr | Exit2Dr | UpdateDr
    | SelectIrScan | CaptureIr | ShiftIr | Exit1Ir | PauseIr | Exit2Ir | UpdateIr

  /** The transition table: the state after one clock with TMS low or high. */
  function Next(s: TapState, tms: bool): (n: TapState)
  {
    match s
    case TestLogicReset => if tms then TestLogicReset else RunTestIdle
    case RunTestIdle => if tms then SelectDrScan else RunTestIdle
    case SelectDrScan => if tms then SelectIrScan else CaptureDr
    case CaptureDr => if tms then Exit1Dr else ShiftDr
    case ShiftDr => if tms then Exit1Dr else ShiftDr
    case Exit1Dr => if tms then UpdateDr else PauseDr
    case PauseDr => if tms then Exit2Dr else PauseDr
    case Exit2Dr => if tms then UpdateDr else ShiftDr
    case UpdateDr => if tms then SelectDrScan else RunTestIdle
    case SelectIrScan => if tms then TestLogicReset else CaptureIr
    case CaptureIr => if tms then Exit1Ir else ShiftIr
    case ShiftIr => if tms then Exit1Ir else ShiftIr
    case Exit1Ir => if tms then UpdateIr else PauseIr
    case PauseIr => if tms then Exit2Ir else PauseIr
    case Exit2Ir => if tms then UpdateIr else ShiftIr
    case UpdateIr => if tms then SelectDrScan else RunTestIdle
  }

  /** The states a sequence passes through, the first one included. */
  function Trace(s: TapState, bits: seq<bool>): (tr: seq<TapState>)
    ensures |tr| == |bits| + 1 && tr[0] == s
    ensures forall i :: 0 <= i < |bits| ==> tr[i + 1] == Next(tr[i], bits[i])
  {
    if bits == [] then [s]
    else
      var tr := Trace(s, bits[..|bits| - 1]);
      tr + [Next(tr[|tr| - 1], bits[|bits| - 1])]
  }

  function Run(s: TapState, bits: seq<bool>): (r: TapState)
  {
    if bits == [] then s else Next(Run(s, bits[..|bits| - 1]), bits[|bits| - 1])
  }

  lemma {:induction false} RunIsLast(s: TapState, bits: seq<bool>)
    ensures Trace(s, bits)[|bits|] == Run(s, bits)
  {
    if bits != [] {
      RunIsLast(s, bits[..|bits| - 1]);
    }
  }

  // ------------------------------------------------------------- what a legal sequence is

  predicate InsideIr(s: TapState)
  {
    s == CaptureIr || s == ShiftIr || s == Exit1Ir || s == PauseIr || s == Exit2Ir
  }

  /** Clocks a to b - 1 are one visit to Shift-IR, from the clock it is entered to the clock it is left. */
  ghost predicate Visit(tr: seq<TapState>, a: nat, b: nat)
  {
    && 0 < a < b < |tr| && tr[a - 1] != ShiftIr && tr[b] != ShiftIr
    && forall k :: a <= k < b ==> tr[k] == ShiftIr
  }

  /**
   Legal for a device with an instruction register of the given length: no reset, no return to a shift
   state from a pause, every visit to Shift-IR of exactly that length, and no stop inside an IR scan.
   */
  ghost predicate Legal(tr: seq<TapState>, length: nat)
    requires tr != []
  {
    && (forall i :: 0 < i < |tr| ==> tr[i] != TestLogicReset)
    && (forall i :: 0 < i < |tr| ==> !Resumes(tr[i - 1], tr[i]))
    && (forall a: nat, b: nat :: Visit(tr, a, b) ==> b - a == length)
    && !InsideIr(tr[|tr| - 1])
  }

  predicate Resumes(from: TapState, to: TapState)
  {
    (from == Exit2Dr && to == ShiftDr) || (from == Exit2Ir && to == ShiftIr)
  }

  // ------------------------------------------------------------- what the guard checks

  /** The counter of Shift-IR clocks after one more clock. */
  function Count(s: TapState, irLen: nat): (n: nat)
  {
    if s == CaptureIr then 0 else if s == ShiftIr then irLen + 1 else irLen
  }

  predicate StepOk(s: TapState, next: TapState, irLen: nat, length: nat)
  {
    && next != TestLogicReset && !Resumes(s, next)
    && (s == ShiftIr && next != ShiftIr ==> irLen + 1 == length)
  }

  /** The counter before clock i. */
  function CountAt(tr: seq<TapState>, i: nat): (n: nat)
    requires i <= |tr|
  {
    if i == 0 then 0 else Count(tr[i - 1], CountAt(tr, i - 1))
  }

  ghost predicate StepsOk(tr: seq<TapState>, n: nat, length: nat)
    requires n < |tr|
  {
    forall i :: 0 < i <= n ==> StepOk(tr[i - 1], tr[i], CountAt(tr, i - 1), length)
  }

  /** Before each clock of a visit the counter says how many clocks of it have gone. */
  lemma {:induction false} CounterInVisit(s: TapState, bits: seq<bool>, length: nat, i: nat)
    requires !InsideIr(s) && i <= |bits| && Trace(s, bits)[i] == ShiftIr
    requires forall j :: 0 < j <= i ==> !Resumes(Trace(s, bits)[j - 1], Trace(s, bits)[j])
    ensures exists a :: 0 < a <= i && VisitSoFar(Trace(s, bits), a, i) && CountAt(Trace(s, bits), i) == i - a
  {
    var tr := Trace(s, bits);
    assert i > 0;
    assert tr[i] == Next(tr[i - 1], bits[i - 1]);
    if tr[i - 1] == ShiftIr {
      CounterInVisit(s, bits, length, i - 1);
      var a :| 0 < a <= i - 1 && VisitSoFar(tr, a, i - 1) && CountAt(tr, i - 1) == i - 1 - a;
      assert VisitSoFar(tr, a, i);
    } else {
      assert !Resumes(tr[i - 1], tr[i]);
      assert VisitSoFar(tr, i, i);
    }
  }

  /** Shift-IR was entered at clock a and has not been left up to clock i. */
  ghost predicate VisitSoFar(tr: seq<TapState>, a: nat, i: nat)
  {
    && 0 < a <= i < |tr| && tr[a - 1] != ShiftIr
    && forall k :: a <= k <= i ==> tr[k] == ShiftIr
  }

  lemma VisitsStartOnce(tr: seq<TapState>, a: nat, b: nat, c: nat)
    requires Visit(tr, a, b) && VisitSoFar(tr, c, b - 1)
    ensures a == c
  {
  }

  lemma LengthOfVisit(s: TapState, bits: seq<bool>, length: nat, a: nat, b: nat)
    requires !InsideIr(s) && Visit(Trace(s, bits), a, b)
    requires forall j :: 0 < j <= |bits| ==> !Resumes(Trace(s, bits)[j - 1], Trace(s, bits)[j])
    ensures CountAt(Trace(s, bits), b - 1) + 1 == b - a
  {
    var tr := Trace(s, bits);
    CounterInVisit(s, bits, length, b - 1);
    var c :| 0 < c <= b - 1 && VisitSoFar(tr, c, b - 1) && CountAt(tr, b - 1) == b - 1 - c;
    VisitsStartOnce(tr, a, b, c);
  }

  lemma CheckedIsLegal(s: TapState, bits: seq<bool>, length: nat)
    requires !InsideIr(s) && StepsOk(Trace(s, bits), |bits|, length) && !InsideIr(Run(s, bits))
    ensures Legal(Trace(s, bits), length)
  {
    RunIsLast(s, bits);
    StepsAreSound(Trace(s, bits), length);
    forall a: nat, b: nat | Visit(Trace(s, bits), a, b)
      ensures b - a == length
    {
      CheckedVisit(s, bits, length, a, b);
    }
  }

  lemma StepsAreSound(tr: seq<TapState>, length: nat)
    requires tr != [] && StepsOk(tr, |tr| - 1, length)
    ensures forall i :: 0 < i < |tr| ==> tr[i] != TestLogicReset && !Resumes(tr[i - 1], tr[i])
  {
    forall i | 0 < i < |tr|
      ensures tr[i] != TestLogicReset && !Resumes(tr[i - 1], tr[i])
    {
      assert StepOk(tr[i - 1], tr[i], CountAt(tr, i - 1), length);
    }
  }

  lemma CheckedVisit(s: TapState, bits: seq<bool>, length: nat, a: nat, b: nat)
    requires !InsideIr(s) && StepsOk(Trace(s, bits), |bits|, length) && Visit(Trace(s, bits), a, b)
    ensures b - a == length
  {
    var tr := Trace(s, bits);
    StepsAreSound(tr, length);
    LengthOfVisit(s, bits, length, a, b);
    assert StepOk(tr[b - 1], tr[b], CountAt(tr, b - 1), length);
  }

  lemma LegalIsChecked(s: TapState, bits: seq<bool>, length: nat)
    requires !InsideIr(s) && Legal(Trace(s, bits), length)
    ensures StepsOk(Trace(s, bits), |bits|, length) && !InsideIr(Run(s, bits))
  {
    var tr := Trace(s, bits);
    RunIsLast(s, bits);
    forall i | 0 < i <= |bits|
      ensures StepOk(tr[i - 1], tr[i], CountAt(tr, i - 1), length)
    {
      assert tr[i] != TestLogicReset && !Resumes(tr[i - 1], tr[i]);
      if tr[i - 1] == ShiftIr && tr[i] != ShiftIr {
        CounterInVisit(s, bits, length, i - 1);
        var a :| 0 < a <= i - 1 && VisitSoFar(tr, a, i - 1) && CountAt(tr, i - 1) == i - 1 - a;
        assert Visit(tr, a, i);
      }
    }
  }

  /** The guard accepts exactly the legal sequences, given that it starts outside an IR scan. */
  lemma GuardIsExact(s: TapState, bits: seq<bool>, length: nat)
    requires !InsideIr(s)
    ensures StepsOk(Trace(s, bits), |bits|, length) && !InsideIr(Run(s, bits)) <==> Legal(Trace(s, bits), length)
  {
    if StepsOk(Trace(s, bits), |bits|, length) && !InsideIr(Run(s, bits)) {
      CheckedIsLegal(s, bits, length);
    }
    if Legal(Trace(s, bits), length) {
      LegalIsChecked(s, bits, length);
    }
  }

  // ------------------------------------------------------------- bits as they come in bytes

  /** Bit i of a byte string, low bit first; an absent string is all zeros. */
  function BitAt(tms: seq<byte>, i: nat): (b: bool)
    requires i / 8 < |tms|
  {
    Shr(tms[i / 8], i % 8) % 2 == 1
  }

  ghost function BitsOf(tms: array?<byte>, n: nat): (bits: seq<bool>)
    requires tms != null ==> tms.Length * 8 >= n
    reads tms
    ensures |bits| == n
  {
    if tms == null then Zeros(n) else seq(n, i requires 0 <= i < n reads tms => BitAt(tms[..], i))
  }

  function Zeros(n: nat): (bits: seq<bool>)
    ensures |bits| == n && forall i :: 0 <= i < n ==> !bits[i]
  {
    seq(n, _ => false)
  }

  /** 0x100 shifted right k places. */
  function Marker(k: nat): (m: nat)
    requires k <= 8
    ensures k < 8 ==> m >= 2 && m % 2 == 0
    ensures k == 8 ==> m == 1
  {
    [0x100, 0x80, 0x40, 0x20, 0x10, 8, 4, 2, 1][k]
  }

  /** A marker above the byte tells when its eight bits are used up. */
  lemma {:induction false} Marked(b: byte, k: nat)
    requires k <= 8
    ensures Shr(b + 0x100, k) == Shr(b, k) + Marker(k) && Shr(b, k) < Marker(k)
  {
    if k > 0 {
      Marked(b, k - 1);
      ShrSnoc(b + 0x100, k - 1);
      ShrSnoc(b, k - 1);
      assert Marker(k - 1) == 2 * Marker(k);
    }
  }

  // ------------------------------------------------------------- the two loops

  function ByteAt(tms: array?<byte>, k: nat): (b: byte)
    requires tms != null ==> k < tms.Length
    reads tms
  {
    if tms == null then 0 else tms[k]
  }

  /** The register after i clocks: the rest of the current byte, under its marker. */
  ghost predicate Holds(register: nat, tms: array?<byte>, i: nat)
    requires tms != null ==> i / 8 < tms.Length
    reads tms
  {
    register == Shr(ByteAt(tms, i / 8) + 0x100, i % 8)
  }

  lemma BitOfRegister(tms: array?<byte>, n: nat, i: nat, register: nat)
    requires tms != null ==> tms.Length > n / 8
    requires i < n && Holds(register, tms, i)
    ensures (register % 2 == 1) == BitsOf(tms, n)[i]
  {
    Marked(ByteAt(tms, i / 8), i % 8);
    ZeroBits(i % 8);
  }

  lemma {:induction false} ZeroBits(k: nat)
    ensures Shr(0, k) == 0
  {
    if k > 0 {
      ZeroBits(k - 1);
    }
  }

  /** Shift one bit out; the next byte is fetched as soon as the last bit of one is used. */
  method ShiftOut(tms: array?<byte>, register: nat, ptr: nat, ghost i: nat, ghost n: nat) returns (register': nat, ptr': nat)
    requires tms != null ==> tms.Length > n / 8
    requires i < n && Holds(register, tms, i) && ptr == i / 8 + 1
    ensures Holds(register', tms, i + 1) && ptr' == (i + 1) / 8 + 1
  {
    ShrSnoc(ByteAt(tms, i / 8) + 0x100, i % 8);
    Marked(ByteAt(tms, i / 8), i % 8 + 1);
    register', ptr' := register / 2, ptr;
    if register' < 2 {
      register', ptr' := ByteAt(tms, ptr) + 0x100, ptr + 1;
    }
  }

  lemma OneMoreStep(tr: seq<TapState>, i: nat, n: nat, length: nat)
    requires i < n < |tr| && StepsOk(tr, i, length)
    ensures CountAt(tr, i + 1) == Count(tr[i], CountAt(tr, i))
    ensures if StepOk(tr[i], tr[i + 1], CountAt(tr, i), length) then StepsOk(tr, i + 1, length) else !StepsOk(tr, n, length)
  {
    if !StepOk(tr[i], tr[i + 1], CountAt(tr, i), length) {
      assert !StepOk(tr[i + 1 - 1], tr[i + 1], CountAt(tr, i + 1 - 1), length);
    }
  }

  /** The loop of the check: where it starts, and what it has found at the end. */
  lemma CheckIsExact(start: TapState, bits: seq<bool>, length: nat)
    requires !InsideIr(start)
    ensures var tr := Trace(start, bits);
      && StepsOk(tr, 0, length) && CountAt(tr, 0) == 0 && Run(start, bits) == tr[|bits|]
      && (StepsOk(tr, |bits|, length) && !InsideIr(tr[|bits|]) <==> Legal(tr, length))
  {
    GuardIsExact(start, bits, length);
    RunIsLast(start, bits);
  }

  /** Check a sequence and find the state it ends in. The buffer has a byte to spare. */
  method CheckTransitions(tms: array?<byte>, bitlength: nat, start: TapState, length: nat) returns (ok: bool, state: TapState)
    requires tms != null ==> tms.Length > bitlength / 8
    requires !InsideIr(start)
    ensures ok <==> Legal(Trace(start, BitsOf(tms, bitlength)), length)
    ensures ok ==> state == Run(start, BitsOf(tms, bitlength)) && !InsideIr(state)
  {
    ghost var tr := Trace(start, BitsOf(tms, bitlength));
    CheckIsExact(start, BitsOf(tms, bitlength), length);
    var register: nat, ptr: nat, irLen: nat, i: nat := ByteAt(tms, 0) + 0x100, 1, 0, 0;
    state := start;
    while i < bitlength
      invariant i <= bitlength && state == tr[i] && irLen == CountAt(tr, i)
      invariant Holds(register, tms, i) && ptr == i / 8 + 1
      invariant StepsOk(tr, i, length)
    {
      BitOfRegister(tms, bitlength, i, register);
      var next := Next(state, register % 2 == 1);
      OneMoreStep(tr, i, bitlength, length);
      if !StepOk(state, next, irLen, length) {
        return false, state;
      }
      irLen := Count(state, irLen);
      state := next;
      register, ptr := ShiftOut(tms, register, ptr, i, bitlength);
      i := i + 1;
    }
    ok := !InsideIr(state);
  }

  /** As above, but the next byte is fetched only when its first bit is wanted. */
  ghost predicate HoldsLazily(register: nat, ptr: nat, tms: array<byte>, i: nat)
    reads tms
  {
    if i > 0 && i % 8 == 0 then register == 1 && ptr == i / 8
    else i / 8 < tms.Length && ptr == i / 8 + 1 && Holds(register, tms, i)
  }

  lemma NextIndex(i: nat)
    ensures if i % 8 == 7 then (i + 1) / 8 == i / 8 + 1 && (i + 1) % 8 == 0 else (i + 1) / 8 == i / 8 && (i + 1) % 8 == i % 8 + 1
  {
  }

  /** The register has the bit wanted once the byte is fetched where that is due. */
  method FetchDue(tms: array<byte>, register: nat, ptr: nat, ghost i: nat) returns (register': nat, ptr': nat)
    requires i / 8 < tms.Length && HoldsLazily(register, ptr, tms, i)
    ensures register' == Shr(tms[i / 8] as int + 0x100, i % 8) && ptr' == i / 8 + 1
  {
    register', ptr' := register, ptr;
    Marked(tms[i / 8], i % 8);
    if register' < 2 {
      register', ptr' := tms[ptr] as int + 0x100, ptr + 1;
    }
  }

  /** The bit at the low end of the register, and what is left when it is shifted out. */
  lemma LowEnd(b: byte, k: nat)
    requires k < 8
    ensures Shr(b + 0x100, k) % 2 == Shr(b, k) % 2
    ensures Shr(b + 0x100, k) / 2 == Shr(b + 0x100, k + 1) && (k == 7 ==> Shr(b + 0x100, k + 1) == 1)
  {
    Marked(b, k);
    Marked(b, k + 1);
    ShrSnoc(b + 0x100, k);
  }

  method NextBit(tms: array<byte>, register: nat, ptr: nat, ghost i: nat, ghost n: nat) returns (bit: bool, register': nat, ptr': nat)
    requires tms.Length * 8 >= n && i < n && HoldsLazily(register, ptr, tms, i)
    ensures bit == BitsOf(tms, n)[i] && HoldsLazily(register', ptr', tms, i + 1)
  {
    register', ptr' := FetchDue(tms, register, ptr, i);
    LowEnd(tms[i / 8], i % 8);
    NextIndex(i);
    bit := register' % 2 == 1;
    assert BitsOf(tms, n)[i] == BitAt(tms[..], i);
    register' := register' / 2;
  }

  /** Only follow a sequence; without one the state is left as it is. */
  method UpdateState(tms: array?<byte>, bitlength: nat, start: TapState) returns (state: TapState)
    requires tms != null ==> tms.Length * 8 >= bitlength && tms.Length > 0
    ensures state == if tms == null then start else Run(start, BitsOf(tms, bitlength))
  {
    state := start;
    if tms == null {
      return;
    }
    ghost var bits := BitsOf(tms, bitlength);
    var register: nat, ptr: nat, i: nat := tms[0] as int + 0x100, 1, 0;
    while i < bitlength
      invariant i <= bitlength && state == Run(start, bits[..i])
      invariant HoldsLazily(register, ptr, tms, i)
    {
      assert bits[..i + 1][..i] == bits[..i];
      var bit;
      bit, register, ptr := NextBit(tms, register, ptr, i, bitlength);
      state := Next(state, bit);
      i := i + 1;
    }
    assert bits[..bitlength] == bits;
  }

  // ------------------------------------------------------------- consequences

  /**
   With a sequence given, an accepted one ends where the unguarded path would put it. With none, the
   guard counts zeros while the unguarded path keeps the state: they agree only in states that
   stay put under zeros.
   */
  lemma {:induction false} AbsentSequence(s: TapState, n: nat)
    ensures Run(s, Zeros(n)) == s <==>
            n == 0 || s in {RunTestIdle, ShiftDr, PauseDr, ShiftIr, PauseIr}
    ensures n > 0 ==> Run(s, Zeros(n)) in {RunTestIdle, ShiftDr, PauseDr, ShiftIr, PauseIr, CaptureDr, CaptureIr}
  {
    if n > 0 {
      assert Zeros(n)[..n - 1] == Zeros(n - 1);
      AbsentSequence(s, n - 1);
    }
  }

  /** What changes the state an open keeps track of. */
  datatype TapOp = Locked | AccessIr | AccessDr | Idle | Reset | Sequence(bits: seq<bool>)

  /** The state after an operation of an individually opened device; refused sequences change nothing. */
  ghost function Apply(s: TapState, op: TapOp, length: nat): (r: TapState)
  {
    match op
    case Locked => UpdateIr
    case AccessIr => UpdateIr
    case AccessDr => UpdateDr
    case Idle => RunTestIdle
    case Reset => TestLogicReset
    case Sequence(bits) => if Legal(Trace(s, bits), length) then Run(s, bits) else s
  }

  ghost function After(ops: seq<TapOp>, length: nat): (s: TapState)
  {
    if ops == [] then TestLogicReset else Apply(After(ops[..|ops| - 1], length), ops[|ops| - 1], length)
  }

  /** No operation ever leaves the controller inside an IR scan. */
  lemma {:induction false} NeverLeftInsideIr(ops: seq<TapOp>, length: nat)
    ensures !InsideIr(After(ops, length))
  {
    if ops != [] {
      NeverLeftInsideIr(ops[..|ops| - 1], length);
      var s := After(ops[..|ops| - 1], length);
      if ops[|ops| - 1].Sequence? {
        RunIsLast(s, ops[|ops| - 1].bits);
      }
    }
  }

  /** Over any run, a sequence passes the checks made on it exactly when it is legal. */
  lemma GuardedRun(ops: seq<TapOp>, bits: seq<bool>, length: nat)
    ensures StepsOk(Trace(After(ops, length), bits), |bits|, length) && !InsideIr(Run(After(ops, length), bits))
       <==> Legal(Trace(After(ops, length), bits), length)
  {
    NeverLeftInsideIr(ops, length);
    GuardIsExact(After(ops, length), bits, length);
  }

  /** Every clock in Shift-IR of a legal sequence belongs to a visit that ends within the sequence. */
  lemma VisitIsLeft(s: TapState, bits: seq<bool>, length: nat, i: nat)
    requires !InsideIr(s) && Legal(Trace(s, bits), length) && i <= |bits| && Trace(s, bits)[i] == ShiftIr
    ensures exists a: nat, b: nat :: a <= i < b && Visit(Trace(s, bits), a, b)
  {
    CounterInVisit(s, bits, length, i);
    var a :| 0 < a <= i && VisitSoFar(Trace(s, bits), a, i) && CountAt(Trace(s, bits), i) == i - a;
    VisitEnds(Trace(s, bits), a, i);
  }

  lemma {:induction false} VisitEnds(tr: seq<TapState>, a: nat, i: nat)
    requires VisitSoFar(tr, a, i) && !InsideIr(tr[|tr| - 1])
    ensures exists b: nat :: i < b && Visit(tr, a, b)
    decreases |tr| - i
  {
    if tr[i + 1] == ShiftIr {
      VisitEnds(tr, a, i + 1);
    } else {
      assert Visit(tr, a, i + 1);
    }
  }

  // ------------------------------------------------------------- an opened device

  /** States in which scans can be started. */
  predicate Stable(s: TapState)
  {
    s in {TestLogicReset, RunTestIdle, SelectDrScan, UpdateDr, UpdateIr}
  }

  datatype Result = Done | BadTapState | BadSequence | NotSent

  /** The state of the controller as an opened device keeps track of it. */
  class TapOpen {
    /** Opened for one device, with an instruction register of this length, or for the whole chain. */
    const individual: bool
    const length: nat
    var state: TapState

    ghost predicate Valid()
      reads this
    {
      individual ==> !InsideIr(state)
    }

    constructor (individual: bool, length: nat)
      ensures Valid() && state == TestLogicReset && this.individual == individual && this.length == length
    {
      this.individual, this.length, state := individual, length, TestLogicReset;
    }

    method LockedOk()
      requires Valid()
      modifies this
      ensures Valid() && state == UpdateIr
    {
      state := UpdateIr;
    }

    /** A scan of a register, which ends in its update state. */
    method Scan(ir: bool, sent: bool) returns (r: Result)
      requires Valid()
      modifies this
      ensures Valid()
      ensures r == if !Stable(old(state)) then BadTapState else if sent then Done else NotSent
      ensures state == if r == Done then (if ir then UpdateIr else UpdateDr) else old(state)
    {
      if !Stable(state) {
        return BadTapState;
      }
      if !sent {
        return NotSent;
      }
      state := if ir then UpdateIr else UpdateDr;
      return Done;
    }

    method RunIdle(sent: bool) returns (r: Result)
      requires Valid()
      modifies this
      ensures Valid()
      ensures r == if !Stable(old(state)) then BadTapState else if sent then Done else NotSent
      ensures state == if r == Done then RunTestIdle else old(state)
    {
      if !Stable(state) {
        return BadTapState;
      }
      if !sent {
        return NotSent;
      }
      state := RunTestIdle;
      return Done;
    }

    method ResetTap(sent: bool) returns (r: Result)
      requires Valid()
      modifies this
      ensures Valid() && r == (if sent then Done else NotSent)
      ensures state == if sent then TestLogicReset else old(state)
    {
      if !sent {
        return NotSent;
      }
      state := TestLogicReset;
      return Done;
    }

    /**
     Any sequence of clocks. On a device of its own it is refused unless it is legal, and the state is
     written back only once the sequence is on its way.
     */
    method AnySequence(tms: array?<byte>, bitlength: nat, sent: bool) returns (r: Result)
      requires Valid() && (tms != null ==> tms.Length > bitlength / 8)
      modifies this
      ensures Valid()
      ensures individual ==> (r == BadSequence <==> !Legal(Trace(old(state), BitsOf(tms, bitlength)), length))
      ensures r == BadSequence ==> individual
      ensures r != BadSequence ==> r == if sent then Done else NotSent
      ensures r != Done ==> state == old(state)
      ensures r == Done ==>
        state == if individual || tms != null then Run(old(state), BitsOf(tms, bitlength)) else old(state)
    {
      var newState := state;
      if individual {
        var ok;
        ok, newState := CheckTransitions(tms, bitlength, state, length);
        if !ok {
          return BadSequence;
        }
      } else {
        newState := UpdateState(tms, bitlength, state);
      }
      if !sent {
        return NotSent;
      }
      state := newState;
      return Done;
    }
  }
}
