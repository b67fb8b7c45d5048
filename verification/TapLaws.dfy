/**
 Laws of the TAP controller (clause 6.1 of IEEE Std 1149.1) that do not mention the transition table: resetting,
 the two columns, and the walk of a whole scan.
 */
module TapLaws {
  import opened Tap

  /** So many clocks with the same TMS. */
  function Clocks(tms: bool, n: nat): (bits: seq<bool>)
    ensures |bits| == n && forall i :: 0 <= i < n ==> bits[i] == tms
  {
    if n == 0 then [] else Clocks(tms, n - 1) + [tms]
  }

  lemma {:induction false} RunOn(s: TapState, a: seq<bool>, b: seq<bool>)
    ensures Run(s, a + b) == Run(Run(s, a), b)
    decreases |b|
  {
    if b == [] {
      assert a + b == a;
    } else {
      RunOn(s, a, b[..|b| - 1]);
      assert (a + b)[..|a + b| - 1] == a + b[..|b| - 1];
    }
  }

  lemma RunOne(s: TapState, tms: bool)
    ensures Run(s, [tms]) == Next(s, tms)
  {
    assert [tms][..0] == [];
  }

  lemma {:induction false} ClocksFrom(s: TapState, tms: bool, n: nat)
    requires n > 0
    ensures Run(s, Clocks(tms, n)) == Run(Next(s, tms), Clocks(tms, n - 1))
  {
    if n == 1 {
      RunOne(s, tms);
      assert Clocks(tms, 1) == [tms];
    } else {
      ClocksFrom(s, tms, n - 1);
      assert Clocks(tms, n)[..n - 1] == Clocks(tms, n - 1) && Clocks(tms, n - 1)[..n - 2] == Clocks(tms, n - 2);
    }
  }

  /** The clocks with TMS high that a reset takes. */
  function ToReset(s: TapState): (n: nat)
  {
    match s
    case TestLogicReset => 0
    case SelectIrScan => 1
    case SelectDrScan => 2
    case RunTestIdle | UpdateDr | UpdateIr => 3
    case Exit1Dr | Exit2Dr | Exit1Ir | Exit2Ir => 4
    case CaptureDr | ShiftDr | PauseDr | CaptureIr | ShiftIr | PauseIr => 5
  }

  lemma OneNearer(s: TapState)
    ensures ToReset(s) > 0 ==> ToReset(Next(s, true)) == ToReset(s) - 1
    ensures ToReset(s) == 0 <==> s == TestLogicReset
    ensures ToReset(s) == 0 ==> ToReset(Next(s, true)) == 0
  {
  }

  lemma AtMostFive(s: TapState)
    ensures ToReset(s) <= 5
  {
  }

  lemma {:induction false} ResetsAfter(s: TapState, n: nat)
    ensures Run(s, Clocks(true, n)) == TestLogicReset <==> n >= ToReset(s)
    decreases n
  {
    OneNearer(s);
    if n > 0 {
      var next := Next(s, true);
      ClocksFrom(s, true, n);
      ResetsAfter(next, n - 1);
    }
  }

  /** Five clocks with TMS high reset the controller whatever its state, and no fewer do. */
  lemma FiveClocksReset(n: nat)
    ensures (forall s :: Run(s, Clocks(true, n)) == TestLogicReset) <==> n >= 5
  {
    if n >= 5 {
      forall s
        ensures Run(s, Clocks(true, n)) == TestLogicReset
      {
        ResetsAfter(s, n);
        AtMostFive(s);
      }
    } else {
      ResetsAfter(ShiftDr, n);
    }
  }

  /** The state of the instruction column for one of the data column. */
  function Twin(s: TapState): (t: TapState)
  {
    match s
    case SelectDrScan => SelectIrScan
    case CaptureDr => CaptureIr
    case ShiftDr => ShiftIr
    case Exit1Dr => Exit1Ir
    case PauseDr => PauseIr
    case Exit2Dr => Exit2Ir
    case UpdateDr => UpdateIr
    case _ => s
  }

  /** The columns are alike, but that TMS high at their heads goes from one to the other and from that to reset. */
  lemma ColumnsAlike(s: TapState, tms: bool)
    ensures Twin(s) != s && s != UpdateDr && !(s == SelectDrScan && tms) ==> Next(Twin(s), tms) == Twin(Next(s, tms))
    ensures Next(SelectDrScan, true) == Twin(SelectDrScan) && Next(Twin(SelectDrScan), true) == TestLogicReset
    ensures Next(UpdateDr, tms) == Next(UpdateIr, tms) == Next(RunTestIdle, tms)
  {
  }

  /** The controller stays where it is only at rest: in reset with TMS high, in the idle, shift and pause states with TMS low. */
  lemma RestsExactlyIf(s: TapState, tms: bool)
    ensures Next(s, tms) == s <==> if s == TestLogicReset then tms else !tms && s in {RunTestIdle, ShiftDr, PauseDr, ShiftIr, PauseIr}
  {
  }

  /** An IR scan is entered at its capture state alone and left at its update state alone. */
  lemma InsideIrExactly(s: TapState, tms: bool)
    ensures InsideIr(CaptureIr) && (InsideIr(s) ==> InsideIr(Next(s, tms)) || Next(s, tms) == UpdateIr)
    ensures InsideIr(Next(s, tms)) && !InsideIr(s) ==> s == SelectIrScan && Next(s, tms) == CaptureIr
  {
  }

  /** To resume shifting is to enter a shift state from anywhere but capture. */
  lemma ResumesExactly(s: TapState, tms: bool)
    ensures Resumes(s, Next(s, tms)) <==> Next(s, tms) in {ShiftDr, ShiftIr} && Next(s, tms) != s && s != CaptureDr && s != CaptureIr
  {
  }

  /** A scan can be started exactly where the controller can go to its head without starting one. */
  lemma StableExactly(s: TapState)
    ensures Stable(s) <==> s == SelectDrScan || Next(Next(s, false), true) == SelectDrScan
  {
  }

  // ------------------------------------------------------------- the walk of a scan

  /** Where a walk ends, and how many of its clocks find the controller in a state: what is needed of it to go on. */
  ghost predicate Leads(s: TapState, bits: seq<bool>, to: TapState, at: TapState, n: nat)
  {
    Run(s, bits) == to && ClocksIn(s, bits, at) == n
  }

  /** Clocks on which the controller is in this state, starting from s. */
  function ClocksIn(s: TapState, bits: seq<bool>, at: TapState): (n: nat)
  {
    if bits == [] then 0
    else
      var rest := bits[..|bits| - 1];
      ClocksIn(s, rest, at) + (if Run(s, rest) == at then 1 else 0)
  }

  lemma RunSnoc(s: TapState, bits: seq<bool>, tms: bool)
    ensures Run(s, bits + [tms]) == Next(Run(s, bits), tms)
  {
    var all := bits + [tms];
    assert all[..|all| - 1] == bits;
  }

  lemma ClocksInSnoc(s: TapState, bits: seq<bool>, tms: bool, at: TapState)
    ensures ClocksIn(s, bits + [tms], at) == ClocksIn(s, bits, at) + Gain(Run(s, bits) == at, 1)
  {
    var all := bits + [tms];
    assert all[..|all| - 1] == bits;
  }

  /** One more clock. */
  lemma OneClock(s: TapState, bits: seq<bool>, to: TapState, at: TapState, n: nat, tms: bool)
    requires Leads(s, bits, to, at, n)
    ensures Leads(s, bits + [tms], Next(to, tms), at, n + Gain(to == at, 1))
  {
    RunSnoc(s, bits, tms);
    ClocksInSnoc(s, bits, tms, at);
  }

  function Gain(same: bool, n: nat): (g: nat)
  {
    if same then n else 0
  }

  /** Clocks with TMS low at a state that they do not leave. */
  lemma {:induction false} GoesOn(s: TapState, bits: seq<bool>, to: TapState, at: TapState, m: nat, n: nat)
    requires Leads(s, bits, to, at, m) && Next(to, false) == to
    ensures Leads(s, bits + Clocks(false, n), to, at, m + Gain(to == at, n))
    decreases n
  {
    if n == 0 {
      assert bits + Clocks(false, n) == bits;
    } else {
      GoesOn(s, bits, to, at, m, n - 1);
      OneMore(s, bits, Clocks(false, n - 1), to, at, m + Gain(to == at, n - 1));
    }
  }

  lemma OneMore(s: TapState, bits: seq<bool>, more: seq<bool>, to: TapState, at: TapState, m: nat)
    requires Leads(s, bits + more, to, at, m) && Next(to, false) == to
    ensures Leads(s, bits + (more + [false]), to, at, m + Gain(to == at, 1))
  {
    OneClock(s, bits + more, to, at, m, false);
    assert bits + more + [false] == bits + (more + [false]);
  }

  function Shift(ir: bool): (s: TapState)
  {
    if ir then ShiftIr else ShiftDr
  }

  function Update(ir: bool): (s: TapState)
  {
    if ir then UpdateIr else UpdateDr
  }

  /** TMS from a state in which scans can be started to the head of the data column. */
  function ToHead(s: TapState): (bits: seq<bool>)
    requires Stable(s)
  {
    if s == SelectDrScan then [] else if s == TestLogicReset then [false, true] else [true]
  }

  /** To the head of the right column, through capture, to the shift state. */
  function ToShift(s: TapState, ir: bool): (bits: seq<bool>)
    requires Stable(s)
  {
    (if ir then ToHead(s) + [true] else ToHead(s)) + [false] + [false]
  }

  /** TMS of a scan of n bits: to the shift state, n clocks there of which the last leaves it, and update. */
  function Walk(s: TapState, ir: bool, n: nat): (bits: seq<bool>)
    requires Stable(s) && n > 0
  {
    ToShift(s, ir) + Clocks(false, n - 1) + [true] + [true]
  }

  predicate IsShift(s: TapState)
  {
    s == ShiftDr || s == ShiftIr
  }

  lemma LeadsToHead(s: TapState, at: TapState)
    requires Stable(s) && IsShift(at)
    ensures Leads(s, ToHead(s), SelectDrScan, at, 0)
  {
    if s == TestLogicReset {
      FirstClock(s, [false], at);
      OneClock(s, [false], RunTestIdle, at, 0, true);
      assert [false] + [true] == [false, true];
    } else if s != SelectDrScan {
      FirstClock(s, [true], at);
    }
  }

  lemma FirstClock(s: TapState, bits: seq<bool>, at: TapState)
    requires |bits| == 1
    ensures Leads(s, bits, Next(s, bits[0]), at, Gain(s == at, 1))
  {
    assert bits[..0] == [];
  }

  lemma LeadsToShift(s: TapState, ir: bool, at: TapState)
    requires Stable(s) && IsShift(at)
    ensures Leads(s, ToShift(s, ir), Shift(ir), at, 0)
  {
    var bits := ToHead(s);
    LeadsToHead(s, at);
    if ir {
      OneClock(s, bits, SelectDrScan, at, 0, true);
      CaptureAndShift(s, bits + [true], true, at);
    } else {
      CaptureAndShift(s, bits, false, at);
    }
  }

  lemma CaptureAndShift(s: TapState, bits: seq<bool>, ir: bool, at: TapState)
    requires IsShift(at) && Leads(s, bits, if ir then SelectIrScan else SelectDrScan, at, 0)
    ensures Leads(s, bits + [false] + [false], Shift(ir), at, 0)
  {
    OneClock(s, bits, if ir then SelectIrScan else SelectDrScan, at, 0, false);
    OneClock(s, bits + [false], if ir then CaptureIr else CaptureDr, at, 0, false);
  }

  /**
   Wherever a scan can be started, the walk of one of n bits shifts exactly n bits through its register, none
   through the other, and ends in the update state of its column.
   */
  lemma ScanWalks(s: TapState, ir: bool, n: nat)
    requires Stable(s) && n > 0
    ensures Run(s, Walk(s, ir, n)) == Update(ir)
    ensures ClocksIn(s, Walk(s, ir, n), Shift(ir)) == n && ClocksIn(s, Walk(s, ir, n), Shift(!ir)) == 0
  {
    WalkLeads(s, ir, n, Shift(ir));
    WalkLeads(s, ir, n, Shift(!ir));
  }

  lemma WalkLeads(s: TapState, ir: bool, n: nat, at: TapState)
    requires Stable(s) && n > 0 && IsShift(at)
    ensures Leads(s, Walk(s, ir, n), Update(ir), at, Gain(at == Shift(ir), n))
  {
    LeadsToShift(s, ir, at);
    ShiftsAndLeaves(s, ToShift(s, ir), ir, n, at);
  }

  /** From the shift state on. */
  lemma ShiftsAndLeaves(s: TapState, bits: seq<bool>, ir: bool, n: nat, at: TapState)
    requires n > 0 && IsShift(at) && Leads(s, bits, Shift(ir), at, 0)
    ensures Leads(s, bits + Clocks(false, n - 1) + [true] + [true], Update(ir), at, Gain(at == Shift(ir), n))
  {
    GoesOn(s, bits, Shift(ir), at, 0, n - 1);
    ExitAndUpdate(s, bits + Clocks(false, n - 1), ir, at, Gain(at == Shift(ir), n - 1));
  }

  lemma ExitAndUpdate(s: TapState, bits: seq<bool>, ir: bool, at: TapState, m: nat)
    requires IsShift(at) && Leads(s, bits, Shift(ir), at, m)
    ensures Leads(s, bits + [true] + [true], Update(ir), at, m + Gain(at == Shift(ir), 1))
  {
    OneClock(s, bits, Shift(ir), at, m, true);
    OneClock(s, bits + [true], if ir then Exit1Ir else Exit1Dr, at, m + Gain(at == Shift(ir), 1), true);
  }
}
