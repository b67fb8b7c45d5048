/**
 The compression of one block: the 64 steps as written out one by one, and the same as section 3.4 of
 RFC 1321 describes them, with each step's word, constant and rotation by rule.
 */
module Md5Block {
  import opened Bytes

  /** The arithmetic of a machine's words: what the steps are made of. */
  datatype Machine<!W> = Machine(
    add: (W, W) -> W,
    rotate: (W, nat) -> W,
    f: (W, W, W) -> W, g: (W, W, W) -> W, h: (W, W, W) -> W, i: (W, W, W) -> W,
    number: nat -> W,
    pack: (byte, byte, byte, byte) -> W,
    unpack: W -> (byte, byte, byte, byte))

  /** Steps that are proved together. */
  const FOUR: nat := 4

  datatype State<W> = State(a: W, b: W, c: W, d: W)

  // ------------------------------------------------------------- section 3.4 of RFC 1321

  /** The auxiliary function of a step. */
  function Mix<W>(m: Machine<W>, i: nat, x: W, y: W, z: W): (r: W)
  {
    if i < 16 then m.f(x, y, z) else if i < 32 then m.g(x, y, z) else if i < 48 then m.h(x, y, z) else m.i(x, y, z)
  }

  /** The word of the block that goes into a step. */
  function WordOf(i: nat): (k: nat)
    ensures k < 16
  {
    (if i < 16 then i else if i < 32 then 5 * i + 1 else if i < 48 then 3 * i + 5 else 7 * i) % 16
  }

  /** How far the sum is rotated: four amounts in turn, others in each round. */
  function Turn(i: nat): (s: nat)
  {
    if i < 16 then InTurn(i, 7, 12, 17, 22)
    else if i < 32 then InTurn(i, 5, 9, 14, 20)
    else if i < 48 then InTurn(i, 4, 11, 16, 23)
    else InTurn(i, 6, 10, 15, 21)
  }

  function InTurn(i: nat, s0: nat, s1: nat, s2: nat, s3: nat): (s: nat)
  {
    var n := i % 4;
    if n == 0 then s0 else if n == 1 then s1 else if n == 2 then s2 else s3
  }

  /** The constant of a step: 4294967296 times the sine of i + 1, without its sign and its fraction. */
  function Sine(i: nat): (t: nat)
  {
    if i < 16 then Sine1(i) else if i < 32 then Sine2(i - 16) else if i < 48 then Sine3(i - 32) else Sine4(i - 48)
  }

  function Sine1(i: nat): (t: nat)
  {
    match i
    case 0 => 0xd76aa478
    case 1 => 0xe8c7b756
    case 2 => 0x242070db
    case 3 => 0xc1bdceee
    case 4 => 0xf57c0faf
    case 5 => 0x4787c62a
    case 6 => 0xa8304613
    case 7 => 0xfd469501
    case 8 => 0x698098d8
    case 9 => 0x8b44f7af
    case 10 => 0xffff5bb1
    case 11 => 0x895cd7be
    case 12 => 0x6b901122
    case 13 => 0xfd987193
    case 14 => 0xa679438e
    case _ => 0x49b40821
  }

  function Sine2(i: nat): (t: nat)
  {
    match i
    case 0 => 0xf61e2562
    case 1 => 0xc040b340
    case 2 => 0x265e5a51
    case 3 => 0xe9b6c7aa
    case 4 => 0xd62f105d
    case 5 => 0x02441453
    case 6 => 0xd8a1e681
    case 7 => 0xe7d3fbc8
    case 8 => 0x21e1cde6
    case 9 => 0xc33707d6
    case 10 => 0xf4d50d87
    case 11 => 0x455a14ed
    case 12 => 0xa9e3e905
    case 13 => 0xfcefa3f8
    case 14 => 0x676f02d9
    case _ => 0x8d2a4c8a
  }

  function Sine3(i: nat): (t: nat)
  {
    match i
    case 0 => 0xfffa3942
    case 1 => 0x8771f681
    case 2 => 0x6d9d6122
    case 3 => 0xfde5380c
    case 4 => 0xa4beea44
    case 5 => 0x4bdecfa9
    case 6 => 0xf6bb4b60
    case 7 => 0xbebfbc70
    case 8 => 0x289b7ec6
    case 9 => 0xeaa127fa
    case 10 => 0xd4ef3085
    case 11 => 0x04881d05
    case 12 => 0xd9d4d039
    case 13 => 0xe6db99e5
    case 14 => 0x1fa27cf8
    case _ => 0xc4ac5665
  }

  function Sine4(i: nat): (t: nat)
  {
    match i
    case 0 => 0xf4292244
    case 1 => 0x432aff97
    case 2 => 0xab9423a7
    case 3 => 0xfc93a039
    case 4 => 0x655b59c3
    case 5 => 0x8f0ccc92
    case 6 => 0xffeff47d
    case 7 => 0x85845dd1
    case 8 => 0x6fa87e4f
    case 9 => 0xfe2ce6e0
    case 10 => 0xa3014314
    case 11 => 0x4e0811a1
    case 12 => 0xf7537e82
    case 13 => 0xbd3af235
    case 14 => 0x2ad7d2bb
    case _ => 0xeb86d391
  }

  predicate IsStep(i: nat, k: nat, t: nat, s: nat)
  {
    k == WordOf(i) && t == Sine(i) && s == Turn(i)
  }

  /** One step; the registers change places. */
  function Step<W>(m: Machine<W>, i: nat, r: State<W>, x: seq<W>): (s: State<W>)
    requires |x| == 16
  {
    var sum := m.add(r.a, m.add(Mix(m, i, r.b, r.c, r.d), m.add(x[WordOf(i)], m.number(Sine(i)))));
    State(r.d, m.add(m.rotate(sum, Turn(i)), r.b), r.b, r.c)
  }

  /** The steps from i on, n of them. */
  function Run<S>(step: (nat, S) -> S, i: nat, n: nat, r: S): (s: S)
    decreases n
  {
    if n == 0 then r else Run(step, i + 1, n - 1, step(i, r))
  }

  lemma {:induction false} RunSplit<S>(step: (nat, S) -> S, i: nat, k: nat, n: nat, r: S)
    ensures Run(step, i, k + n, r) == Run(step, i + k, n, Run(step, i, k, r))
    decreases k
  {
    if k > 0 {
      RunSplit(step, i + 1, k - 1, n, step(i, r));
    }
  }

  /** The words of a block, low byte first. */
  function Words<W>(m: Machine<W>, block: seq<byte>): (x: seq<W>)
    requires |block| == 64
    ensures |x| == 16
  {
    seq(16, k requires 0 <= k < 16 => m.pack(block[4 * k], block[4 * k + 1], block[4 * k + 2], block[4 * k + 3]))
  }

  /** The steps for a block. */
  function Stepper<W>(m: Machine<W>, x: seq<W>): (step: (nat, State<W>) -> State<W>)
    requires |x| == 16
  {
    (i: nat, r) => Step(m, i, r, x)
  }

  /** A function is the steps for a block. */
  ghost predicate Follows<W(!new)>(step: (nat, State<W>) -> State<W>, m: Machine<W>, x: seq<W>)
    requires |x| == 16
  {
    forall i: nat, r: State<W> {:trigger Step(m, i, r, x)} :: step(i, r) == Step(m, i, r, x)
  }

  lemma StepperFollows<W(!new)>(m: Machine<W>, x: seq<W>)
    requires |x| == 16
    ensures Follows(Stepper(m, x), m, x)
  {
  }

  function Compress<W>(m: Machine<W>, r: State<W>, block: seq<byte>): (s: State<W>)
    requires |block| == 64
  {
    var t := Run(Stepper(m, Words(m, block)), 0, 16 * FOUR, r);
    State(m.add(r.a, t.a), m.add(r.b, t.b), m.add(r.c, t.c), m.add(r.d, t.d))
  }

  /** The compression of blocks as a function. */
  function Compressor<W>(m: Machine<W>): (f: (State<W>, seq<byte>) -> State<W>)
  {
    (r, block) => if |block| == 64 then Compress(m, r, block) else r
  }

  ghost predicate Computes<W(!new)>(f: (State<W>, seq<byte>) -> State<W>, m: Machine<W>)
  {
    forall r: State<W>, block: seq<byte> {:trigger Compress(m, r, block)} :: |block| == 64 ==> f(r, block) == Compress(m, r, block)
  }

  lemma CompressorComputes<W(!new)>(m: Machine<W>)
    ensures Computes(Compressor(m), m)
  {
  }

  // ------------------------------------------------------------- step by step

  /** One step of the program: the register changed, and the state as section 3.4 has it. */
  method NextStep<W(!new)>(m: Machine<W>, mixed: W, w: W, x: W, y: W, z: W, block: seq<W>, k: nat, t: nat, s: nat,
      ghost i: nat, ghost end: nat, ghost step: (nat, State<W>) -> State<W>, ghost g: State<W>)
    returns (v: W, ghost g': State<W>)
    requires |block| == 16 && Follows(step, m, block) && i < end && g == State(w, x, y, z)
    requires mixed == Mix(m, i, x, y, z) && IsStep(i, k, t, s)
    ensures g' == State(z, v, x, y)
    ensures Run(step, i, end - i, g) == Run(step, i + 1, end - i - 1, g')
  {
    v := m.add(w, m.add(mixed, m.add(block[k], m.number(t))));
    v := m.rotate(v, s);
    v := m.add(v, x);
    g' := Step(m, i, g, block);
  }

  /** One step of the first round. */
  method FF<W(!new)>(m: Machine<W>, w: W, x: W, y: W, z: W, block: seq<W>, k: nat, t: nat, s: nat,
      ghost i: nat, ghost end: nat, ghost step: (nat, State<W>) -> State<W>, ghost g: State<W>)
    returns (v: W, ghost g': State<W>)
    requires |block| == 16 && Follows(step, m, block) && i < 16 && i < end && g == State(w, x, y, z) && IsStep(i, k, t, s)
    ensures g' == State(z, v, x, y)
    ensures Run(step, i, end - i, g) == Run(step, i + 1, end - i - 1, g')
  {
    v, g' := NextStep(m, m.f(x, y, z), w, x, y, z, block, k, t, s, i, end, step, g);
  }

  /** One step of the second round. */
  method GG<W(!new)>(m: Machine<W>, w: W, x: W, y: W, z: W, block: seq<W>, k: nat, t: nat, s: nat,
      ghost i: nat, ghost end: nat, ghost step: (nat, State<W>) -> State<W>, ghost g: State<W>)
    returns (v: W, ghost g': State<W>)
    requires |block| == 16 && Follows(step, m, block) && 16 <= i < 32 && i < end && g == State(w, x, y, z) && IsStep(i, k, t, s)
    ensures g' == State(z, v, x, y)
    ensures Run(step, i, end - i, g) == Run(step, i + 1, end - i - 1, g')
  {
    v, g' := NextStep(m, m.g(x, y, z), w, x, y, z, block, k, t, s, i, end, step, g);
  }

  /** One step of the third round. */
  method HH<W(!new)>(m: Machine<W>, w: W, x: W, y: W, z: W, block: seq<W>, k: nat, t: nat, s: nat,
      ghost i: nat, ghost end: nat, ghost step: (nat, State<W>) -> State<W>, ghost g: State<W>)
    returns (v: W, ghost g': State<W>)
    requires |block| == 16 && Follows(step, m, block) && 32 <= i < 48 && i < end && g == State(w, x, y, z) && IsStep(i, k, t, s)
    ensures g' == State(z, v, x, y)
    ensures Run(step, i, end - i, g) == Run(step, i + 1, end - i - 1, g')
  {
    v, g' := NextStep(m, m.h(x, y, z), w, x, y, z, block, k, t, s, i, end, step, g);
  }

  /** One step of the fourth round. */
  method II<W(!new)>(m: Machine<W>, w: W, x: W, y: W, z: W, block: seq<W>, k: nat, t: nat, s: nat,
      ghost i: nat, ghost end: nat, ghost step: (nat, State<W>) -> State<W>, ghost g: State<W>)
    returns (v: W, ghost g': State<W>)
    requires |block| == 16 && Follows(step, m, block) && 48 <= i < 64 && i < end && g == State(w, x, y, z) && IsStep(i, k, t, s)
    ensures g' == State(z, v, x, y)
    ensures Run(step, i, end - i, g) == Run(step, i + 1, end - i - 1, g')
  {
    v, g' := NextStep(m, m.i(x, y, z), w, x, y, z, block, k, t, s, i, end, step, g);
  }

  method Steps0<W(!new)>(m: Machine<W>, r: State<W>, x: seq<W>, ghost step: (nat, State<W>) -> State<W>) returns (s: State<W>)
    requires |x| == 16 && Follows(step, m, x)
    ensures s == Run(step, 0, FOUR, r)
  {
    var a, b, c, d := r.a, r.b, r.c, r.d;
    ghost var g := r;
    a, g := FF(m, a, b, c, d, x, 0, 0xd76aa478, 7, 0, FOUR, step, g);
    d, g := FF(m, d, a, b, c, x, 1, 0xe8c7b756, 12, 1, FOUR, step, g);
    c, g := FF(m, c, d, a, b, x, 2, 0x242070db, 17, 2, FOUR, step, g);
    b, g := FF(m, b, c, d, a, x, 3, 0xc1bdceee, 22, 3, FOUR, step, g);
    s := State(a, b, c, d);
    assert s == g;
  }

  method Steps4<W(!new)>(m: Machine<W>, r: State<W>, x: seq<W>, ghost step: (nat, State<W>) -> State<W>) returns (s: State<W>)
    requires |x| == 16 && Follows(step, m, x)
    ensures s == Run(step, FOUR, FOUR, r)
  {
    var a, b, c, d := r.a, r.b, r.c, r.d;
    ghost var g := r;
    a, g := FF(m, a, b, c, d, x, 4, 0xf57c0faf, 7, 4, 2 * FOUR, step, g);
    d, g := FF(m, d, a, b, c, x, 5, 0x4787c62a, 12, 5, 2 * FOUR, step, g);
    c, g := FF(m, c, d, a, b, x, 6, 0xa8304613, 17, 6, 2 * FOUR, step, g);
    b, g := FF(m, b, c, d, a, x, 7, 0xfd469501, 22, 7, 2 * FOUR, step, g);
    s := State(a, b, c, d);
    assert s == g;
  }

  method Steps8<W(!new)>(m: Machine<W>, r: State<W>, x: seq<W>, ghost step: (nat, State<W>) -> State<W>) returns (s: State<W>)
    requires |x| == 16 && Follows(step, m, x)
    ensures s == Run(step, 2 * FOUR, FOUR, r)
  {
    var a, b, c, d := r.a, r.b, r.c, r.d;
    ghost var g := r;
    a, g := FF(m, a, b, c, d, x, 8, 0x698098d8, 7, 8, 3 * FOUR, step, g);
    d, g := FF(m, d, a, b, c, x, 9, 0x8b44f7af, 12, 9, 3 * FOUR, step, g);
    c, g := FF(m, c, d, a, b, x, 10, 0xffff5bb1, 17, 10, 3 * FOUR, step, g);
    b, g := FF(m, b, c, d, a, x, 11, 0x895cd7be, 22, 11, 3 * FOUR, step, g);
    s := State(a, b, c, d);
    assert s == g;
  }

  method Steps12<W(!new)>(m: Machine<W>, r: State<W>, x: seq<W>, ghost step: (nat, State<W>) -> State<W>) returns (s: State<W>)
    requires |x| == 16 && Follows(step, m, x)
    ensures s == Run(step, 3 * FOUR, FOUR, r)
  {
    var a, b, c, d := r.a, r.b, r.c, r.d;
    ghost var g := r;
    a, g := FF(m, a, b, c, d, x, 12, 0x6b901122, 7, 12, 4 * FOUR, step, g);
    d, g := FF(m, d, a, b, c, x, 13, 0xfd987193, 12, 13, 4 * FOUR, step, g);
    c, g := FF(m, c, d, a, b, x, 14, 0xa679438e, 17, 14, 4 * FOUR, step, g);
    b, g := FF(m, b, c, d, a, x, 15, 0x49b40821, 22, 15, 4 * FOUR, step, g);
    s := State(a, b, c, d);
    assert s == g;
  }

  method Steps16<W(!new)>(m: Machine<W>, r: State<W>, x: seq<W>, ghost step: (nat, State<W>) -> State<W>) returns (s: State<W>)
    requires |x| == 16 && Follows(step, m, x)
    ensures s == Run(step, 4 * FOUR, FOUR, r)
  {
    var a, b, c, d := r.a, r.b, r.c, r.d;
    ghost var g := r;
    a, g := GG(m, a, b, c, d, x, 1, 0xf61e2562, 5, 16, 5 * FOUR, step, g);
    d, g := GG(m, d, a, b, c, x, 6, 0xc040b340, 9, 17, 5 * FOUR, step, g);
    c, g := GG(m, c, d, a, b, x, 11, 0x265e5a51, 14, 18, 5 * FOUR, step, g);
    b, g := GG(m, b, c, d, a, x, 0, 0xe9b6c7aa, 20, 19, 5 * FOUR, step, g);
    s := State(a, b, c, d);
    assert s == g;
  }

  method Steps20<W(!new)>(m: Machine<W>, r: State<W>, x: seq<W>, ghost step: (nat, State<W>) -> State<W>) returns (s: State<W>)
    requires |x| == 16 && Follows(step, m, x)
    ensures s == Run(step, 5 * FOUR, FOUR, r)
  {
    var a, b, c, d := r.a, r.b, r.c, r.d;
    ghost var g := r;
    a, g := GG(m, a, b, c, d, x, 5, 0xd62f105d, 5, 20, 6 * FOUR, step, g);
    d, g := GG(m, d, a, b, c, x, 10, 0x02441453, 9, 21, 6 * FOUR, step, g);
    c, g := GG(m, c, d, a, b, x, 15, 0xd8a1e681, 14, 22, 6 * FOUR, step, g);
    b, g := GG(m, b, c, d, a, x, 4, 0xe7d3fbc8, 20, 23, 6 * FOUR, step, g);
    s := State(a, b, c, d);
    assert s == g;
  }

  method Steps24<W(!new)>(m: Machine<W>, r: State<W>, x: seq<W>, ghost step: (nat, State<W>) -> State<W>) returns (s: State<W>)
    requires |x| == 16 && Follows(step, m, x)
    ensures s == Run(step, 6 * FOUR, FOUR, r)
  {
    var a, b, c, d := r.a, r.b, r.c, r.d;
    ghost var g := r;
    a, g := GG(m, a, b, c, d, x, 9, 0x21e1cde6, 5, 24, 7 * FOUR, step, g);
    d, g := GG(m, d, a, b, c, x, 14, 0xc33707d6, 9, 25, 7 * FOUR, step, g);
    c, g := GG(m, c, d, a, b, x, 3, 0xf4d50d87, 14, 26, 7 * FOUR, step, g);
    b, g := GG(m, b, c, d, a, x, 8, 0x455a14ed, 20, 27, 7 * FOUR, step, g);
    s := State(a, b, c, d);
    assert s == g;
  }

  method Steps28<W(!new)>(m: Machine<W>, r: State<W>, x: seq<W>, ghost step: (nat, State<W>) -> State<W>) returns (s: State<W>)
    requires |x| == 16 && Follows(step, m, x)
    ensures s == Run(step, 7 * FOUR, FOUR, r)
  {
    var a, b, c, d := r.a, r.b, r.c, r.d;
    ghost var g := r;
    a, g := GG(m, a, b, c, d, x, 13, 0xa9e3e905, 5, 28, 8 * FOUR, step, g);
    d, g := GG(m, d, a, b, c, x, 2, 0xfcefa3f8, 9, 29, 8 * FOUR, step, g);
    c, g := GG(m, c, d, a, b, x, 7, 0x676f02d9, 14, 30, 8 * FOUR, step, g);
    b, g := GG(m, b, c, d, a, x, 12, 0x8d2a4c8a, 20, 31, 8 * FOUR, step, g);
    s := State(a, b, c, d);
    assert s == g;
  }

  method Steps32<W(!new)>(m: Machine<W>, r: State<W>, x: seq<W>, ghost step: (nat, State<W>) -> State<W>) returns (s: State<W>)
    requires |x| == 16 && Follows(step, m, x)
    ensures s == Run(step, 8 * FOUR, FOUR, r)
  {
    var a, b, c, d := r.a, r.b, r.c, r.d;
    ghost var g := r;
    a, g := HH(m, a, b, c, d, x, 5, 0xfffa3942, 4, 32, 9 * FOUR, step, g);
    d, g := HH(m, d, a, b, c, x, 8, 0x8771f681, 11, 33, 9 * FOUR, step, g);
    c, g := HH(m, c, d, a, b, x, 11, 0x6d9d6122, 16, 34, 9 * FOUR, step, g);
    b, g := HH(m, b, c, d, a, x, 14, 0xfde5380c, 23, 35, 9 * FOUR, step, g);
    s := State(a, b, c, d);
    assert s == g;
  }

  method Steps36<W(!new)>(m: Machine<W>, r: State<W>, x: seq<W>, ghost step: (nat, State<W>) -> State<W>) returns (s: State<W>)
    requires |x| == 16 && Follows(step, m, x)
    ensures s == Run(step, 9 * FOUR, FOUR, r)
  {
    var a, b, c, d := r.a, r.b, r.c, r.d;
    ghost var g := r;
    a, g := HH(m, a, b, c, d, x, 1, 0xa4beea44, 4, 36, 10 * FOUR, step, g);
    d, g := HH(m, d, a, b, c, x, 4, 0x4bdecfa9, 11, 37, 10 * FOUR, step, g);
    c, g := HH(m, c, d, a, b, x, 7, 0xf6bb4b60, 16, 38, 10 * FOUR, step, g);
    b, g := HH(m, b, c, d, a, x, 10, 0xbebfbc70, 23, 39, 10 * FOUR, step, g);
    s := State(a, b, c, d);
    assert s == g;
  }

  method Steps40<W(!new)>(m: Machine<W>, r: State<W>, x: seq<W>, ghost step: (nat, State<W>) -> State<W>) returns (s: State<W>)
    requires |x| == 16 && Follows(step, m, x)
    ensures s == Run(step, 10 * FOUR, FOUR, r)
  {
    var a, b, c, d := r.a, r.b, r.c, r.d;
    ghost var g := r;
    assert IsStep(40, 13, 0x289b7ec6, 4) && IsStep(41, 0, 0xeaa127fa, 11) && IsStep(42, 3, 0xd4ef3085, 16) && IsStep(43, 6, 0x04881d05, 23);
    a, g := HH(m, a, b, c, d, x, 13, 0x289b7ec6, 4, 40, 11 * FOUR, step, g);
    d, g := HH(m, d, a, b, c, x, 0, 0xeaa127fa, 11, 41, 11 * FOUR, step, g);
    c, g := HH(m, c, d, a, b, x, 3, 0xd4ef3085, 16, 42, 11 * FOUR, step, g);
    b, g := HH(m, b, c, d, a, x, 6, 0x04881d05, 23, 43, 11 * FOUR, step, g);
    s := State(a, b, c, d);
    assert s == g;
  }

  method Steps44<W(!new)>(m: Machine<W>, r: State<W>, x: seq<W>, ghost step: (nat, State<W>) -> State<W>) returns (s: State<W>)
    requires |x| == 16 && Follows(step, m, x)
    ensures s == Run(step, 11 * FOUR, FOUR, r)
  {
    var a, b, c, d := r.a, r.b, r.c, r.d;
    ghost var g := r;
    a, g := HH(m, a, b, c, d, x, 9, 0xd9d4d039, 4, 44, 12 * FOUR, step, g);
    d, g := HH(m, d, a, b, c, x, 12, 0xe6db99e5, 11, 45, 12 * FOUR, step, g);
    c, g := HH(m, c, d, a, b, x, 15, 0x1fa27cf8, 16, 46, 12 * FOUR, step, g);
    b, g := HH(m, b, c, d, a, x, 2, 0xc4ac5665, 23, 47, 12 * FOUR, step, g);
    s := State(a, b, c, d);
    assert s == g;
  }

  method Steps48<W(!new)>(m: Machine<W>, r: State<W>, x: seq<W>, ghost step: (nat, State<W>) -> State<W>) returns (s: State<W>)
    requires |x| == 16 && Follows(step, m, x)
    ensures s == Run(step, 12 * FOUR, FOUR, r)
  {
    var a, b, c, d := r.a, r.b, r.c, r.d;
    ghost var g := r;
    a, g := II(m, a, b, c, d, x, 0, 0xf4292244, 6, 48, 13 * FOUR, step, g);
    d, g := II(m, d, a, b, c, x, 7, 0x432aff97, 10, 49, 13 * FOUR, step, g);
    c, g := II(m, c, d, a, b, x, 14, 0xab9423a7, 15, 50, 13 * FOUR, step, g);
    b, g := II(m, b, c, d, a, x, 5, 0xfc93a039, 21, 51, 13 * FOUR, step, g);
    s := State(a, b, c, d);
    assert s == g;
  }

  method Steps52<W(!new)>(m: Machine<W>, r: State<W>, x: seq<W>, ghost step: (nat, State<W>) -> State<W>) returns (s: State<W>)
    requires |x| == 16 && Follows(step, m, x)
    ensures s == Run(step, 13 * FOUR, FOUR, r)
  {
    var a, b, c, d := r.a, r.b, r.c, r.d;
    ghost var g := r;
    a, g := II(m, a, b, c, d, x, 12, 0x655b59c3, 6, 52, 14 * FOUR, step, g);
    d, g := II(m, d, a, b, c, x, 3, 0x8f0ccc92, 10, 53, 14 * FOUR, step, g);
    c, g := II(m, c, d, a, b, x, 10, 0xffeff47d, 15, 54, 14 * FOUR, step, g);
    b, g := II(m, b, c, d, a, x, 1, 0x85845dd1, 21, 55, 14 * FOUR, step, g);
    s := State(a, b, c, d);
    assert s == g;
  }

  method Steps56<W(!new)>(m: Machine<W>, r: State<W>, x: seq<W>, ghost step: (nat, State<W>) -> State<W>) returns (s: State<W>)
    requires |x| == 16 && Follows(step, m, x)
    ensures s == Run(step, 14 * FOUR, FOUR, r)
  {
    var a, b, c, d := r.a, r.b, r.c, r.d;
    ghost var g := r;
    a, g := II(m, a, b, c, d, x, 8, 0x6fa87e4f, 6, 56, 15 * FOUR, step, g);
    d, g := II(m, d, a, b, c, x, 15, 0xfe2ce6e0, 10, 57, 15 * FOUR, step, g);
    c, g := II(m, c, d, a, b, x, 6, 0xa3014314, 15, 58, 15 * FOUR, step, g);
    b, g := II(m, b, c, d, a, x, 13, 0x4e0811a1, 21, 59, 15 * FOUR, step, g);
    s := State(a, b, c, d);
    assert s == g;
  }

  method Steps60<W(!new)>(m: Machine<W>, r: State<W>, x: seq<W>, ghost step: (nat, State<W>) -> State<W>) returns (s: State<W>)
    requires |x| == 16 && Follows(step, m, x)
    ensures s == Run(step, 15 * FOUR, FOUR, r)
  {
    var a, b, c, d := r.a, r.b, r.c, r.d;
    ghost var g := r;
    a, g := II(m, a, b, c, d, x, 4, 0xf7537e82, 6, 60, 16 * FOUR, step, g);
    d, g := II(m, d, a, b, c, x, 11, 0xbd3af235, 10, 61, 16 * FOUR, step, g);
    c, g := II(m, c, d, a, b, x, 2, 0x2ad7d2bb, 15, 62, 16 * FOUR, step, g);
    b, g := II(m, b, c, d, a, x, 9, 0xeb86d391, 21, 63, 16 * FOUR, step, g);
    s := State(a, b, c, d);
    assert s == g;
  }

  /** One run of steps after another. */
  lemma RunOn<S>(step: (nat, S) -> S, k: nat, r: S, s: S, t: S)
    requires s == Run(step, 0, k * FOUR, r) && t == Run(step, k * FOUR, FOUR, s)
    ensures t == Run(step, 0, (k + 1) * FOUR, r)
  {
    RunSplit(step, 0, k * FOUR, FOUR, r);
  }

  method AllSteps<W(!new)>(m: Machine<W>, r: State<W>, x: seq<W>, ghost step: (nat, State<W>) -> State<W>) returns (s: State<W>)
    requires |x| == 16 && Follows(step, m, x)
    ensures s == Run(step, 0, 16 * FOUR, r)
  {
    s := r;
    ghost var t;
    t := s;
    s := Steps0(m, s, x, step);
    RunOn(step, 0, r, t, s);
    t := s;
    s := Steps4(m, s, x, step);
    RunOn(step, 1, r, t, s);
    t := s;
    s := Steps8(m, s, x, step);
    RunOn(step, 2, r, t, s);
    t := s;
    s := Steps12(m, s, x, step);
    RunOn(step, 3, r, t, s);
    t := s;
    s := Steps16(m, s, x, step);
    RunOn(step, 4, r, t, s);
    t := s;
    s := Steps20(m, s, x, step);
    RunOn(step, 5, r, t, s);
    t := s;
    s := Steps24(m, s, x, step);
    RunOn(step, 6, r, t, s);
    t := s;
    s := Steps28(m, s, x, step);
    RunOn(step, 7, r, t, s);
    t := s;
    s := Steps32(m, s, x, step);
    RunOn(step, 8, r, t, s);
    t := s;
    s := Steps36(m, s, x, step);
    RunOn(step, 9, r, t, s);
    t := s;
    s := Steps40(m, s, x, step);
    RunOn(step, 10, r, t, s);
    t := s;
    s := Steps44(m, s, x, step);
    RunOn(step, 11, r, t, s);
    t := s;
    s := Steps48(m, s, x, step);
    RunOn(step, 12, r, t, s);
    t := s;
    s := Steps52(m, s, x, step);
    RunOn(step, 13, r, t, s);
    t := s;
    s := Steps56(m, s, x, step);
    RunOn(step, 14, r, t, s);
    t := s;
    s := Steps60(m, s, x, step);
    RunOn(step, 15, r, t, s);
  }

  /** The block worked into the state. */
  method Transform<W(!new)>(m: Machine<W>, r: State<W>, block: seq<byte>, ghost f: (State<W>, seq<byte>) -> State<W>) returns (s: State<W>)
    requires |block| == 64 && Computes(f, m)
    ensures s == f(r, block)
  {
    assert f(r, block) == Compress(m, r, block);
    var x := Words(m, block);
    StepperFollows(m, x);
    s := AllSteps(m, r, x, Stepper(m, x));
    s := State(m.add(r.a, s.a), m.add(r.b, s.b), m.add(r.c, s.c), m.add(r.d, s.d));
  }
}
