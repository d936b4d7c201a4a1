/** Whole runs of the test access port: scans and the debug module interface port. */
module JtagRuns {
  import opened Basics
  import opened JtagTap

  ghost predicate AllGood(ins: seq<Input>) {
    forall k | 0 <= k < |ins| :: Good(ins[k])
  }

  function Run(t: Tap, ins: seq<Input>): (u: Tap)
    requires t.Valid() && AllGood(ins)
    ensures u.Valid() && u.awidth == t.awidth
    decreases |ins|
  {
    if ins == [] then t else Run(Clock(t, ins[0]), ins[1..])
  }

  lemma {:induction false} RunConcat(t: Tap, xs: seq<Input>, ys: seq<Input>)
    requires t.Valid() && AllGood(xs) && AllGood(ys)
    ensures AllGood(xs + ys) && Run(t, xs + ys) == Run(Run(t, xs), ys)
    decreases |xs|
  {
    hide Clock;
    if xs == [] {
      assert xs + ys == ys;
    } else {
      RunConcat(Clock(t, xs[0]), xs[1..], ys);
      assert (xs + ys)[1..] == xs[1..] + ys;
    }
  }

  // ----- scans ---------------------------------------------------------------------------------

  predicate Shifting(s: State) { s == ShiftDr || s == ShiftIr }

  /** The TDO bits of a run: what the port shows while the enable is on. */
  function Tdos(t: Tap, ins: seq<Input>): (b: Bits)
    requires t.Valid() && AllGood(ins)
    decreases |ins|
  {
    if ins == [] then []
    else (if Shifting(t.state) then [t.sr[0]] else []) + Tdos(Clock(t, ins[0]), ins[1..])
  }

  /** The TDI bits sampled by the shift register during a run. */
  function Tdis(t: Tap, ins: seq<Input>): (b: Bits)
    requires t.Valid() && AllGood(ins)
    ensures |b| == |Tdos(t, ins)|
    decreases |ins|
  {
    if ins == [] then []
    else (if Shifting(t.state) then [ins[0].tdi] else []) + Tdis(Clock(t, ins[0]), ins[1..])
  }

  datatype Column = Dr | Ir

  predicate InScan(s: State, c: Column) {
    match c
    case Dr => s == ShiftDr || s == Exit1Dr || s == PauseDr || s == Exit2Dr
    case Ir => s == ShiftIr || s == Exit1Ir || s == PauseIr || s == Exit2Ir
  }

  /** Every clock of the run starts inside the scan: shifting or pausing. */
  ghost predicate Stays(t: Tap, ins: seq<Input>, c: Column)
    requires t.Valid() && AllGood(ins)
    decreases |ins|
  {
    ins == [] || (InScan(t.state, c) && Stays(Clock(t, ins[0]), ins[1..], c))
  }

  function Length(t: Tap, c: Column): (n: nat)
    ensures 1 <= n <= t.awidth + 34
  {
    match c
    case Dr => DrLength(t.awidth, t.ir)
    case Ir => 5
  }

  /** The selected register holds the last bits of the history. */
  ghost predicate Window(t: Tap, c: Column, h: Bits)
    requires t.Valid()
  {
    var n := Length(t, c);
    |h| >= n && t.sr[..n] == h[|h| - n..]
  }

  /** The history after one more clock of a scan. */
  function Grown(t: Tap, i: Input, h: Bits): Bits {
    if Shifting(t.state) then h + [i.tdi] else h
  }

  lemma ClockParts(t: Tap, i: Input)
    requires t.Valid() && Good(i)
    ensures var u := Clock(t, i);
      u.state == Next(t.state, i.tms) && u.sr == NextSr(t, i) && (u.state != UpdateIr ==> u.ir == t.ir)
  {
  }

  lemma ShiftWindow(sr: Bits, n: nat, tdi: bool, h: Bits)
    requires 1 <= n <= |sr| && n <= |h| && sr[..n] == h[|h| - n..]
    ensures Shifted(sr, n, tdi)[..n] == (h + [tdi])[|h| + 1 - n..] && sr[0] == h[|h| - n]
  {
    assert Shifted(sr, n, tdi)[..n] == sr[..n][1..] + [tdi];
    assert sr[0] == sr[..n][0];
  }

  lemma ClockInScan(t: Tap, i: Input, c: Column, h: Bits)
    requires t.Valid() && Good(i) && InScan(t.state, c) && Window(t, c, h)
    ensures var u, n, g := Clock(t, i), Length(t, c), Grown(t, i, h);
      && (InScan(u.state, c) ==> u.ir == t.ir)
      && u.sr[..n] == g[|g| - n..] && t.sr[0] == h[|h| - n]
  {
    hide Clock, Shifted, NextSr, Length, WithoutOp;
    ClockParts(t, i);
    SrInScan(t, i, c);
    ShiftWindow(t.sr, Length(t, c), i.tdi, h);
  }

  lemma SrInScan(t: Tap, i: Input, c: Column)
    requires t.Valid() && Good(i) && InScan(t.state, c)
    ensures NextSr(t, i) == if Shifting(t.state) then Shifted(t.sr, Length(t, c), i.tdi) else t.sr
  {
    hide Shifted, Captured, DrLength, WithoutOp;
  }

  lemma ScanJoin(n: nat, h: Bits, g: Bits, bit: Bits, tdis: Bits, tdos: Bits)
    requires 1 <= n <= |h| && |tdos| == |tdis|
    requires |bit| <= 1 && g == h + bit
    requires tdos == (g + tdis)[|g| - n..|g| - n + |tdos|]
    ensures |bit| == 0 ==> tdos == (h + (bit + tdis))[|h| - n..|h| - n + |tdos|]
    ensures |bit| == 1 ==> [h[|h| - n]] + tdos == (h + (bit + tdis))[|h| - n..|h| - n + |tdos| + 1]
    ensures g + tdis == h + (bit + tdis)
  {
  }

  /** One clock inside a scan extends the history and keeps the rest of the run in
      the scan. */
  lemma ScanClock(t: Tap, ins: seq<Input>, c: Column, h: Bits)
    requires t.Valid() && AllGood(ins) && ins != [] && Stays(t, ins, c) && Window(t, c, h)
    ensures var u, g := Clock(t, ins[0]), Grown(t, ins[0], h);
      && t.sr[0] == h[|h| - Length(t, c)] && Stays(u, ins[1..], c)
      && (ins[1..] != [] ==> Window(u, c, g) && Length(u, c) == Length(t, c))
  {
    hide Clock, Length, InScan, NextSr, WithoutOp;
    var u := Clock(t, ins[0]);
    Unfold(t, ins, c);
    ClockInScan(t, ins[0], c, h);
    if ins[1..] != [] {
      Unfold(u, ins[1..], c);
      SameLength(t, u, c);
    }
  }

  /** Through any mixture of shifting and pausing, TDO delivers the history in
      order while TDI extends it. */
  lemma {:induction false} ScanShifts(t: Tap, ins: seq<Input>, c: Column, h: Bits)
    requires t.Valid() && AllGood(ins) && Stays(t, ins, c) && Window(t, c, h)
    ensures Tdos(t, ins) == (h + Tdis(t, ins))[|h| - Length(t, c)..|h| - Length(t, c) + |Tdos(t, ins)|]
    decreases |ins|
  {
    hide Clock, Length, Run, Tdos, Tdis, Stays, InScan, NextSr, WithoutOp;
    Unfold(t, ins, c);
    if ins != [] {
      var n, u, rest, g := Length(t, c), Clock(t, ins[0]), ins[1..], Grown(t, ins[0], h);
      ScanClock(t, ins, c, h);
      var bit, tdis, tdos := if Shifting(t.state) then [ins[0].tdi] else [], Tdis(u, rest), Tdos(u, rest);
      if rest != [] {
        ScanShifts(u, rest, c, g);
      } else {
        Unfold(u, rest, c);
      }
      assert g == h + bit;
      ScanJoin(n, h, g, bit, tdis, tdos);
    }
  }

  lemma SameLength(t: Tap, u: Tap, c: Column)
    requires t.awidth == u.awidth && t.ir == u.ir
    ensures Length(t, c) == Length(u, c)
  {
  }

  lemma Unfold(t: Tap, ins: seq<Input>, c: Column)
    requires t.Valid() && AllGood(ins)
    ensures ins == [] ==> Run(t, ins) == t && Tdos(t, ins) == Tdis(t, ins) == []
    ensures ins != [] ==>
      var u, rest := Clock(t, ins[0]), ins[1..];
      && Run(t, ins) == Run(u, rest)
      && (Stays(t, ins, c) <==> InScan(t.state, c) && Stays(u, rest, c))
      && Tdos(t, ins) == (if Shifting(t.state) then [t.sr[0]] else []) + Tdos(u, rest)
      && Tdis(t, ins) == (if Shifting(t.state) then [ins[0].tdi] else []) + Tdis(u, rest)
  {
  }

  /** A scan that starts in Capture: the k-th TDO bit is bit k of the captured
      value for k below the register length, and after that the TDI bit sampled
      that many shifts earlier, however often the scan pauses. */
  lemma ScanOut(t: Tap, i: Input, ins: seq<Input>, c: Column, k: nat)
    requires t.Valid() && Good(i) && AllGood(ins)
    requires t.state == match c case Dr => CaptureDr case Ir => CaptureIr
    requires Stays(Clock(t, i), ins, c) && k < |Tdos(Clock(t, i), ins)|
    ensures var u, n := Clock(t, i), Length(t, c);
      var captured := match c
        case Dr => Captured(t.awidth, t.ir, t.sr, i.rdData)
        case Ir => [true] + Zeros(t.awidth + 33);
      && |Tdis(u, ins)| == |Tdos(u, ins)|
      && Tdos(u, ins)[k] == if k < n then captured[k] else Tdis(u, ins)[k - n]
  {
    hide Clock, Captured, Length, Stays, Tdos, Tdis, Shifted;
    var u, n := Clock(t, i), Length(t, c);
    ClockParts(t, i);
    SameLength(t, u, c);
    var h := u.sr[..n];
    ScanShifts(u, ins, c, h);
    BitOf(h, Tdis(u, ins), Tdos(u, ins), k);
    assert h[..n] == h;
  }

  lemma BitOf(h: Bits, tdis: Bits, tdos: Bits, k: nat)
    requires |tdos| == |tdis| && k < |tdos| && tdos == (h + tdis)[0..|tdos|]
    ensures tdos[k] == if k < |h| then h[k] else tdis[k - |h|]
  {
  }

  // ----- the debug module interface port -------------------------------------------------------

  /** In every reachable state: the operation bits are set for one clock only, the
      one behind an Update-DR of the dmi register, and address and data change
      only then; they are what the scan left in the shift register. */
  lemma PortsFollowUpdate(t: Tap, i: Input)
    requires t.Valid() && Good(i)
    ensures var u := Clock(t, i);
      if t.state == UpdateDr && t.ir == DR_EN_1 then u.dr == t.sr
      else !u.dr[0] && !u.dr[1] && u.dr[2..] == t.dr[2..]
  {
  }

  /** Two clocks behind that Update-DR the operation bits are clear again, and the
      address and data stay. */
  lemma OperationLastsOneClock(t: Tap, i: Input, j: Input)
    requires t.Valid() && Good(i) && Good(j) && t.state == UpdateDr && t.ir == DR_EN_1
    ensures var u := Clock(t, i); var w := Clock(u, j);
      u.dr == t.sr && !w.dr[0] && !w.dr[1] && w.dr[2..] == u.dr[2..]
  {
    var u := Clock(t, i);
    PortsFollowUpdate(t, i);
    PortsFollowUpdate(u, j);
  }

  // ----- the controller ----------------------------------------------------------------------------

  /** The TMS levels of a run. */
  function Tms(ins: seq<Input>): (w: seq<bool>)
    ensures |w| == |ins|
  {
    seq(|ins|, k requires 0 <= k < |ins| => ins[k].tms)
  }

  /** Where a word of TMS levels leads. */
  function Walk(s: State, w: seq<bool>): State
    decreases |w|
  {
    if w == [] then s else Walk(Next(s, w[0]), w[1..])
  }

  lemma {:induction false} RunState(t: Tap, ins: seq<Input>)
    requires t.Valid() && AllGood(ins)
    ensures Run(t, ins).state == Walk(t.state, Tms(ins))
    decreases |ins|
  {
    hide Clock;
    if ins != [] {
      ClockParts(t, ins[0]);
      RunState(Clock(t, ins[0]), ins[1..]);
      assert Tms(ins)[1..] == Tms(ins[1..]);
    }
  }

  lemma {:induction false} WalkConcat(s: State, v: seq<bool>, w: seq<bool>)
    ensures Walk(s, v + w) == Walk(Walk(s, v), w)
    decreases |v|
  {
    if v == [] {
      assert v + w == w;
    } else {
      WalkConcat(Next(s, v[0]), v[1..], w);
      assert (v + w)[1..] == v[1..] + w;
    }
  }

  function Repeated(level: bool, n: nat): (w: seq<bool>)
    ensures |w| == n
  {
    seq(n, _ => level)
  }

  /** How many high TMS clocks away Test-Logic-Reset is. */
  function Distance(s: State): (d: nat)
    ensures d <= 5 && (d == 0 <==> s == TestLogicReset)
  {
    match s
    case TestLogicReset => 0
    case SelectIr => 1
    case SelectDr => 2
    case RunTestIdle | UpdateDr | UpdateIr => 3
    case Exit1Dr | Exit2Dr | Exit1Ir | Exit2Ir => 4
    case CaptureDr | ShiftDr | PauseDr | CaptureIr | ShiftIr | PauseIr => 5
  }

  lemma {:induction false} OnesReset(s: State, n: nat)
    requires n >= Distance(s)
    ensures Walk(s, Repeated(true, n)) == TestLogicReset
    decreases n
  {
    if n > 0 {
      OnesReset(Next(s, true), n - 1);
      assert Repeated(true, n)[1..] == Repeated(true, n - 1);
    }
  }

  /** Five clocks with TMS high reset the controller from everywhere. */
  lemma FiveOnesReset(t: Tap, ins: seq<Input>)
    requires t.Valid() && AllGood(ins) && |ins| == 5 && forall k | 0 <= k < 5 :: ins[k].tms
    ensures Run(t, ins).state == TestLogicReset
  {
    RunState(t, ins);
    OnesReset(t.state, 5);
    assert Tms(ins) == Repeated(true, 5);
  }

  /** The states in which the controller rests as long as TMS does not change. */
  lemma {:induction false} Rests(s: State, level: bool, n: nat)
    requires (s == TestLogicReset && level) || (s in {RunTestIdle, ShiftDr, PauseDr, ShiftIr, PauseIr} && !level)
    ensures Walk(s, Repeated(level, n)) == s
    decreases n
  {
    if n > 0 {
      Rests(s, level, n - 1);
      assert Repeated(level, n)[1..] == Repeated(level, n - 1);
    }
  }

  /** From everywhere, five highs and any number of lows lead to Run-Test/Idle; from
      there three clocks lead to Shift-DR and four to Shift-IR. */
  lemma Entries(s: State, n: nat)
    requires n > 0
    ensures Walk(s, Repeated(true, 5) + Repeated(false, n)) == RunTestIdle
    ensures Walk(RunTestIdle, [true, false, false]) == ShiftDr
    ensures Walk(RunTestIdle, [true, true, false, false]) == ShiftIr
    ensures Walk(RunTestIdle, [true, true, true]) == TestLogicReset
  {
    OnesReset(s, 5);
    WalkConcat(s, Repeated(true, 5), Repeated(false, n));
    assert Repeated(false, n) == [false] + Repeated(false, n - 1);
    WalkConcat(TestLogicReset, [false], Repeated(false, n - 1));
    One(TestLogicReset, false);
    Rests(RunTestIdle, false, n - 1);
    Few(RunTestIdle, true, false, false, false);
    Few(RunTestIdle, true, true, false, false);
    Few(RunTestIdle, true, true, true, false);
  }

  lemma One(s: State, a: bool)
    ensures Walk(s, [a]) == Next(s, a)
  {
    assert [a][1..] == [];
  }

  lemma Few(s: State, a: bool, b: bool, c: bool, d: bool)
    ensures Walk(s, [a, b]) == Next(Next(s, a), b)
    ensures Walk(s, [a, b, c]) == Next(Next(Next(s, a), b), c)
    ensures Walk(s, [a, b, c, d]) == Next(Next(Next(Next(s, a), b), c), d)
  {
    hide Next, Walk;
    One(s, a);
    One(Next(s, a), b);
    One(Next(Next(s, a), b), c);
    One(Next(Next(Next(s, a), b), c), d);
    WalkConcat(s, [a], [b]);
    WalkConcat(s, [a, b], [c]);
    WalkConcat(s, [a, b, c], [d]);
    assert [a] + [b] == [a, b] && [a, b] + [c] == [a, b, c] && [a, b, c] + [d] == [a, b, c, d];
  }

  /** A scan in either column may pause for any time and go on or end. */
  lemma PausePaths(dr: bool, n: nat)
    ensures var shift, pause := if dr then ShiftDr else ShiftIr, if dr then PauseDr else PauseIr;
      && Walk(shift, [true, false] + Repeated(false, n)) == pause
      && Walk(shift, [true, false] + Repeated(false, n) + [true, false]) == shift
      && Walk(shift, [true, false] + Repeated(false, n) + [true, true]) == if dr then UpdateDr else UpdateIr
  {
    hide Walk, Repeated;
    var shift, pause := if dr then ShiftDr else ShiftIr, if dr then PauseDr else PauseIr;
    WalkConcat(shift, [true, false], Repeated(false, n));
    Few(shift, true, false, false, false);
    Rests(pause, false, n);
    WalkConcat(shift, [true, false] + Repeated(false, n), [true, false]);
    WalkConcat(shift, [true, false] + Repeated(false, n), [true, true]);
    Few(pause, true, false, false, false);
    Few(pause, true, true, false, false);
  }

  /** It may also end at once or be skipped; behind its update comes Run-Test/Idle or
      the next scan. */
  lemma EndPaths(dr: bool)
    ensures var capture, update := if dr then CaptureDr else CaptureIr, if dr then UpdateDr else UpdateIr;
      && Walk(if dr then ShiftDr else ShiftIr, [true, true]) == update
      && Walk(capture, [false]) == (if dr then ShiftDr else ShiftIr)
      && Walk(capture, [true, false]) == (if dr then PauseDr else PauseIr) && Walk(capture, [true, true]) == update
      && Walk(update, [true]) == SelectDr && Walk(update, [false]) == RunTestIdle
  {
    hide Walk;
    var capture, update := if dr then CaptureDr else CaptureIr, if dr then UpdateDr else UpdateIr;
    Few(if dr then ShiftDr else ShiftIr, true, true, false, false);
    One(capture, false);
    Few(capture, true, false, false, false);
    Few(capture, true, true, false, false);
    One(update, true);
    One(update, false);
  }

  // ----- pausing --------------------------------------------------------------------------------------

  /** Clocks outside the capture and shift states leave the shift register and, outside
      Update-IR, the instruction. */
  lemma {:induction false} PauseKeeps(t: Tap, ins: seq<Input>, c: Column)
    requires t.Valid() && AllGood(ins) && t.state == (if c == Dr then PauseDr else PauseIr)
    requires forall k | 0 <= k < |ins| :: !ins[k].tms
    ensures var u := Run(t, ins); u.state == t.state && u.sr == t.sr && u.ir == t.ir
    decreases |ins|
  {
    hide Clock, Shifted, Captured;
    if ins != [] {
      ClockParts(t, ins[0]);
      PauseKeeps(Clock(t, ins[0]), ins[1..], c);
    }
  }

  /** A pause of any length in a scan costs the shift on the way out and nothing else. */
  lemma PauseDetour(t: Tap, out: seq<Input>, pause: seq<Input>, back: seq<Input>, c: Column)
    requires t.Valid() && t.state == (if c == Dr then ShiftDr else ShiftIr)
    requires AllGood(out) && AllGood(pause) && AllGood(back) && |out| == |back| == 2
    requires out[0].tms && !out[1].tms && back[0].tms && !back[1].tms && forall k | 0 <= k < |pause| :: !pause[k].tms
    ensures AllGood(out + pause + back)
    ensures var u := Run(t, out + pause + back);
      u.state == t.state && u.ir == t.ir && u.sr == Shifted(t.sr, Length(t, c), out[0].tdi)
  {
    hide Clock, Shifted, Captured, Run, Length;
    RunConcat(t, out + pause, back);
    RunConcat(t, out, pause);
    var a := Run(t, out);
    TwoClocks(t, out);
    ClockParts(t, out[0]);
    ClockParts(Clock(t, out[0]), out[1]);
    SrInScan(t, out[0], c);
    PauseKeeps(a, pause, c);
    var b := Run(a, pause);
    TwoClocks(b, back);
    ClockParts(b, back[0]);
    ClockParts(Clock(b, back[0]), back[1]);
  }

  lemma TwoClocks(t: Tap, ins: seq<Input>)
    requires t.Valid() && |ins| == 2 && AllGood(ins)
    ensures Run(t, ins) == Clock(Clock(t, ins[0]), ins[1])
  {
    hide Clock;
    var u := Clock(t, ins[0]);
    assert Run(t, ins) == Run(u, ins[1..]) && Run(u, ins[1..]) == Run(Clock(u, ins[1]), ins[1..][1..]);
  }

  // ----- captured values ---------------------------------------------------------------------------------

  /** The number that a register holds. */
  function Number(b: Bits): nat
    decreases |b|
  {
    if b == [] then 0 else (if b[0] then 1 else 0) + 2 * Number(b[1..])
  }

  lemma {:induction false} NumberZeros(b: Bits, n: nat)
    ensures Number(b + Zeros(n)) == Number(b)
    decreases |b| + n
  {
    if b != [] {
      NumberZeros(b[1..], n);
      assert (b + Zeros(n))[1..] == b[1..] + Zeros(n);
    } else if n > 0 {
      NumberZeros([], n - 1);
      assert ([] + Zeros(n))[1..] == [] + Zeros(n - 1);
    }
  }

  /** dtmcs reads as version 1 with 7 address bits, the device identification as 1, the
      dmi register as its read data above a status of 0, and the instruction as 1; every
      other instruction selects a bypass bit of 0. */
  lemma CapturedNumbers(t: Tap, i: Input)
    requires t.Valid() && Good(i)
    ensures t.state == CaptureDr && Number(t.ir) == 0x10 ==> Number(Clock(t, i).sr) == 0x71
    ensures t.state == CaptureDr && Number(t.ir) == 0x01 ==> Number(Clock(t, i).sr) == 1
    ensures t.state == CaptureDr && Number(t.ir) == 0x11 ==> Number(Clock(t, i).sr) == 4 * Number(i.rdData)
    ensures t.state == CaptureDr && Number(t.ir) !in {0x10, 0x01, 0x11} ==> !Clock(t, i).sr[0]
    ensures t.state == CaptureIr ==> Number(Clock(t, i).sr) == 1
  {
    hide Clock, Number, Captured;
    ClockParts(t, i);
    InstructionNumber(t.ir);
    NextNumbers(t, i);
  }

  lemma InstructionNumber(ir: Bits)
    requires |ir| == 5
    ensures (Number(ir) == 0x10 <==> ir == DR_EN_0) && (Number(ir) == 0x01 <==> ir == DEVICE_ID_SEL)
    ensures Number(ir) == 0x11 <==> ir == DR_EN_1
  {
    hide Number;
    FiveBits(false, false, false, false, true);
    FiveBits(true, false, false, false, false);
    FiveBits(true, false, false, false, true);
    NumberInjective(ir, DR_EN_0);
    NumberInjective(ir, DEVICE_ID_SEL);
    NumberInjective(ir, DR_EN_1);
  }

  lemma FiveBits(a: bool, b: bool, c: bool, d: bool, e: bool)
    ensures Number([a, b, c, d, e])
      == (if a then 1 else 0) + (if b then 2 else 0) + (if c then 4 else 0) + (if d then 8 else 0)
         + (if e then 16 else 0)
  {
    assert [a, b, c, d, e][1..] == [b, c, d, e] && [b, c, d, e][1..] == [c, d, e] && [c, d, e][1..] == [d, e];
    assert [d, e][1..] == [e] && [e][1..] == [];
    assert Number([e]) == (if e then 1 else 0);
    assert Number([d, e]) == (if d then 1 else 0) + 2 * Number([e]);
    assert Number([c, d, e]) == (if c then 1 else 0) + 2 * Number([d, e]);
    assert Number([b, c, d, e]) == (if b then 1 else 0) + 2 * Number([c, d, e]);
  }

  lemma {:induction false} NumberInjective(x: Bits, y: Bits)
    requires |x| == |y|
    ensures Number(x) == Number(y) ==> x == y
    decreases |x|
  {
    if x != [] && Number(x) == Number(y) {
      NumberInjective(x[1..], y[1..]);
      assert x == [x[0]] + x[1..] && y == [y[0]] + y[1..];
    }
  }

  lemma NextNumbers(t: Tap, i: Input)
    requires t.Valid() && Good(i)
    ensures t.state == CaptureIr ==> Number(NextSr(t, i)) == 1
    ensures t.state == CaptureDr ==>
      && (t.ir == DR_EN_0 ==> Number(NextSr(t, i)) == 0x71)
      && (t.ir == DEVICE_ID_SEL ==> Number(NextSr(t, i)) == 1)
      && (t.ir == DR_EN_1 ==> Number(NextSr(t, i)) == 4 * Number(i.rdData))
      && (t.ir !in {DR_EN_0, DEVICE_ID_SEL, DR_EN_1} ==> !NextSr(t, i)[0])
  {
    hide Number, Shifted;
    NumberZeros([true], t.awidth + 33);
    NumberZeros([true, false, false, false, true, true, true], t.awidth + 27);
    NumberZeros([false, false] + i.rdData, t.awidth);
    SmallNumbers(i.rdData);
    InstructionNumber(t.ir);
  }

  lemma SmallNumbers(b: Bits)
    ensures Number([true]) == 1 && Number([true, false, false, false, true, true, true]) == 0x71
    ensures Number([false, false] + b) == 4 * Number(b)
  {
    assert [true][1..] == [];
    var x := [true, false, false, false, true, true, true];
    assert x[1..][1..] == x[2..] && x[2..][1..] == x[3..] && x[3..][1..] == x[4..];
    assert x[4..] == [true, true, true] && [true, true, true][1..] == [true, true] && [true, true][1..] == [true];
    assert Number([true, true]) == 3 && Number([true, true, true]) == 7;
    assert Number(x[3..]) == 14 && Number(x[2..]) == 28 && Number(x[1..]) == 56;
    var y := [false, false] + b;
    assert y[1..][1..] == b && y[1..] == [false] + b;
  }

  /** A constructed predictor is in reset, with the device identification selected and all
      registers 0. */
  lemma InitialNumbers(awidth: nat)
    ensures var t := Initial(awidth);
      t.state == TestLogicReset && Number(t.ir) == 1 && Number(t.sr) == Number(t.dr) == Number(t.ndr) == 0
  {
    hide Number;
    FiveBits(true, false, false, false, false);
    NumberZeros([], awidth + 34);
    assert [] + Zeros(awidth + 34) == Zeros(awidth + 34);
    NoBits();
  }

  lemma NoBits()
    ensures Number([]) == 0
  {
  }
}
