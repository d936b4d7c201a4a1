/** The stimulus sequences of the debug testbench, run against the predictor. */
module JtagSequences {
  import opened Basics
  import opened JtagTap
  import opened JtagRuns

  /** A sequence item: the TMS and TDI levels of one clock. */
  datatype Item = Item(tms: bool, tdi: bool)

  /** The inputs drive these items; read data may be anything. */
  ghost predicate Drives(ins: seq<Input>, items: seq<Item>) {
    && |ins| == |items| && AllGood(ins)
    && forall k | 0 <= k < |ins| :: ins[k].tms == items[k].tms && ins[k].tdi == items[k].tdi
  }

  // ----- the sequences ------------------------------------------------------------------------

  /** SetIRSequence: the five low bits of the instruction, lowest first. */
  function SetIrItems(k: Bits): (items: seq<Item>)
    requires |k| == 5
  {
    [Item(true, false), Item(true, false), Item(false, false), Item(false, false)]
    + ScanItems(k)
    + [Item(true, false), Item(false, false), Item(false, false), Item(false, false)]
  }

  /** Bits to shift, leaving the shift state together with the last one. */
  function ScanItems(bits: Bits): (items: seq<Item>)
    ensures |items| == |bits|
  {
    seq(|bits|, i requires 0 <= i < |bits| => Item(i == |bits| - 1, bits[i]))
  }

  /** What AccessDMIRegSequence shifts in: read, write, data, address. */
  function DmiBits(addr: Bits, data: Bits, write: bool): Bits {
    [true, write] + data + addr
  }

  function AccessItems(addr: Bits, data: Bits, write: bool): (items: seq<Item>)
  {
    [Item(true, false), Item(false, false), Item(false, false)]
    + ScanItems(DmiBits(addr, data, write))
    + [Item(true, false), Item(false, false), Item(false, false), Item(false, false)]
  }

  /** AccessDMIRegSequence.body builds its item list in two loops. */
  method AccessBody(addr: Bits, data: Bits, write: bool) returns (items: seq<Item>)
    requires addr != []
    ensures items == AccessItems(addr, data, write)
  {
    var dataItems: seq<Item>, addrItems: seq<Item> := [], [];
    for i := 0 to |data|
      invariant |dataItems| == i && forall k | 0 <= k < i :: dataItems[k] == Item(false, data[k])
    {
      dataItems := dataItems + [Item(false, data[i])];
    }
    for i := 0 to |addr|
      invariant |addrItems| == i && forall k | 0 <= k < i :: addrItems[k] == Item(k == |addr| - 1, addr[k])
    {
      addrItems := addrItems + [Item(i == |addr| - 1, addr[i])];
    }
    items := [Item(true, false), Item(false, false), Item(false, false), Item(false, true), Item(false, write)];
    items := items + dataItems;
    items := items + addrItems;
    items := items + [Item(true, false), Item(false, false), Item(false, false), Item(false, false)];
    assert [Item(false, true), Item(false, write)] + dataItems + addrItems == ScanItems(DmiBits(addr, data, write));
    assert items == AccessItems(addr, data, write);
  }

  // ----- running them --------------------------------------------------------------------------

  function ShiftState(c: Column): State { match c case Dr => ShiftDr case Ir => ShiftIr }
  function ExitState(c: Column): State { match c case Dr => Exit1Dr case Ir => Exit1Ir }

  lemma ShiftClock(t: Tap, i: Input, c: Column, h: Bits)
    requires t.Valid() && Good(i) && Window(t, c, h) && t.state == ShiftState(c)
    ensures var u := Clock(t, i);
      && u.state == (if i.tms then ExitState(c) else ShiftState(c))
      && u.ir == t.ir && Window(u, c, h + [i.tdi])
  {
    hide Clock, Length, NextSr;
    var u := Clock(t, i);
    ClockParts(t, i);
    ClockInScan(t, i, c, h);
    SameLength(t, u, c);
  }

  /** Shifting bits and leaving with the last one: the register ends up with the
      last bits of what it held followed by what was shifted in. */
  lemma {:induction false} ShiftAll(t: Tap, ins: seq<Input>, c: Column, bits: Bits, h: Bits)
    requires t.Valid() && bits != [] && Drives(ins, ScanItems(bits)) && Window(t, c, h) && t.state == ShiftState(c)
    ensures var u := Run(t, ins); u.state == ExitState(c) && u.ir == t.ir && Window(u, c, h + bits)
    decreases |bits|
  {
    hide Clock, Run, Window, ShiftState, ExitState, Drives, ScanItems, NextSr, WithoutOp, Length;
    FirstItem(ins, bits);
    var u, rest := Clock(t, ins[0]), ins[1..];
    ShiftClock(t, ins[0], c, h);
    RunOne(t, ins);
    if |bits| == 1 {
      assert bits == [ins[0].tdi];
    } else {
      ShiftAll(u, rest, c, bits[1..], h + [ins[0].tdi]);
      assert h + [ins[0].tdi] + bits[1..] == h + bits;
    }
  }

  lemma FirstItem(ins: seq<Input>, bits: Bits)
    requires bits != [] && Drives(ins, ScanItems(bits))
    ensures |ins| == |bits| && AllGood(ins) && ins[0].tdi == bits[0] && (ins[0].tms <==> |bits| == 1)
    ensures |bits| > 1 ==> Drives(ins[1..], ScanItems(bits[1..]))
  {
  }

  lemma RunOne(t: Tap, ins: seq<Input>)
    requires t.Valid() && AllGood(ins) && ins != []
    ensures Run(t, ins) == Run(Clock(t, ins[0]), ins[1..])
    ensures |ins| == 1 ==> Run(t, ins) == Clock(t, ins[0])
  {
    hide Clock;
  }

  /** The four clocks behind a scan: Update, then idle. */
  lemma Leave(t: Tap, ins: seq<Input>)
    requires t.Valid() && (t.state == Exit1Dr || t.state == Exit1Ir)
    requires Drives(ins, [Item(true, false), Item(false, false), Item(false, false), Item(false, false)])
    ensures var a := Clock(t, ins[0]); var b := Clock(a, ins[1]); var c := Clock(b, ins[2]);
      Run(t, ins[..2]) == b && Run(t, ins) == Clock(c, ins[3])
  {
    hide Clock;
    var a := Clock(t, ins[0]);
    var b := Clock(a, ins[1]);
    var c := Clock(b, ins[2]);
    RunOne(t, ins[..2]);
    RunOne(a, ins[..2][1..]);
    FourClocks(t, ins);
  }

  lemma FourClocks(t: Tap, ins: seq<Input>)
    requires t.Valid() && |ins| == 4 && AllGood(ins)
    ensures Run(t, ins) == Clock(Clock(Clock(Clock(t, ins[0]), ins[1]), ins[2]), ins[3])
  {
    hide Clock, Run;
    var a := Clock(t, ins[0]);
    var b := Clock(a, ins[1]);
    RunOne(t, ins);
    RunOne(a, ins[1..]);
    RunOne(b, ins[1..][1..]);
    RunOne(Clock(b, ins[2]), ins[1..][1..][1..]);
  }

  lemma CaptureClock(t: Tap, i: Input)
    requires t.Valid() && Good(i)
    ensures t.state == CaptureIr ==> NextSr(t, i) == [true] + Zeros(t.awidth + 33)
    ensures t.state == CaptureDr ==> NextSr(t, i) == Captured(t.awidth, t.ir, t.sr, i.rdData)
  {
    hide Captured, Shifted, WithoutOp;
  }

  lemma SameShift(t: Tap, i: Input)
    requires t.Valid() && Good(i) && t.state in {RunTestIdle, SelectDr, Exit1Dr}
    ensures NextSr(t, i) == t.sr
  {
  }

  /** From Run-Test/Idle to the first shift clock. */
  lemma EnterDr(t: Tap, ins: seq<Input>)
    requires t.Valid() && t.state == RunTestIdle && |t.ir| == 5
    requires Drives(ins, [Item(true, false), Item(false, false), Item(false, false)])
    ensures var u := Run(t, ins);
      u.state == ShiftDr && u.ir == t.ir && u.sr == Captured(t.awidth, t.ir, t.sr, ins[2].rdData)
  {
    hide Clock, Captured, Shifted, NextSr, WithoutOp;
    var a := Clock(t, ins[0]);
    var b := Clock(a, ins[1]);
    ClockParts(t, ins[0]);
    ClockParts(a, ins[1]);
    ClockParts(b, ins[2]);
    CaptureClock(b, ins[2]);
    SameShift(t, ins[0]);
    SameShift(a, ins[1]);
    RunOne(t, ins);
    RunOne(a, ins[1..]);
    RunOne(b, ins[1..][1..]);
  }

  lemma EnterIr(t: Tap, ins: seq<Input>)
    requires t.Valid() && t.state == RunTestIdle
    requires Drives(ins, [Item(true, false), Item(true, false), Item(false, false), Item(false, false)])
    ensures var u := Run(t, ins); u.state == ShiftIr && u.ir == t.ir && u.sr == [true] + Zeros(t.awidth + 33)
  {
    hide Clock, Captured, Shifted, NextSr, WithoutOp;
    var a := Clock(t, ins[0]);
    var b := Clock(a, ins[1]);
    var c := Clock(b, ins[2]);
    ClockParts(t, ins[0]);
    ClockParts(a, ins[1]);
    ClockParts(b, ins[2]);
    ClockParts(c, ins[3]);
    CaptureClock(c, ins[3]);
    FourClocks(t, ins);
  }

  /** SetIRSequence(k) from Run-Test/Idle leaves the instruction k, or all ones
      when k is 0, and returns to Run-Test/Idle. */
  lemma SetIr(t: Tap, ins: seq<Input>, k: Bits)
    requires t.Valid() && t.state == RunTestIdle && |k| == 5 && Drives(ins, SetIrItems(k))
    ensures |ins| == 13
    ensures var u := Run(t, ins);
      u.state == RunTestIdle && u.ir == if k == ALL_ZEROS then ALL_ONES else k
  {
    hide Run, Clock, Window;
    var enter, scan, leave := ins[..4], ins[4..9], ins[9..];
    assert ins == enter + scan + leave;
    assert Drives(scan, ScanItems(k));
    RunConcat(t, enter + scan, leave);
    RunConcat(t, enter, scan);
    EnterIr(t, enter);
    var u := Run(t, enter);
    HistoryStarts(u, Ir);
    ShiftAll(u, scan, Ir, k, u.sr[..5]);
    var w := Run(u, scan);
    WindowIr(w, u.sr[..5], k);
    Leave(w, leave);
    UpdatesIr(w, leave);
  }

  /** The same in numbers. */
  lemma SetIrNumber(t: Tap, ins: seq<Input>, k: Bits)
    requires t.Valid() && t.state == RunTestIdle && |k| == 5 && Drives(ins, SetIrItems(k))
    ensures Number(Run(t, ins).ir) == if Number(k) == 0 then 0x1f else Number(k)
  {
    hide Run, Number, SetIrItems;
    SetIr(t, ins, k);
    FiveBits(false, false, false, false, false);
    FiveBits(true, true, true, true, true);
    NumberInjective(k, ALL_ZEROS);
  }

  lemma HistoryStarts(t: Tap, c: Column)
    requires t.Valid()
    ensures Window(t, c, t.sr[..Length(t, c)])
  {
  }

  lemma WindowIr(t: Tap, h: Bits, k: Bits)
    requires t.Valid() && |h| == |k| == 5 && Window(t, Ir, h + k)
    ensures t.sr[..5] == k
  {
  }

  lemma LoadsIr(t: Tap, i: Input)
    requires t.Valid() && t.state == Exit1Ir && Good(i) && i.tms
    ensures var u := Clock(t, i);
      u.state == UpdateIr && u.ir == if t.sr[..5] == ALL_ZEROS then ALL_ONES else t.sr[..5]
  {
  }

  lemma UpdatesIr(t: Tap, ins: seq<Input>)
    requires t.Valid() && t.state == Exit1Ir
    requires Drives(ins, [Item(true, false), Item(false, false), Item(false, false), Item(false, false)])
    ensures var d := Clock(Clock(Clock(Clock(t, ins[0]), ins[1]), ins[2]), ins[3]);
      d.state == RunTestIdle && d.ir == if t.sr[..5] == ALL_ZEROS then ALL_ONES else t.sr[..5]
  {
    hide Clock, NextSr, WithoutOp;
    var a := Clock(t, ins[0]);
    LoadsIr(t, ins[0]);
    var b := Clock(a, ins[1]);
    ClockParts(a, ins[1]);
    IdleClock(b, ins[2]);
    IdleClock(Clock(b, ins[2]), ins[3]);
  }

  /** What the dmi register holds once `bits` have been shifted into it. */
  function DmiRegister(awidth: nat, rdData: Bits, bits: Bits): (r: Bits)
    requires |rdData| == 32
    ensures |r| == awidth + 34
  {
    ([false, false] + rdData + Zeros(awidth) + bits)[|bits|..]
  }

  /** AccessDMIRegSequence with the dmi register selected: the clock that returns to
      Run-Test/Idle presents the shifted register on the port, and the next clocks
      clear the operation bits and keep the rest. */
  lemma Access(t: Tap, ins: seq<Input>, addr: Bits, data: Bits, write: bool)
    requires t.Valid() && t.state == RunTestIdle && t.ir == DR_EN_1 && Drives(ins, AccessItems(addr, data, write))
    ensures var bits, n := DmiBits(addr, data, write), |ins|;
      && n == |bits| + 7 && AllGood(ins[..n - 2])
      && var shown, after := Run(t, ins[..n - 2]), Run(t, ins);
        && shown.state == after.state == RunTestIdle && after.ir == DR_EN_1
        && shown.dr == DmiRegister(t.awidth, ins[2].rdData, bits) && after.dr == WithoutOp(shown.dr)
  {
    hide Run, Clock, Window, DmiBits, Captured, WithoutOp, DmiRegister;
    var bits, n := DmiBits(addr, data, write), |ins|;
    assert bits != [] by { NonEmpty(addr, data, write); }
    var enter, scan, leave := ins[..3], ins[3..n - 4], ins[n - 4..];
    assert Drives(scan, ScanItems(bits));
    assert Drives(leave, [Item(true, false), Item(false, false), Item(false, false), Item(false, false)]);
    assert Drives(enter, [Item(true, false), Item(false, false), Item(false, false)]);
    assert ins == enter + scan + leave;
    assert ins[..n - 2] == enter + scan + leave[..2];
    RunConcat(t, enter + scan, leave);
    RunConcat(t, enter + scan, leave[..2]);
    RunConcat(t, enter, scan);
    EnterDr(t, enter);
    var u := Run(t, enter);
    assert Length(u, Dr) == t.awidth + 34 && u.sr[..t.awidth + 34] == u.sr;
    HistoryStarts(u, Dr);
    ShiftAll(u, scan, Dr, bits, u.sr);
    var w := Run(u, scan);
    WindowDmi(w, ins[2].rdData, u.sr, bits, t.sr);
    Leave(w, leave);
    UpdatesDr(w, leave);
  }

  lemma NonEmpty(addr: Bits, data: Bits, write: bool)
    ensures |DmiBits(addr, data, write)| == 2 + |data| + |addr|
  {
  }

  lemma WindowDmi(t: Tap, rdData: Bits, h: Bits, bits: Bits, sr: Bits)
    requires t.Valid() && t.ir == DR_EN_1 && |rdData| == 32 && |sr| == t.awidth + 34
    requires h == Captured(t.awidth, DR_EN_1, sr, rdData) && Window(t, Dr, h + bits)
    ensures t.sr == DmiRegister(t.awidth, rdData, bits)
  {
    assert t.sr[..t.awidth + 34] == t.sr;
  }

  lemma UpdatesDr(t: Tap, ins: seq<Input>)
    requires t.Valid() && t.state == Exit1Dr && t.ir == DR_EN_1
    requires Drives(ins, [Item(true, false), Item(false, false), Item(false, false), Item(false, false)])
    ensures var b := Clock(Clock(t, ins[0]), ins[1]); var d := Clock(Clock(b, ins[2]), ins[3]);
      && b.state == d.state == RunTestIdle && d.ir == DR_EN_1
      && b.dr == t.sr && d.dr == WithoutOp(b.dr)
  {
    hide Clock, NextSr, WithoutOp, Next;
    var b := Clock(Clock(t, ins[0]), ins[1]);
    UpdateClock(t, ins[0], ins[1]);
    IdleClock(b, ins[2]);
    IdleClock(Clock(b, ins[2]), ins[3]);
    ClearedTwice(b.dr);
  }

  lemma UpdateClock(t: Tap, i: Input, j: Input)
    requires t.Valid() && t.state == Exit1Dr && t.ir == DR_EN_1 && Good(i) && Good(j) && i.tms && !j.tms
    ensures var b := Clock(Clock(t, i), j); b.state == RunTestIdle && b.ir == DR_EN_1 && b.dr == t.sr
  {
    hide Clock, NextSr, WithoutOp;
    var a := Clock(t, i);
    ClockParts(t, i);
    SameShift(t, i);
    ClockParts(a, j);
    PortsFollowUpdate(a, j);
  }

  lemma IdleClock(t: Tap, i: Input)
    requires t.Valid() && t.state == RunTestIdle && Good(i) && !i.tms
    ensures var u := Clock(t, i); u.state == RunTestIdle && u.ir == t.ir && u.dr == WithoutOp(t.dr)
  {
    hide NextSr, WithoutOp;
  }

  lemma ClearedTwice(dr: Bits)
    requires |dr| >= 2
    ensures WithoutOp(WithoutOp(dr)) == WithoutOp(dr)
  {
  }

  /** With as many address bits as the port has: exactly that address and data, the
      read enable on, and the write enable as asked. */
  lemma AccessPresents(t: Tap, ins: seq<Input>, addr: Bits, data: Bits, write: bool)
    requires t.Valid() && t.state == RunTestIdle && t.ir == DR_EN_1 && Drives(ins, AccessItems(addr, data, write))
    requires |addr| == t.awidth && |data| == 32
    ensures |ins| >= 2 && AllGood(ins[..|ins| - 2])
    ensures var shown, after := Run(t, ins[..|ins| - 2]).dr, Run(t, ins).dr;
      && shown[0] && shown[1] == write && shown[2..34] == data && shown[34..] == addr
      && !after[0] && !after[1] && after[2..34] == data && after[34..] == addr
  {
    hide Run, DmiRegister, DmiBits, WithoutOp;
    Access(t, ins, addr, data, write);
    PortFields(t.awidth, ins[2].rdData, addr, data, write);
  }

  /** Selecting the dmi register and then accessing it, from any instruction. */
  lemma SelectThenAccess(t: Tap, select: seq<Input>, ins: seq<Input>, addr: Bits, data: Bits, write: bool)
    requires t.Valid() && t.state == RunTestIdle && Drives(select, SetIrItems(DR_EN_1))
    requires |addr| == t.awidth && |data| == 32 && Drives(ins, AccessItems(addr, data, write))
    ensures |ins| >= 2 && AllGood(select + ins[..|ins| - 2])
    ensures var shown := Run(t, select + ins[..|ins| - 2]).dr;
      shown[0] && shown[1] == write && shown[2..34] == data && shown[34..] == addr
  {
    hide Run, SetIrItems, AccessItems;
    SetIr(t, select, DR_EN_1);
    AccessPresents(Run(t, select), ins, addr, data, write);
    RunConcat(t, select, ins[..|ins| - 2]);
  }

  /** The same for a predictor as constructed: one clock with TMS low leaves reset. */
  lemma FirstAccess(awidth: nat, idle: Input, select: seq<Input>, ins: seq<Input>, addr: Bits, data: Bits, write: bool)
    requires Good(idle) && !idle.tms && Drives(select, SetIrItems(DR_EN_1))
    requires |addr| == awidth && |data| == 32 && Drives(ins, AccessItems(addr, data, write))
    ensures |ins| >= 2 && AllGood([idle] + (select + ins[..|ins| - 2]))
    ensures var shown := Run(Initial(awidth), [idle] + (select + ins[..|ins| - 2])).dr;
      shown[0] && shown[1] == write && shown[2..34] == data && shown[34..] == addr
  {
    hide Run, SetIrItems, AccessItems, Clock;
    var t := Initial(awidth);
    ClockParts(t, idle);
    RunOne(t, [idle]);
    SelectThenAccess(Clock(t, idle), select, ins, addr, data, write);
    RunConcat(t, [idle], select + ins[..|ins| - 2]);
  }

  lemma PortFields(awidth: nat, rdData: Bits, addr: Bits, data: Bits, write: bool)
    requires |addr| == awidth && |data| == |rdData| == 32
    ensures var r := DmiRegister(awidth, rdData, DmiBits(addr, data, write));
      && r[0] && r[1] == write && r[2..34] == data && r[34..] == addr
      && !WithoutOp(r)[0] && !WithoutOp(r)[1] && WithoutOp(r)[2..34] == data && WithoutOp(r)[34..] == addr
  {
    var bits := DmiBits(addr, data, write);
    var r := DmiRegister(awidth, rdData, bits);
    assert r == bits;
  }

  /** The sequence always sends seven address bits, so it is right only for a port
      of width 7: at any other width a read of address `addr` with data 0 never
      raises the read enable. */
  lemma SevenBitsOnly(t: Tap, ins: seq<Input>, addr: Bits)
    requires t.Valid() && t.state == RunTestIdle && t.ir == DR_EN_1 && |addr| == 7 && t.awidth != 7
    requires Drives(ins, AccessItems(addr, Zeros(32), false))
    ensures |ins| >= 2 && AllGood(ins[..|ins| - 2]) && !Run(t, ins[..|ins| - 2]).dr[0]
  {
    hide Run;
    Access(t, ins, addr, Zeros(32), false);
    var bits := DmiBits(addr, Zeros(32), false);
    var all := [false, false] + ins[2].rdData + Zeros(t.awidth) + bits;
    assert |bits| == 41 && |all| == t.awidth + 75;
    assert DmiRegister(t.awidth, ins[2].rdData, bits)[0] == all[41];
  }
}
