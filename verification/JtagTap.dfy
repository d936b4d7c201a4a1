/** The predictor of the JTAG test access port: the 16-state controller of section
    6.1 of IEEE Std 1149.1-2001 and the registers behind it.  Registers are bit
    sequences, lowest bit first.  trst_n is high throughout. */
module JtagTap {
  import opened Basics

  type Bits = seq<bool>

  datatype State =
    | TestLogicReset | RunTestIdle
    | SelectDr | CaptureDr | ShiftDr | Exit1Dr | PauseDr | Exit2Dr | UpdateDr
    | SelectIr | CaptureIr | ShiftIr | Exit1Ir | PauseIr | Exit2Ir | UpdateIr

  const DEVICE_ID_SEL: Bits := [true, false, false, false, false]
  const DR_EN_0: Bits := [false, false, false, false, true]
  const DR_EN_1: Bits := [true, false, false, false, true]
  const ALL_ONES: Bits := [true, true, true, true, true]
  const ALL_ZEROS: Bits := [false, false, false, false, false]

  /** The input pins during one clock. */
  datatype Input = Input(tms: bool, tdi: bool, rdData: Bits)

  predicate Good(i: Input) { |i.rdData| == 32 }

  // ----- one clock as a function ------------------------------------------------------------

  /** What the predictor carries from clock to clock. */
  datatype Tap = Tap(awidth: nat, state: State, ir: Bits, sr: Bits, dr: Bits, ndr: Bits)
  {
    ghost predicate Valid() {
      && |ir| == 5 && |sr| == |dr| == |ndr| == awidth + 34
      // dr is loaded only behind an Update-DR of the dmi register; otherwise its
      // two operation bits are cleared
      && ndr == if state == UpdateDr && ir == DR_EN_1 then sr else WithoutOp(dr)
    }
  }

  function WithoutOp(dr: Bits): (r: Bits)
    requires |dr| >= 2
    ensures |r| == |dr|
  {
    [false, false] + dr[2..]
  }

  function Next(s: State, tms: bool): State {
    match s
    case TestLogicReset => if tms then TestLogicReset else RunTestIdle
    case RunTestIdle => if tms then SelectDr else RunTestIdle
    case SelectDr => if tms then SelectIr else CaptureDr
    case CaptureDr => if tms then Exit1Dr else ShiftDr
    case ShiftDr => if tms then Exit1Dr else ShiftDr
    case Exit1Dr => if tms then UpdateDr else PauseDr
    case PauseDr => if tms then Exit2Dr else PauseDr
    case Exit2Dr => if tms then UpdateDr else ShiftDr
    case UpdateDr => if tms then SelectDr else RunTestIdle
    case SelectIr => if tms then TestLogicReset else CaptureIr
    case CaptureIr => if tms then Exit1Ir else ShiftIr
    case ShiftIr => if tms then Exit1Ir else ShiftIr
    case Exit1Ir => if tms then UpdateIr else PauseIr
    case PauseIr => if tms then Exit2Ir else PauseIr
    case Exit2Ir => if tms then UpdateIr else ShiftIr
    case UpdateIr => if tms then SelectDr else RunTestIdle
  }

  /** The value that Capture-DR loads: dtmcs (version 1, 7 address bits), dmi read
      data, the device identification, or bypass. */
  function Captured(awidth: nat, ir: Bits, sr: Bits, rdData: Bits): (r: Bits)
    requires |sr| == awidth + 34 && |rdData| == 32
    ensures |r| == awidth + 34
  {
    if ir == DR_EN_0 then [true, false, false, false, true, true, true] + Zeros(awidth + 27)
    else if ir == DR_EN_1 then [false, false] + rdData + Zeros(awidth)
    else if ir == DEVICE_ID_SEL then [true] + Zeros(awidth + 33)
    else [false] + sr[1..]
  }

  /** The length of the data register that an instruction selects. */
  function DrLength(awidth: nat, ir: Bits): (n: nat)
    ensures 1 <= n <= awidth + 34
  {
    if ir == DR_EN_1 then awidth + 34
    else if ir == DR_EN_0 || ir == DEVICE_ID_SEL then 32
    else 1
  }

  /** Shifts a bit into the lowest n positions of the register, clearing the rest. */
  function Shifted(sr: Bits, n: nat, tdi: bool): (r: Bits)
    requires 1 <= n <= |sr|
    ensures |r| == |sr|
  {
    sr[1..n] + [tdi] + Zeros(|sr| - n)
  }

  function NextSr(t: Tap, i: Input): (r: Bits)
    requires t.Valid() && Good(i)
    ensures |r| == t.awidth + 34
  {
    match t.state
    case ShiftDr => Shifted(t.sr, DrLength(t.awidth, t.ir), i.tdi)
    case CaptureDr => Captured(t.awidth, t.ir, t.sr, i.rdData)
    case ShiftIr => Shifted(t.sr, 5, i.tdi)
    case CaptureIr => [true] + Zeros(t.awidth + 33)
    case _ => t.sr
  }

  /** One clock: everything moves on the rising edge. */
  function Clock(t: Tap, i: Input): (u: Tap)
    requires t.Valid() && Good(i)
    ensures u.Valid() && u.awidth == t.awidth
  {
    var state, sr := Next(t.state, i.tms), NextSr(t, i);
    var ir := if state != UpdateIr then t.ir else if sr[..5] == ALL_ZEROS then ALL_ONES else sr[..5];
    var ndr := if state == UpdateDr && ir == DR_EN_1 then sr else WithoutOp(t.ndr);
    Tap(t.awidth, state, ir, sr, t.ndr, ndr)
  }

  function Initial(awidth: nat): (t: Tap)
    ensures t.Valid() && t.awidth == awidth
  {
    var z := Zeros(awidth + 34);
    assert WithoutOp(z) == z;
    Tap(awidth, TestLogicReset, DEVICE_ID_SEL, z, z, z)
  }

  lemma ShiftForms(sr: Bits, awidth: nat, tdi: bool)
    requires |sr| == awidth + 34
    ensures Shifted(sr, awidth + 34, tdi) == sr[1..awidth + 34] + [tdi]
    ensures Shifted(sr, 32, tdi) == sr[1..32] + [tdi] + Zeros(awidth + 2)
    ensures Shifted(sr, 5, tdi) == sr[1..5] + [tdi] + Zeros(awidth + 29)
    ensures Shifted(sr, 1, tdi) == [tdi] + Zeros(awidth + 33)
  {
  }

  lemma CaptureForms(awidth: nat, ir: Bits, sr: Bits, rdData: Bits)
    requires |sr| == awidth + 34 && |rdData| == 32
    ensures Captured(awidth, DR_EN_0, sr, rdData)
      == [true, false, false, false] + [true, true, true, false, false, false] + [false, false] + [false, false]
         + Zeros(awidth + 19) + [false]
    ensures Captured(awidth, DR_EN_1, sr, rdData) == [false, false] + rdData + Zeros(awidth)
    ensures Captured(awidth, DEVICE_ID_SEL, sr, rdData) == [true] + Zeros(31) + Zeros(awidth + 2)
    ensures ir != DR_EN_0 && ir != DR_EN_1 && ir != DEVICE_ID_SEL ==> Captured(awidth, ir, sr, rdData) == sr[0 := false]
  {
    assert DR_EN_0[0] != DR_EN_1[0] && DR_EN_0[0] != DEVICE_ID_SEL[0] && DR_EN_1[4] != DEVICE_ID_SEL[4];
  }

  lemma NextShifts(t: Tap, i: Input)
    requires t.Valid() && Good(i)
    ensures t.state == ShiftDr ==>
      if t.ir == DR_EN_1 then NextSr(t, i) == t.sr[1..t.awidth + 34] + [i.tdi]
      else if t.ir == DR_EN_0 || t.ir == DEVICE_ID_SEL
      then NextSr(t, i) == t.sr[1..32] + [i.tdi] + Zeros(t.awidth + 2)
      else NextSr(t, i) == [i.tdi] + Zeros(t.awidth + 33)
    ensures t.state == ShiftIr ==> NextSr(t, i) == t.sr[1..5] + [i.tdi] + Zeros(t.awidth + 29)
  {
    hide Shifted, Captured, WithoutOp;
    ShiftForms(t.sr, t.awidth, i.tdi);
  }

  lemma NextCaptures(t: Tap, i: Input)
    requires t.Valid() && Good(i)
    ensures t.state == CaptureDr ==>
      if t.ir == DR_EN_0 then
        NextSr(t, i)
        == [true, false, false, false] + [true, true, true, false, false, false] + [false, false] + [false, false]
           + Zeros(t.awidth + 19) + [false]
      else if t.ir == DR_EN_1 then NextSr(t, i) == [false, false] + i.rdData + Zeros(t.awidth)
      else if t.ir == DEVICE_ID_SEL then NextSr(t, i) == [true] + Zeros(31) + Zeros(t.awidth + 2)
      else NextSr(t, i) == t.sr[0 := false]
    ensures t.state == CaptureIr ==> NextSr(t, i) == [true] + Zeros(t.awidth + 33)
  {
    hide Shifted, Captured, WithoutOp;
    CaptureForms(t.awidth, t.ir, t.sr, i.rdData);
  }

  lemma NextStays(t: Tap, i: Input)
    requires t.Valid() && Good(i) && t.state !in {ShiftDr, CaptureDr, ShiftIr, CaptureIr}
    ensures NextSr(t, i) == t.sr
  {
  }

  // ----- the predictor object ----------------------------------------------------------------

  class JTAGPredictor {
    const awidth: nat
    // predicted output ports
    var tdo: bool
    var tdoEnable: bool
    var wrData: Bits
    var wrAddr: Bits
    var wrEn: bool
    var rdEn: bool
    var dmiHardReset: bool
    // internal state and registers
    var nstate: State
    var state: State
    var prevNstate: State
    var ir: Bits
    var dr: Bits
    var ndr: Bits
    var sr: Bits
    var nsr: Bits

    constructor (awidth: nat)
      ensures this.awidth == awidth && View() == Initial(awidth)
    {
      this.awidth := awidth;
      tdo, tdoEnable, wrEn, rdEn, dmiHardReset := false, false, false, false, false;
      wrData, wrAddr := Zeros(32), Zeros(awidth);
      nstate, state, prevNstate := TestLogicReset, TestLogicReset, TestLogicReset;
      ir := DEVICE_ID_SEL;
      dr, ndr, sr, nsr := Zeros(awidth + 34), Zeros(awidth + 34), Zeros(awidth + 34), Zeros(awidth + 34);
    }

    function View(): Tap
      reads this
    {
      Tap(awidth, state, ir, sr, dr, ndr)
    }

    method UpdateState()
      modifies `state
      ensures state == nstate
    {
      state := nstate;
    }

    method UpdateNstate(i: Input)
      modifies `nstate, `prevNstate
      ensures nstate == Next(state, i.tms) && prevNstate == old(nstate)
    {
      prevNstate := nstate;
      match state {
        case TestLogicReset => nstate := if i.tms then TestLogicReset else RunTestIdle;
        case RunTestIdle => nstate := if i.tms then SelectDr else RunTestIdle;
        case SelectDr => nstate := if i.tms then SelectIr else CaptureDr;
        case CaptureDr => nstate := if i.tms then Exit1Dr else ShiftDr;
        case ShiftDr => nstate := if i.tms then Exit1Dr else ShiftDr;
        case Exit1Dr => nstate := if i.tms then UpdateDr else PauseDr;
        case PauseDr => nstate := if i.tms then Exit2Dr else PauseDr;
        case Exit2Dr => nstate := if i.tms then UpdateDr else ShiftDr;
        case UpdateDr => nstate := if i.tms then SelectDr else RunTestIdle;
        case SelectIr => nstate := if i.tms then TestLogicReset else CaptureIr;
        case CaptureIr => nstate := if i.tms then Exit1Ir else ShiftIr;
        case ShiftIr => nstate := if i.tms then Exit1Ir else ShiftIr;
        case Exit1Ir => nstate := if i.tms then UpdateIr else PauseIr;
        case PauseIr => nstate := if i.tms then Exit2Ir else PauseIr;
        case Exit2Ir => nstate := if i.tms then UpdateIr else ShiftIr;
        case UpdateIr => nstate := if i.tms then SelectDr else RunTestIdle;
      }
    }

    method PredictNsrReg(i: Input)
      requires View().Valid() && Good(i)
      modifies `nsr
      ensures nsr == NextSr(View(), i)
    {
      hide Shifted, Captured, WithoutOp, NextSr, DrLength;
      nsr := sr;
      if state == ShiftDr {
        NextShifts(View(), i);
        if ir == DR_EN_1 {
          nsr := sr[1..awidth + 34] + [i.tdi];
        } else if ir == DR_EN_0 || ir == DEVICE_ID_SEL {
          nsr := sr[1..32] + [i.tdi] + Zeros(awidth + 2);
        } else {
          nsr := [i.tdi] + Zeros(awidth + 33);
        }
      } else if state == CaptureDr {
        NextCaptures(View(), i);
        nsr := nsr[0 := false];
        if ir == DR_EN_0 {
          // version, abits, dmistat and idle; one bit short, which reading the
          // register back as a number fills with 0
          nsr := [true, false, false, false] + [true, true, true, false, false, false] + [false, false] + [false, false]
                 + Zeros(awidth + 19) + [false];
        } else if ir == DR_EN_1 {
          nsr := [false, false] + i.rdData + Zeros(awidth);
        } else if ir == DEVICE_ID_SEL {
          nsr := [true] + Zeros(31) + Zeros(awidth + 2);
        }
      } else if state == ShiftIr {
        NextShifts(View(), i);
        nsr := sr[1..5] + [i.tdi] + Zeros(awidth + 29);
      } else if state == CaptureIr {
        NextCaptures(View(), i);
        nsr := [true] + Zeros(awidth + 33);
      } else {
        NextStays(View(), i);
      }
    }

    method PredictPorts()
      requires View().Valid()
      modifies `tdoEnable, `wrAddr, `wrData, `wrEn, `rdEn, `dmiHardReset
      ensures tdoEnable == (state == ShiftDr || state == ShiftIr)
      ensures rdEn == dr[0] && wrEn == dr[1] && wrData == dr[2..34] && wrAddr == dr[34..]
      ensures dmiHardReset == (state == UpdateDr && ir == DR_EN_0 && sr[17])
    {
      tdoEnable := state == ShiftDr || state == ShiftIr;
      wrAddr := dr[34..awidth + 34];
      wrData := dr[2..34];
      wrEn := dr[1];
      rdEn := dr[0];
      if state == UpdateDr && ir == DR_EN_0 {
        dmiHardReset := sr[17];
      } else {
        dmiHardReset := false;
      }
    }

    method PredictRegsNegedge(i: Input)
      requires View().Valid() && Good(i)
      modifies `tdo, `tdoEnable, `nsr
      ensures tdo == sr[0] && nsr == NextSr(View(), i)
    {
      tdo := sr[0];
      tdoEnable := state == ShiftDr || state == ShiftIr;
      PredictNsrReg(i);
    }

    /** The rising edge, after the controller has moved to its new state. */
    method PredictRegsPosedge(i: Input)
      requires |nsr| == |ndr| == awidth + 34 && |ir| == 5 && Good(i)
      modifies `dr, `sr, `ir, `ndr, `nsr
      ensures View().Valid() && dr == old(ndr) && sr == old(nsr)
      ensures ir == if state != UpdateIr then old(ir) else if sr[..5] == ALL_ZEROS then ALL_ONES else sr[..5]
    {
      dr := ndr;
      sr := nsr;
      if state == UpdateIr {
        ir := if sr[..5] == ALL_ZEROS then ALL_ONES else sr[..5];
      }
      if state == UpdateDr && ir == DR_EN_1 {
        ndr := sr;
      } else {
        ndr := [false, false] + dr[2..awidth + 34];
      }
      PredictNsrReg(i);
    }

    method NegativeEdge(i: Input)
      requires View().Valid() && Good(i)
      modifies this
      ensures View() == old(View()) && nstate == Next(state, i.tms) && nsr == NextSr(View(), i)
      ensures tdo == sr[0] && PortsShow(View())
    {
      UpdateNstate(i);
      PredictRegsNegedge(i);
      PredictPorts();
    }

    method PositiveEdge(i: Input)
      requires View().Valid() && Good(i) && nsr == NextSr(View(), i)
      modifies this
      ensures View() == Clock(old(View()), i) && tdo == old(tdo) && PortsShow(View())
    {
      UpdateNstate(i);
      UpdateState();
      PredictRegsPosedge(i);
      PredictPorts();
    }

    /** One clock of the testbench: the falling edge, then the rising edge. */
    method ClockCycle(i: Input)
      requires View().Valid() && Good(i)
      modifies this
      ensures View() == Clock(old(View()), i) && tdo == old(sr[0]) && PortsShow(View())
    {
      NegativeEdge(i);
      PositiveEdge(i);
    }

    ghost predicate PortsShow(t: Tap)
      requires t.Valid()
      reads this
    {
      && rdEn == t.dr[0] && wrEn == t.dr[1] && wrData == t.dr[2..34] && wrAddr == t.dr[34..]
      && tdoEnable == (t.state == ShiftDr || t.state == ShiftIr)
      && dmiHardReset == (t.state == UpdateDr && t.ir == DR_EN_0 && t.sr[17])
    }
  }
}
