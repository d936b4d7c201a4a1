/** The assembly rewrite that keeps delayed register writes away from the next
    write to the same register by inserting NOPs. */
module CodeFixup {
  import opened Basics

  /** An input line; the operands are those of its instruction, if it has one. */
  datatype Line = Line(text: string, mnemonic: Option<string>, operands: seq<string>)

  /** An output line: an input line, or an inserted comment or NOP. */
  datatype Out = Copied(line: Line) | Comment | Nop

  const MAX_NOPS := 10

  const MNEMONICS: set<string> :=
    {"div", "divu", "rem", "remu", "lb", "lbu", "lh", "lhu", "lw", "c.lw", "c.lwsp"}

  /** Splitting the operand text of an instruction gives at least one operand. */
  ghost predicate Parsed(lines: seq<Line>) {
    forall i | 0 <= i < |lines| :: lines[i].mnemonic.Some? ==> lines[i].operands != []
  }

  predicate IsInstr(l: Line) { l.mnemonic.Some? }

  predicate IsDelayed(l: Line) { l.mnemonic.Some? && l.mnemonic.value in MNEMONICS && l.operands != [] }

  predicate Targets(l: Line, dst: string) { l.operands != [] && l.operands[0] == dst }

  // ----- what is inserted behind a line --------------------------------------------------------

  /** The position of the next instruction at or behind position j, or the end. */
  function NextInstr(lines: seq<Line>, j: nat): (k: nat)
    requires j <= |lines|
    ensures j <= k <= |lines| && (k < |lines| ==> IsInstr(lines[k]))
    ensures forall m | j <= m < k :: !IsInstr(lines[m])
    decreases |lines| - j
  {
    if j == |lines| || IsInstr(lines[j]) then j else NextInstr(lines, j + 1)
  }

  /** Which of the next two instructions targets dst: 0, 1, or 2 for neither. */
  function Clash(lines: seq<Line>, i: nat, dst: string): (j: nat)
    requires i < |lines|
    ensures j <= 2
  {
    var first := NextInstr(lines, i + 1);
    if first == |lines| then 2
    else if Targets(lines[first], dst) then 0
    else
      var second := NextInstr(lines, first + 1);
      if second < |lines| && Targets(lines[second], dst) then 1 else 2
  }

  function Nops(n: nat): (s: seq<Out>)
    ensures |s| == n && forall i | 0 <= i < n :: s[i] == Nop
  {
    seq(n, _ => Nop)
  }

  function Padding(lines: seq<Line>, i: nat): seq<Out>
    requires i < |lines|
  {
    if !IsDelayed(lines[i]) then []
    else
      var j := Clash(lines, i, lines[i].operands[0]);
      if j == 2 then [] else [Comment] + Nops(MAX_NOPS - j) + [Comment]
  }

  /** The output for the lines from a up to b. */
  function Emit(lines: seq<Line>, a: nat, b: nat): seq<Out>
    requires a <= b <= |lines|
    decreases b - a
  {
    if a == b then [] else Emit(lines, a, b - 1) + [Copied(lines[b - 1])] + Padding(lines, b - 1)
  }

  // ----- the program ------------------------------------------------------------------------------

  method Following(lines: seq<Line>, i: nat) returns (following: seq<Line>)
    requires i < |lines|
    ensures var first := NextInstr(lines, i + 1);
      if first == |lines| then following == []
      else var second := NextInstr(lines, first + 1);
        following == if second < |lines| then [lines[first], lines[second]] else [lines[first]]
  {
    following := [];
    var j := i + 1;
    ghost var first := NextInstr(lines, i + 1);
    while j < |lines|
      invariant i + 1 <= j <= |lines| && |following| <= 1
      invariant following == [] ==> first == NextInstr(lines, j)
      invariant |following| == 1 ==> first < |lines| && first < j && following == [lines[first]]
      invariant |following| == 1 ==> NextInstr(lines, first + 1) == NextInstr(lines, j)
    {
      if lines[j].mnemonic.Some? {
        following := following + [lines[j]];
        if |following| >= 2 {
          break;
        }
      }
      j := j + 1;
    }
  }

  /** The lines inserted behind line i. */
  method Insertion(lines: seq<Line>, i: nat) returns (pad: seq<Out>)
    requires Parsed(lines) && i < |lines|
    ensures pad == Padding(lines, i)
  {
    pad := [];
    var line := lines[i];
    if line.mnemonic.Some? && line.mnemonic.value in MNEMONICS {
      var following := Following(lines, i);
      var dst := line.operands[0];
      var j := 0;
      while j < |following| && !Targets(following[j], dst)
        invariant j <= |following| && forall k | 0 <= k < j :: !Targets(following[k], dst)
      {
        j := j + 1;
      }
      assert j > 0 ==> !Targets(following[0], dst);
      assert j > 1 ==> !Targets(following[1], dst);
      assert Clash(lines, i, dst) == if j < |following| then j else 2;
      if j < |following| {
        var nops := if MAX_NOPS - j > 0 then MAX_NOPS - j else 0;
        pad := [Comment];
        for k := 0 to nops
          invariant pad == [Comment] + Nops(k)
        {
          pad := pad + [Nop];
        }
        pad := pad + [Comment];
      }
    }
  }

  method Fixup(lines: seq<Line>) returns (out: seq<Out>)
    requires Parsed(lines)
    ensures out == Emit(lines, 0, |lines|)
  {
    hide Padding;
    out := [];
    for i := 0 to |lines|
      invariant out == Emit(lines, 0, i)
    {
      out := out + [Copied(lines[i])];
      var pad := Insertion(lines, i);
      out := out + pad;
    }
  }

  // ----- nothing else changes -----------------------------------------------------------------------

  /** The output without the inserted lines. */
  function Original(out: seq<Out>): seq<Line> {
    if out == [] then []
    else Original(out[..|out| - 1]) + match out[|out| - 1] case Copied(l) => [l] case _ => []
  }

  lemma {:induction false} OriginalConcat(a: seq<Out>, b: seq<Out>)
    ensures Original(a + b) == Original(a) + Original(b)
    decreases |b|
  {
    if b == [] {
      assert a + b == a;
    } else {
      OriginalConcat(a, b[..|b| - 1]);
      assert (a + b)[..|a + b| - 1] == a + b[..|b| - 1];
    }
  }

  lemma {:induction false} PaddingErased(s: seq<Out>)
    requires forall i | 0 <= i < |s| :: !s[i].Copied?
    ensures Original(s) == []
    decreases |s|
  {
    if s != [] {
      PaddingErased(s[..|s| - 1]);
    }
  }

  lemma PaddingPlain(lines: seq<Line>, i: nat)
    requires i < |lines|
    ensures forall k | 0 <= k < |Padding(lines, i)| :: !Padding(lines, i)[k].Copied?
  {
  }

  /** Removing the inserted lines gives the input back, line by line. */
  lemma {:induction false} FixupKeepsLines(lines: seq<Line>, b: nat)
    requires b <= |lines|
    ensures Original(Emit(lines, 0, b)) == lines[..b]
    decreases b
  {
    hide Padding;
    if b > 0 {
      var head, pad := Emit(lines, 0, b - 1) + [Copied(lines[b - 1])], Padding(lines, b - 1);
      FixupKeepsLines(lines, b - 1);
      OriginalConcat(head, pad);
      OriginalConcat(Emit(lines, 0, b - 1), [Copied(lines[b - 1])]);
      assert Original([Copied(lines[b - 1])]) == [lines[b - 1]] by { assert [Copied(lines[b - 1])][..0] == []; }
      PaddingPlain(lines, b - 1);
      PaddingErased(pad);
    }
  }

  // ----- the program means the same ------------------------------------------------------------------

  /** Where an instruction goes next: on, or to any line. */
  datatype Next = Fall | Jump(line: nat)

  datatype Config<S> = Config(pc: nat, state: S)

  type Machine<!S> = (Line, S) -> (S, Next)

  /** One step of the input program; it has ended when pc is behind the last line. */
  function Step<S>(lines: seq<Line>, machine: Machine<S>, c: Config<S>): Config<S> {
    if c.pc >= |lines| then c
    else
      var (state, next) := machine(lines[c.pc], c.state);
      Config(match next case Fall => c.pc + 1 case Jump(k) => Min(k, |lines|), state)
  }

  /** Where line k stands in the output. */
  function Position(lines: seq<Line>, k: nat): nat
    requires k <= |lines|
  {
    |Emit(lines, 0, k)|
  }

  /** One step of the output program: NOPs and comments do nothing, and a jump to a
      line goes to its copy. */
  function StepOut<S>(lines: seq<Line>, machine: Machine<S>, c: Config<S>): Config<S> {
    var out := Emit(lines, 0, |lines|);
    if c.pc >= |out| then c
    else
      match out[c.pc]
      case Copied(l) =>
        var (state, next) := machine(l, c.state);
        Config(match next case Fall => c.pc + 1 case Jump(k) => Position(lines, Min(k, |lines|)), state)
      case _ => c.(pc := c.pc + 1)
  }

  function Run<S>(lines: seq<Line>, machine: Machine<S>, c: Config<S>, n: nat): Config<S>
    decreases n
  {
    if n == 0 then c else Run(lines, machine, Step(lines, machine, c), n - 1)
  }

  function RunOut<S>(lines: seq<Line>, machine: Machine<S>, c: Config<S>, n: nat): Config<S>
    decreases n
  {
    if n == 0 then c else RunOut(lines, machine, StepOut(lines, machine, c), n - 1)
  }

  lemma {:induction false} RunOutAdd<S>(lines: seq<Line>, machine: Machine<S>, c: Config<S>, m: nat, n: nat)
    ensures RunOut(lines, machine, c, m + n) == RunOut(lines, machine, RunOut(lines, machine, c, m), n)
    decreases m
  {
    hide StepOut;
    if m > 0 {
      RunOutAdd(lines, machine, StepOut(lines, machine, c), m - 1, n);
    }
  }

  /** The copy of line i and what is inserted behind it, in their places. */
  lemma OutputAt(lines: seq<Line>, i: nat)
    requires i < |lines|
    ensures var out, at := Emit(lines, 0, |lines|), Position(lines, i);
      && at < Position(lines, i + 1) <= |out| && out[at] == Copied(lines[i])
      && forall k | at < k < Position(lines, i + 1) :: !out[k].Copied?
  {
    hide Emit, Padding;
    var out, a, b := Emit(lines, 0, |lines|), Emit(lines, 0, i), Emit(lines, i, i + 1);
    var rest := Emit(lines, i + 1, |lines|);
    EmitSplit(lines, 0, i + 1, |lines|);
    EmitSplit(lines, 0, i, i + 1);
    EmitOne(lines, i);
    PaddingPlain(lines, i);
    assert out == a + b + rest;
    assert forall k | |a| <= k < |a| + |b| :: out[k] == b[k - |a|];
  }

  lemma {:induction false} Increasing(lines: seq<Line>, i: nat, k: nat)
    requires i <= k <= |lines|
    ensures Position(lines, i) + (k - i) <= Position(lines, k)
    decreases k
  {
    hide Position;
    if i < k {
      Increasing(lines, i, k - 1);
      OutputAt(lines, k - 1);
    }
  }

  /** Inserted lines are passed without effect. */
  lemma {:induction false} Passes<S>(lines: seq<Line>, machine: Machine<S>, c: Config<S>, i: nat)
    requires i < |lines| && Position(lines, i) < c.pc <= Position(lines, i + 1)
    ensures RunOut(lines, machine, c, Position(lines, i + 1) - c.pc) == c.(pc := Position(lines, i + 1))
    decreases Position(lines, i + 1) - c.pc
  {
    hide Position, Emit;
    OutputAt(lines, i);
    if c.pc < Position(lines, i + 1) {
      assert StepOut(lines, machine, c) == c.(pc := c.pc + 1);
      Passes(lines, machine, c.(pc := c.pc + 1), i);
    }
  }

  /** The configuration of the output that stands for one of the input. */
  function Placed<S>(lines: seq<Line>, c: Config<S>): Config<S> {
    c.(pc := Position(lines, Min(c.pc, |lines|)))
  }

  /** One step of the input is one or more steps of the output. */
  lemma StepSimulated<S>(lines: seq<Line>, machine: Machine<S>, c: Config<S>) returns (m: nat)
    ensures m > 0 && RunOut(lines, machine, Placed(lines, c), m) == Placed(lines, Step(lines, machine, c))
  {
    hide Position, Emit;
    var d := Placed(lines, c);
    var e := StepOut(lines, machine, d);
    m := 1;
    RunOutOne(lines, machine, d);
    if c.pc < |lines| {
      OutputAt(lines, c.pc);
      var next := machine(lines[c.pc], c.state).1;
      if next.Fall? {
        m := 1 + (Position(lines, c.pc + 1) - e.pc);
        Passes(lines, machine, e, c.pc);
        RunOutAdd(lines, machine, d, 1, m - 1);
      }
    } else {
      WholeOutput(lines);
    }
  }

  lemma RunOutOne<S>(lines: seq<Line>, machine: Machine<S>, c: Config<S>)
    ensures RunOut(lines, machine, c, 1) == StepOut(lines, machine, c)
  {
    hide StepOut;
    assert RunOut(lines, machine, StepOut(lines, machine, c), 0) == StepOut(lines, machine, c);
  }

  lemma WholeOutput(lines: seq<Line>)
    ensures Position(lines, |lines|) == |Emit(lines, 0, |lines|)|
  {
  }

  /** So is any number of steps. */
  lemma {:induction false} RunSimulated<S>(lines: seq<Line>, machine: Machine<S>, c: Config<S>, n: nat) returns (m: nat)
    ensures m >= n && RunOut(lines, machine, Placed(lines, c), m) == Placed(lines, Run(lines, machine, c, n))
    decreases n
  {
    hide Step, StepOut, Placed;
    if n == 0 {
      m := 0;
    } else {
      var k := StepSimulated(lines, machine, c);
      var l := RunSimulated(lines, machine, Step(lines, machine, c), n - 1);
      m := k + l;
      RunOutAdd(lines, machine, Placed(lines, c), k, l);
    }
  }

  ghost predicate Ends<S(!new)>(lines: seq<Line>, machine: Machine<S>, s: S, t: S) {
    exists n :: Run(lines, machine, Config(0, s), n) == Config(|lines|, t)
  }

  ghost predicate EndsOut<S(!new)>(lines: seq<Line>, machine: Machine<S>, s: S, t: S) {
    exists n :: RunOut(lines, machine, Config(0, s), n) == Config(|Emit(lines, 0, |lines|)|, t)
  }

  lemma {:induction false} EndedStays<S>(lines: seq<Line>, machine: Machine<S>, c: Config<S>, n: nat)
    requires c.pc >= |Emit(lines, 0, |lines|)|
    ensures RunOut(lines, machine, c, n) == c
    decreases n
  {
    hide Emit;
    if n > 0 {
      EndedStays(lines, machine, c, n - 1);
    }
  }

  lemma {:induction false} StaysInside<S>(lines: seq<Line>, machine: Machine<S>, c: Config<S>, n: nat)
    requires c.pc <= |lines|
    ensures Run(lines, machine, c, n).pc <= |lines|
    decreases n
  {
    if n > 0 {
      StaysInside(lines, machine, Step(lines, machine, c), n - 1);
    }
  }

  /** For every program, jumps included, and any semantics of its lines in which NOPs
      and comments do nothing: the output ends in a state exactly when the input does. */
  lemma FixupPreservesMeaning<S(!new)>(lines: seq<Line>, machine: Machine<S>, s: S, t: S)
    ensures Ends(lines, machine, s, t) <==> EndsOut(lines, machine, s, t)
  {
    hide Run, RunOut, Emit, Step, StepOut;
    var c := Config(0, s);
    assert Placed(lines, c) == c by { Beginning(lines); }
    WholeOutput(lines);
    if Ends(lines, machine, s, t) {
      var n :| Run(lines, machine, c, n) == Config(|lines|, t);
      var m := RunSimulated(lines, machine, c, n);
      assert RunOut(lines, machine, c, m) == Config(|Emit(lines, 0, |lines|)|, t);
    }
    if EndsOut(lines, machine, s, t) {
      var n :| RunOut(lines, machine, c, n) == Config(|Emit(lines, 0, |lines|)|, t);
      var m := RunSimulated(lines, machine, c, n);
      RunOutAdd(lines, machine, c, n, m - n);
      EndedStays(lines, machine, RunOut(lines, machine, c, n), m - n);
      StaysInside(lines, machine, c, n);
      Increasing(lines, Run(lines, machine, c, n).pc, |lines|);
      assert Run(lines, machine, c, n) == Config(|lines|, t);
    }
  }

  lemma Beginning(lines: seq<Line>)
    ensures Position(lines, 0) == 0
  {
  }

  // ----- the distance -------------------------------------------------------------------------------

  predicate IsSlot(o: Out) { o.Nop? || (o.Copied? && IsInstr(o.line)) }

  /** Instruction slots in a piece of output. */
  function Slots(s: seq<Out>): nat {
    if s == [] then 0 else Slots(s[..|s| - 1]) + if IsSlot(s[|s| - 1]) then 1 else 0
  }

  lemma {:induction false} SlotsConcat(a: seq<Out>, b: seq<Out>)
    ensures Slots(a + b) == Slots(a) + Slots(b)
    decreases |b|
  {
    if b == [] {
      assert a + b == a;
    } else {
      SlotsConcat(a, b[..|b| - 1]);
      assert (a + b)[..|a + b| - 1] == a + b[..|b| - 1];
    }
  }

  lemma {:induction false} SlotsOfNops(n: nat)
    ensures Slots(Nops(n)) == n
    decreases n
  {
    if n > 0 {
      SlotsOfNops(n - 1);
      assert Nops(n)[..n - 1] == Nops(n - 1);
    }
  }

  lemma PaddingSlots(n: nat)
    ensures Slots([Comment] + Nops(n) + [Comment]) == n
  {
    SlotsConcat([Comment] + Nops(n), [Comment]);
    SlotsConcat([Comment], Nops(n));
    SlotsOfNops(n);
    assert [Comment][..0] == [];
  }

  lemma {:induction false} EmitSplit(lines: seq<Line>, a: nat, m: nat, b: nat)
    requires a <= m <= b <= |lines|
    ensures Emit(lines, a, b) == Emit(lines, a, m) + Emit(lines, m, b)
    decreases b - m
  {
    hide Padding;
    if m < b {
      EmitSplit(lines, a, m, b - 1);
    }
  }

  lemma EmitOne(lines: seq<Line>, i: nat)
    requires i < |lines|
    ensures Emit(lines, i, i + 1) == [Copied(lines[i])] + Padding(lines, i)
  {
  }

  lemma EmitSlot(lines: seq<Line>, a: nat, m: nat, b: nat)
    requires a <= m < b <= |lines| && IsInstr(lines[m])
    ensures Slots(Emit(lines, a, b)) >= 1
  {
    EmitSplit(lines, a, m, b);
    EmitSplit(lines, m, m + 1, b);
    EmitOne(lines, m);
    SlotsConcat(Emit(lines, a, m), Emit(lines, m, b));
    SlotsConcat(Emit(lines, m, m + 1), Emit(lines, m + 1, b));
    SlotsConcat([Copied(lines[m])], Padding(lines, m));
    assert [Copied(lines[m])][..0] == [];
  }

  /** What stands between the copies of lines i and k in the output. */
  function Gap(lines: seq<Line>, i: nat, k: nat): seq<Out>
    requires i < k < |lines|
  {
    Padding(lines, i) + Emit(lines, i + 1, k)
  }

  /** That piece really is between them. */
  lemma GapInOutput(lines: seq<Line>, i: nat, k: nat)
    requires i < k < |lines|
    ensures Emit(lines, 0, |lines|)
      == Emit(lines, 0, i) + [Copied(lines[i])] + Gap(lines, i, k) + Emit(lines, k, |lines|)
    ensures Emit(lines, k, |lines|) != [] && Emit(lines, k, |lines|)[0] == Copied(lines[k])
  {
    hide Emit, Padding;
    EmitSplit(lines, 0, i, |lines|);
    EmitSplit(lines, i, i + 1, |lines|);
    EmitSplit(lines, i + 1, k, |lines|);
    EmitSplit(lines, k, k + 1, |lines|);
    EmitOne(lines, i);
    EmitOne(lines, k);
    Regroup(Emit(lines, 0, i), [Copied(lines[i])], Padding(lines, i), Emit(lines, i + 1, k), Emit(lines, k, |lines|));
  }

  lemma Regroup(a: seq<Out>, b: seq<Out>, c: seq<Out>, d: seq<Out>, e: seq<Out>)
    ensures a + ((b + c) + (d + e)) == a + b + (c + d) + e
  {
  }

  /** Every delayed write ends at least ten instruction slots before each of the next
      two instructions if one of them targets its register. */
  lemma KeptApart(lines: seq<Line>, i: nat, k: nat)
    requires i < |lines| && IsDelayed(lines[i])
    requires k < |lines| && Targets(lines[k], lines[i].operands[0])
    requires var first := NextInstr(lines, i + 1);
      k == first || (first < |lines| && k == NextInstr(lines, first + 1))
    ensures i < k && Slots(Gap(lines, i, k)) >= 10
  {
    hide Emit, Padding, Slots, Nops;
    var first, dst := NextInstr(lines, i + 1), lines[i].operands[0];
    assert Clash(lines, i, dst) == if Targets(lines[first], dst) then 0 else 1;
    ClashPadding(lines, i);
    SlotsConcat(Padding(lines, i), Emit(lines, i + 1, k));
    if k != first && !Targets(lines[first], dst) {
      EmitSlot(lines, i + 1, first, k);
    }
  }

  lemma ClashPadding(lines: seq<Line>, i: nat)
    requires i < |lines| && IsDelayed(lines[i]) && Clash(lines, i, lines[i].operands[0]) < 2
    ensures Slots(Padding(lines, i)) == MAX_NOPS - Clash(lines, i, lines[i].operands[0])
  {
    hide Slots, Clash, Nops;
    PaddingSlots(MAX_NOPS - Clash(lines, i, lines[i].operands[0]));
  }

  /** The delayed instructions are the divisions and the loads of the base and the
      compressed set. */
  lemma DelayedMnemonics(l: Line)
    ensures IsDelayed(l) <==>
      && l.operands != [] && l.mnemonic.Some?
      && (l.mnemonic.value in {"div", "divu", "rem", "remu"} || l.mnemonic.value in {"lb", "lbu", "lh", "lhu", "lw"}
          || l.mnemonic.value in {"c.lw", "c.lwsp"})
  {
  }

  /** Something is inserted behind a line exactly if it is delayed and one of the next two
      instructions targets its register: ten NOPs if it is the first, else nine. */
  lemma PaddingExactly(lines: seq<Line>, i: nat)
    requires i < |lines|
    ensures var first := NextInstr(lines, i + 1);
      if !IsDelayed(lines[i]) || first == |lines| then Padding(lines, i) == []
      else if Targets(lines[first], lines[i].operands[0]) then Slots(Padding(lines, i)) == 10
      else
        var second := NextInstr(lines, first + 1);
        if second < |lines| && Targets(lines[second], lines[i].operands[0]) then Slots(Padding(lines, i)) == 9
        else Padding(lines, i) == []
  {
    hide Slots, Nops, IsDelayed;
    if IsDelayed(lines[i]) {
      WithOperand(lines[i]);
      if Clash(lines, i, lines[i].operands[0]) < 2 {
        ClashPadding(lines, i);
      }
    }
  }

  lemma WithOperand(l: Line)
    requires IsDelayed(l)
    ensures l.operands != []
  {
  }
}
