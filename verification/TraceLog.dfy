/** Correlation of an execution log: delayed register writes ("nbL", "nbD") are
    paired with the loads and divisions they belong to, in either arrival order.
    The lines of the log are given as parsed events. */
module TraceLog {
  import opened Basics

  /** Loads get their value from "nbL" lines, divisions from "nbD" lines. */
  datatype Delay = NbL | NbD

  datatype Kind = Delayed(delay: Delay) | Plain

  datatype Gpr = Gpr(reg: string, val: string)

  datatype Event =
    | Instr(pc: string, opc: string, kind: Kind, operands: seq<string>, gpr: Option<Gpr>, csr: Option<string>)
    | Ecall
    | Nb(delay: Delay, reg: string, val: string)
    | Other

  /** A register write and the log line it comes from. */
  datatype Write = Write(line: nat, reg: string, val: string)

  /** Address and encoding, and the log line they come from. */
  datatype Fetch = Fetch(line: nat, pc: string, opc: string)

  datatype Operand = NbText(delay: Delay) | InstrText(kind: Kind, operands: seq<string>)

  /** A trace entry; `line` is the log line that created it. */
  datatype Entry = Entry(line: nat, fetch: Option<Fetch>, operand: Operand, gpr: seq<Write>, csr: seq<string>)

  datatype Status = Running | Stopped | Failed

  datatype Parser = Parser(line: nat, data: seq<Entry>, queue: seq<Entry>, status: Status)

  const START := Parser(0, [], [], Running)

  const LIMIT := 1000

  // ----- one line of the log -------------------------------------------------------------------

  predicate Complete(e: Entry) { e.fetch.Some? && e.gpr != [] }

  predicate IsNbFor(e: Entry, d: Delay, reg: string) {
    e.operand == NbText(d) && e.gpr != [] && e.gpr[0].reg == reg
  }

  /** A load or division entry of this kind. */
  predicate IsInstr(e: Entry, d: Delay) { e.operand.InstrText? && e.operand.kind == Delayed(d) }

  predicate IsInstrFor(e: Entry, d: Delay, reg: string) {
    IsInstr(e, d) && e.operand.operands != [] && e.operand.operands[0] == reg
  }

  /** The last entry waiting for its instruction, or -1. */
  function LastNb(q: seq<Entry>, d: Delay, reg: string): (i: int)
    ensures -1 <= i < |q| && (i >= 0 ==> IsNbFor(q[i], d, reg))
    ensures forall k | i < k < |q| && 0 <= k :: !IsNbFor(q[k], d, reg)
  {
    if q == [] then -1
    else if IsNbFor(q[|q| - 1], d, reg) then |q| - 1
    else LastNb(q[..|q| - 1], d, reg)
  }

  /** The last instruction entry for this register, -1 if there is none, or -2 if
      the search meets an instruction without operands. */
  function LastInstr(q: seq<Entry>, d: Delay, reg: string): (i: int)
    ensures -2 <= i < |q| && (i >= 0 ==> IsInstrFor(q[i], d, reg))
    ensures i == -2 ==> exists k :: 0 <= k < |q| && IsInstr(q[k], d) && q[k].operand.operands == []
    ensures i >= -1 ==> forall k | i < k < |q| && 0 <= k :: !IsInstrFor(q[k], d, reg)
  {
    if q == [] then -1
    else
      var e := q[|q| - 1];
      if IsInstr(e, d) && e.operand.operands == [] then -2
      else if IsInstrFor(e, d, reg) then |q| - 1
      else LastInstr(q[..|q| - 1], d, reg)
  }

  /** How many entries at the head of the queue have all they need. */
  function Ripe(q: seq<Entry>): (n: nat)
    ensures n <= |q| && (forall k | 0 <= k < n :: Complete(q[k])) && (n < |q| ==> !Complete(q[n]))
  {
    if q == [] || !Complete(q[0]) then 0 else 1 + Ripe(q[1..])
  }

  /** Dequeues what is complete, then the safeguard. */
  function Drain(p: Parser): Parser {
    var n := Ripe(p.queue);
    p.(line := p.line + 1, data := p.data + p.queue[..n], queue := p.queue[n..],
       status := if |p.queue| - n >= LIMIT then Failed else Running)
  }

  function Listed<T>(o: Option<T>): seq<T> { match o case None => [] case Some(x) => [x] }

  function InstrEntry(line: nat, e: Event): Entry
    requires e.Instr?
  {
    Entry(line, Some(Fetch(line, e.pc, e.opc)), InstrText(e.kind, e.operands),
          match e.gpr case None => [] case Some(g) => [Write(line, g.reg, g.val)], Listed(e.csr))
  }

  function NbEntry(line: nat, e: Event): Entry
    requires e.Nb?
  {
    Entry(line, None, NbText(e.delay), [Write(line, e.reg, e.val)], [])
  }

  /** The instruction fills in the entry its delayed write has created. */
  function Filled(nb: Entry, line: nat, e: Event): Entry
    requires e.Instr?
  {
    nb.(fetch := Some(Fetch(line, e.pc, e.opc)), operand := InstrText(e.kind, e.operands),
        csr := nb.csr + Listed(e.csr))
  }

  function OnInstr(p: Parser, e: Event): Parser
    requires e.Instr?
  {
    if e.gpr.None? && e.kind.Delayed? then
      if e.operands == [] then p.(line := p.line + 1, status := Failed)
      else if e.operands[0] == "zero" then p.(line := p.line + 1)
      else
        var i := LastNb(p.queue, e.kind.delay, e.operands[0]);
        Drain(if i >= 0 then p.(queue := p.queue[i := Filled(p.queue[i], p.line, e)])
              else p.(queue := p.queue + [InstrEntry(p.line, e)]))
    else if e.gpr.Some? || e.kind.Delayed? then Drain(p.(queue := p.queue + [InstrEntry(p.line, e)]))
    else Drain(p)
  }

  function OnNb(p: Parser, e: Event): Parser
    requires e.Nb?
  {
    if e.reg == "zero" then p.(line := p.line + 1)
    else
      var i := LastInstr(p.queue, e.delay, e.reg);
      if i == -2 then p.(line := p.line + 1, status := Failed)
      else if i >= 0 then
        Drain(p.(queue := p.queue[i := p.queue[i].(gpr := p.queue[i].gpr + [Write(p.line, e.reg, e.val)])]))
      else Drain(p.(queue := p.queue + [NbEntry(p.line, e)]))
  }

  function Line(p: Parser, e: Event): Parser
    requires p.status == Running
  {
    match e
    case Instr(_, _, _, _, _, _) => OnInstr(p, e)
    case Ecall => p.(line := p.line + 1, status := Stopped)
    case Nb(_, _, _) => OnNb(p, e)
    case Other => Drain(p)
  }

  /** The whole log, up to an ecall or a failure. */
  function Parse(p: Parser, log: seq<Event>): (r: Parser)
    decreases |log|
  {
    if log == [] || p.status != Running then p else Parse(Line(p, log[0]), log[1..])
  }

  // ----- the parser's loops ------------------------------------------------------------------------

  method SearchNb(queue: seq<Entry>, d: Delay, reg: string) returns (i: int)
    ensures i == LastNb(queue, d, reg)
  {
    i := |queue| - 1;
    while i >= 0 && !IsNbFor(queue[i], d, reg)
      invariant -1 <= i < |queue|
      invariant LastNb(queue, d, reg) == LastNb(queue[..i + 1], d, reg)
    {
      assert queue[..i + 1][..i] == queue[..i];
      i := i - 1;
    }
  }

  method SearchInstr(queue: seq<Entry>, d: Delay, reg: string) returns (i: int)
    ensures i == LastInstr(queue, d, reg)
  {
    i := |queue| - 1;
    assert queue[..|queue|] == queue;
    while i >= 0
      invariant -1 <= i < |queue|
      invariant LastInstr(queue, d, reg) == LastInstr(queue[..i + 1], d, reg)
    {
      assert queue[..i + 1][..i] == queue[..i];
      if IsInstr(queue[i], d) {
        if queue[i].operand.operands == [] {
          return -2;
        }
        if queue[i].operand.operands[0] == reg {
          return;
        }
      }
      i := i - 1;
    }
  }

  method Dequeue(data0: seq<Entry>, queue0: seq<Entry>) returns (data: seq<Entry>, queue: seq<Entry>)
    ensures var n := Ripe(queue0); data == data0 + queue0[..n] && queue == queue0[n..]
  {
    data, queue := data0, queue0;
    ghost var k := 0;
    while queue != [] && Complete(queue[0])
      invariant k <= |queue0| && queue == queue0[k..] && data == data0 + queue0[..k]
      invariant Ripe(queue0) == k + Ripe(queue)
      decreases |queue|
    {
      data := data + [queue[0]];
      queue := queue[1..];
      k := k + 1;
    }
  }

  method ParseLog(log: seq<Event>) returns (data: seq<Entry>, status: Status)
    ensures var p := Parse(START, log); data == p.data && status == p.status
  {
    hide LastNb, LastInstr, Ripe, IsNbFor, IsInstrFor, InstrEntry, NbEntry, Filled, Parse;
    var queue: seq<Entry> := [];
    data := [];
    status := Running;
    var i := 0;
    assert log[0..] == log;
    while i < |log| && status == Running
      invariant 0 <= i <= |log|
      invariant Parse(START, log) == Parse(Parser(i, data, queue, status), log[i..])
    {
      ghost var p := Parser(i, data, queue, status);
      ParseOne(p, log, i);
      var e := log[i];
      var skip := false;
      match e {
        case Ecall => status := Stopped; skip := true;
        case Other =>
        case Instr(_, _, kind, operands, gpr, _) =>
          var at := -1;
          if gpr.None? && kind.Delayed? {
            if operands == [] {
              status, skip := Failed, true;
            } else if operands[0] == "zero" {
              skip := true;
            } else {
              at := SearchNb(queue, kind.delay, operands[0]);
            }
          }
          if !skip {
            if at >= 0 {
              queue := queue[at := Filled(queue[at], i, e)];
            } else if gpr.Some? || kind.Delayed? {
              queue := queue + [InstrEntry(i, e)];
            }
          }
        case Nb(delay, reg, val) =>
          if reg == "zero" {
            skip := true;
          } else {
            var at := SearchInstr(queue, delay, reg);
            if at == -2 {
              status, skip := Failed, true;
            } else if at >= 0 {
              queue := queue[at := queue[at].(gpr := queue[at].gpr + [Write(i, reg, val)])];
            } else {
              queue := queue + [NbEntry(i, e)];
            }
          }
      }
      if !skip {
        data, queue := Dequeue(data, queue);
        if |queue| >= LIMIT {
          status := Failed;
        }
      }
      i := i + 1;
      assert Parser(i, data, queue, status) == Line(p, e);
    }
    ParseDone(Parser(i, data, queue, status), log[i..]);
  }

  lemma ParseOne(p: Parser, log: seq<Event>, i: nat)
    requires i < |log| && p.status == Running
    ensures Parse(p, log[i..]) == Parse(Line(p, log[i]), log[i + 1..])
  {
    hide Line;
    assert log[i..][1..] == log[i + 1..];
  }

  lemma ParseDone(p: Parser, rest: seq<Event>)
    requires rest == [] || p.status != Running
    ensures Parse(p, rest) == p
  {
  }

  // ----- what a line changes -----------------------------------------------------------------------

  /** Emitted and queued entries together. */
  function All(p: Parser): seq<Entry> { p.data + p.queue }

  datatype Edit = Same | Append(entry: Entry) | Replace(at: nat, entry: Entry)

  function EditOf(p: Parser, e: Event): Edit {
    match e
    case Ecall => Same
    case Other => Same
    case Instr(_, _, kind, operands, gpr, _) =>
      if gpr.None? && kind.Delayed? then
        if operands == [] || operands[0] == "zero" then Same
        else
          var i := LastNb(p.queue, kind.delay, operands[0]);
          if i >= 0 then Replace(|p.data| + i, Filled(p.queue[i], p.line, e)) else Append(InstrEntry(p.line, e))
      else if gpr.Some? then Append(InstrEntry(p.line, e)) else Same
    case Nb(delay, reg, val) =>
      if reg == "zero" then Same
      else
        var i := LastInstr(p.queue, delay, reg);
        if i == -2 then Same
        else if i >= 0 then Replace(|p.data| + i, p.queue[i].(gpr := p.queue[i].gpr + [Write(p.line, reg, val)]))
        else Append(NbEntry(p.line, e))
  }

  function Apply(a: seq<Entry>, edit: Edit): seq<Entry>
    requires edit.Replace? ==> edit.at < |a|
  {
    match edit
    case Same => a
    case Append(x) => a + [x]
    case Replace(k, x) => a[k := x]
  }

  lemma LineEdits(p: Parser, e: Event)
    requires p.status == Running
    ensures var edit := EditOf(p, e);
      && (edit.Replace? ==> |p.data| <= edit.at < |All(p)|)
      && All(Line(p, e)) == Apply(All(p), edit)
  {
    hide LastNb, LastInstr, Drain, OnInstr, OnNb, All;
    DrainAll(p);
    match e
    case Instr(_, _, _, _, _, _) => InstrEdits(p, e);
    case Nb(_, _, _) => NbEdits(p, e);
    case Ecall => SameAll(p, Line(p, e));
    case Other =>
  }

  lemma DrainAll(p: Parser)
    ensures All(Drain(p)) == All(p)
  {
    hide Ripe;
    var n := Ripe(p.queue);
    assert p.queue[..n] + p.queue[n..] == p.queue;
  }

  lemma SameAll(p: Parser, r: Parser)
    requires p.data == r.data && p.queue == r.queue
    ensures All(p) == All(r)
  {
  }

  lemma EditQueue(p: Parser, x: Entry, i: nat)
    ensures All(p.(queue := p.queue + [x])) == All(p) + [x]
    ensures i < |p.queue| ==> |p.data| + i < |All(p)| && All(p.(queue := p.queue[i := x])) == All(p)[|p.data| + i := x]
  {
  }

  lemma InstrEdits(p: Parser, e: Event)
    requires p.status == Running && e.Instr?
    ensures var edit := EditOf(p, e);
      && (edit.Replace? ==> |p.data| <= edit.at < |All(p)|)
      && All(OnInstr(p, e)) == Apply(All(p), edit)
  {
    hide LastNb, LastInstr, Drain, All, Filled, InstrEntry;
    DrainAll(p);
    SameAll(p, p.(line := p.line + 1));
    SameAll(p, p.(line := p.line + 1, status := Failed));
    EditQueue(p, InstrEntry(p.line, e), 0);
    DrainAll(p.(queue := p.queue + [InstrEntry(p.line, e)]));
    if e.gpr.None? && e.kind.Delayed? && e.operands != [] {
      var i := LastNb(p.queue, e.kind.delay, e.operands[0]);
      if i >= 0 {
        var x := Filled(p.queue[i], p.line, e);
        EditQueue(p, x, i);
        DrainAll(p.(queue := p.queue[i := x]));
      }
    }
  }

  lemma NbEdits(p: Parser, e: Event)
    requires p.status == Running && e.Nb?
    ensures var edit := EditOf(p, e);
      && (edit.Replace? ==> |p.data| <= edit.at < |All(p)|)
      && All(OnNb(p, e)) == Apply(All(p), edit)
  {
    hide LastNb, LastInstr, Drain, All, NbEntry;
    SameAll(p, p.(line := p.line + 1));
    SameAll(p, p.(line := p.line + 1, status := Failed));
    EditQueue(p, NbEntry(p.line, e), 0);
    DrainAll(p.(queue := p.queue + [NbEntry(p.line, e)]));
    var i := LastInstr(p.queue, e.delay, e.reg);
    if i >= 0 {
      var x := p.queue[i].(gpr := p.queue[i].gpr + [Write(p.line, e.reg, e.val)]);
      EditQueue(p, x, i);
      DrainAll(p.(queue := p.queue[i := x]));
    }
  }

  // ----- the writes -----------------------------------------------------------------------------------

  function Writes(a: seq<Entry>): seq<Write> {
    if a == [] then [] else Writes(a[..|a| - 1]) + a[|a| - 1].gpr
  }

  /** The register writes that a line of the log reports. */
  function LineWrites(k: nat, e: Event): seq<Write> {
    match e
    case Instr(_, _, _, _, Some(g), _) => [Write(k, g.reg, g.val)]
    case Nb(_, reg, val) => if reg == "zero" then [] else [Write(k, reg, val)]
    case _ => []
  }

  function LogWrites(log: seq<Event>): seq<Write> {
    if log == [] then [] else LogWrites(log[..|log| - 1]) + LineWrites(|log| - 1, log[|log| - 1])
  }

  /** The writes of a log are exactly the register values that its lines report, a
      register zero in a delayed write left out, and no line reports two. */
  lemma {:induction false} WritesReported(log: seq<Event>)
    ensures forall w {:trigger w in LogWrites(log)} :: w in LogWrites(log) <==>
      && w.line < |log| && var e := log[w.line];
      || (e.Instr? && e.gpr == Some(Gpr(w.reg, w.val)))
      || (e.Nb? && w.reg != "zero" && e.reg == w.reg && e.val == w.val)
    ensures forall i, j | 0 <= i < j < |LogWrites(log)| :: LogWrites(log)[i].line < LogWrites(log)[j].line
    decreases |log|
  {
    if log != [] {
      var n := |log| - 1;
      WritesReported(log[..n]);
      var init, last := LogWrites(log[..n]), LineWrites(n, log[n]);
      assert forall i | 0 <= i < |init| :: init[i].line < n by {
        forall i | 0 <= i < |init| ensures init[i].line < n {
          assert init[i] in init;
        }
      }
      assert forall w :: w in last ==> w.line == n;
    }
  }

  lemma {:induction false} WritesReplace(a: seq<Entry>, k: nat, x: Entry, more: seq<Write>)
    requires k < |a| && x.gpr == a[k].gpr + more
    ensures multiset(Writes(a[k := x])) == multiset(Writes(a)) + multiset(more)
    decreases |a|
  {
    var b, n := a[k := x], |a| - 1;
    if k == n {
      assert b[..n] == a[..n];
    } else {
      WritesReplace(a[..n], k, x, more);
      assert b[..n] == a[..n][k := x];
    }
  }

  /** An edit carries exactly the writes of its line. */
  lemma EditAdds(p: Parser, e: Event)
    requires e.Instr? && e.gpr.None? && e.kind.Delayed? ==> e.operands != []
    requires e.Nb? && e.reg != "zero" ==> LastInstr(p.queue, e.delay, e.reg) != -2
    ensures match EditOf(p, e)
      case Same => LineWrites(p.line, e) == []
      case Append(x) => x.gpr == LineWrites(p.line, e)
      case Replace(k, x) =>
        && |p.data| <= k < |p.data| + |p.queue|
        && x.gpr == p.queue[k - |p.data|].gpr + LineWrites(p.line, e)
  {
    hide LastNb, LastInstr, IsNbFor, IsInstrFor;
  }

  lemma {:induction false} WritesApply(a: seq<Entry>, edit: Edit, more: seq<Write>)
    requires match edit
      case Same => more == []
      case Append(x) => x.gpr == more
      case Replace(k, x) => k < |a| && x.gpr == a[k].gpr + more
    ensures multiset(Writes(Apply(a, edit))) == multiset(Writes(a)) + multiset(more)
  {
    match edit
    case Same =>
    case Append(x) => assert (a + [x])[..|a|] == a;
    case Replace(k, x) => WritesReplace(a, k, x, more);
  }

  lemma EditWrites(p: Parser, e: Event)
    requires p.status == Running && Line(p, e).status != Failed
    ensures multiset(Writes(All(Line(p, e)))) == multiset(Writes(All(p))) + multiset(LineWrites(p.line, e))
  {
    hide LastNb, LastInstr, Line, EditOf, Writes, LineWrites, Apply;
    LineEdits(p, e);
    Succeeds(p, e);
    EditAdds(p, e);
    WritesApply(All(p), EditOf(p, e), LineWrites(p.line, e));
  }

  lemma Succeeds(p: Parser, e: Event)
    requires p.status == Running && Line(p, e).status != Failed
    ensures e.Instr? && e.gpr.None? && e.kind.Delayed? ==> e.operands != []
    ensures e.Nb? && e.reg != "zero" ==> LastInstr(p.queue, e.delay, e.reg) != -2
  {
  }

  // ----- what every prefix of every log keeps ---------------------------------------------------------

  /** An entry says what the log says: its instruction line gives address, encoding
      and text; without one it stands for one delayed write. */
  ghost predicate EntryOk(e: Entry, log: seq<Event>, n: nat)
    requires n <= |log|
  {
    && e.line < n
    && match e.fetch
       case None =>
         var ev := log[e.line];
         && ev.Nb? && ev.reg != "zero" && e.operand == NbText(ev.delay) && e.gpr == [Write(e.line, ev.reg, ev.val)]
         && e.csr == []
       case Some(f) =>
         f.line < n && var ev := log[f.line];
         && ev.Instr? && f == Fetch(f.line, ev.pc, ev.opc) && e.operand == InstrText(ev.kind, ev.operands)
         && e.csr == if ev.csr.Some? then [ev.csr.value] else []
  }

  /** Entries stand in the order of first appearance, and no two share an
      instruction. */
  ghost predicate InOrder(a: seq<Entry>) {
    forall i, j | 0 <= i < j < |a| ::
      a[i].line < a[j].line && (a[i].fetch.Some? && a[j].fetch.Some? ==> a[i].fetch.value.line != a[j].fetch.value.line)
  }

  ghost predicate EntriesOk(a: seq<Entry>, log: seq<Event>, n: nat)
    requires n <= |log|
  {
    InOrder(a) && forall i | 0 <= i < |a| :: EntryOk(a[i], log, n)
  }

  /** Emitted entries are complete, and the head of the queue is not. */
  ghost predicate Split(p: Parser) {
    (forall i | 0 <= i < |p.data| :: Complete(p.data[i])) && (p.queue != [] ==> !Complete(p.queue[0]))
  }

  ghost predicate ParserInv(p: Parser, log: seq<Event>) {
    && p.line <= |log| && EntriesOk(All(p), log, p.line) && Split(p)
    && multiset(Writes(All(p))) == multiset(LogWrites(log[..p.line]))
    && (p.status == Running ==> |p.queue| < 1000)
  }

  lemma LineSplits(p: Parser, e: Event)
    requires p.status == Running && Split(p)
    ensures Split(Line(p, e))
  {
    hide Drain, Split, LastNb, LastInstr, IsNbFor, IsInstrFor;
    forall q: seq<Entry> ensures Split(Drain(p.(queue := q))) {
      DrainSplits(p, q);
    }
    assert p.(queue := p.queue) == p;
    SameSplit(p, p.(line := p.line + 1));
    SameSplit(p, p.(line := p.line + 1, status := Failed));
    SameSplit(p, p.(line := p.line + 1, status := Stopped));
  }

  lemma DrainSplits(p: Parser, q: seq<Entry>)
    requires Split(p)
    ensures Split(Drain(p.(queue := q)))
  {
    hide Complete;
  }

  lemma SameSplit(p: Parser, r: Parser)
    requires Split(p) && p.data == r.data && p.queue == r.queue
    ensures Split(r)
  {
  }

  lemma LineKeepsEntries(p: Parser, log: seq<Event>)
    requires p.status == Running && p.line < |log| && EntriesOk(All(p), log, p.line)
    requires Line(p, log[p.line]).status != Failed
    ensures EntriesOk(All(Line(p, log[p.line])), log, p.line + 1)
  {
    hide Line, EditOf, EntryOk, All;
    var e := log[p.line];
    LineEdits(p, e);
    EditFits(p, log);
    var a, edit := All(p), EditOf(p, e);
    var b := Apply(a, edit);
    OlderOk(a, log, p.line);
    match edit
    case Same =>
    case Append(x) => FetchedBefore(a, log, p.line);
    case Replace(k, x) =>
      FetchedBefore(a, log, p.line);
      assert forall i | 0 <= i < |b| && i != k :: b[i] == a[i];
  }

  lemma OlderOk(a: seq<Entry>, log: seq<Event>, n: nat)
    requires n < |log| && EntriesOk(a, log, n)
    ensures forall i | 0 <= i < |a| :: EntryOk(a[i], log, n + 1)
  {
  }

  lemma FetchedBefore(a: seq<Entry>, log: seq<Event>, n: nat)
    requires n <= |log| && EntriesOk(a, log, n)
    ensures forall i | 0 <= i < |a| :: a[i].line < n && (a[i].fetch.Some? ==> a[i].fetch.value.line < n)
  {
  }

  /** The entry that a line writes agrees with the log; a replaced entry keeps its
      place, its writes and, if it has one, its instruction. */
  lemma EditFits(p: Parser, log: seq<Event>)
    requires p.status == Running && p.line < |log| && EntriesOk(All(p), log, p.line)
    ensures match EditOf(p, log[p.line])
      case Same => true
      case Append(x) =>
        EntryOk(x, log, p.line + 1) && x.line == p.line && (x.fetch.Some? ==> x.fetch.value.line == p.line)
      case Replace(k, x) =>
        && k < |All(p)| && var y := All(p)[k];
        && EntryOk(x, log, p.line + 1) && x.line == y.line && y.gpr <= x.gpr
        && (y.fetch.Some? ==> x.fetch == y.fetch && x.operand == y.operand)
        && (y.fetch.None? ==> x.fetch.Some? && x.fetch.value.line == p.line && x.gpr == y.gpr)
  {
    hide LastNb, LastInstr;
    var e := log[p.line];
    match EditOf(p, e)
    case Replace(k, _) =>
      assert All(p)[k] == p.queue[k - |p.data|];
      assert EntryOk(All(p)[k], log, p.line);
    case _ =>
  }

  lemma LineKeepsInv(p: Parser, log: seq<Event>)
    requires p.status == Running && p.line < |log| && ParserInv(p, log)
    requires Line(p, log[p.line]).status != Failed
    ensures ParserInv(Line(p, log[p.line]), log)
  {
    hide Line, EntriesOk, Split, Writes, All, LineWrites;
    var e := log[p.line];
    LineKeepsEntries(p, log);
    LineSplits(p, e);
    EditWrites(p, e);
    NextLine(p, e);
    Failures(p, e);
    assert log[..p.line + 1][..p.line] == log[..p.line];
  }

  /** Parsing fails on a delayed instruction without operands, on a search that meets
      one, and when the queue has grown to 1000 entries, and on nothing else. */
  lemma Failures(p: Parser, e: Event)
    requires p.status == Running && |p.queue| < 1000
    ensures Line(p, e).status == Failed <==>
      || (e.Instr? && e.gpr.None? && e.kind.Delayed? && e.operands == [])
      || (e.Nb? && e.reg != "zero" && LastInstr(p.queue, e.delay, e.reg) == -2)
      || |Line(p, e).queue| >= 1000
  {
    hide LastNb, LastInstr, Ripe, IsNbFor, IsInstrFor, InstrEntry, NbEntry, Filled;
  }

  lemma NextLine(p: Parser, e: Event)
    requires p.status == Running
    ensures Line(p, e).line == p.line + 1
  {
    hide LastNb, LastInstr, Ripe;
  }

  lemma {:induction false} ParseKeepsInv(p: Parser, log: seq<Event>)
    requires p.line <= |log| && ParserInv(p, log)
    requires Parse(p, log[p.line..]).status != Failed
    ensures ParserInv(Parse(p, log[p.line..]), log)
    decreases |log| - p.line
  {
    hide Line, ParserInv;
    if p.line < |log| && p.status == Running {
      var next := Line(p, log[p.line]);
      NextLine(p, log[p.line]);
      assert log[p.line..][1..] == log[p.line + 1..];
      assert next.status != Failed;
      LineKeepsInv(p, log);
      ParseKeepsInv(next, log);
    }
  }

  /** For every log that does not fail: each register write that the parser has
      read is in exactly one entry exactly once, every entry agrees with its
      instruction line, emitted entries are complete, and emitted and queued
      entries together stand in order of first appearance. */
  lemma EveryWriteOnce(log: seq<Event>)
    requires Parse(START, log).status != Failed
    ensures var p := Parse(START, log);
      && p.line <= |log|
      && multiset(Writes(All(p))) == multiset(LogWrites(log[..p.line]))
      && InOrder(All(p)) && Split(p) && (p.status == Running ==> |p.queue| < 1000)
      && forall i | 0 <= i < |All(p)| :: EntryOk(All(p)[i], log, p.line)
  {
    hide Parse;
    assert log[0..] == log && log[..0] == [];
    ParseKeepsInv(START, log);
  }

  /** Lines only add to entries: an address once set stays, and so do writes. */
  lemma LineOnlyAdds(p: Parser, log: seq<Event>, i: nat)
    requires p.status == Running && p.line < |log| && ParserInv(p, log) && i < |All(p)|
    ensures var a, b := All(p), All(Line(p, log[p.line]));
      && i < |b| && b[i].line == a[i].line && a[i].gpr <= b[i].gpr
      && (a[i].fetch.Some? ==> b[i].fetch == a[i].fetch && b[i].operand == a[i].operand)
  {
    hide EditOf, Line, All;
    LineEdits(p, log[p.line]);
    EditFits(p, log);
  }
}
