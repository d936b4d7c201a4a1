/** When every delayed load and division gets its own value: a discipline of the
    log, and what happens without it. */
module TraceFair {
  import opened Basics
  import opened TraceLog

  /** An instruction that waits for its write, or a write that came early. */
  datatype Open = Waiting(line: nat) | Early(line: nat)

  type Slot = (Delay, string)

  /** What is open per kind and register, and which write belongs to which
      instruction, both by line number. */
  datatype Track = Track(open: map<Slot, Open>, own: map<nat, nat>)

  const CLOSED := Track(map[], map[])

  predicate HasSlot(e: Event) {
    match e
    case Instr(_, _, kind, operands, _, _) => kind.Delayed? && operands != []
    case Nb(_, _, _) => true
    case _ => false
  }

  function SlotOf(e: Event): Slot
    requires HasSlot(e)
  {
    match e
    case Instr(_, _, kind, operands, _, _) => (kind.delay, operands[0])
    case Nb(delay, reg, _) => (delay, reg)
  }

  /** The discipline: between two instructions of a kind to a register the first one
      gets its write, and between two such writes there is an instruction. */
  predicate Natural(t: Track, e: Event) {
    HasSlot(e) && SlotOf(e).1 != "zero" && SlotOf(e) in t.open ==>
      if e.Instr? then t.open[SlotOf(e)].Early? else t.open[SlotOf(e)].Waiting?
  }

  /** The line of the entry that the instruction on line k ends up in: its own, or
      that of its write if the write came first. */
  function EntryLine(own: map<nat, nat>, k: nat): nat {
    if k in own && own[k] < k then own[k] else k
  }

  /** The instruction on line k has its write, but waits behind an entry that is
      still open. */
  ghost predicate HeldBack(t: Track, k: nat) {
    exists r :: r in t.open && t.open[r].line < EntryLine(t.own, k)
  }

  /** A write before its instruction that meets an earlier instruction of its kind
      to its register that is held back. */
  ghost predicate Astray(t: Track, log: seq<Event>, n: nat)
    requires n < |log|
  {
    && log[n].Nb? && log[n].reg != "zero" && SlotOf(log[n]) !in t.open
    && exists k :: 0 <= k < n && IsUse(log[k], SlotOf(log[n])) && HeldBack(t, k)
  }

  predicate IsUse(e: Event, s: Slot) { e.Instr? && HasSlot(e) && SlotOf(e) == s }

  function Tracked(t: Track, line: nat, e: Event): Track {
    if !HasSlot(e) || SlotOf(e).1 == "zero" || (e.Instr? && e.gpr.Some?) then t
    else
      var s := SlotOf(e);
      if e.Instr? then
        if s in t.open then Track(t.open - {s}, t.own[line := t.open[s].line])
        else t.(open := t.open[s := Waiting(line)])
      else
        if s in t.open then Track(t.open - {s}, t.own[t.open[s].line := line])
        else t.(open := t.open[s := Early(line)])
  }

  /** The writes that the instruction on line k should have. */
  function Expected(log: seq<Event>, own: map<nat, nat>, k: nat): seq<Write> {
    if k >= |log| || !log[k].Instr? then []
    else if log[k].gpr.Some? then [Write(k, log[k].gpr.value.reg, log[k].gpr.value.val)]
    else if k in own && own[k] < |log| && log[own[k]].Nb? then [Write(own[k], log[own[k]].reg, log[own[k]].val)]
    else []
  }

  ghost predicate IsWaiting(e: Entry, s: Slot, k: nat) {
    e.line == k && e.fetch.Some? && e.fetch.value.line == k && IsInstrFor(e, s.0, s.1) && e.gpr == []
  }

  ghost predicate SlotOk(a: seq<Entry>, log: seq<Event>, t: Track, s: Slot, n: nat)
    requires s in t.open && n <= |log|
  {
    match t.open[s]
    case Waiting(k) =>
      && k < n && k !in t.own && HasSlot(log[k]) && SlotOf(log[k]) == s && log[k].Instr? && log[k].gpr.None?
      && (exists x :: 0 <= x < |a| && IsWaiting(a[x], s, k))
      && (forall x | 0 <= x < |a| :: IsInstrFor(a[x], s.0, s.1) ==> a[x].line <= k)
    case Early(k) =>
      && k < n && (exists x :: 0 <= x < |a| && a[x].line == k && a[x].fetch.None? && IsNbFor(a[x], s.0, s.1))
  }

  ghost predicate Served(e: Entry, log: seq<Event>, t: Track) {
    match e.fetch
    case Some(f) => e.gpr == Expected(log, t.own, f.line)
    case None =>
      && e.line < |log| && var ev := log[e.line];
      ev.Nb? && (ev.delay, ev.reg) in t.open && t.open[(ev.delay, ev.reg)] == Early(e.line)
  }

  ghost predicate AllServed(a: seq<Entry>, log: seq<Event>, t: Track) {
    forall i | 0 <= i < |a| :: Served(a[i], log, t)
  }

  /** A write of the instruction's kind to the instruction's register. */
  predicate Belongs(w: Event, e: Event) {
    w.Nb? && e.Instr? && HasSlot(e) && SlotOf(w) == SlotOf(e)
  }

  ghost predicate SlotsOk(a: seq<Entry>, log: seq<Event>, t: Track, n: nat)
    requires n <= |log|
  {
    && (forall s | s in t.open :: s.1 != "zero" && SlotOk(a, log, t, s, n))
    && (forall k | k in t.own :: k < n && t.own[k] < n && Belongs(log[t.own[k]], log[k]))
  }

  ghost predicate FairInv(a: seq<Entry>, t: Track, log: seq<Event>, n: nat) {
    n <= |log| && EntriesOk(a, log, n) && AllServed(a, log, t) && SlotsOk(a, log, t, n)
  }

  /** An entry with an instruction stands on the line that the pairing gives, and
      without a write it is the one its slot waits for. */
  ghost predicate InPlace(e: Entry, log: seq<Event>, t: Track) {
    e.fetch.Some? ==>
      && e.line == EntryLine(t.own, e.fetch.value.line)
      && (e.gpr == [] ==>
        && e.fetch.value.line < |log| && HasSlot(log[e.fetch.value.line])
        && var s := SlotOf(log[e.fetch.value.line]); s in t.open && t.open[s] == Waiting(e.line))
  }

  ghost predicate HasEntry(a: seq<Entry>, k: nat) {
    exists x :: 0 <= x < |a| && a[x].fetch.Some? && a[x].fetch.value.line == k
  }

  /** Every entry is in its place, and every load and division has one. */
  ghost predicate Placed(a: seq<Entry>, t: Track, log: seq<Event>, n: nat)
    requires n <= |log|
  {
    && (forall i | 0 <= i < |a| :: InPlace(a[i], log, t))
    && (forall k | 0 <= k < n && IsDelayedUse(log[k]) :: HasEntry(a, k))
  }

  predicate IsDelayedUse(e: Event) { e.Instr? && HasSlot(e) && SlotOf(e).1 != "zero" }

  // ----- where the searches lead ------------------------------------------------------------------

  /** No early write is open: the search for one fails. */
  lemma NoEarly(p: Parser, t: Track, log: seq<Event>, s: Slot)
    requires FairInv(All(p), t, log, p.line) && s !in t.open
    ensures LastNb(p.queue, s.0, s.1) == -1
  {
    forall i | 0 <= i < |p.queue| ensures !IsNbFor(p.queue[i], s.0, s.1) {
      var x := All(p)[|p.data| + i];
      assert x == p.queue[i] && EntryOk(x, log, p.line) && Served(x, log, t);
    }
  }

  /** The open early write is the one that is found. */
  lemma FindsEarly(p: Parser, t: Track, log: seq<Event>, s: Slot) returns (i: nat)
    requires FairInv(All(p), t, log, p.line) && Split(p) && s in t.open && t.open[s].Early?
    ensures i < |p.queue| && i == LastNb(p.queue, s.0, s.1) && p.queue[i].line == t.open[s].line
    ensures p.queue[i].fetch.None?
  {
    hide Expected, LastNb, InOrder, All;
    var a, n := All(p), |p.data|;
    assert SlotOk(a, log, t, s, p.line);
    var x :| 0 <= x < |a| && a[x].line == t.open[s].line && a[x].fetch.None? && IsNbFor(a[x], s.0, s.1);
    Queued(p, x);
    i := LastNb(p.queue, s.0, s.1);
    QueueAt(p, i);
    assert EntryOk(a[n + i], log, p.line) && Served(a[n + i], log, t);
  }

  lemma Queued(p: Parser, x: nat)
    requires Split(p) && x < |All(p)| && !Complete(All(p)[x])
    ensures |p.data| <= x < |p.data| + |p.queue| && p.queue[x - |p.data|] == All(p)[x]
  {
  }

  lemma QueueAt(p: Parser, i: nat)
    requires i < |p.queue|
    ensures |All(p)| == |p.data| + |p.queue| && All(p)[|p.data| + i] == p.queue[i]
  {
  }

  /** The waiting instruction is the one that is found. */
  lemma FindsWaiting(p: Parser, t: Track, log: seq<Event>, s: Slot) returns (i: nat)
    requires FairInv(All(p), t, log, p.line) && Split(p) && s in t.open && t.open[s].Waiting?
    requires LastInstr(p.queue, s.0, s.1) != -2
    ensures i < |p.queue| && i == LastInstr(p.queue, s.0, s.1) && IsWaiting(p.queue[i], s, t.open[s].line)
  {
    hide Served, Expected, LastInstr, EntryOk, All;
    var a, n, k := All(p), |p.data|, t.open[s].line;
    assert SlotOk(a, log, t, s, p.line);
    var x :| 0 <= x < |a| && IsWaiting(a[x], s, k);
    Queued(p, x);
    i := LastInstr(p.queue, s.0, s.1);
    QueueAt(p, i);
    assert a[n + i].line <= k;
    assert x == n + i;
  }

  // ----- every line keeps the invariant --------------------------------------------------------------

  lemma SlotKept(a: seq<Entry>, b: seq<Entry>, log: seq<Event>, t: Track, u: Track, s: Slot, n: nat)
    requires n < |log| && s in t.open && s in u.open && u.open[s] == t.open[s] && SlotOk(a, log, t, s, n)
    requires t.open[s].Waiting? && t.open[s].line in u.own ==> t.open[s].line in t.own
    requires |a| <= |b|
    requires forall i | 0 <= i < |a| && (IsWaiting(a[i], s, t.open[s].line) || IsNbFor(a[i], s.0, s.1)) :: b[i] == a[i]
    requires forall i | 0 <= i < |b| && IsInstrFor(b[i], s.0, s.1) :: t.open[s].Waiting? ==> b[i].line <= t.open[s].line
    ensures SlotOk(b, log, u, s, n + 1)
  {
    match t.open[s]
    case Waiting(k) =>
      var x :| 0 <= x < |a| && IsWaiting(a[x], s, k);
      assert b[x] == a[x];
    case Early(k) =>
      var x :| 0 <= x < |a| && a[x].line == k && a[x].fetch.None? && IsNbFor(a[x], s.0, s.1);
      assert b[x] == a[x];
  }

  lemma SlotsKept(a: seq<Entry>, b: seq<Entry>, log: seq<Event>, t: Track, u: Track, n: nat)
    requires n < |log| && SlotsOk(a, log, t, n) && |a| <= |b|
    requires forall s | s in t.open && s in u.open && u.open[s] == t.open[s] ::
      && (t.open[s].Waiting? && t.open[s].line in u.own ==> t.open[s].line in t.own)
      && (forall i | 0 <= i < |a| && (IsWaiting(a[i], s, t.open[s].line) || IsNbFor(a[i], s.0, s.1)) :: b[i] == a[i])
      && (forall i | 0 <= i < |b| && IsInstrFor(b[i], s.0, s.1) :: t.open[s].Waiting? ==> b[i].line <= t.open[s].line)
    ensures forall s | s in t.open && s in u.open && u.open[s] == t.open[s] :: SlotOk(b, log, u, s, n + 1)
  {
    hide SlotOk;
    forall s | s in t.open && s in u.open && u.open[s] == t.open[s] ensures SlotOk(b, log, u, s, n + 1) {
      SlotKept(a, b, log, t, u, s, n);
    }
  }

  lemma LinesBelow(a: seq<Entry>, log: seq<Event>, n: nat)
    requires n <= |log| && EntriesOk(a, log, n)
    ensures forall i | 0 <= i < |a| :: a[i].line < n && (a[i].fetch.Some? ==> a[i].fetch.value.line < n)
    ensures InOrder(a)
  {
  }

  lemma WaitingBound(a: seq<Entry>, log: seq<Event>, t: Track, n: nat)
    requires n <= |log| && SlotsOk(a, log, t, n)
    ensures forall s | s in t.open :: t.open[s].line < n && s.1 != "zero"
    ensures forall s, i | s in t.open && 0 <= i < |a| && t.open[s].Waiting? && IsInstrFor(a[i], s.0, s.1) ::
      a[i].line <= t.open[s].line
    ensures forall s | s in t.open && t.open[s].Waiting? :: t.open[s].line !in t.own
  {
    forall s | s in t.open
      ensures t.open[s].line < n && (t.open[s].Waiting? ==> t.open[s].line !in t.own)
    {
      assert SlotOk(a, log, t, s, n);
    }
    forall s, i | s in t.open && 0 <= i < |a| && t.open[s].Waiting? && IsInstrFor(a[i], s.0, s.1)
      ensures a[i].line <= t.open[s].line
    {
      assert SlotOk(a, log, t, s, n);
    }
  }

  /** An instruction entry is appended. */
  lemma AppendInstr(a: seq<Entry>, t: Track, log: seq<Event>, n: nat)
    requires n < |log| && FairInv(a, t, log, n) && log[n].Instr? && EntriesOk(a + [InstrEntry(n, log[n])], log, n + 1)
    requires HasSlot(log[n]) && SlotOf(log[n]) in t.open ==> t.open[SlotOf(log[n])].Early? && log[n].gpr.Some?
    requires log[n].gpr.None? ==> HasSlot(log[n]) && SlotOf(log[n]).1 != "zero"
    ensures FairInv(a + [InstrEntry(n, log[n])], Tracked(t, n, log[n]), log, n + 1)
  {
    hide EntriesOk, SlotOk;
    var x, u := InstrEntry(n, log[n]), Tracked(t, n, log[n]);
    var b := a + [x];
    assert AllServed(b, log, u);
    LinesBelow(a, log, n);
    WaitingBound(a, log, t, n);
    SlotsKept(a, b, log, t, u, n);
    if log[n].gpr.None? {
      OpensWaiting(b, log, u, SlotOf(log[n]), n);
    }
  }

  lemma OpensWaiting(b: seq<Entry>, log: seq<Event>, u: Track, s: Slot, n: nat)
    requires n < |log| && b != [] && s in u.open && u.open[s] == Waiting(n) && n !in u.own
    requires log[n].Instr? && log[n].gpr.None? && HasSlot(log[n]) && SlotOf(log[n]) == s
    requires b[|b| - 1] == InstrEntry(n, log[n])
    requires forall i | 0 <= i < |b| :: b[i].line <= n
    ensures SlotOk(b, log, u, s, n + 1)
  {
    assert IsWaiting(b[|b| - 1], s, n);
  }

  /** A write comes before its instruction. */
  lemma AppendNb(a: seq<Entry>, t: Track, log: seq<Event>, n: nat)
    requires n < |log| && FairInv(a, t, log, n) && log[n].Nb? && EntriesOk(a + [NbEntry(n, log[n])], log, n + 1)
    requires log[n].reg != "zero" && SlotOf(log[n]) !in t.open
    ensures FairInv(a + [NbEntry(n, log[n])], Tracked(t, n, log[n]), log, n + 1)
  {
    hide EntriesOk, SlotOk, Expected;
    var x, u, s := NbEntry(n, log[n]), Tracked(t, n, log[n]), SlotOf(log[n]);
    var b := a + [x];
    assert AllServed(b, log, u);
    LinesBelow(a, log, n);
    WaitingBound(a, log, t, n);
    SlotsKept(a, b, log, t, u, n);
    OpensEarly(b, log, u, s, n);
  }

  lemma OpensEarly(b: seq<Entry>, log: seq<Event>, u: Track, s: Slot, n: nat)
    requires n < |log| && b != [] && s in u.open && u.open[s] == Early(n)
    requires log[n].Nb? && SlotOf(log[n]) == s && b[|b| - 1] == NbEntry(n, log[n])
    ensures SlotOk(b, log, u, s, n + 1)
  {
    assert IsNbFor(b[|b| - 1], s.0, s.1);
  }

  /** The instruction of an early write arrives. */
  lemma JoinEarly(a: seq<Entry>, t: Track, log: seq<Event>, n: nat, k: nat)
    requires n < |log| && FairInv(a, t, log, n) && k < |a| && log[n].Instr? && log[n].gpr.None?
    requires HasSlot(log[n]) && SlotOf(log[n]) in t.open && t.open[SlotOf(log[n])] == Early(a[k].line)
    requires a[k].fetch.None? && IsNbFor(a[k], SlotOf(log[n]).0, SlotOf(log[n]).1)
    requires EntriesOk(a[k := Filled(a[k], n, log[n])], log, n + 1)
    ensures FairInv(a[k := Filled(a[k], n, log[n])], Tracked(t, n, log[n]), log, n + 1)
  {
    hide EntriesOk, SlotOk, AllServed;
    var x, u, s := Filled(a[k], n, log[n]), Tracked(t, n, log[n]), SlotOf(log[n]);
    var b := a[k := x];
    JoinServes(a, t, log, n, k);
    EntryAt(a, log, n, k);
    LinesBelow(a, log, n);
    WaitingBound(a, log, t, n);
    assert forall i | 0 <= i < |a| && i != k :: b[i] == a[i];
    SlotsKept(a, b, log, t, u, n);
  }

  lemma JoinServes(a: seq<Entry>, t: Track, log: seq<Event>, n: nat, k: nat)
    requires n < |log| && FairInv(a, t, log, n) && k < |a| && log[n].Instr? && log[n].gpr.None?
    requires HasSlot(log[n]) && SlotOf(log[n]) in t.open && t.open[SlotOf(log[n])] == Early(a[k].line)
    requires a[k].fetch.None? && IsNbFor(a[k], SlotOf(log[n]).0, SlotOf(log[n]).1)
    ensures AllServed(a[k := Filled(a[k], n, log[n])], log, Tracked(t, n, log[n]))
  {
    hide EntriesOk, SlotOk;
    var x, u, s := Filled(a[k], n, log[n]), Tracked(t, n, log[n]), SlotOf(log[n]);
    var b := a[k := x];
    LinesBelow(a, log, n);
    WaitingBound(a, log, t, n);
    EntryAt(a, log, n, k);
    assert Served(x, log, u);
    forall i | 0 <= i < |b| ensures Served(b[i], log, u) {
      if i != k {
        assert b[i] == a[i] && Served(a[i], log, t);
        EntryAt(a, log, n, i);
      }
    }
  }

  lemma EntryAt(a: seq<Entry>, log: seq<Event>, n: nat, i: nat)
    requires n <= |log| && i < |a| && EntriesOk(a, log, n)
    ensures EntryOk(a[i], log, n)
  {
  }

  /** The entry with the write on line n added. */
  function Given(e: Entry, n: nat, nb: Event): Entry
    requires nb.Nb?
  {
    e.(gpr := e.gpr + [Write(n, nb.reg, nb.val)])
  }

  /** The write of a waiting instruction arrives. */
  lemma ServeWaiting(a: seq<Entry>, t: Track, log: seq<Event>, n: nat, k: nat)
    requires n < |log| && FairInv(a, t, log, n) && k < |a| && log[n].Nb?
    requires SlotOf(log[n]) in t.open && t.open[SlotOf(log[n])] == Waiting(a[k].line)
    requires IsWaiting(a[k], SlotOf(log[n]), a[k].line)
    requires EntriesOk(a[k := Given(a[k], n, log[n])], log, n + 1)
    ensures FairInv(a[k := Given(a[k], n, log[n])], Tracked(t, n, log[n]), log, n + 1)
  {
    hide EntriesOk, SlotsOk, AllServed, Tracked, Given;
    WaitingServes(a, t, log, n, k);
    WaitingSlots(a, t, log, n, k);
  }

  lemma WaitingSlots(a: seq<Entry>, t: Track, log: seq<Event>, n: nat, k: nat)
    requires n < |log| && EntriesOk(a, log, n) && SlotsOk(a, log, t, n) && k < |a| && log[n].Nb?
    requires SlotOf(log[n]) in t.open && t.open[SlotOf(log[n])] == Waiting(a[k].line)
    requires IsWaiting(a[k], SlotOf(log[n]), a[k].line)
    ensures SlotsOk(a[k := Given(a[k], n, log[n])], log, Tracked(t, n, log[n]), n + 1)
  {
    hide EntriesOk, SlotOk, Tracked, IsNbFor, IsInstrFor, IsWaiting;
    var u, s := Tracked(t, n, log[n]), SlotOf(log[n]);
    var b := a[k := Given(a[k], n, log[n])];
    Paired(t, n, log[n]) by { WaitingBound(a, log, t, n); }
    WaitingEvent(a, log, t, s, n);
    WaitingOthers(a, t, log, n, k);
    SlotsKept(a, b, log, t, u, n);
  }

  /** A write closes the slot that waits for it and is paired with its instruction. */
  lemma Paired(t: Track, n: nat, e: Event)
    requires e.Nb? && e.reg != "zero" && SlotOf(e) in t.open
    ensures Tracked(t, n, e) == Track(t.open - {SlotOf(e)}, t.own[t.open[SlotOf(e)].line := n])
  {
  }

  /** The other slots do not notice. */
  lemma WaitingOthers(a: seq<Entry>, t: Track, log: seq<Event>, n: nat, k: nat)
    requires n < |log| && EntriesOk(a, log, n) && SlotsOk(a, log, t, n) && k < |a| && log[n].Nb?
    requires SlotOf(log[n]) in t.open && t.open[SlotOf(log[n])] == Waiting(a[k].line)
    requires IsWaiting(a[k], SlotOf(log[n]), a[k].line)
    ensures var b := a[k := Given(a[k], n, log[n])];
      forall s | s in t.open && s != SlotOf(log[n]) ::
        && (t.open[s].Waiting? ==> t.open[s].line != a[k].line && t.open[s].line !in t.own)
        && (forall i | 0 <= i < |a| && (IsWaiting(a[i], s, t.open[s].line) || IsNbFor(a[i], s.0, s.1)) :: b[i] == a[i])
        && (forall i | 0 <= i < |b| && IsInstrFor(b[i], s.0, s.1) :: t.open[s].Waiting? ==> b[i].line <= t.open[s].line)
  {
    hide EntriesOk, SlotOk;
    var b := a[k := Given(a[k], n, log[n])];
    WaitingBound(a, log, t, n);
    WaitingLines(a, log, t, n);
    assert forall i | 0 <= i < |a| && i != k :: b[i] == a[i];
  }

  lemma WaitingServes(a: seq<Entry>, t: Track, log: seq<Event>, n: nat, k: nat)
    requires n < |log| && FairInv(a, t, log, n) && k < |a| && log[n].Nb?
    requires SlotOf(log[n]) in t.open && t.open[SlotOf(log[n])] == Waiting(a[k].line)
    requires IsWaiting(a[k], SlotOf(log[n]), a[k].line)
    ensures AllServed(a[k := Given(a[k], n, log[n])], log, Tracked(t, n, log[n]))
  {
    hide EntriesOk, SlotOk;
    var x, u, s := Given(a[k], n, log[n]), Tracked(t, n, log[n]), SlotOf(log[n]);
    var b := a[k := x];
    LinesBelow(a, log, n);
    WaitingBound(a, log, t, n);
    WaitingEvent(a, log, t, s, n);
    assert Served(x, log, u);
    forall i | 0 <= i < |b| ensures Served(b[i], log, u) {
      if i != k {
        assert b[i] == a[i] && Served(a[i], log, t);
        EntryAt(a, log, n, i);
        assert a[i].fetch.Some? ==> a[i].fetch.value.line != a[k].line;
      }
    }
  }

  lemma WaitingEvent(a: seq<Entry>, log: seq<Event>, t: Track, s: Slot, n: nat)
    requires n <= |log| && SlotsOk(a, log, t, n) && s in t.open && t.open[s].Waiting?
    ensures t.open[s].line < n && log[t.open[s].line].Instr? && log[t.open[s].line].gpr.None?
    ensures HasSlot(log[t.open[s].line]) && SlotOf(log[t.open[s].line]) == s
  {
    assert SlotOk(a, log, t, s, n);
  }

  predicate WaitTogether(x: Open, y: Open) { x.Waiting? && y.Waiting? && x.line == y.line }

  lemma WaitingLines(a: seq<Entry>, log: seq<Event>, t: Track, n: nat)
    requires n <= |log| && SlotsOk(a, log, t, n)
    ensures forall r, s | r in t.open && s in t.open && WaitTogether(t.open[r], t.open[s]) :: r == s
  {
    forall r, s | r in t.open && s in t.open && WaitTogether(t.open[r], t.open[s])
      ensures r == s
    {
      WaitingEvent(a, log, t, r, n);
      WaitingEvent(a, log, t, s, n);
    }
  }

  lemma NothingNew(a: seq<Entry>, t: Track, log: seq<Event>, n: nat)
    requires n < |log| && FairInv(a, t, log, n) && EntriesOk(a, log, n + 1)
    ensures FairInv(a, t, log, n + 1)
  {
    hide EntriesOk, SlotOk;
    WaitingBound(a, log, t, n);
    SlotsKept(a, a, log, t, t, n);
  }

  // ----- places -------------------------------------------------------------------------------------

  /** Pairing the instruction on line c, and closing the slot that waits on line c,
      moves no other entry. */
  lemma PlaceKept(e: Entry, log: seq<Event>, t: Track, u: Track, c: nat)
    requires InPlace(e, log, t) && e.line != c && (e.fetch.Some? ==> e.fetch.value.line != c)
    requires forall k | k != c :: (k in t.own <==> k in u.own) && (k in t.own ==> u.own[k] == t.own[k])
    requires forall s | s in t.open && t.open[s].Waiting? && t.open[s].line != c ::
      s in u.open && u.open[s] == t.open[s]
    ensures InPlace(e, log, u)
  {
  }

  lemma PlacedKept(a: seq<Entry>, b: seq<Entry>, at: nat, t: Track, u: Track, log: seq<Event>, n: nat)
    requires n < |log| && Placed(a, t, log, n) && at < |b| && |a| <= |b| && (|a| < |b| ==> at == |a| == |b| - 1)
    requires forall i | 0 <= i < |a| && i != at :: b[i] == a[i] && InPlace(a[i], log, u)
    requires InPlace(b[at], log, u) && (at < |a| && a[at].fetch.Some? ==> b[at].fetch == a[at].fetch)
    requires IsDelayedUse(log[n]) ==> b[at].fetch.Some? && b[at].fetch.value.line == n
    ensures Placed(b, u, log, n + 1)
  {
    hide InPlace, EntryLine;
    forall k | 0 <= k < n + 1 && IsDelayedUse(log[k]) ensures HasEntry(b, k) {
      if k < n {
        var x :| 0 <= x < |a| && a[x].fetch.Some? && a[x].fetch.value.line == k;
        assert b[x].fetch == a[x].fetch;
      } else {
        assert b[at].fetch.value.line == k;
      }
    }
  }

  lemma PlacedSame(a: seq<Entry>, t: Track, log: seq<Event>, n: nat)
    requires n < |log| && Placed(a, t, log, n) && !IsDelayedUse(log[n])
    ensures Placed(a, t, log, n + 1)
  {
  }

  lemma PlacedInstr(a: seq<Entry>, t: Track, log: seq<Event>, n: nat)
    requires n < |log| && FairInv(a, t, log, n) && Placed(a, t, log, n) && log[n].Instr?
    requires HasSlot(log[n]) && SlotOf(log[n]) in t.open ==> log[n].gpr.Some?
    requires log[n].gpr.None? ==> HasSlot(log[n]) && SlotOf(log[n]).1 != "zero"
    ensures Placed(a + [InstrEntry(n, log[n])], Tracked(t, n, log[n]), log, n + 1)
  {
    hide EntriesOk, SlotOk, AllServed, InPlace;
    var u, b := Tracked(t, n, log[n]), a + [InstrEntry(n, log[n])];
    LinesBelow(a, log, n);
    WaitingBound(a, log, t, n);
    forall i | 0 <= i < |a| ensures InPlace(a[i], log, u) {
      PlaceKept(a[i], log, t, u, n);
    }
    NewPlace(log, u, n);
    PlacedKept(a, b, |a|, t, u, log, n);
  }

  lemma NewPlace(log: seq<Event>, u: Track, n: nat)
    requires n < |log| && log[n].Instr? && n !in u.own
    requires log[n].gpr.None? ==> HasSlot(log[n]) && SlotOf(log[n]) in u.open && u.open[SlotOf(log[n])] == Waiting(n)
    ensures InPlace(InstrEntry(n, log[n]), log, u)
  {
  }

  lemma PlacedNb(a: seq<Entry>, t: Track, log: seq<Event>, n: nat)
    requires n < |log| && FairInv(a, t, log, n) && Placed(a, t, log, n)
    requires log[n].Nb? && log[n].reg != "zero" && SlotOf(log[n]) !in t.open
    ensures Placed(a + [NbEntry(n, log[n])], Tracked(t, n, log[n]), log, n + 1)
  {
    hide EntriesOk, SlotOk, AllServed, EntryLine;
    var u, b := Tracked(t, n, log[n]), a + [NbEntry(n, log[n])];
    LinesBelow(a, log, n);
    forall i | 0 <= i < |a| ensures InPlace(a[i], log, u) {
      PlaceKept(a[i], log, t, u, n);
    }
    PlacedKept(a, b, |a|, t, u, log, n);
  }

  lemma PlacedJoin(a: seq<Entry>, t: Track, log: seq<Event>, n: nat, k: nat)
    requires n < |log| && FairInv(a, t, log, n) && Placed(a, t, log, n) && k < |a| && a[k].fetch.None?
    requires log[n].Instr? && log[n].gpr.None? && HasSlot(log[n]) && SlotOf(log[n]).1 != "zero"
    requires SlotOf(log[n]) in t.open && t.open[SlotOf(log[n])] == Early(a[k].line)
    ensures Placed(a[k := Filled(a[k], n, log[n])], Tracked(t, n, log[n]), log, n + 1)
  {
    hide EntriesOk, SlotOk, AllServed;
    var u, b := Tracked(t, n, log[n]), a[k := Filled(a[k], n, log[n])];
    LinesBelow(a, log, n);
    EntryAt(a, log, n, k);
    forall i | 0 <= i < |a| && i != k ensures InPlace(a[i], log, u) {
      PlaceKept(a[i], log, t, u, n);
    }
    assert InPlace(b[k], log, u);
    PlacedKept(a, b, k, t, u, log, n);
  }

  lemma PlacedServe(a: seq<Entry>, t: Track, log: seq<Event>, n: nat, k: nat)
    requires n < |log| && FairInv(a, t, log, n) && Placed(a, t, log, n) && k < |a| && log[n].Nb? && log[n].reg != "zero"
    requires SlotOf(log[n]) in t.open && t.open[SlotOf(log[n])] == Waiting(a[k].line)
    requires IsWaiting(a[k], SlotOf(log[n]), a[k].line)
    ensures Placed(a[k := Given(a[k], n, log[n])], Tracked(t, n, log[n]), log, n + 1)
  {
    hide EntriesOk, SlotOk, AllServed;
    var u, b := Tracked(t, n, log[n]), a[k := Given(a[k], n, log[n])];
    LinesBelow(a, log, n);
    forall i | 0 <= i < |a| && i != k ensures InPlace(a[i], log, u) {
      PlaceKept(a[i], log, t, u, a[k].line);
    }
    assert InPlace(b[k], log, u);
    PlacedKept(a, b, k, t, u, log, n);
  }

  // ----- who is still queued -------------------------------------------------------------------------

  /** The head of the queue belongs to an open slot. */
  lemma HeadIsOpen(p: Parser, t: Track, log: seq<Event>) returns (r: Slot)
    requires FairInv(All(p), t, log, p.line) && Placed(All(p), t, log, p.line) && Split(p) && p.queue != []
    ensures r in t.open && t.open[r].line == p.queue[0].line
  {
    hide SlotOk, Expected, InOrder, EntryLine;
    QueueAt(p, 0);
    var x := All(p)[|p.data|];
    assert EntryOk(x, log, p.line) && Served(x, log, t) && InPlace(x, log, t);
    r := if x.fetch.None? then SlotOf(log[x.line]) else SlotOf(log[x.fetch.value.line]);
  }

  /** A queued instruction of a slot that is not open is held back. */
  lemma QueuedIsHeldBack(p: Parser, t: Track, log: seq<Event>, s: Slot, i: nat)
    requires FairInv(All(p), t, log, p.line) && Placed(All(p), t, log, p.line) && Split(p)
    requires s !in t.open && i < |p.queue| && IsInstrFor(p.queue[i], s.0, s.1)
    ensures p.queue[i].fetch.Some? && p.queue[i].gpr != []
    ensures var k := p.queue[i].fetch.value.line; k < p.line && IsUse(log[k], s) && HeldBack(t, k)
  {
    hide SlotOk, Expected, EntryLine, All, SlotsOk, AllServed;
    var r := HeadIsOpen(p, t, log);
    QueueAt(p, i);
    QueueAt(p, 0);
    var x := All(p)[|p.data| + i];
    EntryAt(All(p), log, p.line, |p.data| + i);
    assert InPlace(x, log, t);
    assert i > 0;
    LinesBelow(All(p), log, p.line);
    assert t.open[r].line < x.line;
  }

  /** The entry of a held-back instruction. */
  lemma HeldBackEntry(a: seq<Entry>, t: Track, log: seq<Event>, n: nat, s: Slot, k: nat) returns (x: nat, y: nat)
    requires FairInv(a, t, log, n) && Placed(a, t, log, n)
    requires s.1 != "zero" && k < n && IsUse(log[k], s) && HeldBack(t, k)
    ensures y < x < |a| && IsInstrFor(a[x], s.0, s.1) && !Complete(a[y])
  {
    hide Expected, EntryLine, AllServed, SlotsOk, EntriesOk, SlotOk;
    var r :| r in t.open && t.open[r].line < EntryLine(t.own, k);
    y := OpenEntry(a, log, t, r, n);
    assert HasEntry(a, k);
    x :| 0 <= x < |a| && a[x].fetch.Some? && a[x].fetch.value.line == k;
    EntryAt(a, log, n, x);
    assert InPlace(a[x], log, t);
    LinesBelow(a, log, n);
  }

  /** A held-back instruction is queued. */
  lemma HeldBackIsQueued(p: Parser, t: Track, log: seq<Event>, s: Slot, k: nat) returns (i: nat)
    requires FairInv(All(p), t, log, p.line) && Placed(All(p), t, log, p.line) && Split(p)
    requires s.1 != "zero" && k < p.line && IsUse(log[k], s) && HeldBack(t, k)
    ensures i < |p.queue| && IsInstrFor(p.queue[i], s.0, s.1)
  {
    hide FairInv, Placed, All, HeldBack;
    AllLength(p);
    var x, y := HeldBackEntry(All(p), t, log, p.line, s, k);
    Queued(p, y);
    i := x - |p.data|;
    QueueAt(p, i);
  }

  lemma AllLength(p: Parser)
    ensures |All(p)| == |p.data| + |p.queue|
  {
  }

  lemma OpenEntry(a: seq<Entry>, log: seq<Event>, t: Track, r: Slot, n: nat) returns (y: nat)
    requires n <= |log| && SlotsOk(a, log, t, n) && r in t.open
    ensures y < |a| && a[y].line == t.open[r].line && !Complete(a[y])
  {
    assert SlotOk(a, log, t, r, n);
    match t.open[r]
    case Waiting(k) => y :| 0 <= y < |a| && IsWaiting(a[y], r, k);
    case Early(k) => y :| 0 <= y < |a| && a[y].line == k && a[y].fetch.None? && IsNbFor(a[y], r.0, r.1);
  }

  /** A line that keeps the discipline and sends no write astray keeps all this. */
  lemma LineKeepsFair(p: Parser, t: Track, log: seq<Event>)
    requires p.status == Running && p.line < |log| && FairInv(All(p), t, log, p.line) && Split(p)
    requires Placed(All(p), t, log, p.line)
    requires Natural(t, log[p.line]) && !Astray(t, log, p.line) && Line(p, log[p.line]).status != Failed
    ensures FairInv(All(Line(p, log[p.line])), Tracked(t, p.line, log[p.line]), log, p.line + 1)
    ensures Placed(All(Line(p, log[p.line])), Tracked(t, p.line, log[p.line]), log, p.line + 1)
  {
    hide EntriesOk, AllServed, Line, LastNb, LastInstr, SlotOk, IsNbFor, IsInstrFor, InstrEntry, NbEntry, Filled;
    hide Placed;
    hide HeldBack;
    var e, a, n := log[p.line], All(p), p.line;
    LineEdits(p, e);
    LineKeepsEntries(p, log);
    Succeeds(p, e);
    match e
    case Ecall => NothingNew(a, t, log, n); PlacedSame(a, t, log, n);
    case Other => NothingNew(a, t, log, n); PlacedSame(a, t, log, n);
    case Instr(_, _, kind, operands, gpr, _) =>
      if gpr.Some? {
        WaitingBound(a, log, t, n);
        AppendInstr(a, t, log, n);
        PlacedInstr(a, t, log, n);
      } else if kind == Plain || operands[0] == "zero" {
        NothingNew(a, t, log, n);
        PlacedSame(a, t, log, n);
      } else if SlotOf(e) in t.open {
        var i := FindsEarly(p, t, log, SlotOf(e));
        assert a[|p.data| + i] == p.queue[i];
        LastNbMatches(p.queue, SlotOf(e));
        JoinEarly(a, t, log, n, |p.data| + i);
        PlacedJoin(a, t, log, n, |p.data| + i);
      } else {
        NoEarly(p, t, log, SlotOf(e));
        AppendInstr(a, t, log, n);
        PlacedInstr(a, t, log, n);
      }
    case Nb(_, reg, _) =>
      if reg == "zero" {
        NothingNew(a, t, log, n);
        PlacedSame(a, t, log, n);
      } else if SlotOf(e) in t.open {
        var i := FindsWaiting(p, t, log, SlotOf(e));
        assert a[|p.data| + i] == p.queue[i];
        ServeWaiting(a, t, log, n, |p.data| + i);
        PlacedServe(a, t, log, n, |p.data| + i);
      } else {
        forall i | 0 <= i < |p.queue| ensures !IsInstrFor(p.queue[i], SlotOf(e).0, SlotOf(e).1) {
          if IsInstrFor(p.queue[i], SlotOf(e).0, SlotOf(e).1) {
            QueuedIsHeldBack(p, t, log, SlotOf(e), i);
          }
        }
        LastInstrMatches(p.queue, SlotOf(e));
        AppendNb(a, t, log, n);
        PlacedNb(a, t, log, n);
      }
  }

  lemma LastNbMatches(q: seq<Entry>, s: Slot)
    ensures var i := LastNb(q, s.0, s.1); 0 <= i ==> i < |q| && IsNbFor(q[i], s.0, s.1)
  {
  }

  lemma LastInstrMatches(q: seq<Entry>, s: Slot)
    requires forall i | 0 <= i < |q| :: !IsInstrFor(q[i], s.0, s.1)
    ensures LastInstr(q, s.0, s.1) < 0
  {
  }

  // ----- whole logs ----------------------------------------------------------------------------------

  /** What is open before line n, and the pairing of the lines before it. */
  function TrackAt(log: seq<Event>, n: nat): Track
    requires n <= |log|
  {
    if n == 0 then CLOSED else Tracked(TrackAt(log, n - 1), n - 1, log[n - 1])
  }

  ghost predicate NaturalLog(log: seq<Event>, n: nat)
    requires n <= |log|
  {
    forall k | 0 <= k < n :: Natural(TrackAt(log, k), log[k])
  }

  ghost predicate NoneAstray(log: seq<Event>, n: nat)
    requires n <= |log|
  {
    forall k | 0 <= k < n :: !Astray(TrackAt(log, k), log, k)
  }

  /** Every entry with an address has exactly the write that the pairing gives it, or
      none if it gives none. */
  ghost predicate HoldTheirOwn(a: seq<Entry>, log: seq<Event>, own: map<nat, nat>) {
    forall i | 0 <= i < |a| && a[i].fetch.Some? :: a[i].gpr == Expected(log, own, a[i].fetch.value.line)
  }

  /** The parser before line n. */
  function At(log: seq<Event>, n: nat): Parser
    requires n <= |log|
  {
    Parse(START, log[..n])
  }

  /** How many lines of the log are read. */
  ghost function Reached(log: seq<Event>): (n: nat)
    ensures n <= |log| && At(log, n) == Parse(START, log)
  {
    assert log[..|log|] == log;
    LineCount(log, |log|);
    Parse(START, log).line
  }

  ghost predicate AllFair(log: seq<Event>, n: nat)
    requires n <= |log|
  {
    var p, t := At(log, n), TrackAt(log, n);
    p.line == n && FairInv(All(p), t, log, n) && Placed(All(p), t, log, n) && Split(p)
  }

  lemma {:induction false} ParseAppend(p: Parser, log: seq<Event>, e: Event)
    ensures var q := Parse(p, log); Parse(p, log + [e]) == if q.status == Running then Line(q, e) else q
    decreases |log|
  {
    hide Line;
    if log == [] || p.status != Running {
      if p.status == Running {
        OneLine(p, e, []);
        assert log + [e] == [e] + [];
      }
    } else {
      ParseAppend(Line(p, log[0]), log[1..], e);
      assert (log + [e])[1..] == log[1..] + [e];
    }
  }

  lemma AtNext(log: seq<Event>, n: nat)
    requires n < |log|
    ensures At(log, n + 1) == if At(log, n).status == Running then Line(At(log, n), log[n]) else At(log, n)
  {
    hide Line, Parse;
    assert log[..n + 1] == log[..n] + [log[n]];
    ParseAppend(START, log[..n], log[n]);
  }

  lemma {:induction false} LineCount(log: seq<Event>, n: nat)
    requires n <= |log|
    ensures At(log, n).line <= n && (At(log, n).status == Running ==> At(log, n).line == n)
    ensures forall m | 0 <= m < At(log, n).line :: At(log, m).status == Running
    ensures At(log, n) == At(log, At(log, n).line)
    decreases n
  {
    hide Line, Parse;
    assert At(log, 0) == START by { NoLines(log); }
    if n > 0 {
      LineCount(log, n - 1);
      AtNext(log, n - 1);
      if At(log, n - 1).status == Running {
        NextLine(At(log, n - 1), log[n - 1]);
      }
    }
  }

  lemma NoLines(log: seq<Event>)
    ensures At(log, 0) == START
  {
  }

  /** Before the first write that goes astray everything is fair. */
  lemma {:induction false} FairUntil(log: seq<Event>, n: nat)
    requires n <= |log| && NaturalLog(log, n) && NoneAstray(log, n)
    requires At(log, n).line == n && At(log, n).status != Failed
    ensures AllFair(log, n)
    decreases n
  {
    hide Line, Parse, FairInv, Split, Natural, Tracked, Astray, Placed;
    LineCount(log, n);
    if n == 0 {
      FairStart(log);
    } else {
      AtNext(log, n - 1);
      FairUntil(log, n - 1) by { LineCount(log, n - 1); }
      LineKeepsFair(At(log, n - 1), TrackAt(log, n - 1), log);
      LineSplits(At(log, n - 1), log[n - 1]);
    }
  }

  lemma FairStart(log: seq<Event>)
    ensures AllFair(log, 0)
  {
    hide At;
    NoLines(log);
    assert All(START) == [];
    assert TrackAt(log, 0) == CLOSED;
  }

  /** A write that goes astray lands in an entry that has one already. */
  lemma AstrayDoubles(log: seq<Event>, n: nat) returns (i: nat)
    requires n < |log| && AllFair(log, n) && Astray(TrackAt(log, n), log, n)
    requires At(log, n).status == Running && At(log, n + 1).status != Failed
    ensures i < |All(At(log, n + 1))| && All(At(log, n + 1))[i].fetch.Some? && |All(At(log, n + 1))[i].gpr| >= 2
  {
    hide Line, Parse, FairInv, Placed, Split, HeldBack, IsInstrFor, LastInstr, TrackAt;
    var p, t, e := At(log, n), TrackAt(log, n), log[n];
    AtNext(log, n);
    var s := SlotOf(e);
    var k :| 0 <= k < n && IsUse(log[k], s) && HeldBack(t, k);
    var j := HeldBackIsQueued(p, t, log, s, k);
    Succeeds(p, e);
    LineEdits(p, e);
    var at := LastInstr(p.queue, s.0, s.1);
    Latest(p.queue, s, j);
    QueuedIsHeldBack(p, t, log, s, at);
    i := |p.data| + at;
  }

  lemma Latest(q: seq<Entry>, s: Slot, j: nat)
    requires j < |q| && IsInstrFor(q[j], s.0, s.1) && LastInstr(q, s.0, s.1) != -2
    ensures var i := LastInstr(q, s.0, s.1); 0 <= i < |q| && IsInstrFor(q[i], s.0, s.1)
  {
  }

  /** An entry later on: its writes and its address are still there. */
  ghost predicate Later(x: Entry, y: Entry) {
    x.gpr <= y.gpr && (x.fetch.Some? ==> y.fetch == x.fetch)
  }

  lemma LaterStill(x: Entry, y: Entry, z: Entry)
    requires Later(x, y) && Later(y, z)
    ensures Later(x, z)
  {
  }

  lemma StaysOneLine(log: seq<Event>, n: nat, i: nat)
    requires n < |log| && At(log, n).status != Failed && i < |All(At(log, n))|
    ensures i < |All(At(log, n + 1))| && Later(All(At(log, n))[i], All(At(log, n + 1))[i])
  {
    hide Line, Parse, All, ParserInv;
    AtNext(log, n);
    if At(log, n).status == Running {
      LineCount(log, n);
      ParserPrefix(log, n);
      LineOnlyAdds(At(log, n), log, i);
    }
  }

  /** Writes and addresses stay to the end of the log. */
  lemma {:induction false} StaysInEntry(log: seq<Event>, m: nat, n: nat, i: nat)
    requires m <= n <= |log| && At(log, n).status != Failed && i < |All(At(log, m))|
    ensures i < |All(At(log, n))| && Later(All(At(log, m))[i], All(At(log, n))[i])
    decreases n
  {
    hide At, All;
    if m < n {
      NeverFailed(log, n);
      StaysInEntry(log, m, n - 1, i);
      StaysOneLine(log, n - 1, i);
      LaterStill(All(At(log, m))[i], All(At(log, n - 1))[i], All(At(log, n))[i]);
    }
  }

  lemma NeverFailed(log: seq<Event>, n: nat)
    requires 0 < n <= |log| && At(log, n).status != Failed
    ensures At(log, n - 1).status != Failed
  {
    AtNext(log, n - 1);
  }

  lemma {:induction false} ParserPrefix(log: seq<Event>, n: nat)
    requires n <= |log| && At(log, n).status == Running
    ensures ParserInv(At(log, n), log)
    decreases n
  {
    hide Line, Parse, ParserInv;
    if n == 0 {
      NoLines(log);
      StartInv(log);
    } else {
      AtNext(log, n - 1);
      LineCount(log, n);
      LineCount(log, n - 1);
      ParserPrefix(log, n - 1);
      LineKeepsInv(At(log, n - 1), log);
    }
  }

  lemma StartInv(log: seq<Event>)
    ensures ParserInv(START, log)
  {
    assert log[..0] == [];
  }

  /** For every log that keeps the discipline and does not fail: all entries hold
      exactly their own writes if and only if no write goes astray, that is, comes
      before its instruction while an earlier instruction of its kind to its register
      is held back. */
  lemma HoldTheirOwnExactly(log: seq<Event>)
    requires Parse(START, log).status != Failed && NaturalLog(log, Reached(log))
    ensures HoldTheirOwn(All(Parse(START, log)), log, TrackAt(log, Reached(log)).own) <==> NoneAstray(log, Reached(log))
  {
    hide Parse, TrackAt, NaturalLog, NoneAstray, HoldTheirOwn, All, FairInv, Placed, Split;
    var n := Reached(log);
    LineCount(log, |log|);
    assert log[..|log|] == log;
    if NoneAstray(log, n) {
      FairUntil(log, n);
      FairHolds(All(At(log, n)), TrackAt(log, n), log, n);
    } else {
      SomeAstray(log, n);
    }
  }

  lemma SomeAstray(log: seq<Event>, n: nat)
    requires n <= |log| && At(log, n).line == n && At(log, n).status != Failed
    requires NaturalLog(log, n) && !NoneAstray(log, n)
    ensures !HoldTheirOwn(All(At(log, n)), log, TrackAt(log, n).own)
  {
    hide Parse, TrackAt, Natural, Astray, FairInv, Placed, Split, Expected, All;
    var m := FirstAstray(log, n);
    LineCount(log, n);
    LineCount(log, m);
    NotFailedBefore(log, m + 1, n);
    FairUntil(log, m);
    var i := AstrayDoubles(log, m);
    StaysInEntry(log, m + 1, n, i);
    AtMostOne(log, TrackAt(log, n).own, All(At(log, n))[i].fetch.value.line);
  }

  lemma FairHolds(a: seq<Entry>, t: Track, log: seq<Event>, n: nat)
    requires FairInv(a, t, log, n)
    ensures HoldTheirOwn(a, log, t.own)
  {
    hide EntriesOk, SlotsOk, Expected;
    forall i | 0 <= i < |a| && a[i].fetch.Some? ensures a[i].gpr == Expected(log, t.own, a[i].fetch.value.line) {
      assert Served(a[i], log, t);
    }
  }

  lemma AtMostOne(log: seq<Event>, own: map<nat, nat>, k: nat)
    ensures |Expected(log, own, k)| <= 1
  {
  }

  lemma {:induction false} NotFailedBefore(log: seq<Event>, m: nat, n: nat)
    requires m <= n <= |log| && At(log, n).status != Failed
    ensures At(log, m).status != Failed
    decreases n
  {
    hide Parse;
    if m < n {
      NeverFailed(log, n);
      NotFailedBefore(log, m, n - 1);
    }
  }

  lemma {:induction false} FirstAstray(log: seq<Event>, n: nat) returns (m: nat)
    requires n <= |log| && !NoneAstray(log, n)
    ensures m < n && Astray(TrackAt(log, m), log, m) && NoneAstray(log, m)
    decreases n
  {
    hide Astray, TrackAt;
    if NoneAstray(log, n - 1) {
      m := n - 1;
    } else {
      m := FirstAstray(log, n - 1);
    }
  }

  /** In a log that keeps the discipline and sends no write astray every emitted
      entry holds exactly one write: the one on its own line, or the delayed write of
      its own kind to its own register that the discipline pairs it with. */
  lemma EmittedEntriesHoldTheirOwn(log: seq<Event>)
    requires Parse(START, log).status != Failed
    requires NaturalLog(log, Reached(log)) && NoneAstray(log, Reached(log))
    ensures var p := Parse(START, log); var own := TrackAt(log, Reached(log)).own;
      && (forall k | k in own :: k < |log| && own[k] < |log| && Belongs(log[own[k]], log[k]))
      && forall i | 0 <= i < |p.data| ::
        var e := p.data[i];
        e.fetch.Some? && |e.gpr| == 1 && e.gpr == Expected(log, own, e.fetch.value.line)
  {
    hide Parse, NaturalLog, NoneAstray, TrackAt, Placed;
    assert log[..|log|] == log;
    LineCount(log, |log|);
    var p, n := Parse(START, log), Reached(log);
    FairUntil(log, n);
    FairHolds(All(p), TrackAt(log, n), log, n);
    forall i | 0 <= i < |p.data|
      ensures var e := p.data[i];
        e.fetch.Some? && |e.gpr| == 1 && e.gpr == Expected(log, TrackAt(log, n).own, e.fetch.value.line)
    {
      assert All(p)[i] == p.data[i] && Complete(p.data[i]);
      AtMostOne(log, TrackAt(log, n).own, p.data[i].fetch.value.line);
    }
  }

  function Load(reg: string): Event { Instr("pc", "op", Delayed(NbL), [reg], None, None) }

  const MISFILED: seq<Event> := [Load("t0"), Load("a0"), Nb(NbL, "a0", "1"), Nb(NbL, "a0", "2"), Load("a0")]

  /** That log keeps the discipline, and its second write goes astray. */
  lemma MisfiledIsNatural()
    ensures NaturalLog(MISFILED, 5) && Astray(TrackAt(MISFILED, 3), MISFILED, 3)
  {
    var t, a := (NbL, "t0"), (NbL, "a0");
    var log := MISFILED;
    assert t.1 != a.1 && "t0" != "zero" && "a0" != "zero" by {
      assert t.1[0] == 't' && a.1[0] == 'a' && "zero"[0] == 'z';
    }
    assert TrackAt(log, 0) == CLOSED;
    assert TrackAt(log, 1) == Track(map[t := Waiting(0)], map[]);
    assert TrackAt(log, 2) == Track(map[t := Waiting(0), a := Waiting(1)], map[]);
    assert TrackAt(log, 3) == Track(map[t := Waiting(0)], map[1 := 2]);
    assert TrackAt(log, 4) == Track(map[t := Waiting(0), a := Early(3)], map[1 := 2]);
    assert t in TrackAt(log, 3).open && IsUse(log[1], a) && HeldBack(TrackAt(log, 3), 1);
  }

  /** A log in which every load of a0 gets its write before the next load of a0, the
      second one early: the first load ends up with both values and the second
      with none. */
  lemma EarlyWriteMisfiled()
    ensures var p := Parse(START, MISFILED);
      && p.status == Running && |p.queue| == 3
      && p.queue[1].gpr == [Write(2, "a0", "1"), Write(3, "a0", "2")] && p.queue[2].gpr == []
  {
    hide Line;
    var e0, e1, w2, w3, e4 := Load("t0"), Load("a0"), Nb(NbL, "a0", "1"), Nb(NbL, "a0", "2"), Load("a0");
    var x0, x1, x4 := InstrEntry(0, e0), InstrEntry(1, e1), InstrEntry(4, e4);
    var y1 := x1.(gpr := [Write(2, "a0", "1")]);
    var z1 := x1.(gpr := [Write(2, "a0", "1"), Write(3, "a0", "2")]);
    var p2 := Parser(2, [], [x0, x1], Running);
    var p3 := Parser(3, [], [x0, y1], Running);
    var p4 := Parser(4, [], [x0, z1], Running);
    TwoLoads(e0, e1);
    assert Line(p2, w2) == p3 by {
      assert y1.gpr == x1.gpr + [Write(2, "a0", "1")] && [x0, x1][1 := y1] == [x0, y1];
      GivesToLast(p2, w2, 1, p3);
    }
    assert Line(p3, w3) == p4 by {
      assert z1.gpr == y1.gpr + [Write(3, "a0", "2")] && [x0, y1][1 := z1] == [x0, z1];
      GivesToLast(p3, w3, 1, p4);
    }
    assert Line(p4, e4) == Parser(5, [], [x0, z1, x4], Running) by {
      NotNb(p4.queue, NbL, "a0");
      assert [x0, z1] + [x4] == [x0, z1, x4];
      LoadQueued(p4, e4, Parser(5, [], [x0, z1, x4], Running));
    }
    FiveLines(e0, e1, w2, w3, e4, Line(START, e0), p2, p3, p4);
  }

  lemma FiveLines(e0: Event, e1: Event, e2: Event, e3: Event, e4: Event, p1: Parser, p2: Parser, p3: Parser, p4: Parser)
    requires p1.status == p2.status == p3.status == p4.status == Running
    requires p1 == Line(START, e0) && p2 == Line(p1, e1) && p3 == Line(p2, e2) && p4 == Line(p3, e3)
    ensures Parse(START, [e0, e1, e2, e3, e4]) == Line(p4, e4)
  {
    hide Line;
    OneLine(START, e0, [e1, e2, e3, e4]);
    OneLine(p1, e1, [e2, e3, e4]);
    OneLine(p2, e2, [e3, e4]);
    OneLine(p3, e3, [e4]);
    OneLine(p4, e4, []);
    assert [e0] + [e1, e2, e3, e4] == [e0, e1, e2, e3, e4];
    assert [e1] + [e2, e3, e4] == [e1, e2, e3, e4];
    assert [e2] + [e3, e4] == [e2, e3, e4];
    assert [e3] + [e4] == [e3, e4];
    assert Parse(Line(p4, e4), []) == Line(p4, e4);
  }

  lemma OneLine(p: Parser, e: Event, rest: seq<Event>)
    requires p.status == Running
    ensures Parse(p, [e] + rest) == Parse(Line(p, e), rest)
  {
    hide Line;
    assert ([e] + rest)[1..] == rest;
  }

  lemma TwoLoads(e0: Event, e1: Event)
    requires e0 == Load("t0") && e1 == Load("a0")
    ensures Line(START, e0).status == Running
    ensures Line(Line(START, e0), e1) == Parser(2, [], [InstrEntry(0, e0), InstrEntry(1, e1)], Running)
  {
    hide Line;
    var p1, x := Parser(1, [], [InstrEntry(0, e0)], Running), InstrEntry(1, e1);
    assert [] + [InstrEntry(0, e0)] == [InstrEntry(0, e0)];
    LoadQueued(START, e0, p1);
    NotNb(p1.queue, NbL, "a0");
    assert [InstrEntry(0, e0)] + [x] == [InstrEntry(0, e0), x];
    LoadQueued(p1, e1, Parser(2, [], [InstrEntry(0, e0), x], Running));
  }

  lemma NotNb(q: seq<Entry>, d: Delay, reg: string)
    requires forall i | 0 <= i < |q| :: q[i].operand.InstrText?
    ensures LastNb(q, d, reg) == -1
  {
  }

  lemma GivesToLast(p: Parser, w: Event, at: nat, q: Parser)
    requires p.status == q.status == Running && w.Nb? && w.reg != "zero" && at + 1 == |p.queue| < LIMIT
    requires q.line == p.line + 1
    requires IsInstrFor(p.queue[at], w.delay, w.reg) && at > 0 && !Complete(p.queue[0])
    requires q.data == p.data
    requires q.queue == p.queue[at := p.queue[at].(gpr := p.queue[at].gpr + [Write(p.line, w.reg, w.val)])]
    ensures Line(p, w) == q
  {
  }

  lemma LoadQueued(p: Parser, e: Event, q: Parser)
    requires p.status == q.status == Running && e.Instr? && e.gpr.None? && e.kind.Delayed? && e.operands != []
    requires e.operands[0] != "zero"
    requires LastNb(p.queue, e.kind.delay, e.operands[0]) == -1 && (p.queue != [] ==> !Complete(p.queue[0]))
    requires |p.queue| + 1 < LIMIT
    requires q == Parser(p.line + 1, p.data, p.queue + [InstrEntry(p.line, e)], Running)
    ensures Line(p, e) == q
  {
  }
}
