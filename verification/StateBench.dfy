/** The state-machine benchmark of CoreMark: it fills a block with numbers, scans
    it, corrupts it, scans it again and undoes the corruption. */
module StateBench {
  import opened NumberFormat
  import Crc

  type Counts = c: seq<nat> | |c| == 8 witness [0, 0, 0, 0, 0, 0, 0, 0]

  const NO_COUNTS: Counts := [0, 0, 0, 0, 0, 0, 0, 0]

  function Number(s: CoreState): (n: nat)
    ensures n < 8
  {
    match s
    case Start => 0
    case Invalid => 1
    case S1 => 2
    case S2 => 3
    case Int => 4
    case Float => 5
    case Exponent => 6
    case Scientific => 7
  }

  function Bump(c: Counts, s: CoreState): Counts { c[Number(s) := c[Number(s)] + 1] }

  // ----- one token -------------------------------------------------------------------------------

  datatype Scan = Scan(pos: nat, state: CoreState, counts: Counts)

  /** The transition counters touched by a symbol. */
  function Track(c: Counts, s: CoreState, sym: bv8): Counts {
    match s
    case Start => if Delta(s, sym) == Invalid then Bump(Bump(c, Invalid), Start) else Bump(c, Start)
    case S1 | S2 | Exponent => Bump(c, s)
    case Int | Float => if Delta(s, sym) == s then c else Bump(c, s)
    case Scientific => if Delta(s, sym) == s then c else Bump(c, Invalid)
    case Invalid => c
  }

  /** Scanning from position p in state s. */
  function Transition(mem: seq<bv8>, p: nat, s: CoreState, c: Counts): (r: Scan)
    requires p <= |mem|
    ensures p <= r.pos <= |mem|
    decreases |mem| - p
  {
    if p == |mem| || mem[p] == 0 || s == Invalid then Scan(p, s, c)
    else if mem[p] == COMMA then Scan(p + 1, s, c)
    else Transition(mem, p + 1, Delta(s, mem[p]), Track(c, s, mem[p]))
  }

  /** core_state_transition; the block must hold a NUL at or behind the start. */
  method StateTransition(mem: array<bv8>, instr: nat, counts: Counts)
    returns (str: nat, state: CoreState, track: Counts)
    requires exists z :: instr <= z < mem.Length && mem[z] == 0
    ensures Scan(str, state, track) == Transition(mem[..], instr, Start, counts)
  {
    ghost var z :| instr <= z < mem.Length && mem[z] == 0;
    str, state, track := instr, Start, counts;
    while mem[str] != 0 && state != Invalid
      invariant instr <= str <= z
      invariant Transition(mem[..], instr, Start, counts) == Transition(mem[..], str, state, track)
      decreases z - str
    {
      var sym := mem[str];
      if sym == COMMA {
        str := str + 1;
        return;
      }
      state, track := Switch(state, sym, track);
      str := str + 1;
    }
  }

  /** The switch statement. */
  method Switch(s: CoreState, sym: bv8, counts: Counts) returns (state: CoreState, track: Counts)
    ensures state == Delta(s, sym) && track == Track(counts, s, sym)
  {
    state, track := s, counts;
    match s {
      case Start =>
        if IsDigit(sym) {
          state := Int;
        } else if sym == PLUS || sym == MINUS {
          state := S1;
        } else if sym == DOT {
          state := Float;
        } else {
          state := Invalid;
          track := Bump(track, Invalid);
        }
        track := Bump(track, Start);
      case S1 =>
        if IsDigit(sym) {
          state := Int;
        } else if sym == DOT {
          state := Float;
        } else {
          state := Invalid;
        }
        track := Bump(track, S1);
      case Int =>
        if sym == DOT {
          state := Float;
          track := Bump(track, Int);
        } else if !IsDigit(sym) {
          state := Invalid;
          track := Bump(track, Int);
        }
      case Float =>
        if sym == UPPER_E || sym == LOWER_E {
          state := S2;
          track := Bump(track, Float);
        } else if !IsDigit(sym) {
          state := Invalid;
          track := Bump(track, Float);
        }
      case S2 =>
        if sym == PLUS || sym == MINUS {
          state := Exponent;
        } else {
          state := Invalid;
        }
        track := Bump(track, S2);
      case Exponent =>
        if IsDigit(sym) {
          state := Scientific;
        } else {
          state := Invalid;
        }
        track := Bump(track, Exponent);
      case Scientific =>
        if !IsDigit(sym) {
          state := Invalid;
          track := Bump(track, Invalid);
        }
      case Invalid =>
    }
  }

  // ----- what a token means ------------------------------------------------------------------------

  /** The end of the token at p: the next comma or NUL. */
  function TokenEnd(mem: seq<bv8>, p: nat): (q: nat)
    requires p <= |mem|
    ensures p <= q <= |mem| && (q < |mem| ==> mem[q] == 0 || mem[q] == COMMA)
    ensures forall i | p <= i < q :: mem[i] != 0 && mem[i] != COMMA
    decreases |mem| - p
  {
    if p == |mem| || mem[p] == 0 || mem[p] == COMMA then p else TokenEnd(mem, p + 1)
  }

  function Token(mem: seq<bv8>, p: nat): Word
    requires p <= |mem|
  {
    mem[p..TokenEnd(mem, p)]
  }

  lemma {:induction false} TransitionRuns(mem: seq<bv8>, p: nat, w: Word, c: Counts)
    requires p <= |mem|
    ensures Transition(mem, p, Run(w), c).state == Run(w + Token(mem, p))
    decreases |mem| - p
  {
    hide Track, Delta;
    var t := Token(mem, p);
    if Run(w) == Invalid {
      InvalidStays(w, t);
    } else if p == |mem| || mem[p] == 0 || mem[p] == COMMA {
      assert w + t == w;
    } else {
      RunEnd(w, mem[p]);
      TransitionRuns(mem, p + 1, w + [mem[p]], Track(c, Run(w), mem[p]));
      assert w + t == w + [mem[p]] + Token(mem, p + 1);
    }
  }

  /** core_state_transition names the format of the token in front of it, Invalid
      exactly when the token cannot be continued to a number, and always moves on. */
  lemma TokenClassified(mem: seq<bv8>, p: nat, c: Counts)
    requires p < |mem|
    ensures var r, t := Transition(mem, p, Start, c), Token(mem, p);
      && (r.state == Int <==> IsInt(t)) && (r.state == Float <==> IsFloat(t))
      && (r.state == Scientific <==> IsScientific(t))
      && (r.state == Invalid <==> forall v :: !IsNumber(t + v))
      && (mem[p] != 0 ==> r.pos > p)
  {
    hide IsInt, IsFloat, IsScientific, IsNumber, TokenEnd;
    var t := Token(mem, p);
    TransitionRuns(mem, p, [], c);
    assert [] + t == t;
    Recognises(t);
    InvalidIffHopeless(t);
  }

  /** How often a word leaves a state of the machine. */
  function Leaves(w: Word, s: CoreState): nat {
    if w == [] then 0
    else Leaves(w[..|w| - 1], s) + if Run(w[..|w| - 1]) == s && Run(w) != s then 1 else 0
  }

  /** How often a word becomes invalid out of its start or behind an exponent. */
  function Breaks(w: Word): nat {
    if w == [] then 0
    else Breaks(w[..|w| - 1]) + if Run(w[..|w| - 1]) in {Start, Scientific} && Run(w) == Invalid then 1 else 0
  }

  /** What a word adds to the counter of a state. */
  function Counted(w: Word, s: CoreState): nat {
    match s
    case Invalid => Breaks(w)
    case Scientific => 0
    case _ => Leaves(w, s)
  }

  lemma TrackStep(c: Counts, r: CoreState, sym: bv8, s: CoreState)
    requires r != Invalid
    ensures Track(c, r, sym)[Number(s)] == c[Number(s)]
      + match s
        case Invalid => if r in {Start, Scientific} && Delta(r, sym) == Invalid then 1 else 0
        case Scientific => 0
        case _ => if r == s && Delta(r, sym) != s then 1 else 0
  {
  }

  lemma CountedEnd(w: Word, c: bv8, s: CoreState)
    ensures Counted(w + [c], s) == Counted(w, s)
      + match s
        case Invalid => if Run(w) in {Start, Scientific} && Run(w + [c]) == Invalid then 1 else 0
        case Scientific => 0
        case _ => if Run(w) == s && Run(w + [c]) != s then 1 else 0
  {
    hide Run;
    assert (w + [c])[..|w|] == w;
  }

  lemma {:induction false} CountedInvalid(w: Word, v: Word, s: CoreState)
    requires Run(w) == Invalid
    ensures Counted(w + v, s) == Counted(w, s)
    decreases |v|
  {
    if v == [] {
      assert w + v == w;
    } else {
      var u := v[..|v| - 1];
      CountedInvalid(w, u, s);
      InvalidStays(w, u);
      InvalidStays(w, v);
      assert w + v == (w + u) + [v[|v| - 1]];
      CountedEnd(w + u, v[|v| - 1], s);
    }
  }

  lemma {:induction false} TransitionCounts(mem: seq<bv8>, p: nat, w: Word, c: Counts, s: CoreState)
    requires p <= |mem|
    ensures Transition(mem, p, Run(w), c).counts[Number(s)] + Counted(w, s)
      == c[Number(s)] + Counted(w + Token(mem, p), s)
    decreases |mem| - p
  {
    hide Track, Delta, Counted, Number;
    var t := Token(mem, p);
    if Run(w) == Invalid {
      CountedInvalid(w, t, s);
    } else if p == |mem| || mem[p] == 0 || mem[p] == COMMA {
      assert w + t == w;
    } else {
      RunEnd(w, mem[p]);
      TransitionCounts(mem, p + 1, w + [mem[p]], Track(c, Run(w), mem[p]), s);
      TrackStep(c, Run(w), mem[p], s);
      CountedEnd(w, mem[p], s);
      assert w + t == w + [mem[p]] + Token(mem, p + 1);
    }
  }

  /** Over one token the counter of a state grows by the number of times the token
      leaves it; that of SCIENTIFIC does not grow, and that of INVALID grows once if the
      token becomes invalid out of its start or behind an exponent. */
  lemma TokenCounted(mem: seq<bv8>, p: nat, c: Counts, s: CoreState)
    requires p <= |mem|
    ensures var t, r := Token(mem, p), Transition(mem, p, Start, c).counts;
      && (s !in {Invalid, Scientific} ==> r[Number(s)] == c[Number(s)] + Leaves(t, s))
      && (s == Scientific ==> r[Number(s)] == c[Number(s)])
      && (s == Invalid ==> r[Number(s)] == c[Number(s)] + Breaks(t) && Breaks(t) <= 1)
  {
    hide Transition, Number;
    TransitionCounts(mem, p, [], c, s);
    assert [] + Token(mem, p) == Token(mem, p);
    OneBreak(Token(mem, p));
  }

  lemma {:induction false} OneBreak(w: Word)
    ensures Breaks(w) <= 1 && (Run(w) != Invalid ==> Breaks(w) == 0)
    decreases |w|
  {
    hide Delta;
    if w != [] {
      var v := w[..|w| - 1];
      OneBreak(v);
      assert w == v + [w[|w| - 1]];
      if Run(v) == Invalid {
        InvalidStays(v, [w[|w| - 1]]);
      }
    }
  }

  /** The pointer ends behind the comma, or at the NUL; but an invalid token is left
      behind the first byte that makes it invalid. */
  lemma {:induction false} TransitionEnds(mem: seq<bv8>, p: nat, w: Word, c: Counts)
    requires p <= |mem|
    ensures var r, end := Transition(mem, p, Run(w), c), TokenEnd(mem, p);
      if r.state != Invalid then r.pos == if end < |mem| && mem[end] == COMMA then end + 1 else end
      else
        && r.pos <= end && Run(w + mem[p..r.pos]) == Invalid
        && forall q | p <= q < r.pos :: Run(w + mem[p..q]) != Invalid
    decreases |mem| - p
  {
    hide Track, Delta;
    if Run(w) == Invalid || p == |mem| || mem[p] == 0 || mem[p] == COMMA {
      assert w + mem[p..p] == w;
    } else {
      var v := w + [mem[p]];
      RunEnd(w, mem[p]);
      var c1 := Track(c, Run(w), mem[p]);
      TransitionEnds(mem, p + 1, v, c1);
      forall q | p < q <= |mem| ensures w + mem[p..q] == v + mem[p + 1..q] {
        assert mem[p..q] == [mem[p]] + mem[p + 1..q];
      }
      assert w + mem[p..p] == w;
    }
  }

  lemma TokenLeft(mem: seq<bv8>, p: nat, c: Counts)
    requires p <= |mem|
    ensures var r, end := Transition(mem, p, Start, c), TokenEnd(mem, p);
      if r.state != Invalid then r.pos == if end < |mem| && mem[end] == COMMA then end + 1 else end
      else r.pos <= end && Run(mem[p..r.pos]) == Invalid && forall q | p <= q < r.pos :: Run(mem[p..q]) != Invalid
  {
    hide Transition, Run;
    assert Run([]) == Start by { NothingRead(); }
    TransitionEnds(mem, p, [], c);
    forall q | p <= q <= |mem| ensures [] + mem[p..q] == mem[p..q] {
    }
  }

  lemma NothingRead()
    ensures Run([]) == Start
  {
  }

  /** The states in the order of their numbers. */
  lemma NumbersInOrder(s: CoreState)
    ensures [Start, Invalid, S1, S2, Int, Float, Exponent, Scientific][Number(s)] == s
  {
  }

  // ----- scanning the block -------------------------------------------------------------------------

  datatype Tally = Tally(finals: Counts, tracks: Counts)

  /** All tokens up to the NUL. */
  function Tallied(mem: seq<bv8>, p: nat, t: Tally): Tally
    requires p <= |mem|
    decreases |mem| - p
  {
    if p == |mem| || mem[p] == 0 then t
    else
      var r := Transition(mem, p, Start, t.tracks);
      if r.pos <= p then t else Tallied(mem, r.pos, Tally(Bump(t.finals, r.state), r.counts))
  }

  /** A scan stays inside the block: it cannot pass a NUL. */
  lemma {:induction false} StopsAtNul(mem: seq<bv8>, p: nat, s: CoreState, c: Counts, z: nat)
    requires p <= z < |mem| && mem[z] == 0
    ensures Transition(mem, p, s, c).pos <= z
    decreases z - p
  {
    hide Delta, Track;
    if p < z && mem[p] != 0 && s != Invalid && mem[p] != COMMA {
      StopsAtNul(mem, p + 1, Delta(s, mem[p]), Track(c, s, mem[p]), z);
    }
  }

  lemma MovesOn(mem: seq<bv8>, p: nat, c: Counts)
    requires p < |mem| && mem[p] != 0
    ensures Transition(mem, p, Start, c).pos > p
  {
  }

  method ScanBlock(mem: array<bv8>, ghost z: nat, t0: Tally) returns (t: Tally)
    requires z < mem.Length && mem[z] == 0
    ensures t == Tallied(mem[..], 0, t0)
  {
    hide Transition;
    t := t0;
    var p := 0;
    while mem[p] != 0
      invariant p <= z && Tallied(mem[..], 0, t0) == Tallied(mem[..], p, t)
      decreases z - p
    {
      StopsAtNul(mem[..], p, Start, t.tracks, z);
      MovesOn(mem[..], p, t.tracks);
      var str, state, track := StateTransition(mem, p, t.tracks);
      t := Tally(Bump(t.finals, state), track);
      p := str;
    }
  }

  /** The end states of the scans of a block, in order. */
  function Classes(mem: seq<bv8>, p: nat): seq<CoreState>
    requires p <= |mem|
    decreases |mem| - p
  {
    if p == |mem| || mem[p] == 0 then []
    else
      var r := Transition(mem, p, Start, NO_COUNTS);
      if r.pos <= p then [] else [r.state] + Classes(mem, r.pos)
  }

  lemma {:induction false} SameScan(mem: seq<bv8>, p: nat, s: CoreState, c: Counts, d: Counts)
    requires p <= |mem|
    ensures Transition(mem, p, s, c).pos == Transition(mem, p, s, d).pos
    ensures Transition(mem, p, s, c).state == Transition(mem, p, s, d).state
    decreases |mem| - p
  {
    hide Track, Delta;
    if !(p == |mem| || mem[p] == 0 || s == Invalid || mem[p] == COMMA) {
      SameScan(mem, p + 1, Delta(s, mem[p]), Track(c, s, mem[p]), Track(d, s, mem[p]));
    }
  }

  /** The final counter of a state grows by the number of scans that end in it. */
  lemma {:induction false} FinalsCounted(mem: seq<bv8>, p: nat, t: Tally, s: CoreState)
    requires p <= |mem|
    ensures Tallied(mem, p, t).finals[Number(s)] == t.finals[Number(s)] + multiset(Classes(mem, p))[s]
    decreases |mem| - p
  {
    hide Transition;
    if p < |mem| && mem[p] != 0 {
      var r := Transition(mem, p, Start, t.tracks);
      SameScan(mem, p, Start, t.tracks, NO_COUNTS);
      if r.pos > p {
        FinalsCounted(mem, r.pos, Tally(Bump(t.finals, r.state), r.counts), s);
        assert multiset([r.state] + Classes(mem, r.pos)) == multiset{r.state} + multiset(Classes(mem, r.pos));
        OtherNumber(r.state, s);
      }
    }
  }

  lemma OtherNumber(r: CoreState, s: CoreState)
    ensures Number(r) == Number(s) <==> r == s
  {
  }

  // ----- corruption and its undoing -------------------------------------------------------------------

  /** The byte at position i after one corruption pass. */
  function Corrupted(b: bv8, i: nat, step: nat, key: bv8): bv8
    requires step > 0
  {
    if i % step == 0 && b != COMMA then b ^ key else b
  }

  lemma NextMultiple(p: nat, i: nat, step: nat)
    requires step > 0 && p % step == 0
    ensures (p + step) % step == 0
    ensures p < i < p + step ==> i % step != 0
  {
    var q := p / step;
    assert p == q * step;
    assert (q + 1) * step == p + step;
    Remainder(p + step, step, q + 1, 0);
    if p < i < p + step {
      Remainder(i, step, q, i - p);
    }
  }

  lemma Remainder(a: nat, step: nat, q: nat, r: nat)
    requires step > 0 && r < step && a == q * step + r
    ensures a % step == r
  {
    var d := a / step - q;
    assert a == (a / step) * step + a % step;
    assert d * step == r - a % step;
    assert d >= 1 ==> d * step >= step;
    assert d <= -1 ==> d * step <= -1 * step;
  }

  method Corrupt(mem: array<bv8>, blksize: nat, step: nat, key: bv8)
    requires blksize <= mem.Length && step > 0
    modifies mem
    ensures forall i | 0 <= i < blksize :: mem[i] == Corrupted(old(mem[i]), i, step, key)
    ensures forall i | blksize <= i < mem.Length :: mem[i] == old(mem[i])
  {
    var p := 0;
    while p < blksize
      invariant p % step == 0
      invariant forall i | 0 <= i < p && i < blksize :: mem[i] == Corrupted(old(mem[i]), i, step, key)
      invariant forall i | p <= i < mem.Length :: mem[i] == old(mem[i])
      invariant forall i | blksize <= i < mem.Length :: mem[i] == old(mem[i])
      decreases blksize - p
    {
      forall i | p <= i < p + step && i < blksize
        ensures i > p ==> i % step != 0
      {
        NextMultiple(p, i, step);
      }
      NextMultiple(p, p, step);
      if mem[p] != COMMA {
        mem[p] := mem[p] ^ key;
      }
      p := p + step;
    }
  }

  lemma XorTwice(b: bv8, k: bv8)
    ensures (b ^ k) ^ k == b
  {
  }

  /** Undoing with the same key restores every byte except a stepped byte that the
      corruption has turned into a comma, which stays a comma. */
  lemma Undone(b: bv8, i: nat, step: nat, key: bv8)
    requires step > 0
    ensures Corrupted(Corrupted(b, i, step, key), i, step, key) ==
      if i % step == 0 && b != COMMA && b ^ key == COMMA then COMMA else b
  {
    XorTwice(b, key);
  }

  /** Of two neighbours at most one is stepped on. */
  lemma NeighbourSpared(z: nat, step: nat)
    requires step >= 2
    ensures z % step != 0 || (z + 1) % step != 0
  {
    if z % step == 0 {
      NextMultiple(z, z + 1, step);
    }
  }

  /** The block after one corruption pass. */
  function CorruptedBlock(mem: seq<bv8>, blksize: nat, step: nat, key: bv8): (r: seq<bv8>)
    requires step > 0
    ensures |r| == |mem|
  {
    seq(|mem|, i requires 0 <= i < |mem| => if i < blksize then Corrupted(mem[i], i, step, key) else mem[i])
  }

  /** core_bench_state.  With a NUL for each of the two scans to stop at, at z before
      and at y after the corruption, both stay inside the memory; the block ends up as
      described by two corruption passes. */
  method BenchState(blksize: nat, mem: array<bv8>, seed1: bv8, seed2: bv8, step: nat, crc0: bv16, ghost z: nat,
                    ghost y: nat)
    returns (crc: bv16)
    requires blksize <= mem.Length && step > 0 && z < mem.Length && mem[z] == 0
    requires y < mem.Length && (if y < blksize then Corrupted(mem[y], y, step, seed1) else mem[y]) == 0
    modifies mem
    ensures forall i | 0 <= i < blksize :: mem[i] == Corrupted(Corrupted(old(mem[i]), i, step, seed1), i, step, seed2)
    ensures forall i | blksize <= i < mem.Length :: mem[i] == old(mem[i])
    ensures var first := Tallied(old(mem[..]), 0, Tally(NO_COUNTS, NO_COUNTS));
      Crc.After(TallyBytes(Tallied(CorruptedBlock(old(mem[..]), blksize, step, seed1), 0, first), 8), crc0, crc)
    ensures seed1 == seed2 ==> forall i | 0 <= i < blksize ::
      mem[i] == if i % step == 0 && old(mem[i]) != COMMA && old(mem[i]) ^ seed1 == COMMA then COMMA else old(mem[i])
  {
    hide Tallied, Corrupted, Crc.After, TallyBytes;
    var tally := ScanBlock(mem, z, Tally(NO_COUNTS, NO_COUNTS));
    Corrupt(mem, blksize, step, seed1);
    assert mem[..] == CorruptedBlock(old(mem[..]), blksize, step, seed1);
    tally := ScanBlock(mem, y, tally);
    Corrupt(mem, blksize, step, seed2);
    if seed1 == seed2 {
      forall i | 0 <= i < blksize
        ensures mem[i]
          == if i % step == 0 && old(mem[i]) != COMMA && old(mem[i]) ^ seed1 == COMMA then COMMA else old(mem[i])
      {
        Undone(old(mem[i]), i, step, seed1);
      }
    }
    crc := SumUp(tally, crc0);
  }

  /** The bytes of the counters of the first n states, in the order they are summed. */
  function TallyBytes(t: Tally, n: nat): seq<bv8>
    requires n <= 8
  {
    if n == 0 then []
    else TallyBytes(t, n - 1) + (Crc.LongBytes(Bits32(t.finals[n - 1])) + Crc.LongBytes(Bits32(t.tracks[n - 1])))
  }

  lemma {:induction false} TallyLength(t: Tally, n: nat)
    requires n <= 8
    ensures |TallyBytes(t, n)| == 8 * n
    decreases n
  {
    hide Bits32;
    if n > 0 {
      TallyLength(t, n - 1);
    }
  }

  lemma LongLength(n: nat)
    ensures |Crc.LongBytes(Bits32(n))| == 4
  {
  }

  /** Eight bytes per state: its final counter and its transition counter. */
  lemma {:induction false} TallyBytesAt(t: Tally, n: nat, k: nat)
    requires k < n <= 8
    ensures |TallyBytes(t, n)| == 8 * n
    ensures TallyBytes(t, n)[8 * k..8 * k + 4] == Crc.LongBytes(Bits32(t.finals[k]))
    ensures TallyBytes(t, n)[8 * k + 4..8 * k + 8] == Crc.LongBytes(Bits32(t.tracks[k]))
    decreases n
  {
    hide Crc.LongBytes, Bits32;
    TallyLength(t, n);
    TallyLength(t, n - 1);
    LongLength(t.finals[n - 1]);
    LongLength(t.tracks[n - 1]);
    if k < n - 1 {
      TallyBytesAt(t, n - 1, k);
      var b := TallyBytes(t, n - 1);
      assert TallyBytes(t, n)[8 * k..8 * k + 4] == b[8 * k..8 * k + 4];
      assert TallyBytes(t, n)[8 * k + 4..8 * k + 8] == b[8 * k + 4..8 * k + 8];
    }
  }

  /** The CRC over both counters of every state. */
  method SumUp(t: Tally, crc0: bv16) returns (crc: bv16)
    ensures Crc.After(TallyBytes(t, 8), crc0, crc)
  {
    hide Crc.After, Crc.LongBytes, Bits32;
    crc := crc0;
    Crc.AfterNothing(crc0);
    for i := 0 to 8
      invariant Crc.After(TallyBytes(t, i), crc0, crc)
    {
      ghost var a := crc;
      crc := Crc.Crcu32(Bits32(t.finals[i]), crc);
      ghost var b := crc;
      crc := Crc.Crcu32(Bits32(t.tracks[i]), crc);
      Crc.AfterBoth(Crc.LongBytes(Bits32(t.finals[i])), Crc.LongBytes(Bits32(t.tracks[i])), a, b, crc);
      Crc.AfterBoth(TallyBytes(t, i), Crc.LongBytes(Bits32(t.finals[i])) + Crc.LongBytes(Bits32(t.tracks[i])),
                    crc0, a, crc);
    }
  }

  function Bits32(n: nat): bv32 { (n % 0x1_0000_0000) as bv32 }

  lemma SparedNul(z: nat, step: nat, key: bv8) returns (y: nat)
    requires step >= 2
    ensures (y == z || y == z + 1) && Corrupted(0, y, step, key) == 0
  {
    NeighbourSpared(z, step);
    y := if z % step != 0 then z else z + 1;
  }

  /** With equal seeds the block comes back unchanged exactly when no stepped byte
      is turned into a comma. */
  lemma RestoredIff(before: seq<bv8>, step: nat, key: bv8)
    requires step > 0
    ensures (forall i | 0 <= i < |before| :: Corrupted(Corrupted(before[i], i, step, key), i, step, key) == before[i])
      <==> (forall i | 0 <= i < |before| && i % step == 0 && before[i] != COMMA :: before[i] ^ key != COMMA)
  {
    forall i | 0 <= i < |before|
      ensures Corrupted(Corrupted(before[i], i, step, key), i, step, key) == before[i]
        <==> !(i % step == 0 && before[i] != COMMA && before[i] ^ key == COMMA)
    {
      Undone(before[i], i, step, key);
    }
  }

  // ----- filling the block -------------------------------------------------------------------------

  /** The patterns, by group and number. */
  function Pattern(seed: int): (w: Word)
    ensures 4 <= |w| <= 8
  {
    var k := seed / 8 % 4;
    match seed % 8
    case 0 | 1 | 2 =>
      if k == 0 then [53, 48, 49, 50] else if k == 1 then [49, 50, 51, 52]
      else if k == 2 then [45, 56, 55, 52] else [43, 49, 50, 50]
    case 3 | 4 =>
      if k == 0 then [51, 53, 46, 53, 52, 52, 48, 48] else if k == 1 then [46, 49, 50, 51, 52, 53, 48, 48]
      else if k == 2 then [45, 49, 49, 48, 46, 55, 48, 48] else [43, 48, 46, 54, 52, 52, 48, 48]
    case 5 | 6 =>
      if k == 0 then [53, 46, 53, 48, 48, 101, 43, 51] else if k == 1 then [45, 46, 49, 50, 51, 101, 45, 50]
      else if k == 2 then [45, 56, 55, 101, 43, 56, 51, 50] else [43, 48, 46, 54, 101, 45, 49, 50]
    case 7 =>
      if k == 0 then [84, 48, 46, 51, 101, 45, 49, 70] else if k == 1 then [45, 84, 46, 84, 43, 43, 84, 113]
      else if k == 2 then [49, 84, 51, 46, 52, 101, 52, 122] else [51, 52, 46, 48, 101, 45, 84, 94]
  }

  const INT_TEXTS := ["5012", "1234", "-874", "+122"]
  const FLOAT_TEXTS := ["35.54400", ".1234500", "-110.700", "+0.64400"]
  const SCIENTIFIC_TEXTS := ["5.500e+3", "-.123e-2", "-87e+832", "+0.6e-12"]
  const ERROR_TEXTS := ["T0.3e-1F", "-T.T++Tq", "1T3.4e4z", "34.0e-T^"]

  function Texts(seed: int): (texts: seq<string>)
    ensures |texts| == 4
  {
    match seed % 8
    case 0 | 1 | 2 => INT_TEXTS
    case 3 | 4 => FLOAT_TEXTS
    case 5 | 6 => SCIENTIFIC_TEXTS
    case 7 => ERROR_TEXTS
  }

  function Letter(b: bv8): char { if b < 128 then b as char else ' ' }

  ghost predicate Spells(w: Word, text: string) {
    |w| == |text| && forall i | 0 <= i < |w| :: Letter(w[i]) == text[i]
  }

  lemma IntSpelling()
    ensures Spells([53, 48, 49, 50], "5012")
    ensures Spells([49, 50, 51, 52], "1234")
    ensures Spells([45, 56, 55, 52], "-874")
    ensures Spells([43, 49, 50, 50], "+122")
  {
  }

  lemma FloatSpelling()
    ensures Spells([51, 53, 46, 53, 52, 52, 48, 48], "35.54400")
    ensures Spells([46, 49, 50, 51, 52, 53, 48, 48], ".1234500")
    ensures Spells([45, 49, 49, 48, 46, 55, 48, 48], "-110.700")
    ensures Spells([43, 48, 46, 54, 52, 52, 48, 48], "+0.64400")
  {
  }

  lemma ScientificSpelling()
    ensures Spells([53, 46, 53, 48, 48, 101, 43, 51], "5.500e+3")
    ensures Spells([45, 46, 49, 50, 51, 101, 45, 50], "-.123e-2")
    ensures Spells([45, 56, 55, 101, 43, 56, 51, 50], "-87e+832")
    ensures Spells([43, 48, 46, 54, 101, 45, 49, 50], "+0.6e-12")
  {
  }

  lemma ErrorSpelling()
    ensures Spells([84, 48, 46, 51, 101, 45, 49, 70], "T0.3e-1F")
    ensures Spells([45, 84, 46, 84, 43, 43, 84, 113], "-T.T++Tq")
    ensures Spells([49, 84, 51, 46, 52, 101, 52, 122], "1T3.4e4z")
    ensures Spells([51, 52, 46, 48, 101, 45, 84, 94], "34.0e-T^")
  {
  }

  /** The patterns spell these texts. */
  lemma PatternText(seed: int)
    ensures Spells(Pattern(seed), Texts(seed)[seed / 8 % 4])
  {
    hide Spells;
    IntSpelling();
    FloatSpelling();
    ScientificSpelling();
    ErrorSpelling();
  }

  /** The first two groups are recognised as integers and floats and the last is
      hopeless.  In the third, "-87e+832" has no point, so that it is invalid too. */
  lemma PatternClass(seed: int)
    ensures seed % 8 in {0, 1, 2} ==> IsInt(Pattern(seed))
    ensures seed % 8 in {3, 4} ==> IsFloat(Pattern(seed))
    ensures seed % 8 in {5, 6} && seed / 8 % 4 != 2 ==> IsScientific(Pattern(seed))
    ensures seed % 8 == 7 || (seed % 8 in {5, 6} && seed / 8 % 4 == 2) ==> Run(Pattern(seed)) == Invalid
  {
    hide IsInt, IsFloat, IsScientific, Run;
    Integers();
    Floats();
    Scientifics();
    Errors();
    Recognises(Pattern(seed));
  }

  lemma OneMore(w: Word, c: bv8, all: Word)
    requires all == w + [c]
    ensures Run(all) == Delta(Run(w), c)
  {
    RunEnd(w, c);
  }

  lemma FourBytes(a: bv8, b: bv8, c: bv8, d: bv8)
    ensures Run([a, b, c, d]) == Delta(Delta(Delta(Delta(Start, a), b), c), d)
  {
    hide Run, Delta;
    NothingRead();
    OneMore([], a, [a]);
    OneMore([a], b, [a, b]);
    OneMore([a, b], c, [a, b, c]);
    OneMore([a, b, c], d, [a, b, c, d]);
  }

  lemma EightBytes(a: bv8, b: bv8, c: bv8, d: bv8, e: bv8, f: bv8, g: bv8, h: bv8)
    ensures Run([a, b, c, d, e, f, g, h]) == Delta(Delta(Delta(Delta(Run([a, b, c, d]), e), f), g), h)
  {
    hide Run, Delta;
    OneMore([a, b, c, d], e, [a, b, c, d, e]);
    OneMore([a, b, c, d, e], f, [a, b, c, d, e, f]);
    OneMore([a, b, c, d, e, f], g, [a, b, c, d, e, f, g]);
    OneMore([a, b, c, d, e, f, g], h, [a, b, c, d, e, f, g, h]);
  }

  lemma Integers()
    ensures Run([53, 48, 49, 50]) == Int
    ensures Run([49, 50, 51, 52]) == Int
    ensures Run([45, 56, 55, 52]) == Int
    ensures Run([43, 49, 50, 50]) == Int
  {
    hide Run;
    FourBytes(53, 48, 49, 50);
    FourBytes(49, 50, 51, 52);
    FourBytes(45, 56, 55, 52);
    FourBytes(43, 49, 50, 50);
  }

  lemma Floats()
    ensures Run([51, 53, 46, 53, 52, 52, 48, 48]) == Float
    ensures Run([46, 49, 50, 51, 52, 53, 48, 48]) == Float
    ensures Run([45, 49, 49, 48, 46, 55, 48, 48]) == Float
    ensures Run([43, 48, 46, 54, 52, 52, 48, 48]) == Float
  {
    hide Run;
    FourBytes(51, 53, 46, 53);
    EightBytes(51, 53, 46, 53, 52, 52, 48, 48);
    FourBytes(46, 49, 50, 51);
    EightBytes(46, 49, 50, 51, 52, 53, 48, 48);
    FourBytes(45, 49, 49, 48);
    EightBytes(45, 49, 49, 48, 46, 55, 48, 48);
    FourBytes(43, 48, 46, 54);
    EightBytes(43, 48, 46, 54, 52, 52, 48, 48);
  }

  lemma Scientifics()
    ensures Run([53, 46, 53, 48, 48, 101, 43, 51]) == Scientific
    ensures Run([45, 46, 49, 50, 51, 101, 45, 50]) == Scientific
    ensures Run([43, 48, 46, 54, 101, 45, 49, 50]) == Scientific
  {
    hide Run;
    FourBytes(53, 46, 53, 48);
    EightBytes(53, 46, 53, 48, 48, 101, 43, 51);
    FourBytes(45, 46, 49, 50);
    EightBytes(45, 46, 49, 50, 51, 101, 45, 50);
    FourBytes(43, 48, 46, 54);
    EightBytes(43, 48, 46, 54, 101, 45, 49, 50);
  }

  lemma Errors()
    ensures Run([84, 48, 46, 51, 101, 45, 49, 70]) == Invalid
    ensures Run([45, 84, 46, 84, 43, 43, 84, 113]) == Invalid
    ensures Run([49, 84, 51, 46, 52, 101, 52, 122]) == Invalid
    ensures Run([51, 52, 46, 48, 101, 45, 84, 94]) == Invalid
    ensures Run([45, 56, 55, 101, 43, 56, 51, 50]) == Invalid
  {
    hide Run;
    FourBytes(84, 48, 46, 51);
    EightBytes(84, 48, 46, 51, 101, 45, 49, 70);
    FourBytes(45, 84, 46, 84);
    EightBytes(45, 84, 46, 84, 43, 43, 84, 113);
    FourBytes(49, 84, 51, 46);
    EightBytes(49, 84, 51, 46, 52, 101, 52, 122);
    FourBytes(51, 52, 46, 48);
    EightBytes(51, 52, 46, 48, 101, 45, 84, 94);
    FourBytes(45, 56, 55, 101);
    EightBytes(45, 56, 55, 101, 43, 56, 51, 50);
  }

  /** The first n patterns, each followed by a comma. */
  function Patterns(seed: int, n: nat): Word {
    if n == 0 then [] else Patterns(seed, n - 1) + Pattern(seed + n) + [COMMA]
  }

  /** core_init_state: as many patterns as fit, then NULs, at least two of them if
      the block has room for two. */
  method InitState(size: nat, seed0: int, mem: array<bv8>) returns (ghost n: nat)
    requires 1 <= size <= mem.Length
    modifies mem
    ensures var used := |Patterns(seed0, n)|;
      && used < size <= used + |Pattern(seed0 + n + 1)| + 2 && (size >= 2 ==> used + 2 <= size)
      && mem[..used] == Patterns(seed0, n) && (forall i | used <= i < size :: mem[i] == 0)
    ensures forall i | size <= i < mem.Length :: mem[i] == old(mem[i])
  {
    hide Pattern;
    var total, next, seed := 0, 0, seed0;
    var buf: Word := [];
    n := 0;
    while total + next + 1 < size - 1
      invariant total < size && (size >= 2 ==> total + 2 <= size) && total == |Patterns(seed0, n)|
      invariant mem[..total] == Patterns(seed0, n)
      invariant next == |buf|
      invariant if next == 0 then seed == seed0 && n == 0 else seed == seed0 + n + 1 && buf == Pattern(seed)
      invariant forall i | size <= i < mem.Length :: mem[i] == old(mem[i])
      decreases size - total - next
    {
      if next > 0 {
        Copy(mem, total, buf);
        assert mem[..total + next + 1] == Patterns(seed0, n) + buf + [COMMA];
        total := total + next + 1;
        n := n + 1;
      }
      seed := seed + 1;
      buf := Pattern(seed);
      next := |buf|;
    }
    while total < size
      invariant |Patterns(seed0, n)| <= total <= size
      invariant mem[..|Patterns(seed0, n)|] == Patterns(seed0, n)
      invariant forall i | |Patterns(seed0, n)| <= i < total :: mem[i] == 0
      invariant forall i | size <= i < mem.Length :: mem[i] == old(mem[i])
    {
      mem[total] := 0;
      total := total + 1;
    }
  }

  /** The benchmark on the block that core_init_state fills, of any size from 2 on:
      no scan leaves the block, and with equal seeds exactly the stepped bytes that
      are turned into commas are lost. */
  method FillAndBench(size: nat, seed: int, mem: array<bv8>, key: bv8, step: nat, crc0: bv16)
    returns (crc: bv16, ghost filled: seq<bv8>, ghost n: nat)
    requires 2 <= size <= mem.Length && step >= 2
    modifies mem
    ensures var used := |Patterns(seed, n)|;
      && used + 2 <= size <= used + |Pattern(seed + n + 1)| + 2 && |filled| == mem.Length
      && filled[..used] == Patterns(seed, n) && forall i | used <= i < size :: filled[i] == 0
    ensures forall i | 0 <= i < size ::
      mem[i] == if i % step == 0 && filled[i] != COMMA && filled[i] ^ key == COMMA then COMMA else filled[i]
  {
    hide Patterns, Tallied, Crc.After, TallyBytes;
    n := InitState(size, seed, mem);
    filled := mem[..];
    ghost var z := |Patterns(seed, n)|;
    ghost var y := SparedNul(z, step, key);
    crc := BenchState(size, mem, key, key, step, crc0, z, y);
  }

  lemma {:induction false} PatternsStart(seed: int, n: nat)
    requires n > 0
    ensures Pattern(seed + 1) <= Patterns(seed, n)
    decreases n
  {
    hide Pattern;
    if n > 1 {
      PatternsStart(seed, n - 1);
    } else {
      assert Patterns(seed, 0) == [] && Patterns(seed, 1) == [] + Pattern(seed + 1) + [COMMA];
    }
  }

  /** With seed -1 the block starts with the digit 5, and a key of 0x19 in both passes
      turns that into a comma for good, for every block with room for one pattern. */
  method FirstByteLost(size: nat, mem: array<bv8>, step: nat, crc0: bv16) returns (crc: bv16, ghost filled: seq<bv8>)
    requires 7 <= size <= mem.Length && step >= 2
    modifies mem
    ensures |filled| == mem.Length && filled[0] == 53 && mem[0] == COMMA
  {
    hide Patterns, Pattern;
    ghost var n;
    crc, filled, n := FillAndBench(size, -1, mem, 0x19, step, crc0);
    FirstPattern();
    assert n > 0 by { NoPatterns(-1); }
    PatternsStart(-1, n);
    assert filled[0] == filled[..|Patterns(-1, n)|][0] == Pattern(0)[0];
  }

  lemma NoPatterns(seed: int)
    ensures |Patterns(seed, 0)| == 0
  {
  }

  lemma FirstPattern()
    ensures Pattern(0) == [53, 48, 49, 50] && (53 as bv8) ^ 0x19 == COMMA
  {
  }

  method Copy(mem: array<bv8>, total: nat, buf: Word)
    requires total + |buf| < mem.Length
    modifies mem
    ensures mem[..total] == old(mem[..total]) && mem[total..total + |buf|] == buf && mem[total + |buf|] == COMMA
    ensures forall i | total + |buf| < i < mem.Length :: mem[i] == old(mem[i])
  {
    var i := 0;
    while i < |buf|
      invariant i <= |buf| && mem[..total] == old(mem[..total]) && mem[total..total + i] == buf[..i]
      invariant forall k | total + i <= k < mem.Length :: mem[k] == old(mem[k])
    {
      mem[total + i] := buf[i];
      i := i + 1;
    }
    mem[total + i] := COMMA;
  }
}
