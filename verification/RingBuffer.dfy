/** The ring buffer between the socket thread and the simulation thread: one
    producer, one consumer, no lock.  A thread is a program counter; every shared
    variable is read or written in a step of its own, and the wrapped index is
    published in one step. */
module RingBuffer {
  import opened Basics

  const BUFSIZE := 1024

  type Index = x: int | 0 <= x < 1024

  // ----- the two threads --------------------------------------------------------------------

  /** put_byte: between the two reads of rptr in the test for full, between the
      test and the store, and between the store and the publication. */
  datatype Producer =
    | PIdle
    | PTest(dat: Byte)
    | PBranch(dat: Byte, ahead: bool)
    | PStore(dat: Byte)
    | PPublish(dat: Byte)

  /** get_byte: between the test for empty and the load, and before the publication. */
  datatype Consumer =
    | CIdle
    | CLoad
    | CPublish(dat: Byte)

  /** A buffer with its two threads.  `puts` and `gots` record the bytes whose
      index has been published. */
  datatype Ring = Ring(rptr: Index, wptr: Index, buf: seq<Byte>, producer: Producer, consumer: Consumer,
                       puts: seq<Byte>, gots: seq<Byte>)

  ghost predicate Start(r: Ring) {
    r.rptr == r.wptr == 0 && |r.buf| == BUFSIZE && r.producer == PIdle && r.consumer == CIdle && r.puts == r.gots == []
  }

  datatype Action = Put(dat: Byte) | ProducerStep | ConsumerStep

  /** Unsigned subtraction of the C code. */
  function USub(a: nat, b: nat): nat { (a - b) % 0x1_0000_0000 }

  predicate Enabled(r: Ring, a: Action) {
    match a
    case Put(_) => r.producer.PIdle?
    case ProducerStep => !r.producer.PIdle?
    case ConsumerStep => true
  }

  function Step(r: Ring, a: Action): (u: Ring)
    requires |r.buf| == BUFSIZE && Enabled(r, a)
    ensures |u.buf| == BUFSIZE
  {
    match a
    case Put(dat) => r.(producer := PTest(dat))
    case ProducerStep => StepProducer(r)
    case ConsumerStep => StepConsumer(r)
  }

  function StepProducer(r: Ring): Ring
    requires |r.buf| == BUFSIZE && !r.producer.PIdle?
  {
    match r.producer
    case PTest(dat) => r.(producer := PBranch(dat, r.wptr >= r.rptr))
    case PBranch(dat, ahead) =>
      if FullTest(r.wptr, r.rptr, ahead) then r.(producer := PTest(dat)) else r.(producer := PStore(dat))
    case PStore(dat) => r.(buf := r.buf[r.wptr := dat], producer := PPublish(dat))
    case PPublish(dat) => r.(wptr := (r.wptr + 1) % BUFSIZE, producer := PIdle, puts := r.puts + [dat])
  }

  /** The branch of tcp_buffer_is_full that the first read of rptr has selected,
      with the second read of rptr. */
  predicate FullTest(wptr: Index, rptr: Index, ahead: bool) {
    if ahead then USub(wptr, rptr) == BUFSIZE - 1 else USub(rptr, wptr) == 1
  }

  function StepConsumer(r: Ring): Ring
    requires |r.buf| == BUFSIZE
  {
    match r.consumer
    case CIdle => if r.wptr == r.rptr then r else r.(consumer := CLoad)
    case CLoad => r.(consumer := CPublish(r.buf[r.rptr]))
    case CPublish(dat) => r.(rptr := (r.rptr + 1) % BUFSIZE, consumer := CIdle, gots := r.gots + [dat])
  }

  // ----- what every interleaving keeps ----------------------------------------------------------

  /** Bytes published and not yet consumed. */
  function Occupancy(r: Ring): int { |r.puts| - |r.gots| }

  ghost predicate Inv(r: Ring) {
    && |r.buf| == BUFSIZE
    && 0 <= Occupancy(r) <= BUFSIZE - 1
    && r.wptr == |r.puts| % BUFSIZE && r.rptr == |r.gots| % BUFSIZE
    && r.gots == r.puts[..|r.gots|]
    && (forall k {:trigger r.puts[k]} | |r.gots| <= k < |r.puts| :: r.buf[k % BUFSIZE] == r.puts[k])
    && (match r.producer
        case PBranch(_, ahead) => if ahead then r.rptr <= r.wptr else r.wptr < BUFSIZE - 1
        case PStore(_) => Occupancy(r) < BUFSIZE - 1
        case PPublish(dat) => Occupancy(r) < BUFSIZE - 1 && r.buf[r.wptr] == dat
        case _ => true)
    && (match r.consumer
        case CLoad => Occupancy(r) > 0
        case CPublish(dat) => Occupancy(r) > 0 && dat == r.puts[|r.gots|]
        case _ => true)
  }

  /** The wrapped distance between the indices is the occupancy. */
  lemma Distance(p: nat, g: nat)
    requires g <= p < g + BUFSIZE
    ensures (p % BUFSIZE - g % BUFSIZE) % BUFSIZE == p - g
    ensures p % BUFSIZE == g % BUFSIZE <==> p == g
  {
    var a, b := p / BUFSIZE, g / BUFSIZE;
    assert p == a * BUFSIZE + p % BUFSIZE && g == b * BUFSIZE + g % BUFSIZE;
  }

  /** Positions of one window of the stream do not collide in the buffer. */
  lemma NoCollision(g: nat, j: nat, k: nat)
    requires g <= j < k < g + BUFSIZE
    ensures j % BUFSIZE != k % BUFSIZE
  {
    Distance(k, j);
  }

  /** The two-branch test for full is exact, even when the consumer has moved rptr
      between the two reads. */
  lemma FullTestIsExact(r: Ring)
    requires Inv(r) && r.producer.PBranch?
    ensures FullTest(r.wptr, r.rptr, r.producer.ahead) <==> (r.wptr - r.rptr) % BUFSIZE == BUFSIZE - 1
    ensures FullTest(r.wptr, r.rptr, r.producer.ahead) <==> Occupancy(r) == BUFSIZE - 1
  {
    Distance(|r.puts|, |r.gots|);
  }

  lemma EmptyTestIsExact(r: Ring)
    requires Inv(r)
    ensures r.wptr == r.rptr <==> Occupancy(r) == 0
  {
    Distance(|r.puts|, |r.gots|);
  }

  lemma ProducerKeepsInv(r: Ring)
    requires Inv(r) && !r.producer.PIdle?
    ensures Inv(StepProducer(r))
  {
    var u := StepProducer(r);
    match r.producer
    case PTest(_) =>
    case PBranch(_, _) =>
      FullTestIsExact(r);
    case PStore(_) =>
      forall k | |r.gots| <= k < |r.puts| ensures u.buf[k % BUFSIZE] == u.puts[k] {
        NoCollision(|r.gots|, k, |r.puts|);
      }
    case PPublish(dat) =>
      Successor(|r.puts|);
      forall k | |u.gots| <= k < |u.puts| ensures u.buf[k % BUFSIZE] == u.puts[k] {
        assert k < |r.puts| ==> u.puts[k] == r.puts[k];
      }
      assert u.puts[..|r.gots|] == r.puts[..|r.gots|];
  }

  lemma Successor(n: nat)
    ensures (n % BUFSIZE + 1) % BUFSIZE == (n + 1) % BUFSIZE
  {
  }

  lemma ConsumerKeepsInv(r: Ring)
    requires Inv(r)
    ensures Inv(StepConsumer(r))
  {
    var u := StepConsumer(r);
    match r.consumer
    case CIdle =>
      EmptyTestIsExact(r);
    case CLoad =>
      assert r.buf[|r.gots| % BUFSIZE] == r.puts[|r.gots|];
    case CPublish(dat) =>
      Successor(|r.gots|);
      EmptyTestIsExact(r);
      assert u.gots == r.puts[..|r.gots| + 1];
  }

  lemma StepKeepsInv(r: Ring, a: Action)
    requires Inv(r) && Enabled(r, a)
    ensures Inv(Step(r, a))
  {
    match a
    case Put(_) =>
    case ProducerStep => ProducerKeepsInv(r);
    case ConsumerStep => ConsumerKeepsInv(r);
  }

  /** Any schedule; an action that is not enabled does nothing. */
  function Run(r: Ring, schedule: seq<Action>): (u: Ring)
    requires |r.buf| == BUFSIZE
    ensures |u.buf| == BUFSIZE
    decreases |schedule|
  {
    if schedule == [] then r
    else Run(if Enabled(r, schedule[0]) then Step(r, schedule[0]) else r, schedule[1..])
  }

  lemma {:induction false} RunKeepsInv(r: Ring, schedule: seq<Action>)
    requires Inv(r)
    ensures Inv(Run(r, schedule))
    decreases |schedule|
  {
    hide Step;
    if schedule != [] {
      if Enabled(r, schedule[0]) {
        StepKeepsInv(r, schedule[0]);
        RunKeepsInv(Step(r, schedule[0]), schedule[1..]);
      } else {
        RunKeepsInv(r, schedule[1..]);
      }
    }
  }

  /** For every interleaving: the bytes got are a prefix of the bytes put, in
      order and without loss, duplication or overwrite, and at most 1023 bytes are
      on their way, all of them intact in the buffer. */
  lemma FirstInFirstOut(r: Ring, schedule: seq<Action>)
    requires Start(r)
    ensures var u := Run(r, schedule);
      && u.gots <= u.puts && 0 <= |u.puts| - |u.gots| <= 1023
      && forall k | |u.gots| <= k < |u.puts| :: u.buf[k % BUFSIZE] == u.puts[k]
  {
    RunKeepsInv(r, schedule);
  }

  /** The bytes handed to put_byte: the published ones and the one in progress. */
  function Offered(r: Ring): seq<Byte> {
    r.puts + if r.producer.PIdle? then [] else [r.producer.dat]
  }

  /** put_byte appends the byte it was given, whatever the schedule; only Put
      offers a new byte. */
  lemma StepOffers(r: Ring, a: Action)
    requires Inv(r) && Enabled(r, a)
    ensures Offered(Step(r, a)) == Offered(r) + if a.Put? then [a.dat] else []
    ensures r.puts <= Step(r, a).puts && r.gots <= Step(r, a).gots
  {
  }

  // ----- the buffer object -------------------------------------------------------------------

  /** From position r up to position w, around the end. */
  function Between(s: seq<Byte>, r: nat, w: nat): seq<Byte>
    requires r < |s| && w < |s|
  {
    if r <= w then s[r..w] else s[r..] + s[..w]
  }

  lemma PutBetween(s: seq<Byte>, r: nat, w: nat, dat: Byte)
    requires |s| == BUFSIZE && r < |s| && w < |s| && |Between(s, r, w)| < BUFSIZE - 1
    ensures Between(s[w := dat], r, (w + 1) % BUFSIZE) == Between(s, r, w) + [dat]
  {
  }

  lemma GetBetween(s: seq<Byte>, r: nat, w: nat)
    requires |s| == BUFSIZE && r < |s| && w < |s| && r != w
    ensures Between(s, r, w) == [s[r]] + Between(s, (r + 1) % BUFSIZE, w)
  {
    var next := if r + 1 < BUFSIZE then r + 1 else 0;
    assert (r + 1) % BUFSIZE == next;
    var a, b := Between(s, r, w), [s[r]] + Between(s, next, w);
    assert |a| == |b|;
    forall i | 0 <= i < |a| ensures a[i] == b[i] {
    }
  }

  /** struct tcp_buf used by one thread at a time. */
  class TcpBuf {
    var rptr: nat
    var wptr: nat
    var buf: array<Byte>

    ghost predicate Valid()
      reads this
    {
      buf.Length == BUFSIZE && rptr < BUFSIZE && wptr < BUFSIZE
    }

    /** The bytes waiting in the buffer, oldest first. */
    ghost function Contents(): (s: seq<Byte>)
      requires Valid()
      reads this, buf
    {
      Between(buf[..], rptr, wptr)
    }

    constructor ()
      ensures Valid() && fresh(buf) && Contents() == []
    {
      buf := new Byte[BUFSIZE];
      rptr := 0;
      wptr := 0;
    }

    method IsFull() returns (full: bool)
      requires Valid()
      ensures full <==> |Contents()| == BUFSIZE - 1
    {
      if wptr >= rptr {
        full := wptr - rptr == BUFSIZE - 1;
      } else {
        full := rptr - wptr == 1;
      }
    }

    method IsEmpty() returns (empty: bool)
      requires Valid()
      ensures empty <==> Contents() == []
    {
      empty := wptr == rptr;
    }

    /** put_byte waits while the buffer is full; with room it takes one round. */
    method PutByte(dat: Byte)
      requires Valid() && |Contents()| < BUFSIZE - 1
      modifies `wptr, buf
      ensures Valid() && Contents() == old(Contents()) + [dat]
    {
      PutBetween(buf[..], rptr, wptr, dat);
      buf[wptr] := dat;
      assert buf[..] == old(buf[..])[wptr := dat];
      wptr := wptr + 1;
      wptr := wptr % BUFSIZE;
    }

    method GetByte() returns (ok: bool, dat: Byte)
      requires Valid()
      modifies `rptr
      ensures Valid() && ok == (old(Contents()) != [])
      ensures ok ==> dat == old(Contents())[0] && Contents() == old(Contents())[1..]
      ensures !ok ==> Contents() == old(Contents())
    {
      dat := 0;
      ok := wptr != rptr;
      if ok {
        GetBetween(buf[..], rptr, wptr);
        dat := buf[rptr];
        rptr := rptr + 1;
        rptr := rptr % BUFSIZE;
      }
    }
  }
}
