/** The loop of the socket thread: it takes all bytes the client has sent before it
    sends any reply.  So both threads can wait for each other for ever, and this says
    exactly when. */
module SocketLoop {
  import opened Basics
  import opened RingBuffer
  import opened JtagDpi

  /** Looking for a byte from the client, passing it on, or sending replies. */
  datatype Socket = Polling | Putting | Sending

  /** `inbox` holds the bytes that the client has sent and the loop has not read. */
  datatype Server = Server(sys: System, socket: Socket, inbox: seq<Byte>)

  /** The client sends a byte, or one of the threads takes a step. */
  datatype Act = Send(dat: Byte) | SocketRun | HostTick(tdo: bool) | HostStep

  ghost predicate ServerStart(s: Server) {
    SystemStart(s.sys) && s.socket == Polling && s.inbox == []
  }

  function Perform(s: Server, a: Act): (t: Server)
    requires Ready(s.sys)
    ensures Ready(t.sys)
  {
    match a
    case Send(dat) => s.(inbox := s.inbox + [dat])
    case HostTick(tdo) => s.(sys := Move1(s.sys, Tick(tdo)))
    case HostStep => s.(sys := Move1(s.sys, HostRun))
    case SocketRun => RunSocket(s)
  }

  function RunSocket(s: Server): (t: Server)
    requires Ready(s.sys)
    ensures Ready(t.sys)
  {
    match s.socket
    case Polling =>
      if s.inbox == [] then s.(socket := Sending)
      else Server(Move1(s.sys, Receive(s.inbox[0])), Putting, s.inbox[1..])
    case Putting =>
      if s.sys.toHost.producer.PIdle? then s.(socket := Polling) else s.(sys := Move1(s.sys, SocketPut))
    case Sending =>
      if s.sys.toClient.consumer.CIdle? && s.sys.toClient.wptr == s.sys.toClient.rptr then s.(socket := Polling)
      else s.(sys := Move1(s.sys, SocketGet))
  }

  function Run(s: Server, acts: seq<Act>): (t: Server)
    requires Ready(s.sys)
    ensures Ready(t.sys)
    decreases |acts|
  {
    if acts == [] then s else Run(Perform(s, acts[0]), acts[1..])
  }

  lemma {:induction false} RunConcat(s: Server, xs: seq<Act>, ys: seq<Act>)
    requires Ready(s.sys)
    ensures Run(s, xs + ys) == Run(Run(s, xs), ys)
    decreases |xs|
  {
    hide Perform;
    if xs == [] {
      assert xs + ys == ys;
    } else {
      RunConcat(Perform(s, xs[0]), xs[1..], ys);
      assert (xs + ys)[1..] == xs[1..] + ys;
    }
  }

  // ----- the loop is one schedule of the two threads ------------------------------------------------

  ghost predicate ServerInv(s: Server) {
    && SystemInv(s.sys)
    && (s.socket != Putting ==> s.sys.toHost.producer == PIdle)
    && (s.socket != Sending ==> s.sys.toClient.consumer == CIdle)
  }

  /** The moves of the two threads that an act stands for: one, or none. */
  function MovesOf(s: Server, a: Act): seq<Move> {
    match a
    case Send(_) => []
    case HostTick(tdo) => [Tick(tdo)]
    case HostStep => [HostRun]
    case SocketRun =>
      match s.socket
      case Polling => if s.inbox == [] then [] else [Receive(s.inbox[0])]
      case Putting => if s.sys.toHost.producer.PIdle? then [] else [SocketPut]
      case Sending =>
        if s.sys.toClient.consumer.CIdle? && s.sys.toClient.wptr == s.sys.toClient.rptr then [] else [SocketGet]
  }

  lemma PerformMoves(s: Server, a: Act)
    requires Ready(s.sys)
    ensures Perform(s, a).sys == RunSystem(s.sys, MovesOf(s, a))
  {
    hide Move1;
    var m := MovesOf(s, a);
    if m != [] {
      assert RunSystem(s.sys, m) == RunSystem(Move1(s.sys, m[0]), m[1..]) == Move1(s.sys, m[0]);
    }
  }

  /** Every run of the loop is a run of the two threads, so what holds for all their
      interleavings holds here. */
  lemma {:induction false} LoopIsSchedule(s: Server, acts: seq<Act>) returns (moves: seq<Move>)
    requires Ready(s.sys)
    ensures Run(s, acts).sys == RunSystem(s.sys, moves)
    decreases |acts|
  {
    hide Perform, Move1;
    if acts == [] {
      moves := [];
    } else {
      var m := MovesOf(s, acts[0]);
      PerformMoves(s, acts[0]);
      var rest := LoopIsSchedule(Perform(s, acts[0]), acts[1..]);
      moves := m + rest;
      SystemConcat(s.sys, m, rest);
    }
  }

  lemma {:induction false} SystemConcat(s: System, xs: seq<Move>, ys: seq<Move>)
    requires Ready(s)
    ensures Ready(RunSystem(s, xs)) && RunSystem(s, xs + ys) == RunSystem(RunSystem(s, xs), ys)
    decreases |xs|
  {
    hide Move1;
    if xs == [] {
      assert xs + ys == ys;
    } else {
      SystemConcat(Move1(s, xs[0]), xs[1..], ys);
      assert (xs + ys)[1..] == xs[1..] + ys;
    }
  }

  // ----- one step of a ring ------------------------------------------------------------------------------

  lemma ProducerEffect(r: Ring)
    requires Inv(r) && !r.producer.PIdle?
    ensures var u := Step(r, ProducerStep);
      && Inv(u) && u.gots == r.gots && u.consumer == r.consumer && Offered(u) == Offered(r)
      && match r.producer
         case PTest(_) => u.producer.PBranch? && u.puts == r.puts
         case PBranch(_, _) =>
           (if Occupancy(r) == BUFSIZE - 1 then u.producer.PTest? else u.producer.PStore?) && u.puts == r.puts
         case PStore(_) => Occupancy(r) < BUFSIZE - 1 && u.producer.PPublish? && u.puts == r.puts
         case PPublish(dat) => Occupancy(r) < BUFSIZE - 1 && u.producer.PIdle? && u.puts == r.puts + [dat]
  {
    ProducerKeepsInv(r);
    if r.producer.PBranch? {
      FullTestIsExact(r);
    }
  }

  lemma ConsumerEffect(r: Ring)
    requires Inv(r)
    ensures var u := Step(r, ConsumerStep);
      && Inv(u) && u.puts == r.puts && u.producer == r.producer && Offered(u) == Offered(r)
      && match r.consumer
         case CIdle => if Occupancy(r) == 0 then u == r else u.consumer.CLoad? && u.gots == r.gots
         case CLoad => Occupancy(r) > 0 && u.consumer.CPublish? && u.gots == r.gots
         case CPublish(dat) => Occupancy(r) > 0 && u.consumer.CIdle? && u.gots == r.gots + [dat]
  {
    ConsumerKeepsInv(r);
    EmptyTestIsExact(r);
  }

  lemma PutEffect(r: Ring, dat: Byte)
    requires Inv(r) && r.producer.PIdle?
    ensures var u := Step(r, Put(dat));
      && Inv(u) && u.puts == r.puts && u.gots == r.gots && u.consumer == r.consumer && u.producer == PTest(dat)
      && Offered(u) == Offered(r) + [dat]
  {
  }

  // ----- what is on its way ----------------------------------------------------------------------------

  /** Bytes sent by the client and not yet taken as commands, and replies given and not
      yet received. */
  function InFlight(s: Server): int {
    |s.inbox| + Unread(s.sys.toHost) + Unread(s.sys.toClient)
  }

  function Unread(r: Ring): int { |Offered(r)| - |r.gots| }

  /** How often a byte has been taken up, published or taken out; it never decreases. */
  function Moved(s: Server): nat {
    |Offered(s.sys.toHost)| + |s.sys.toHost.puts| + |s.sys.toHost.gots| + |s.sys.toClient.puts| + |s.sys.toClient.gots|
  }

  lemma UnreadBounds(r: Ring)
    requires Inv(r)
    ensures Unread(r) == Occupancy(r) + (if r.producer.PIdle? then 0 else 1) && 0 <= Occupancy(r) < BUFSIZE
    ensures r.consumer.CIdle? || Occupancy(r) > 0
  {
  }

  /** What a tick in progress does next. */
  lemma HostEffect(s: System)
    requires SystemInv(s)
    ensures Ready(s)
    ensures var t := Move1(s, HostRun); var u := Step(s.toHost, ConsumerStep);
      match s.host
      case Waiting => t == s
      case Exited => t == s
      case Reading(_) =>
        if s.toHost.consumer.CIdle? && Occupancy(s.toHost) == 0 then t == s.(host := Waiting)
        else if !s.toHost.consumer.CPublish? then t == s.(toHost := u)
        else
          var c := s.toHost.consumer.dat;
          && t.toHost == u
          && if c == CH_R then t.host == Replying && exists dat :: t.toClient == Step(s.toClient, Put(dat))
             else t.toClient == s.toClient && t.host == if Supported(c) then Waiting else Exited
      case Replying =>
        if s.toClient.producer.PIdle? then t == s.(host := Waiting)
        else t == s.(toClient := Step(s.toClient, ProducerStep))
  {
    hide Drive, Replies, PinsAfter, Bytes;
    InvReady(s);
    ConsumerEffect(s.toHost);
  }

  lemma PerformKeepsInv(s: Server, a: Act)
    requires ServerInv(s)
    ensures Ready(s.sys) && ServerInv(Perform(s, a))
  {
    hide SystemInv, Inv, Step;
    MoveKeepsReady(s.sys);
    var m := MovesOf(s, a);
    if m != [] {
      MoveKeepsInv(s.sys, m[0]);
      MoveKeepsSides(s.sys, m[0]);
    }
  }

  /** The socket thread's ends of the rings are touched by its own moves only. */
  lemma MoveKeepsSides(s: System, m: Move)
    requires SystemInv(s)
    ensures Ready(s)
    ensures m.Tick? || m.HostRun? || m.SocketGet? ==> Move1(s, m).toHost.producer == s.toHost.producer
    ensures m.Tick? || m.HostRun? || m.SocketPut? || m.Receive? ==> Move1(s, m).toClient.consumer == s.toClient.consumer
  {
    hide Replies, PinsAfter, Bytes, Drive, Offered;
    InvReady(s);
  }

  lemma {:induction false} RunKeepsInv(s: Server, acts: seq<Act>)
    requires ServerInv(s)
    ensures Ready(s.sys) && ServerInv(Run(s, acts))
    decreases |acts|
  {
    hide Perform, ServerInv;
    assert Ready(s.sys) by { PerformKeepsInv(s, HostStep); }
    if acts != [] {
      PerformKeepsInv(s, acts[0]);
      RunKeepsInv(Perform(s, acts[0]), acts[1..]);
    }
  }

  lemma HostFlight(s: Server)
    requires ServerInv(s)
    ensures Ready(s.sys)
    ensures var t := Perform(s, HostStep);
      && InFlight(t) <= InFlight(s) && Moved(s) <= Moved(t) && (Moved(s) < Moved(t) ==> InFlight(s) > 0)
  {
    hide Inv, Step, Offered, Replies, PinsAfter, Bytes, Drive, Move1, Supported;
    InvReady(s.sys);
    UnreadBounds(s.sys.toHost);
    UnreadBounds(s.sys.toClient);
    HostEffect(s.sys);
    ConsumerEffect(s.sys.toHost);
    if s.sys.toClient.producer.PIdle? {
      PutEffects(s.sys.toClient);
    } else {
      ProducerEffect(s.sys.toClient);
    }
  }

  lemma PutEffects(r: Ring)
    requires Inv(r) && r.producer.PIdle?
    ensures forall dat :: var u := Step(r, Put(dat));
      Unread(u) == Unread(r) + 1 && u.puts == r.puts && u.gots == r.gots && u.producer == PTest(dat)
  {
    hide Step, Offered;
    forall dat
      ensures var u := Step(r, Put(dat));
        Unread(u) == Unread(r) + 1 && u.puts == r.puts && u.gots == r.gots && u.producer == PTest(dat)
    {
      PutEffect(r, dat);
    }
  }

  /** Only the client adds to what is on its way, and nothing moves backwards. */
  lemma FlightKept(s: Server, a: Act)
    requires ServerInv(s)
    ensures Ready(s.sys)
    ensures InFlight(Perform(s, a)) <= InFlight(s) + if a.Send? then 1 else 0
    ensures Moved(s) <= Moved(Perform(s, a))
    ensures Moved(s) < Moved(Perform(s, a)) ==> InFlight(s) > 0
  {
    hide Inv, Step, Offered, Replies, PinsAfter, Bytes, Drive, HostReads;
    InvReady(s.sys);
    UnreadBounds(s.sys.toHost);
    UnreadBounds(s.sys.toClient);
    match a
    case Send(_) =>
    case HostTick(_) =>
    case HostStep => HostFlight(s);
    case SocketRun =>
      match s.socket
      case Polling =>
        if s.inbox != [] {
          PutEffect(s.sys.toHost, s.inbox[0]);
        }
      case Putting =>
        if !s.sys.toHost.producer.PIdle? {
          ProducerEffect(s.sys.toHost);
        }
      case Sending => ConsumerEffect(s.sys.toClient);
  }

  // ----- waiting for each other --------------------------------------------------------------------------

  predicate Spins(p: Producer) { p.PTest? || p.PBranch? }

  /** Both threads are in put_byte and both buffers are full. */
  ghost predicate Deadlocked(s: Server) {
    && s.socket == Putting && Spins(s.sys.toHost.producer) && Occupancy(s.sys.toHost) == BUFSIZE - 1
    && s.sys.host == Replying && Spins(s.sys.toClient.producer) && Occupancy(s.sys.toClient) == BUFSIZE - 1
  }

  /** Then nothing ever moves again, whatever the client does. */
  lemma DeadlockStays(s: Server, a: Act)
    requires ServerInv(s) && Deadlocked(s)
    ensures Ready(s.sys) && Deadlocked(Perform(s, a)) && Moved(Perform(s, a)) == Moved(s)
    ensures Perform(s, a).sys.log == s.sys.log
  {
    hide Inv, Step, Offered, Replies, PinsAfter, Bytes, Drive, HostReads;
    InvReady(s.sys);
    ProducerEffect(s.sys.toHost);
    ProducerEffect(s.sys.toClient);
  }

  lemma {:induction false} DeadlockForEver(s: Server, acts: seq<Act>)
    requires ServerInv(s) && Deadlocked(s)
    ensures Ready(s.sys) && Deadlocked(Run(s, acts)) && Moved(Run(s, acts)) == Moved(s)
    ensures Run(s, acts).sys.log == s.sys.log
    decreases |acts|
  {
    hide Perform, ServerInv, Deadlocked, Moved;
    DeadlockStays(s, HostStep);
    if acts != [] {
      DeadlockStays(s, acts[0]);
      PerformKeepsInv(s, acts[0]);
      DeadlockForEver(Perform(s, acts[0]), acts[1..]);
    }
  }

  // ----- otherwise there is always a way on -----------------------------------------------------------------

  /** How far a put_byte is from its end, and a get_byte. */
  function PutRank(p: Producer): nat {
    match p
    case PIdle => 0
    case PTest(_) => 4
    case PBranch(_, _) => 3
    case PStore(_) => 2
    case PPublish(_) => 1
  }

  function GetRank(c: Consumer): nat {
    match c
    case CIdle => 3
    case CLoad => 2
    case CPublish(_) => 1
  }

  /** The socket thread can move a byte, or is about to leave put_byte. */
  predicate SocketCan(s: Server) {
    match s.socket
    case Putting => !Spins(s.sys.toHost.producer) || Occupancy(s.sys.toHost) < BUFSIZE - 1
    case _ => s.inbox != [] || Occupancy(s.sys.toClient) > 0
  }

  function SocketRank(s: Server): nat {
    match s.socket
    case Polling => if s.inbox == [] then 25 else 20
    case Putting => if s.sys.toHost.producer.PIdle? then 30 else 20 + PutRank(s.sys.toHost.producer)
    case Sending => if Occupancy(s.sys.toClient) > 0 then 20 + GetRank(s.sys.toClient.consumer) else 21
  }

  function HostRank(s: Server): nat {
    match s.sys.host
    case Waiting => 5
    case Reading(_) => GetRank(s.sys.toHost.consumer)
    case Replying => if s.sys.toClient.producer.PIdle? then 6 else PutRank(s.sys.toClient.producer)
    case Exited => 0
  }

  function Rank(s: Server): nat { if SocketCan(s) then SocketRank(s) else HostRank(s) }

  function Useful(s: Server): Act {
    if SocketCan(s) then SocketRun else if s.sys.host.Waiting? then HostTick(false) else HostStep
  }

  /** A byte moves, or comes closer to moving. */
  ghost predicate Advances(s: Server, t: Server) {
    || Moved(t) > Moved(s)
    || (Moved(t) == Moved(s) && Rank(t) < Rank(s) && InFlight(t) == InFlight(s)
        && !t.sys.host.Exited? && !Deadlocked(t))
  }

  lemma SocketAdvances(s: Server)
    requires ServerInv(s) && SocketCan(s) && !s.sys.host.Exited?
    ensures Ready(s.sys)
    ensures Advances(s, Perform(s, SocketRun))
  {
    hide Inv, Step, Offered, Replies, PinsAfter, Bytes, Drive, HostReads;
    InvReady(s.sys);
    UnreadBounds(s.sys.toHost);
    UnreadBounds(s.sys.toClient);
    EmptyTestIsExact(s.sys.toClient);
    match s.socket
    case Polling =>
      if s.inbox != [] {
        PutEffect(s.sys.toHost, s.inbox[0]);
      }
    case Putting =>
      if !s.sys.toHost.producer.PIdle? {
        ProducerEffect(s.sys.toHost);
      }
    case Sending => ConsumerEffect(s.sys.toClient);
  }

  /** With work left and no deadlock, a waiting socket thread means work for the host. */
  ghost predicate HostCan(s: Server) {
    match s.sys.host
    case Exited => false
    case Replying =>
      if Spins(s.sys.toClient.producer) then Occupancy(s.sys.toClient) < BUFSIZE - 1
      else s.sys.toClient.producer.PIdle? ==> Occupancy(s.sys.toHost) > 0
    case _ => Occupancy(s.sys.toHost) > 0
  }

  lemma SomebodyCan(s: Server)
    requires ServerInv(s) && InFlight(s) > 0 && !Deadlocked(s) && !s.sys.host.Exited? && !SocketCan(s)
    ensures HostCan(s)
  {
    hide Inv, Offered, Replies, PinsAfter, Bytes;
    UnreadBounds(s.sys.toHost);
    UnreadBounds(s.sys.toClient);
  }

  lemma HostAdvances(s: Server)
    requires ServerInv(s) && HostCan(s) && !SocketCan(s)
    ensures Ready(s.sys)
    ensures Advances(s, Perform(s, Useful(s)))
  {
    hide Inv, Step, Offered, Replies, PinsAfter, Bytes, Drive, HostReads, Supported;
    InvReady(s.sys);
    UnreadBounds(s.sys.toHost);
    UnreadBounds(s.sys.toClient);
    if !s.sys.host.Waiting? {
      HostEffect(s.sys);
      ConsumerEffect(s.sys.toHost);
      if s.sys.toClient.producer.PIdle? {
        PutEffects(s.sys.toClient);
      } else {
        ProducerEffect(s.sys.toClient);
      }
    }
  }

  ghost predicate NoSends(acts: seq<Act>) { forall i | 0 <= i < |acts| :: !acts[i].Send? }

  /** With work left and no deadlock, a byte moves after some steps of the threads. */
  lemma {:induction false} WayOn(s: Server) returns (acts: seq<Act>)
    requires ServerInv(s) && InFlight(s) > 0 && !Deadlocked(s) && !s.sys.host.Exited?
    ensures Ready(s.sys) && NoSends(acts) && Moved(Run(s, acts)) > Moved(s)
    decreases Rank(s)
  {
    hide ServerInv, Perform, Deadlocked, Rank, SocketCan, HostCan, InFlight, Moved;
    var a := Useful(s);
    if SocketCan(s) {
      SocketAdvances(s);
    } else {
      SomebodyCan(s);
      HostAdvances(s);
    }
    var t := Perform(s, a);
    if Moved(t) > Moved(s) {
      acts := [a];
      assert Run(t, acts[1..]) == t;
    } else {
      PerformKeepsInv(s, a);
      var rest := WayOn(t);
      acts := [a] + rest;
      assert acts[1..] == rest;
    }
  }

  ghost predicate CanMove(s: Server)
    requires Ready(s.sys)
  {
    exists acts :: NoSends(acts) && Moved(Run(s, acts)) > Moved(s)
  }

  /** Without work nothing moves. */
  lemma {:induction false} NothingToMove(s: Server, acts: seq<Act>)
    requires ServerInv(s) && InFlight(s) <= 0 && NoSends(acts)
    ensures Ready(s.sys) && Moved(Run(s, acts)) == Moved(s)
    decreases |acts|
  {
    hide Perform, ServerInv, InFlight, Moved;
    FlightKept(s, HostStep);
    if acts != [] {
      FlightKept(s, acts[0]);
      PerformKeepsInv(s, acts[0]);
      NothingToMove(Perform(s, acts[0]), acts[1..]);
    }
  }

  /** In every reachable state, as long as the process runs: the two threads can move a
      byte on their own if and only if there is one and they are not waiting for each
      other. */
  lemma MovesExactly(s: Server)
    requires ServerInv(s) && !s.sys.host.Exited?
    ensures Ready(s.sys) && (CanMove(s) <==> InFlight(s) > 0 && !Deadlocked(s))
  {
    hide ServerInv, Perform, Deadlocked, InFlight, Moved, Run;
    FlightKept(s, HostStep);
    if CanMove(s) {
      var acts :| NoSends(acts) && Moved(Run(s, acts)) > Moved(s);
      if InFlight(s) <= 0 {
        NothingToMove(s, acts);
      } else if Deadlocked(s) {
        DeadlockForEver(s, acts);
      }
    }
    if InFlight(s) > 0 && !Deadlocked(s) {
      var acts := WayOn(s);
    }
  }

  // ----- a client that limits itself ---------------------------------------------------------------------

  const WINDOW := 2 * BUFSIZE - 1

  /** A deadlock takes 2048 bytes: two full buffers and the bytes in two put_byte. */
  lemma DeadlockIsFull(s: Server)
    requires ServerInv(s) && Deadlocked(s)
    ensures InFlight(s) > WINDOW
  {
    hide Inv, Offered, Replies, PinsAfter, Bytes;
    UnreadBounds(s.sys.toHost);
    UnreadBounds(s.sys.toClient);
  }

  /** The client sends only while fewer than 2047 bytes are on their way. */
  ghost predicate Limited(s: Server, acts: seq<Act>)
    requires Ready(s.sys)
    decreases |acts|
  {
    acts == [] || ((acts[0].Send? ==> InFlight(s) < WINDOW) && Limited(Perform(s, acts[0]), acts[1..]))
  }

  lemma {:induction false} LimitedStays(s: Server, acts: seq<Act>)
    requires ServerInv(s) && InFlight(s) <= WINDOW && Ready(s.sys) && Limited(s, acts)
    ensures ServerInv(Run(s, acts)) && InFlight(Run(s, acts)) <= WINDOW
    decreases |acts|
  {
    hide Perform, ServerInv, InFlight;
    if acts != [] {
      FlightKept(s, acts[0]);
      PerformKeepsInv(s, acts[0]);
      LimitedStays(Perform(s, acts[0]), acts[1..]);
    }
  }

  lemma StartInv(s: Server)
    requires ServerStart(s)
    ensures ServerInv(s) && Ready(s.sys) && InFlight(s) == 0
  {
  }

  /** For every run in which the client keeps to the window: no deadlock, and until the
      process exits there is a way on as long as anything is on its way. */
  lemma WindowIsSafe(s: Server, acts: seq<Act>)
    requires ServerStart(s) && Ready(s.sys) && Limited(s, acts)
    ensures var t := Run(s, acts);
      !Deadlocked(t) && (!t.sys.host.Exited? && InFlight(t) > 0 ==> CanMove(t))
  {
    hide ServerInv, Deadlocked, InFlight, CanMove, Limited;
    StartInv(s);
    LimitedStays(s, acts);
    var t := Run(s, acts);
    if Deadlocked(t) {
      DeadlockIsFull(t);
    }
    if !t.sys.host.Exited? {
      MovesExactly(t);
    }
  }

  // ----- a run into the deadlock ---------------------------------------------------------------------------

  ghost predicate Reaches(s: Server, t: Server)
    requires Ready(s.sys)
  {
    exists acts :: Run(s, acts) == t
  }

  lemma Here(s: Server)
    requires Ready(s.sys)
    ensures Reaches(s, s)
  {
    assert Run(s, []) == s;
  }

  lemma Next(s: Server, t: Server, a: Act)
    requires Ready(s.sys) && Reaches(s, t) && ServerInv(t)
    ensures Ready(t.sys) && Reaches(s, Perform(t, a)) && ServerInv(Perform(t, a))
  {
    hide Perform, ServerInv;
    PerformKeepsInv(t, a);
    var acts :| Run(s, acts) == t;
    RunConcat(s, acts, [a]);
    assert Run(Perform(t, a), [a][1..]) == Perform(t, a);
    assert Run(s, acts + [a]) == Perform(t, a);
  }

  /** The socket thread finishes its put_byte if there is room. */
  lemma {:induction false} FinishPut(s0: Server, s: Server) returns (t: Server)
    requires Ready(s0.sys) && Reaches(s0, s) && ServerInv(s) && s.socket == Putting
    requires !s.sys.toHost.producer.PIdle? && Occupancy(s.sys.toHost) < BUFSIZE - 1
    ensures Reaches(s0, t) && ServerInv(t) && t.socket == Polling && t.inbox == s.inbox
    ensures t.sys.toHost.puts == Offered(s.sys.toHost) && t.sys.toHost.gots == s.sys.toHost.gots
    ensures t.sys.toHost.consumer == s.sys.toHost.consumer
    ensures t.sys.host == s.sys.host && t.sys.toClient == s.sys.toClient
    decreases PutRank(s.sys.toHost.producer)
  {
    hide Inv, Step, Reaches, SystemInv, HostReads;
    Next(s0, s, SocketRun);
    Rings(s);
    ProducerEffect(s.sys.toHost);
    var u := Perform(s, SocketRun);
    if u.sys.toHost.producer.PIdle? {
      Next(s0, u, SocketRun);
      t := Perform(u, SocketRun);
    } else {
      t := FinishPut(s0, u);
    }
  }

  lemma Rings(s: Server)
    requires ServerInv(s)
    ensures Ready(s.sys) && Inv(s.sys.toHost) && Inv(s.sys.toClient)
  {
    InvReady(s.sys);
  }

  /** The loop passes on one byte. */
  lemma FeedOne(s0: Server, s: Server) returns (t: Server)
    requires Ready(s0.sys) && Reaches(s0, s) && ServerInv(s) && s.socket == Polling
    requires s.inbox != [] && Occupancy(s.sys.toHost) < BUFSIZE - 1
    ensures Reaches(s0, t) && ServerInv(t) && t.socket == Polling && t.inbox == s.inbox[1..]
    ensures t.sys.toHost.puts == s.sys.toHost.puts + [s.inbox[0]] && t.sys.toHost.gots == s.sys.toHost.gots
    ensures t.sys.toHost.consumer == s.sys.toHost.consumer
    ensures t.sys.host == s.sys.host && t.sys.toClient == s.sys.toClient
  {
    hide Inv, Step, Reaches, SystemInv, HostReads;
    Next(s0, s, SocketRun);
    Rings(s);
    PutEffect(s.sys.toHost, s.inbox[0]);
    t := FinishPut(s0, Perform(s, SocketRun));
  }

  /** The host finishes its reply if there is room. */
  lemma {:induction false} FinishReply(s0: Server, s: Server) returns (t: Server)
    requires Ready(s0.sys) && Reaches(s0, s) && ServerInv(s) && s.sys.host == Replying
    requires !s.sys.toClient.producer.PIdle? && Occupancy(s.sys.toClient) < BUFSIZE - 1
    ensures Reaches(s0, t) && ServerInv(t) && t.socket == s.socket && t.inbox == s.inbox
    ensures t.sys.host == Waiting && t.sys.toHost == s.sys.toHost
    ensures t.sys.toClient.producer.PIdle? && Occupancy(t.sys.toClient) == Occupancy(s.sys.toClient) + 1
    decreases PutRank(s.sys.toClient.producer)
  {
    hide Inv, Step, Reaches, SystemInv, HostReads;
    Next(s0, s, HostStep);
    Rings(s);
    ProducerEffect(s.sys.toClient);
    var u := Perform(s, HostStep);
    if u.sys.toClient.producer.PIdle? {
      Next(s0, u, HostStep);
      t := Perform(u, HostStep);
    } else {
      t := FinishReply(s0, u);
    }
  }

  /** The host takes a read command and starts its reply. */
  lemma {:induction false} FinishTake(s0: Server, s: Server) returns (t: Server)
    requires Ready(s0.sys) && Reaches(s0, s) && ServerInv(s) && s.sys.host.Reading?
    requires Occupancy(s.sys.toHost) > 0 && s.sys.toHost.puts[|s.sys.toHost.gots|] == CH_R
    ensures Reaches(s0, t) && ServerInv(t) && t.socket == s.socket && t.inbox == s.inbox
    ensures t.sys.host == Replying && t.sys.toHost.puts == s.sys.toHost.puts && t.sys.toHost.consumer.CIdle?
    ensures t.sys.toHost.producer == s.sys.toHost.producer
    ensures Occupancy(t.sys.toHost) == Occupancy(s.sys.toHost) - 1
    ensures t.sys.toClient.producer.PTest? && Occupancy(t.sys.toClient) == Occupancy(s.sys.toClient)
    decreases GetRank(s.sys.toHost.consumer)
  {
    hide Inv, Step, Reaches, Bytes, PinsAfter, Replies, Drive, HostReads, Offered;
    Next(s0, s, HostStep);
    Rings(s);
    HostEffect(s.sys);
    ConsumerEffect(s.sys.toHost);
    PutEffects(s.sys.toClient);
    var u := Perform(s, HostStep);
    if s.sys.toHost.consumer.CPublish? {
      NextByte(s.sys.toHost);
      t := u;
    } else {
      t := FinishTake(s0, u);
    }
  }

  lemma NextByte(r: Ring)
    requires Inv(r) && r.consumer.CPublish?
    ensures |r.gots| < |r.puts| && r.consumer.dat == r.puts[|r.gots|]
  {
  }

  lemma TakeOne(s0: Server, s: Server) returns (t: Server)
    requires Ready(s0.sys) && Reaches(s0, s) && ServerInv(s) && s.sys.host == Waiting
    requires Occupancy(s.sys.toHost) > 0 && s.sys.toHost.puts[|s.sys.toHost.gots|] == CH_R
    ensures Reaches(s0, t) && ServerInv(t) && t.socket == s.socket && t.inbox == s.inbox
    ensures t.sys.host == Replying && t.sys.toHost.puts == s.sys.toHost.puts && t.sys.toHost.consumer.CIdle?
    ensures t.sys.toHost.producer == s.sys.toHost.producer
    ensures Occupancy(t.sys.toHost) == Occupancy(s.sys.toHost) - 1
    ensures t.sys.toClient.producer.PTest? && Occupancy(t.sys.toClient) == Occupancy(s.sys.toClient)
  {
    hide Inv, Reaches, SystemInv, HostReads;
    Next(s0, s, HostTick(false));
    t := FinishTake(s0, Perform(s, HostTick(false)));
  }

  ghost predicate AllReads(b: seq<Byte>) { forall i | 0 <= i < |b| :: b[i] == CH_R }

  /** Both threads between two bytes, with so many commands and replies waiting. */
  ghost predicate Resting(s: Server, commands: nat, replies: nat, left: nat) {
    && ServerInv(s) && s.socket == Polling && s.sys.host == Waiting
    && Occupancy(s.sys.toHost) == commands && Occupancy(s.sys.toClient) == replies
    && |s.inbox| == left && AllReads(s.inbox) && AllReads(s.sys.toHost.puts)
  }

  /** The client sends read commands. */
  lemma {:induction false} SendReads(s0: Server, n: nat) returns (t: Server)
    requires ServerStart(s0) && Ready(s0.sys)
    ensures Reaches(s0, t) && Resting(t, 0, 0, n)
    decreases n
  {
    hide Reaches;
    if n == 0 {
      Here(s0);
      StartInv(s0);
      t := s0;
    } else {
      hide ServerInv;
      var u := SendReads(s0, n - 1);
      Next(s0, u, Send(CH_R));
      t := Perform(u, Send(CH_R));
    }
  }

  /** One command goes through to a waiting reply. */
  lemma OneReply(s0: Server, s: Server, replies: nat, left: nat) returns (t: Server)
    requires Ready(s0.sys) && Reaches(s0, s) && Resting(s, 0, replies, left) && left > 0 && replies < BUFSIZE - 1
    ensures Reaches(s0, t) && Resting(t, 0, replies + 1, left - 1)
  {
    hide Reaches, ServerInv;
    t := FeedOne(s0, s);
    t := TakeOne(s0, t);
    t := FinishReply(s0, t);
  }

  lemma {:induction false} FillReplies(s0: Server, s: Server, replies: nat, left: nat) returns (t: Server)
    requires Ready(s0.sys) && Reaches(s0, s) && replies <= BUFSIZE - 1
    requires Resting(s, 0, replies, left + BUFSIZE - 1 - replies)
    ensures Reaches(s0, t) && Resting(t, 0, BUFSIZE - 1, left)
    decreases BUFSIZE - 1 - replies
  {
    hide Reaches, Resting;
    if replies == BUFSIZE - 1 {
      t := s;
    } else {
      var u := OneReply(s0, s, replies, left + BUFSIZE - 1 - replies);
      t := FillReplies(s0, u, replies + 1, left);
    }
  }

  /** The host cannot finish its reply, and so many commands wait. */
  ghost predicate Jammed(s: Server, commands: nat, left: nat) {
    && ServerInv(s) && s.socket == Polling && s.sys.host == Replying
    && Spins(s.sys.toClient.producer) && Occupancy(s.sys.toClient) == BUFSIZE - 1
    && Occupancy(s.sys.toHost) == commands && |s.inbox| == left
  }

  lemma {:induction false} FillCommands(s0: Server, s: Server, commands: nat, left: nat) returns (t: Server)
    requires Ready(s0.sys) && Reaches(s0, s) && commands <= BUFSIZE - 1
    requires Jammed(s, commands, left + BUFSIZE - 1 - commands)
    ensures Reaches(s0, t) && Jammed(t, BUFSIZE - 1, left)
    decreases BUFSIZE - 1 - commands
  {
    hide Reaches, ServerInv;
    if commands == BUFSIZE - 1 {
      t := s;
    } else {
      var u := FeedOne(s0, s);
      t := FillCommands(s0, u, commands + 1, left);
    }
  }

  /** A client that sends 2048 read commands at once can lead the two threads into the
      deadlock, so the window cannot be wider. */
  lemma DeadlockIsReachable(s0: Server) returns (t: Server)
    requires ServerStart(s0)
    ensures Ready(s0.sys) && Reaches(s0, t) && Deadlocked(t) && InFlight(t) == WINDOW + 1
  {
    hide Reaches, ServerInv;
    StartInv(s0);
    t := SendReads(s0, 2 * BUFSIZE);
    t := FillReplies(s0, t, 0, BUFSIZE + 1);
    t := FeedOne(s0, t);
    t := TakeOne(s0, t);
    t := FillCommands(s0, t, 0, 1);
    t := LastByte(s0, t);
  }

  lemma LastByte(s0: Server, s: Server) returns (t: Server)
    requires Ready(s0.sys) && Reaches(s0, s) && Jammed(s, BUFSIZE - 1, 1)
    ensures Reaches(s0, t) && Deadlocked(t) && InFlight(t) == WINDOW + 1
  {
    hide Reaches, Inv, Step, HostReads, Bytes, PinsAfter, Replies, Offered;
    Next(s0, s, SocketRun);
    Rings(s);
    PutEffect(s.sys.toHost, s.inbox[0]);
    t := Perform(s, SocketRun);
    UnreadBounds(t.sys.toHost);
    UnreadBounds(t.sys.toClient);
  }
}
