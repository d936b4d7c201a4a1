/** The remote-bitbang server: the decoder of command bytes, and the two threads
    that reach it and leave it through two ring buffers. */
module JtagDpi {
  import opened Basics
  import opened RingBuffer

  /** The JTAG signals driven by the server. */
  datatype Pins = Pins(tck: bool, tms: bool, tdi: bool, trstN: bool, srstN: bool)

  /** reset_jtag_signals: everything low except srst_n. */
  const RESET := Pins(false, false, false, false, true)

  /** One command together with the TDO level sampled by its tick. */
  datatype Command = Command(cmd: Byte, tdo: bool)

  // Command bytes of the protocol.
  const CH_0 := 48
  const CH_7 := 55
  const CH_R := 82    // 'R' read
  const CH_B := 66    // 'B' blink on
  const CH_b := 98    // 'b' blink off
  const CH_Q := 81    // 'Q' quit
  const CH_r := 114   // 'r' .. 'u' reset lines
  const CH_u := 117

  predicate IsWrite(c: Byte) { CH_0 <= c <= CH_7 }
  predicate IsReset(c: Byte) { CH_r <= c <= CH_u }
  predicate Supported(c: Byte) { IsWrite(c) || IsReset(c) || c == CH_R || c == CH_B || c == CH_b || c == CH_Q }

  function Reply(tdo: bool): Byte { CH_0 + if tdo then 1 else 0 }

  // ----- the decoder object ----------------------------------------------------------------------

  datatype Outcome = Quiet | Respond(reply: Byte) | Quit | Violation

  /** struct jtagdpi_ctx without its socket. */
  class JtagDpiCtx {
    var tck: bool
    var tms: bool
    var tdi: bool
    var tdo: bool
    var trstN: bool
    var srstN: bool

    function View(): Pins
      reads this
    {
      Pins(tck, tms, tdi, trstN, srstN)
    }

    constructor ()
      ensures View() == RESET && !tck && !tms && !tdi && !tdo && !trstN && srstN
    {
      tck, tms, tdi, tdo, trstN, srstN := false, false, false, false, false, true;
    }

    /** update_jtag_signals behind the read of the command byte. */
    method Decode(cmd: Byte) returns (out: Outcome)
      modifies this
      ensures View() == Drive(old(View()), cmd) && tdo == old(tdo)
      ensures out == (if cmd == CH_R then Respond(Reply(tdo)) else if cmd == CH_Q then Quit
                      else if Supported(cmd) then Quiet else Violation)
    {
      out := Quiet;
      if CH_0 <= cmd <= CH_7 {
        var bit := cmd - CH_0;
        tdi := bit % 2 == 1;
        tms := bit / 2 % 2 == 1;
        tck := bit / 4 % 2 == 1;
      } else if CH_r <= cmd <= CH_u {
        var bit := cmd - CH_r;
        srstN := !(bit % 2 == 1);
        trstN := !(bit / 2 % 2 == 1);
      } else if cmd == CH_R {
        out := Respond(if tdo then CH_0 + 1 else CH_0);
      } else if cmd == CH_B || cmd == CH_b {
      } else if cmd == CH_Q {
        out := Quit;
      } else {
        out := Violation;
      }
    }
  }

  // ----- what a stream of commands means ---------------------------------------------------------

  /** The protocol: '0'..'7' set tck, tms, tdi to the bits of the digit; 'r'..'u'
      raise srst and trst, which are low active, by the bits of the offset. */
  function Drive(p: Pins, c: Byte): Pins {
    if IsWrite(c) then p.(tck := c in {52, 53, 54, 55}, tms := c in {50, 51, 54, 55}, tdi := c in {49, 51, 53, 55})
    else if IsReset(c) then p.(srstN := c in {114, 116}, trstN := c in {114, 115})
    else p
  }

  function Level(b: bool): nat { if b then 1 else 0 }

  /** A write command is the number of its three pins, a reset command that of its two
      reset lines, which are low active; no other command touches a pin. */
  lemma DriveMeans(p: Pins, c: Byte)
    ensures var q := Drive(p, c);
      if '0' as int <= c <= '7' as int then
        && c - '0' as int == 4 * Level(q.tck) + 2 * Level(q.tms) + Level(q.tdi)
        && q.trstN == p.trstN && q.srstN == p.srstN
      else if 'r' as int <= c <= 'u' as int then
        && c - 'r' as int == 2 * Level(!q.trstN) + Level(!q.srstN)
        && q.tck == p.tck && q.tms == p.tms && q.tdi == p.tdi
      else q == p
  {
  }

  /** The commands of the protocol and its replies, as letters. */
  lemma CommandLetters(c: Byte, tdo: bool)
    ensures Supported(c) <==>
      c as char in {'0', '1', '2', '3', '4', '5', '6', '7'} || c as char in {'r', 's', 't', 'u', 'R', 'B', 'b', 'Q'}
    ensures CH_R == 'R' as int && CH_Q == 'Q' as int && Reply(tdo) == (if tdo then '1' else '0') as int
  {
  }

  function PinsAfter(log: seq<Byte>): Pins {
    if log == [] then RESET else Drive(PinsAfter(log[..|log| - 1]), log[|log| - 1])
  }

  /** The TDO levels sampled at the read commands, in order. */
  function Replies(log: seq<Command>): seq<Byte> {
    if log == [] then []
    else Replies(log[..|log| - 1]) + if log[|log| - 1].cmd == CH_R then [Reply(log[|log| - 1].tdo)] else []
  }

  function Bytes(log: seq<Command>): (b: seq<Byte>)
    ensures |b| == |log|
  {
    seq(|log|, i requires 0 <= i < |log| => log[i].cmd)
  }

  // ----- both threads ---------------------------------------------------------------------------

  /** The simulation thread: between ticks, reading a command byte, writing a
      reply, or gone after a protocol violation. */
  datatype Host = Waiting | Reading(tdo: bool) | Replying | Exited

  /** toHost carries client bytes, toClient carries replies; `log` records the
      commands taken by the simulation thread. */
  datatype System = System(toHost: Ring, toClient: Ring, host: Host, pins: Pins, log: seq<Command>)

  datatype Move =
    | Receive(dat: Byte)   // the socket thread has a byte from the client
    | SocketPut            // a step of its put_byte
    | SocketGet            // a step of its get_byte, then send
    | Tick(tdo: bool)      // the simulator calls jtagdpi_tick
    | HostRun              // a step of the tick in progress

  ghost predicate SystemStart(s: System) {
    Start(s.toHost) && Start(s.toClient) && s.host == Waiting && s.pins == RESET && s.log == []
  }

  predicate Ready(s: System) { |s.toHost.buf| == |s.toClient.buf| == BUFSIZE }

  function Move1(s: System, m: Move): (t: System)
    requires Ready(s)
    ensures Ready(t)
  {
    match m
    case Receive(dat) => if s.toHost.producer.PIdle? then s.(toHost := Step(s.toHost, Put(dat))) else s
    case SocketPut => if s.toHost.producer.PIdle? then s else s.(toHost := Step(s.toHost, ProducerStep))
    case SocketGet => s.(toClient := Step(s.toClient, ConsumerStep))
    case Tick(tdo) => if s.host.Waiting? then s.(host := Reading(tdo)) else s
    case HostRun =>
      match s.host
      case Waiting => s
      case Exited => s
      case Reading(tdo) => HostReads(s, tdo)
      case Replying =>
        if s.toClient.producer.PIdle? then s.(host := Waiting) else s.(toClient := Step(s.toClient, ProducerStep))
  }

  /** A step of the read.  An empty buffer ends the tick; a byte that has been
      taken is decoded.  Between two ticks no reply is being written, so the write
      of a reply always starts at once. */
  function HostReads(s: System, tdo: bool): (t: System)
    requires Ready(s)
    ensures Ready(t)
  {
    var ring := Step(s.toHost, ConsumerStep);
    if s.toHost.consumer.CIdle? && ring.consumer.CIdle? then s.(host := Waiting)
    else if s.toHost.consumer.CPublish? then
      var c := s.toHost.consumer.dat;
      var t := s.(toHost := ring, pins := Drive(s.pins, c), log := s.log + [Command(c, tdo)]);
      if c == CH_R && s.toClient.producer.PIdle? then
        t.(toClient := Step(s.toClient, Put(Reply(tdo))), host := Replying)
      else t.(host := if Supported(c) then Waiting else Exited)
    else s.(toHost := ring)
  }

  ghost predicate SystemInv(s: System) {
    && Inv(s.toHost) && Inv(s.toClient)
    && Bytes(s.log) == s.toHost.gots
    && s.pins == PinsAfter(Bytes(s.log))
    && Offered(s.toClient) == Replies(s.log)
    && (s.host != Replying ==> s.toClient.producer == PIdle)
    && (!s.host.Reading? ==> s.toHost.consumer == CIdle)
  }

  lemma LogGrows(log: seq<Command>, c: Command)
    ensures Bytes(log + [c]) == Bytes(log) + [c.cmd]
    ensures PinsAfter(Bytes(log + [c])) == Drive(PinsAfter(Bytes(log)), c.cmd)
    ensures Replies(log + [c]) == Replies(log) + if c.cmd == CH_R then [Reply(c.tdo)] else []
  {
    hide Drive;
    assert (log + [c])[..|log|] == log;
    var b := Bytes(log + [c]);
    assert b == Bytes(log) + [c.cmd];
    assert b[..|b| - 1] == Bytes(log);
  }

  lemma ReadKeepsInv(s: System, tdo: bool)
    requires SystemInv(s) && s.host == Reading(tdo)
    ensures SystemInv(HostReads(s, tdo))
  {
    hide Inv, PinsAfter, Replies, Bytes, Drive;
    assert Ready(s) by { InvReady(s); }
    ConsumerKeepsInv(s.toHost);
    if s.toHost.consumer.CPublish? {
      var c := s.toHost.consumer.dat;
      LogGrows(s.log, Command(c, tdo));
      if c == CH_R {
        StepKeepsInv(s.toClient, Put(Reply(tdo)));
        StepOffers(s.toClient, Put(Reply(tdo)));
      }
    }
  }

  lemma InvReady(s: System)
    requires Inv(s.toHost) && Inv(s.toClient)
    ensures Ready(s)
  {
  }

  lemma MoveKeepsInv(s: System, m: Move)
    requires SystemInv(s)
    ensures Ready(s) && SystemInv(Move1(s, m))
  {
    hide Inv, PinsAfter, Replies, Bytes, HostReads, StepProducer, StepConsumer, Offered;
    InvReady(s);
    match m
    case Receive(dat) =>
      if s.toHost.producer.PIdle? {
        StepKeepsInv(s.toHost, Put(dat));
      }
    case SocketPut =>
      if !s.toHost.producer.PIdle? {
        StepKeepsInv(s.toHost, ProducerStep);
        GotsKept(s.toHost);
      }
    case SocketGet =>
      StepKeepsInv(s.toClient, ConsumerStep);
      StepOffers(s.toClient, ConsumerStep);
      ProducerKept(s.toClient);
    case Tick(_) =>
    case HostRun =>
      match s.host
      case Reading(tdo) => ReadKeepsInv(s, tdo);
      case Replying =>
        if !s.toClient.producer.PIdle? {
          StepKeepsInv(s.toClient, ProducerStep);
          StepOffers(s.toClient, ProducerStep);
        }
      case _ =>
  }

  lemma GotsKept(r: Ring)
    requires |r.buf| == BUFSIZE && !r.producer.PIdle?
    ensures StepProducer(r).gots == r.gots && StepProducer(r).consumer == r.consumer
  {
  }

  lemma ProducerKept(r: Ring)
    requires |r.buf| == BUFSIZE
    ensures StepConsumer(r).producer == r.producer
  {
  }

  function RunSystem(s: System, moves: seq<Move>): System
    requires Ready(s)
    decreases |moves|
  {
    if moves == [] then s else RunSystem(Move1(s, moves[0]), moves[1..])
  }

  lemma {:induction false} RunSystemKeepsInv(s: System, moves: seq<Move>)
    requires SystemInv(s)
    ensures Ready(s) && SystemInv(RunSystem(s, moves))
    decreases |moves|
  {
    hide Move1;
    InvReady(s);
    if moves != [] {
      MoveKeepsInv(s, moves[0]);
      RunSystemKeepsInv(Move1(s, moves[0]), moves[1..]);
    }
  }

  /** The bytes that the socket thread receives during a run: it takes one when it is
      not busy with the one before. */
  function Received(s: System, moves: seq<Move>): seq<Byte>
    requires Ready(s)
    decreases |moves|
  {
    if moves == [] then []
    else
      (if moves[0].Receive? && s.toHost.producer.PIdle? then [moves[0].dat] else [])
      + Received(Move1(s, moves[0]), moves[1..])
  }

  lemma MoveOffers(s: System, m: Move)
    requires SystemInv(s)
    ensures Ready(s)
    ensures Offered(Move1(s, m).toHost)
      == Offered(s.toHost) + if m.Receive? && s.toHost.producer.PIdle? then [m.dat] else []
  {
    hide Inv, PinsAfter, Replies, Bytes, Offered, Step, Drive;
    InvReady(s);
    match m
    case Receive(dat) =>
      if s.toHost.producer.PIdle? {
        StepOffers(s.toHost, Put(dat));
      }
    case SocketPut =>
      if !s.toHost.producer.PIdle? {
        StepOffers(s.toHost, ProducerStep);
      }
    case HostRun => StepOffers(s.toHost, ConsumerStep);
    case _ =>
  }

  lemma {:induction false} RunOffers(s: System, moves: seq<Move>)
    requires SystemInv(s)
    ensures Ready(s) && Offered(RunSystem(s, moves).toHost) == Offered(s.toHost) + Received(s, moves)
    decreases |moves|
  {
    hide Move1, SystemInv, Offered;
    MoveKeepsReady(s);
    if moves != [] {
      MoveKeepsInv(s, moves[0]);
      MoveOffers(s, moves[0]);
      RunOffers(Move1(s, moves[0]), moves[1..]);
    }
  }

  lemma MoveKeepsReady(s: System)
    requires SystemInv(s)
    ensures Ready(s)
  {
    InvReady(s);
  }

  /** For every interleaving of both threads through both buffers: the commands
      taken are a prefix of the client's bytes, the pins are the decoder run over
      them, and the client has received a prefix of the TDO levels sampled at the
      read commands, all of it once the reply buffer has drained. */
  lemma EndToEnd(s: System, moves: seq<Move>)
    requires SystemStart(s)
    ensures Ready(s)
    ensures var t := RunSystem(s, moves);
      && Bytes(t.log) <= t.toHost.puts <= Received(s, moves)
      && t.pins == PinsAfter(Bytes(t.log))
      && t.toClient.gots <= Replies(t.log)
      && (t.host.Waiting? && t.toClient.rptr == t.toClient.wptr ==> t.toClient.gots == Replies(t.log))
  {
    hide RunSystem;
    assert SystemInv(s);
    RunSystemKeepsInv(s, moves);
    var t := RunSystem(s, moves);
    EmptyTestIsExact(t.toClient);
    RunOffers(s, moves);
    assert Offered(t.toHost) == Received(s, moves);
    assert t.toClient.gots <= t.toClient.puts <= Offered(t.toClient);
  }
}
