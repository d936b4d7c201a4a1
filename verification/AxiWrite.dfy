/** Overlapping writes on an AXI4 bus: the driver that allocates transaction ids,
    the handler that frees them, and the monitor that rebuilds the writes, clock
    by clock. */
module AxiWrite {
  import opened Basics
  import opened AxiBytes

  /** A write as issued by the test. */
  datatype Item = Item(addr: nat, data: seq<Byte>)

  /** A write as reported by the monitor. */
  datatype Report = Report(item: Item, bresp: nat)

  /** A pending transfer; `issue` counts the writes issued before it. */
  datatype Transfer = Transfer(issue: nat, item: Item)

  /** Where the driver is between two clocks; `rest` is the payload from the beat on
      the bus to its end. */
  datatype Driver = Idle | SendingAddress(id: nat) | SendingData(id: nat, rest: seq<Byte>)

  /** Request and data channels as driven between two clocks. */
  datatype Bus = Bus(awvalid: bool, awid: nat, awaddr: nat, wvalid: bool, wdata: nat, wstrb: nat)

  /** The monitor's own bookkeeping. */
  datatype Monitor = Monitor(xfers: map<nat, Item>, awid: int, items: seq<Report>, errors: nat)

  /** `issued` lists all writes in order; `answers` are the ids whose data has been
      accepted and which the subordinate still has to answer; `trail` says which
      issued write each reported item is, and how it was answered. */
  datatype System = System(ids: nat, width: nat, pending: map<nat, Transfer>, driver: Driver, bus: Bus,
                           monitor: Monitor, issued: seq<Item>, answers: set<nat>, trail: seq<Completion>)

  datatype Completion = Completion(issue: nat, bresp: nat)

  /** One rising clock edge: ready signals, a response id, and a write the test
      wants to issue.  Freeing and allocating may happen in either order. */
  datatype Edge = Edge(awready: bool, wready: bool, response: Response, request: Request, freeFirst: bool)
  datatype Response = NoResponse | Answer(id: nat, bresp: nat)
  datatype Request = NoRequest | Issue(item: Item)

  const QUIET := Bus(false, 0, 0, false, 0, 0)

  ghost predicate Start(s: System) {
    && s.width > 0 && s.pending == map[] && s.driver == Idle && s.bus == QUIET
    && s.monitor == Monitor(map[], -1, [], 0) && s.issued == [] && s.answers == {} && s.trail == []
  }

  /** What is asked of the environment: a subordinate that answers each id once,
      after its data. */
  ghost predicate Allowed(s: System, e: Edge) {
    e.response.Answer? ==> e.response.id in s.answers
  }

  // ----- the monitor ------------------------------------------------------------------------------

  /** watch_write on one clock. */
  function Watch(m: Monitor, b: Bus, width: nat, e: Edge): Monitor {
    WatchB(WatchW(WatchAw(m, b, e), b, width, e), e)
  }

  function WatchAw(m: Monitor, b: Bus, e: Edge): Monitor {
    if !(b.awvalid && e.awready) then m
    else if b.awid in m.xfers then m.(awid := b.awid, errors := m.errors + 1)
    else m.(awid := b.awid, xfers := m.xfers[b.awid := Item(b.awaddr, [])])
  }

  function WatchW(m: Monitor, b: Bus, width: nat, e: Edge): Monitor {
    if !(b.wvalid && e.wready) then m
    else if m.awid < 0 || m.awid !in m.xfers then m.(errors := m.errors + 1)
    else m.(xfers := m.xfers[m.awid := m.xfers[m.awid].(data := Collected(b.wdata, b.wstrb, width))])
  }

  function WatchB(m: Monitor, e: Edge): Monitor {
    match e.response
    case NoResponse => m
    case Answer(id, bresp) =>
      if id !in m.xfers then m.(errors := m.errors + 1)
      else m.(xfers := m.xfers - {id}, items := m.items + [Report(m.xfers[id], bresp)])
  }

  /** The monitor complains about a request for an open id, about data without an open
      id, and about a response to an id that is not open, and about nothing else. */
  lemma MonitorComplains(m: Monitor, b: Bus, width: nat, e: Edge)
    ensures var request, data := b.awvalid && e.awready, b.wvalid && e.wready;
      var awid := if request then b.awid else m.awid;
      var open := m.xfers.Keys + if request then {b.awid} else {};
      Watch(m, b, width, e).errors == m.errors
        + (if request && b.awid in m.xfers then 1 else 0)
        + (if data && (awid < 0 || awid !in open) then 1 else 0)
        + (if e.response.Answer? && e.response.id !in open then 1 else 0)
  {
    hide Collected;
  }

  class Axi4LiteMonitor {
    var xfers: map<nat, Item>
    var awid: int
    var items: seq<Report>
    var errors: nat

    function View(): Monitor
      reads this
    {
      Monitor(xfers, awid, items, errors)
    }

    constructor ()
      ensures View() == Monitor(map[], -1, [], 0)
    {
      xfers, awid, items, errors := map[], -1, [], 0;
    }

    method WatchWrite(b: Bus, width: nat, e: Edge)
      modifies this
      ensures View() == Watch(old(View()), b, width, e)
    {
      if b.awvalid && e.awready {
        awid := b.awid;
        if awid in xfers {
          errors := errors + 1;
        } else {
          xfers := xfers[b.awid := Item(b.awaddr, [])];
        }
      }
      if b.wvalid && e.wready {
        if awid < 0 || awid !in xfers {
          errors := errors + 1;
        } else {
          var data := CollectBytes(b.wdata, b.wstrb, width);
          xfers := xfers[awid := xfers[awid].(data := data)];
        }
      }
      if e.response.Answer? {
        var bid := e.response.id;
        if bid !in xfers {
          errors := errors + 1;
        } else {
          var xfer := xfers[bid];
          xfers := xfers - {bid};
          items := items + [Report(xfer, e.response.bresp)];
        }
      }
    }
  }

  // ----- the driver ---------------------------------------------------------------------------------

  /** The lowest id that is not pending, or `ids` if all are. */
  function FirstFree(pending: map<nat, Transfer>, ids: nat, i: nat): (k: nat)
    requires i <= ids
    ensures i <= k <= ids && (k < ids ==> k !in pending) && forall j | i <= j < k :: j in pending
    decreases ids - i
  {
    if i == ids || i !in pending then i else FirstFree(pending, ids, i + 1)
  }

  method FindFree(pending: map<nat, Transfer>, ids: nat) returns (awid: nat)
    ensures awid == FirstFree(pending, ids, 0)
  {
    awid := 0;
    while awid < ids && awid in pending
      invariant awid <= ids && FirstFree(pending, ids, 0) == FirstFree(pending, ids, awid)
    {
      awid := awid + 1;
    }
  }

  function Freed(s: System, e: Edge): System {
    if e.response.Answer? then s.(pending := s.pending - {e.response.id}) else s
  }

  /** A beat on the data channel. */
  function BeatBus(rest: seq<Byte>, width: nat): Bus {
    QUIET.(wvalid := true, wdata := Word(Beat(rest, width)), wstrb := Ones(|Beat(rest, width)|))
  }

  /** The driver with this much of the payload still to send. */
  function Sending(s: System, id: nat, rest: seq<Byte>): System {
    if rest == [] then s.(driver := Idle, bus := QUIET)
    else s.(driver := SendingData(id, rest), bus := BeatBus(rest, s.width))
  }

  function Driven(s: System, e: Edge): System {
    match s.driver
    case Idle =>
      if e.request.NoRequest? then s
      else
        var id := FirstFree(s.pending, s.ids, 0);
        if id == s.ids then s
        else s.(pending := s.pending[id := Transfer(|s.issued|, e.request.item)],
                issued := s.issued + [e.request.item], driver := SendingAddress(id),
                bus := QUIET.(awvalid := true, awid := id, awaddr := e.request.item.addr))
    case SendingAddress(id) =>
      if !e.awready || id !in s.pending then s else Sending(s, id, s.pending[id].item.data)
    case SendingData(id, rest) => if !e.wready then s else Sending(s, id, Left(rest, s.width))
  }

  /** The id whose last beat is accepted on this edge, or whose address is if it has
      no data at all. */
  function Finished(s: System, e: Edge): set<nat> {
    match s.driver
    case Idle => {}
    case SendingAddress(id) => if e.awready && id in s.pending && s.pending[id].item.data == [] then {id} else {}
    case SendingData(id, rest) => if e.wready && Left(rest, s.width) == [] then {id} else {}
  }

  function Completed(s: System, e: Edge): seq<Completion> {
    if e.response.Answer? && e.response.id in s.pending
    then [Completion(s.pending[e.response.id].issue, e.response.bresp)]
    else []
  }

  /** One rising edge: everyone samples the bus as it was driven before it. */
  function Clock(s: System, e: Edge): System {
    var watched := s.(monitor := Watch(s.monitor, s.bus, s.width, e),
                      answers := s.answers + Finished(s, e) - (if e.response.Answer? then {e.response.id} else {}),
                      trail := s.trail + Completed(s, e));
    if e.freeFirst then Driven(Freed(watched, e), e) else Freed(Driven(watched, e), e)
  }

  // ----- what every schedule keeps --------------------------------------------------------------------

  /** The ids whose address the monitor has not seen yet. */
  function Unseen(s: System): set<nat> {
    if s.driver.SendingAddress? then {s.driver.id} else {}
  }

  /** The ids whose data has not been accepted yet. */
  function Unsent(s: System): set<nat> {
    if s.driver.Idle? then {} else {s.driver.id}
  }

  ghost predicate BusOk(s: System)
    requires s.width > 0
  {
    match s.driver
    case Idle => s.bus == QUIET
    case SendingAddress(id) =>
      id in s.pending && s.bus == QUIET.(awvalid := true, awid := id, awaddr := s.pending[id].item.addr)
    case SendingData(id, rest) =>
      && id in s.pending && s.monitor.awid == id && s.bus == BeatBus(rest, s.width)
      && rest != [] && LastBeat(rest, s.width) == LastBeat(s.pending[id].item.data, s.width)
  }

  ghost predicate PendingOk(s: System) {
    && (forall id | id in s.pending ::
          && id < s.ids && s.pending[id].issue < |s.issued| && s.pending[id].item == s.issued[s.pending[id].issue]
          && forall k | 0 <= k < |s.trail| :: s.trail[k].issue != s.pending[id].issue)
    && (forall i, j | i in s.pending && j in s.pending && i != j :: s.pending[i].issue != s.pending[j].issue)
  }

  /** What the monitor makes of a write: the last beat stands for the payload. */
  function Shown(item: Item, width: nat): Item
    requires width > 0
  {
    item.(data := LastBeat(item.data, width))
  }

  ghost predicate MonitorOk(s: System)
    requires s.width > 0
  {
    && s.monitor.errors == 0
    && s.monitor.xfers.Keys == s.pending.Keys - Unseen(s)
    && (forall id | id in s.monitor.xfers :: s.monitor.xfers[id].addr == s.pending[id].item.addr)
    && (forall id | id in s.answers ::
          id in s.monitor.xfers && s.monitor.xfers[id] == Shown(s.pending[id].item, s.width))
    && s.answers == s.pending.Keys - Unsent(s)
  }

  ghost predicate TrailOk(s: System)
    requires s.width > 0
  {
    && |s.trail| == |s.monitor.items| && |s.trail| + |s.pending| == |s.issued|
    && (forall k | 0 <= k < |s.trail| :: s.trail[k].issue < |s.issued|
          && s.monitor.items[k] == Report(Shown(s.issued[s.trail[k].issue], s.width), s.trail[k].bresp))
    && (forall j, k | 0 <= j < k < |s.trail| :: s.trail[j].issue != s.trail[k].issue)
  }

  ghost predicate Inv(s: System) {
    s.width > 0 && BusOk(s) && PendingOk(s) && MonitorOk(s) && TrailOk(s)
  }

  // A clock edge is a response and an action of the driver, in one of two orders.

  function Answered(s: System, id: nat, bresp: nat): System
    requires id in s.pending && id in s.monitor.xfers
  {
    s.(pending := s.pending - {id}, answers := s.answers - {id},
       trail := s.trail + [Completion(s.pending[id].issue, bresp)],
       monitor := s.monitor.(xfers := s.monitor.xfers - {id},
                             items := s.monitor.items + [Report(s.monitor.xfers[id], bresp)]))
  }

  function Issued(s: System, item: Item, id: nat): System {
    s.(pending := s.pending[id := Transfer(|s.issued|, item)], issued := s.issued + [item],
       driver := SendingAddress(id), bus := QUIET.(awvalid := true, awid := id, awaddr := item.addr))
  }

  /** The data channel moves on; the monitor holds these bytes for the id. */
  function Sent(s: System, id: nat, data: seq<Byte>, rest: seq<Byte>): System
    requires id in s.pending
  {
    Sending(s.(answers := s.answers + (if rest == [] then {id} else {}),
               monitor := s.monitor.(awid := id,
                                     xfers := s.monitor.xfers[id := Item(s.pending[id].item.addr, data)])),
            id, rest)
  }

  function Act(s: System, e: Edge): System {
    match s.driver
    case Idle =>
      if e.request.Issue? && FirstFree(s.pending, s.ids, 0) < s.ids
      then Issued(s, e.request.item, FirstFree(s.pending, s.ids, 0))
      else s
    case SendingAddress(id) => if e.awready && id in s.pending then Sent(s, id, [], s.pending[id].item.data) else s
    case SendingData(id, rest) =>
      if e.wready && id in s.pending then Sent(s, id, Beat(rest, s.width), Left(rest, s.width)) else s
  }

  lemma AnsweredKeepsInv(s: System, id: nat, bresp: nat)
    requires Inv(s) && id in s.answers
    ensures id in s.pending && id in s.monitor.xfers && Inv(Answered(s, id, bresp))
  {
    hide Word, Ones, Shown, LastBeat, Beat;
    assert MonitorOk(s);
    AnsweredTrail(s, id, bresp);
    AnsweredMonitor(s, id, bresp);
  }

  lemma AnsweredTrail(s: System, id: nat, bresp: nat)
    requires s.width > 0 && PendingOk(s) && TrailOk(s) && id in s.pending && id in s.monitor.xfers
    requires s.monitor.xfers[id] == Shown(s.pending[id].item, s.width)
    ensures TrailOk(Answered(s, id, bresp)) && PendingOk(Answered(s, id, bresp))
  {
    hide Shown;
    MapSizes(s.pending, id, s.pending[id]);
  }

  lemma AnsweredMonitor(s: System, id: nat, bresp: nat)
    requires s.width > 0 && MonitorOk(s) && BusOk(s) && id in s.answers
    ensures id in s.pending && id in s.monitor.xfers
    ensures MonitorOk(Answered(s, id, bresp)) && BusOk(Answered(s, id, bresp))
  {
    hide Word, Ones, Shown, LastBeat, Beat;
  }

  lemma IssuedKeepsInv(s: System, item: Item, id: nat)
    requires Inv(s) && s.driver.Idle? && id < s.ids && id !in s.pending
    ensures Inv(Issued(s, item, id))
  {
    hide PendingOk, TrailOk, MonitorOk;
    IssuedPending(s, item, id);
    IssuedTrail(s, item, id);
    IssuedMonitor(s, item, id);
  }

  lemma IssuedPending(s: System, item: Item, id: nat)
    requires s.width > 0 && PendingOk(s) && TrailOk(s) && id < s.ids && id !in s.pending
    ensures PendingOk(Issued(s, item, id))
  {
    hide Shown;
    assert forall k | 0 <= k < |s.trail| :: s.trail[k].issue != |s.issued|;
  }

  lemma IssuedTrail(s: System, item: Item, id: nat)
    requires s.width > 0 && TrailOk(s) && id !in s.pending
    ensures TrailOk(Issued(s, item, id))
  {
    hide Shown;
    MapSizes(s.pending, id, Transfer(|s.issued|, item));
  }

  lemma MapSizes(m: map<nat, Transfer>, id: nat, x: Transfer)
    ensures id !in m ==> |m[id := x]| == |m| + 1
    ensures id in m ==> |m - {id}| == |m| - 1
  {
    assert m[id := x].Keys == m.Keys + {id} && (m - {id}).Keys == m.Keys - {id};
  }

  lemma IssuedMonitor(s: System, item: Item, id: nat)
    requires s.width > 0 && MonitorOk(s) && BusOk(s) && s.driver.Idle? && id !in s.pending
    ensures MonitorOk(Issued(s, item, id)) && BusOk(Issued(s, item, id))
  {
    hide Shown;
  }

  /** Bytes for an id whose data is not complete: the bytes in the monitor are the
      last beat, or more beats are to come. */
  lemma SentKeepsInv(s: System, id: nat, data: seq<Byte>, rest: seq<Byte>)
    requires Inv(s) && !s.driver.Idle? && s.driver.id == id
    requires id in s.pending ==> Carries(s.pending[id].item.data, data, rest, s.width)
    ensures id in s.pending && Inv(Sent(s, id, data, rest))
  {
    hide Word, Ones, LastBeat, Beat, Left, MonitorOk, PendingOk, TrailOk, BeatBus;
    SentMonitor(s, id, data, rest);
    SentTrail(s, id, data, rest);
  }

  ghost predicate Carries(all: seq<Byte>, data: seq<Byte>, rest: seq<Byte>, width: nat)
    requires width > 0
  {
    if rest == [] then data == LastBeat(all, width) else LastBeat(rest, width) == LastBeat(all, width)
  }

  lemma SentMonitor(s: System, id: nat, data: seq<Byte>, rest: seq<Byte>)
    requires s.width > 0 && MonitorOk(s) && BusOk(s) && !s.driver.Idle? && s.driver.id == id
    requires id in s.pending ==> Carries(s.pending[id].item.data, data, rest, s.width)
    ensures id in s.pending && MonitorOk(Sent(s, id, data, rest)) && BusOk(Sent(s, id, data, rest))
  {
    hide Word, Ones, LastBeat, Beat, Left;
  }

  lemma SentTrail(s: System, id: nat, data: seq<Byte>, rest: seq<Byte>)
    requires s.width > 0 && PendingOk(s) && TrailOk(s) && id in s.pending
    ensures PendingOk(Sent(s, id, data, rest)) && TrailOk(Sent(s, id, data, rest))
  {
    hide Shown, BeatBus;
  }

  lemma ActKeepsInv(s: System, e: Edge)
    requires Inv(s)
    ensures Inv(Act(s, e))
  {
    hide Issued, Sent, LastBeat, PendingOk, MonitorOk, TrailOk, BeatBus;
    match s.driver
    case Idle =>
      if e.request.Issue? && FirstFree(s.pending, s.ids, 0) < s.ids {
        IssuedKeepsInv(s, e.request.item, FirstFree(s.pending, s.ids, 0));
      }
    case SendingAddress(id) =>
      NoData(s.width);
      SentKeepsInv(s, id, [], s.pending[id].item.data);
    case SendingData(id, rest) =>
      NextBeat(rest, s.width);
      SentKeepsInv(s, id, Beat(rest, s.width), Left(rest, s.width));
  }

  lemma NoData(width: nat)
    requires width > 0
    ensures LastBeat([], width) == []
  {
  }

  lemma NextBeat(rest: seq<Byte>, width: nat)
    requires width > 0
    ensures Left(rest, width) == [] ==> Beat(rest, width) == LastBeat(rest, width)
    ensures Left(rest, width) != [] ==> LastBeat(Left(rest, width), width) == LastBeat(rest, width)
  {
  }

  /** What the monitor collects from a beat is the beat. */
  lemma BeatSeen(rest: seq<Byte>, width: nat)
    ensures Collected(BeatBus(rest, width).wdata, BeatBus(rest, width).wstrb, width) == Beat(rest, width)
  {
    hide Word, Ones, Collected;
    var beat := Beat(rest, width);
    PackCollect(beat, width);
    assert beat[..|beat|] == beat;
  }

  /** Without a response, a clock is the driver's action. */
  lemma ClockActs(s: System, e: Edge)
    requires Inv(s) && e.response.NoResponse?
    ensures Clock(s, e) == Act(s, e)
  {
    hide Word, Ones, Collected, FirstFree, PendingOk, TrailOk, LastBeat, Beat, Left;
    assert s.trail + [] == s.trail;
    assert s.answers + Finished(s, e) - {} == s.answers + Finished(s, e) && s.answers + {} == s.answers;
    if s.driver.SendingData? {
      BeatSeen(s.driver.rest, s.width);
    }
  }

  /** The response and the action touch different ids, so they commute up to the
      choice of the next free id. */
  lemma ClockAnswers(s: System, e: Edge)
    requires Inv(s) && e.response.Answer? && e.response.id in s.answers
    ensures Answers(s, e)
  {
    hide PendingOk, TrailOk, Answers;
    match s.driver
    case Idle => AnswersIdle(s, e);
    case SendingAddress(_) => AnswersAddress(s, e);
    case SendingData(_, _) => AnswersData(s, e);
  }

  ghost predicate Answers(s: System, e: Edge)
    requires e.response.Answer?
  {
    var id, bresp, t := e.response.id, e.response.bresp, Act(s, e);
    && id in s.pending && id in s.monitor.xfers && id in t.pending && id in t.monitor.xfers
    && Clock(s, e) == if e.freeFirst then Act(Answered(s, id, bresp), e) else Answered(t, id, bresp)
  }

  lemma AnswersIdle(s: System, e: Edge)
    requires s.width > 0 && MonitorOk(s) && BusOk(s) && s.driver.Idle? && e.response.Answer?
    requires e.response.id in s.answers
    ensures Answers(s, e)
  {
    hide Word, Ones, Collected, Shown;
    assert s.answers + {} - {e.response.id} == s.answers - {e.response.id};
  }

  lemma AnswersAddress(s: System, e: Edge)
    requires s.width > 0 && MonitorOk(s) && BusOk(s) && s.driver.SendingAddress?
    requires e.response.Answer? && e.response.id in s.answers
    ensures Answers(s, e)
  {
    hide Word, Ones, Collected, FirstFree, Shown, Beat, BeatBus;
    var id, k := e.response.id, s.driver.id;
    OtherId(s, id, k, Item(s.pending[k].item.addr, []));
  }

  /** Answering one id and updating another commute. */
  lemma OtherId(s: System, id: nat, k: nat, x: Item)
    requires id != k
    ensures s.answers + {} - {id} == s.answers - {id} + {} == s.answers - {id}
    ensures s.answers + {k} - {id} == s.answers - {id} + {k}
    ensures s.monitor.xfers[k := x] - {id} == (s.monitor.xfers - {id})[k := x]
  {
  }

  lemma AnswersData(s: System, e: Edge)
    requires s.width > 0 && MonitorOk(s) && BusOk(s) && s.driver.SendingData?
    requires e.response.Answer? && e.response.id in s.answers
    ensures Answers(s, e)
  {
    hide Word, Ones, Collected, FirstFree, Shown, Beat, Left, LastBeat, BeatBus;
    var id, k, rest := e.response.id, s.driver.id, s.driver.rest;
    assert s.bus.wvalid && !s.bus.awvalid by { BeatValid(rest, s.width); }
    BeatSeen(rest, s.width);
    OtherId(s, id, k, Item(s.pending[k].item.addr, Beat(rest, s.width)));
  }

  lemma BeatValid(rest: seq<Byte>, width: nat)
    ensures BeatBus(rest, width).wvalid && !BeatBus(rest, width).awvalid
  {
  }

  lemma ClockKeepsInv(s: System, e: Edge)
    requires Inv(s) && Allowed(s, e)
    ensures Inv(Clock(s, e)) && Clock(s, e).ids == s.ids && Clock(s, e).width == s.width
  {
    hide Clock, Act, Answered, Inv;
    Shape(s, e);
    if e.response.Answer? {
      var id, bresp := e.response.id, e.response.bresp;
      ClockAnswers(s, e);
      if e.freeFirst {
        AnsweredKeepsInv(s, id, bresp);
        ActKeepsInv(Answered(s, id, bresp), e);
      } else {
        ActKeepsInv(s, e);
        StillToAnswer(s, e, id);
        AnsweredKeepsInv(Act(s, e), id, bresp);
      }
    } else {
      ClockActs(s, e);
      ActKeepsInv(s, e);
    }
  }

  lemma StillToAnswer(s: System, e: Edge, id: nat)
    requires id in s.answers
    ensures id in Act(s, e).answers
  {
  }

  lemma Shape(s: System, e: Edge)
    ensures Clock(s, e).ids == s.ids && Clock(s, e).width == s.width
  {
    hide Watch, FirstFree;
  }

  // ----- whole schedules ---------------------------------------------------------------------------

  function Run(s: System, edges: seq<Edge>): System
    decreases |edges|
  {
    if edges == [] then s else Run(Clock(s, edges[0]), edges[1..])
  }

  ghost predicate AllAllowed(s: System, edges: seq<Edge>)
    decreases |edges|
  {
    edges == [] || (Allowed(s, edges[0]) && AllAllowed(Clock(s, edges[0]), edges[1..]))
  }

  lemma {:induction false} RunKeepsInv(s: System, edges: seq<Edge>)
    requires Inv(s) && AllAllowed(s, edges)
    ensures Inv(Run(s, edges)) && Run(s, edges).width == s.width
    decreases |edges|
  {
    hide Clock, Inv, Allowed;
    if edges != [] {
      ClockKeepsInv(s, edges[0]);
      RunKeepsInv(Clock(s, edges[0]), edges[1..]);
    }
  }

  /** For every schedule of writes of any length: the monitor reports no error, its
      open ids are pending in the driver, its items are issued writes cut down to their
      last beat, each at most once, and every issued write that is no longer pending
      has been reported.  An item is the issued write itself exactly when its payload
      fits on the bus. */
  lemma MonitorSeesEveryWrite(s: System, edges: seq<Edge>)
    requires Start(s) && AllAllowed(s, edges)
    ensures var t := Run(s, edges);
      && t.monitor.errors == 0 && t.monitor.xfers.Keys <= t.pending.Keys && t.width == s.width
      && |t.trail| == |t.monitor.items| == |t.issued| - |t.pending|
      && (forall j, k | 0 <= j < k < |t.trail| :: t.trail[j].issue != t.trail[k].issue)
      && forall k | 0 <= k < |t.trail| ::
        && t.trail[k].issue < |t.issued|
        && var wrote, seen := t.issued[t.trail[k].issue], t.monitor.items[k];
        && seen == Report(Shown(wrote, s.width), t.trail[k].bresp)
        && (seen.item == wrote <==> |wrote.data| <= s.width)
  {
    hide Run, Shown;
    assert Inv(s);
    RunKeepsInv(s, edges);
    var t := Run(s, edges);
    forall k | 0 <= k < |t.trail| && t.trail[k].issue < |t.issued|
      ensures var wrote := t.issued[t.trail[k].issue]; Shown(wrote, s.width) == wrote <==> |wrote.data| <= s.width
    {
      ShownWhole(t.issued[t.trail[k].issue], s.width);
    }
  }

  lemma ShownWhole(item: Item, width: nat)
    requires width > 0
    ensures Shown(item, width) == item <==> |item.data| <= width
  {
    LastBeatIsAll(item.data, width);
  }

  /** A new write never takes an id that is still pending, and no pending transfer
      is touched except the one being answered. */
  lemma IdsAreNotReused(s: System, e: Edge)
    requires Inv(s) && Allowed(s, e)
    ensures var t := Clock(s, e);
      forall id | id in s.pending && (e.response.Answer? ==> e.response.id != id) ::
        id in t.pending && t.pending[id] == s.pending[id]
  {
    hide Watch, BeatBus, LastBeat, Inv, FirstFree, Left, Finished, Completed;
  }

  // ----- a payload of two beats ----------------------------------------------------------------------

  const IDLE_EDGE := Edge(true, true, NoResponse, NoRequest, true)
  const LONG := Item(0, [1, 2])
  const LONG_RUN := [IDLE_EDGE.(request := Issue(LONG)), IDLE_EDGE, IDLE_EDGE, IDLE_EDGE,
                     IDLE_EDGE.(response := Answer(0, 0))]

  /** Two bytes on a bus with one lane: only the second one is reported. */
  lemma FirstBeatLost(s: System)
    requires Start(s) && s.ids == s.width == 1
    ensures AllAllowed(s, LONG_RUN)
    ensures var t := Run(s, LONG_RUN); t.issued == [LONG] && t.monitor.items == [Report(Item(0, [2]), 0)]
  {
    hide Clock, Inv, Act, Allowed, Sent, Issued, Answered, Run, AllAllowed, Answers;
    StartInv(s);
    var s1 := Issued(s, LONG, 0);
    FirstOfOne(s, LONG_RUN[0]);
    Acts(s, LONG_RUN[0], s1);
    var s2 := Sent(s1, 0, [], LONG.data);
    ActSends(s1);
    Acts(s1, IDLE_EDGE, s2);
    SentParts(s1, 0, [], LONG.data);
    var s3 := Sent(s2, 0, [1], [2]);
    ActSends(s2);
    Acts(s2, IDLE_EDGE, s3);
    SentParts(s2, 0, [1], [2]);
    var s4 := Sent(s3, 0, [2], []);
    ActSends(s3);
    Acts(s3, IDLE_EDGE, s4);
    SentParts(s3, 0, [2], []);
    LastAnswer(s4, LONG_RUN[4]);
    FiveEdges(s, s1, s2, s3, s4);
  }

  lemma SentParts(s: System, id: nat, data: seq<Byte>, rest: seq<Byte>)
    requires id in s.pending
    ensures var t := Sent(s, id, data, rest);
      && t.width == s.width && t.issued == s.issued && t.pending == s.pending
      && t.monitor.items == s.monitor.items && t.trail == s.trail && t.ids == s.ids
      && t.driver == (if rest == [] then Idle else SendingData(id, rest)) && (rest == [] ==> id in t.answers)
      && id in t.monitor.xfers && t.monitor.xfers[id] == Item(s.pending[id].item.addr, data)
  {
  }

  lemma LastAnswer(s: System, e: Edge)
    requires Inv(s) && e == LONG_RUN[4] && 0 in s.answers && s.driver.Idle?
    ensures 0 in s.monitor.xfers && Clock(s, e).issued == s.issued
    ensures Clock(s, e).monitor.items == s.monitor.items + [Report(s.monitor.xfers[0], 0)]
  {
    hide Inv, Clock;
    ClockAnswers(s, e);
    assert Answers(s, e);
    ActIdle(Answered(s, 0, 0), e);
  }

  lemma StartInv(s: System)
    requires Start(s)
    ensures Inv(s)
  {
  }

  lemma Acts(s: System, e: Edge, t: System)
    requires Inv(s) && e.response.NoResponse? && Act(s, e) == t
    ensures Clock(s, e) == t && Inv(t)
  {
    ClockActs(s, e);
    ActKeepsInv(s, e);
  }

  lemma FirstOfOne(s: System, e: Edge)
    requires s.driver.Idle? && s.pending == map[] && s.ids == 1 && e.request.Issue?
    ensures var t := Issued(s, e.request.item, 0);
      && Act(s, e) == t && t.width == s.width && t.driver == SendingAddress(0)
      && t.issued == s.issued + [e.request.item] && t.monitor == s.monitor
      && 0 in t.pending && t.pending[0].item == e.request.item
  {
  }

  lemma ActSends(s: System)
    requires s.width == 1 && 0 in s.pending
    ensures s.driver == SendingAddress(0) ==> Act(s, IDLE_EDGE) == Sent(s, 0, [], s.pending[0].item.data)
    ensures s.driver == SendingData(0, [1, 2]) ==> Act(s, IDLE_EDGE) == Sent(s, 0, [1], [2])
    ensures s.driver == SendingData(0, [2]) ==> Act(s, IDLE_EDGE) == Sent(s, 0, [2], [])
  {
    hide Sent;
    assert Beat([1, 2], 1) == [1] && Left([1, 2], 1) == [2] && Beat([2], 1) == [2] && Left([2], 1) == [];
  }

  lemma ActIdle(s: System, e: Edge)
    requires s.driver.Idle? && e.request.NoRequest?
    ensures Act(s, e) == s
  {
  }

  lemma FiveEdges(s: System, s1: System, s2: System, s3: System, s4: System)
    requires s1 == Clock(s, LONG_RUN[0]) && s2 == Clock(s1, LONG_RUN[1]) && s3 == Clock(s2, LONG_RUN[2])
    requires s4 == Clock(s3, LONG_RUN[3]) && 0 in s4.answers
    ensures Run(s, LONG_RUN) == Clock(s4, LONG_RUN[4]) && AllAllowed(s, LONG_RUN)
  {
    hide Clock;
    var r := LONG_RUN;
    assert r[1..][1..] == r[2..] && r[2..][1..] == r[3..] && r[3..][1..] == r[4..] && r[4..][1..] == [];
    var s5 := Clock(s4, r[4]);
    assert Run(s4, r[4..]) == s5 && AllAllowed(s4, r[4..]);
    assert Run(s3, r[3..]) == s5 && AllAllowed(s3, r[3..]);
    assert Run(s2, r[2..]) == s5 && AllAllowed(s2, r[2..]);
    assert Run(s1, r[1..]) == s5 && AllAllowed(s1, r[1..]);
  }

  // ----- what the driver does on an edge -----------------------------------------------------------------

  /** The ids that are taken when a new write looks for one. */
  function Taken(s: System, e: Edge): set<nat> {
    if e.freeFirst && e.response.Answer? then s.pending.Keys - {e.response.id} else s.pending.Keys
  }

  /** An idle driver with a request issues it under the lowest free id, whatever else is
      pending, and drives its address; without a free id it issues nothing. */
  lemma RequestIssued(s: System, e: Edge)
    requires Inv(s) && Allowed(s, e) && s.driver.Idle? && e.request.Issue?
    ensures var t, item := Clock(s, e), e.request.item;
      if exists id :: 0 <= id < s.ids && id !in Taken(s, e) then
        && t.issued == s.issued + [item] && t.driver.SendingAddress?
        && var id := t.driver.id;
        && id < s.ids && id !in Taken(s, e) && (forall j | 0 <= j < id :: j in Taken(s, e))
        && id in t.pending && t.pending[id] == Transfer(|s.issued|, item)
        && t.bus.awvalid && t.bus.awid == id && t.bus.awaddr == item.addr && !t.bus.wvalid
      else t.issued == s.issued && t.driver == Idle
  {
    hide Watch, BeatBus, PendingOk, TrailOk, Completed, Shown;
    var p := if e.freeFirst && e.response.Answer? then s.pending - {e.response.id} else s.pending;
    var id := FirstFree(p, s.ids, 0);
    assert p.Keys == Taken(s, e);
    if id < s.ids {
      assert id !in Taken(s, e);
    } else {
      assert forall j | 0 <= j < s.ids :: j in Taken(s, e);
    }
  }

  /** Once its address is accepted a write sends its payload from the first byte. */
  lemma DataStarts(s: System, e: Edge)
    requires Inv(s) && Allowed(s, e) && s.driver.SendingAddress? && e.awready
    ensures s.driver.id in s.pending
    ensures var data := s.pending[s.driver.id].item.data;
      Clock(s, e).driver == if data == [] then Idle else SendingData(s.driver.id, data)
  {
    hide Watch, BeatBus, PendingOk, TrailOk, Completed, Finished, FirstFree;
  }

  /** The bytes of the beats that are accepted during a run. */
  function Accepted(s: System, edges: seq<Edge>): seq<seq<Byte>>
    decreases |edges|
  {
    if edges == [] then []
    else
      (if s.bus.wvalid && edges[0].wready then [Collected(s.bus.wdata, s.bus.wstrb, s.width)] else [])
      + Accepted(Clock(s, edges[0]), edges[1..])
  }

  /** From here on, up to the last edge, the write is sending its data. */
  ghost predicate SendingTo(s: System, edges: seq<Edge>)
    decreases |edges|
  {
    if edges == [] then s.driver.Idle?
    else s.driver.SendingData? && SendingTo(Clock(s, edges[0]), edges[1..])
  }

  /** A run from the first beat to the end of a write puts exactly the beats of the
      payload on the bus, in order. */
  lemma {:induction false} AllBeatsSent(s: System, edges: seq<Edge>)
    requires Inv(s) && AllAllowed(s, edges) && s.driver.SendingData? && SendingTo(s, edges)
    ensures s.width > 0 && Accepted(s, edges) == Beats(s.driver.rest, s.width)
    decreases |edges|
  {
    hide Clock, Inv, Collected, Beats, Beat, BeatBus;
    assert s.width > 0 && s.bus == BeatBus(s.driver.rest, s.width) && s.driver.rest != [] by { OnBus(s); }
    var e, rest, t := edges[0], s.driver.rest, Clock(s, edges[0]);
    ClockKeepsInv(s, e);
    BeatTaken(s, e);
    BeatSeen(rest, s.width);
    BeatValid(rest, s.width);
    BeatsNext(rest, s.width);
    NoBeats(s.width);
    if t.driver.SendingData? {
      AllBeatsSent(t, edges[1..]);
    } else {
      assert edges[1..] == [];
    }
  }

  lemma OnBus(s: System)
    requires Inv(s) && s.driver.SendingData?
    ensures s.width > 0 && s.bus == BeatBus(s.driver.rest, s.width) && s.driver.rest != []
  {
  }

  lemma BeatTaken(s: System, e: Edge)
    requires Inv(s) && Allowed(s, e) && s.driver.SendingData?
    ensures var rest := s.driver.rest[Min(s.width, |s.driver.rest|)..];
      Clock(s, e).driver == if !e.wready then s.driver else if rest == [] then Idle else SendingData(s.driver.id, rest)
  {
    hide Watch, BeatBus, PendingOk, MonitorOk, TrailOk, Completed, Finished, FirstFree;
  }

  // ----- overlapping writes -----------------------------------------------------------------------------------

  const SHORT := Item(0, [1])
  const TWO_RUN := [IDLE_EDGE.(request := Issue(SHORT)), IDLE_EDGE, IDLE_EDGE, IDLE_EDGE.(request := Issue(SHORT))]

  /** Two writes pending at once: the second one is issued before the first is answered. */
  lemma TwoPending(s: System)
    requires Start(s) && s.ids == 2 && s.width == 1
    ensures AllAllowed(s, TWO_RUN) && Run(s, TWO_RUN).pending.Keys == {0, 1}
  {
    hide Clock, Inv, Act, Sent, Issued, Run, AllAllowed;
    StartInv(s);
    var s1 := Issued(s, SHORT, 0);
    FirstOf(s, TWO_RUN[0], 0);
    Acts(s, TWO_RUN[0], s1);
    var s2 := Sent(s1, 0, [], SHORT.data);
    SendsShort(s1);
    Acts(s1, IDLE_EDGE, s2);
    SentParts(s1, 0, [], SHORT.data);
    var s3 := Sent(s2, 0, [1], []);
    SendsShort(s2);
    Acts(s2, IDLE_EDGE, s3);
    SentParts(s2, 0, [1], []);
    FirstOf(s3, TWO_RUN[3], 1);
    Acts(s3, TWO_RUN[3], Issued(s3, SHORT, 1));
    FourEdges(s, s1, s2, s3);
  }

  lemma FirstOf(s: System, e: Edge, id: nat)
    requires s.driver.Idle? && e.request.Issue? && id < s.ids && id !in s.pending
    requires forall j | 0 <= j < id :: j in s.pending
    ensures var t := Issued(s, e.request.item, id);
      && Act(s, e) == t && t.width == s.width && t.ids == s.ids && t.driver == SendingAddress(id)
      && t.pending == s.pending[id := Transfer(|s.issued|, e.request.item)]
  {
    hide FirstFree;
    assert FirstFree(s.pending, s.ids, 0) == id;
  }

  lemma SendsShort(s: System)
    requires s.width == 1 && 0 in s.pending
    ensures s.driver == SendingAddress(0) ==> Act(s, IDLE_EDGE) == Sent(s, 0, [], s.pending[0].item.data)
    ensures s.driver == SendingData(0, [1]) ==> Act(s, IDLE_EDGE) == Sent(s, 0, [1], [])
  {
    hide Sent;
    assert Beat([1], 1) == [1] && Left([1], 1) == [];
  }

  lemma FourEdges(s: System, s1: System, s2: System, s3: System)
    requires s1 == Clock(s, TWO_RUN[0]) && s2 == Clock(s1, TWO_RUN[1]) && s3 == Clock(s2, TWO_RUN[2])
    ensures Run(s, TWO_RUN) == Clock(s3, TWO_RUN[3]) && AllAllowed(s, TWO_RUN)
  {
    hide Clock;
    var r := TWO_RUN;
    assert r[1..][1..] == r[2..] && r[2..][1..] == r[3..] && r[3..][1..] == [];
    var s4 := Clock(s3, r[3]);
    assert Run(s3, r[3..]) == s4 && AllAllowed(s3, r[3..]);
    assert Run(s2, r[2..]) == s4 && AllAllowed(s2, r[2..]);
    assert Run(s1, r[1..]) == s4 && AllAllowed(s1, r[1..]);
  }
}
