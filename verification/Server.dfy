/** The SSE server task (src/builtin_sse_server/sse_server.c) as a step relation: one atomic step
    per access to state that other tasks share, interleaved with every step of the other tasks. */
module Server {
  import opened Prelude
  import opened MessageBuffers
  import opened Registry
  import opened EventStream
  import H = Hub
  import K = Keepalive
  import S = SocketSend

  const INVALID_SOCK: int := -1

  /** `stall` is what a send that would block adds to the bytes still to write (1 in the code, 0 in
      its comment), `maxRuns` how often the server may be started between init and deinit. */
  datatype Config = Config(
    maxLength: nat, bufferSize: nat, period: nat, clients: nat, stall: nat, maxRuns: nat)

  /** A frame that went to a client, and the tick of the poll that sent it: the log line at a
      position, or a keepalive. */
  datatype Sent = LogLine(pos: nat, tick: nat) | KeepAlive(tick: nat)

  datatype Flight = Flight(frame: Sent, transfer: S.Transfer)

  /** One entry of the client table. `polls`, `done`, `wire`, `stalls` and `flight` record what
      happened on the connection since its buffer was created: how often it was served, the frames
      sent whole, the bytes the socket took in for them, how many sends would have blocked, and the
      frame under way. */
  datatype Client = Client(
    sock: int, buffer: Handle, lastActivity: nat, polls: seq<K.Poll>,
    done: seq<Sent>, wire: string, stalls: nat, flight: Option<Flight>)

  const ZEROED: Client := Client(0, NULL, 0, [], [], "", 0, None)

  datatype Control = Control(alive: bool, taskRun: bool, stopped: bool, net: bool, runs: nat, stopOk: bool)

  /** Where cleanup_client returns to. */
  datatype Return = ToServe | ToTeardown

  datatype Pc =
    | Idle | Outer | Reset | Setup | ClearNet | Inner | Accept
    | Serve(i: nat) | Creating(i: nat) | Registering(i: nat) | Sending(i: nat, now: nat)
    | Closing(i: nat, ret: Return) | Unregistering(i: nat, ret: Return) | Deleting(i: nat, ret: Return)
    | CheckNet | Teardown(i: nat) | Finish

  /** Client sockets accepted and closed, client buffers created and deleted. */
  datatype Counts = Counts(connected: nat, closed: nat, created: nat, deleted: nat)

  /** `lost`: the table was overwritten while it held something. `dangling`: the task used the server
      structure after it was freed. `overlap`: the server was started, or its structure set up anew,
      while the task of an earlier start was alive; from then on two tasks work on one table, and the
      place in the program is that of the one started last. */
  datatype Flags = Flags(lost: bool, dangling: bool, overlap: bool)

  /** `socks` are the open client sockets, `gen` counts listeners and `accepts` calls of accept. */
  datatype State = State(
    hub: H.Hub, ctl: Control, clients: seq<Client>, socks: set<int>,
    pc: Pc, startCount: nat, gen: nat, accepts: nat, count: Counts, flags: Flags)

  datatype Acceptance = NoConnection | AcceptError | Connection(fd: int, nonblocking: bool)

  /** `PeerClosed` is a recv() of 0 bytes, which try_receive reports like no data. */
  datatype Request = NoData | PeerClosed | ReceiveError | Page(sentOk: bool) | Subscribe

  /** The outcomes of the calls the server makes into the system. */
  datatype Move =
    | Go
    | SetupDone(ok: bool)
    | Accepted(outcome: Acceptance)
    | Requested(request: Request)
    | Polled(now: nat)
    | Allocated(h: Handle)
    | Sends(result: S.Result)

  datatype Command = Init(ok: bool) | Start(ok: bool) | NetChanged | Stop | WaitOk | Deinit

  datatype Act = Other(x: H.Event) | Api(c: Command) | Task(m: Move)

  // ---------------------------------------------------------------- the server task

  function FrameBytes(cfg: Config, log: seq<string>, f: Sent): string {
    match f
    case LogLine(pos, _) => LogFrame(cfg.maxLength, Message(log, pos))
    case KeepAlive(tick) => KeepaliveFrame(cfg.maxLength, tick)
  }

  function FirstFree(clients: seq<Client>): (i: nat)
    ensures i <= |clients|
    ensures i < |clients| ==> clients[i].sock == INVALID_SOCK
    ensures forall j :: 0 <= j < i ==> clients[j].sock != INVALID_SOCK
  {
    if clients == [] || clients[0].sock == INVALID_SOCK then 0 else 1 + FirstFree(clients[1..])
  }

  function ResetTable(clients: seq<Client>): seq<Client> {
    seq(|clients|, i requires 0 <= i < |clients| => clients[i].(sock := INVALID_SOCK, buffer := NULL))
  }

  ghost predicate HoldsSomething(s: State) {
    s.socks != {} || exists c :: c in s.clients && c.buffer != NULL
  }

  function Continue(i: nat, ret: Return): Pc {
    match ret
    case ToServe => Serve(i + 1)
    case ToTeardown => Teardown(i + 1)
  }

  ghost function StepReset(s: State): State {
    s.(clients := ResetTable(s.clients), startCount := s.startCount + 1, pc := Setup,
       flags := s.flags.(lost := s.flags.lost || HoldsSomething(s)))
  }

  ghost function StepAccept(s: State, m: Move): State {
    var j := FirstFree(s.clients);
    if j == |s.clients| then s.(pc := Serve(0))
    else if !m.Accepted? then s
    else
      match m.outcome
      case NoConnection => s.(pc := Serve(0), accepts := s.accepts + 1)
      case AcceptError => s.(pc := Teardown(0), accepts := s.accepts + 1)
      case Connection(fd, nonblocking) =>
        if fd < 0 || fd in s.socks then s
        else
          s.(clients := s.clients[j := s.clients[j].(sock := fd)], socks := s.socks + {fd},
             accepts := s.accepts + 1, count := s.count.(connected := s.count.connected + 1), pc := if nonblocking then Serve(0) else Teardown(0))
  }

  /** serve_client before the subscription: read a request and answer it. */
  ghost function StepRequest(s: State, i: nat, m: Move): State {
    if !m.Requested? then s
    else
      match m.request
      case NoData => s.(pc := Serve(i + 1))
      case PeerClosed => s.(pc := Serve(i + 1))
      case ReceiveError => s.(pc := Closing(i, ToServe))
      case Page(sentOk) => s.(pc := if sentOk then Serve(i + 1) else Closing(i, ToServe))
      case Subscribe => s.(pc := Creating(i))
  }

  /** The record of a connection that is served at tick `now`. */
  function Served(c: Client, now: nat, message: bool): Client {
    c.(polls := c.polls + [K.Poll(now, message)])
  }

  ghost function BeginFlight(cfg: Config, s: State, i: nat, hub: H.Hub, f: Sent): State
    requires i < |s.clients|
  {
    var flight := Flight(f, S.Begin(FrameBytes(cfg, hub.log, f)));
    var c := Served(s.clients[i], f.tick, f.LogLine?);
    s.(hub := hub, clients := s.clients[i := c.(flight := Some(flight))], pc := Sending(i, f.tick))
  }

  /** serve_client after the subscription: the next message, or a keepalive when one is due. */
  ghost function StepPoll(cfg: Config, s: State, i: nat, m: Move): State
    requires i < |s.clients|
  {
    var c := s.clients[i];
    if !m.Polled? || m.now >= K.WRAP then s
    else if c.buffer !in s.hub.bufs then s.(hub := s.hub.(fault := true))
    else
      match Ready(s.hub.bufs[c.buffer], s.hub.log, cfg.maxLength)
      case Some(pos) =>
        BeginFlight(cfg, s, i, H.ReceiveBuffer(s.hub, c.buffer, cfg.maxLength), LogLine(pos, m.now))
      case None =>
        if K.Due(m.now, c.lastActivity, cfg.period) then BeginFlight(cfg, s, i, s.hub, KeepAlive(m.now))
        else s.(clients := s.clients[i := Served(c, m.now, false)], pc := Serve(i + 1))
  }

  ghost function StepServe(cfg: Config, s: State, i: nat, m: Move): State {
    if i >= |s.clients| then s.(pc := CheckNet)
    else if s.clients[i].sock == INVALID_SOCK then s.(pc := Serve(i + 1))
    else if s.clients[i].buffer == NULL then StepRequest(s, i, m)
    else StepPoll(cfg, s, i, m)
  }

  ghost function StepCreate(cfg: Config, s: State, i: nat, m: Move): State
    requires i < |s.clients|
  {
    if !m.Allocated? || m.h in s.hub.bufs then s
    else if m.h == NULL then s.(pc := Closing(i, ToServe))
    else
      s.(hub := H.CreateBuffer(s.hub, m.h, cfg.bufferSize),
         clients := s.clients[i := s.clients[i].(buffer := m.h, polls := [], done := [], wire := "", stalls := 0, flight := None)],
         count := s.count.(created := s.count.created + 1), pc := Registering(i))
  }

  ghost function StepRegister(s: State, i: nat): State
    requires i < |s.clients|
  {
    var h := s.clients[i].buffer;
    if s.hub.lock != None then s
    else if Insert(s.hub.slots, h).0 == OK then
      s.(hub := H.RegisterBuffer(s.hub, h),
         clients := s.clients[i := s.clients[i].(lastActivity := 0)], pc := Serve(i + 1))
    else s.(hub := H.RegisterBuffer(s.hub, h), pc := Closing(i, ToServe))
  }

  /** One turn of socket_send, and the bookkeeping behind its end. */
  ghost function StepSending(cfg: Config, s: State, i: nat, now: nat, m: Move): State
    requires i < |s.clients|
  {
    var c := s.clients[i];
    if c.flight == None then s
    else
      var f := c.flight.value;
      if f.transfer.failed then s.(pc := Closing(i, ToServe))
      else if f.transfer.toWrite <= 0 then
        s.(clients := s.clients[i := c.(done := c.done + [f.frame], wire := c.wire + f.transfer.sent,
             stalls := c.stalls + f.transfer.blocks, flight := None, lastActivity := now)],
           pc := Serve(i + 1))
      else if !m.Sends? then s
      else
        s.(clients := s.clients[i := c.(flight := Some(f.(transfer := S.Progress(f.transfer, m.result, cfg.stall))))])
  }

  ghost function StepClose(s: State, i: nat, ret: Return): State
    requires i < |s.clients|
  {
    var c := s.clients[i];
    s.(socks := s.socks - {c.sock}, clients := s.clients[i := c.(sock := INVALID_SOCK)],
       count := if c.sock != INVALID_SOCK then s.count.(closed := s.count.closed + 1) else s.count, pc := Unregistering(i, ret))
  }

  ghost function StepUnregister(s: State, i: nat, ret: Return): State
    requires i < |s.clients|
  {
    var h := s.clients[i].buffer;
    if h == NULL then s.(pc := Continue(i, ret))
    else if s.hub.lock != None then s
    else s.(hub := H.UnregisterBuffer(s.hub, h), pc := Deleting(i, ret))
  }

  ghost function StepDelete(s: State, i: nat, ret: Return): State
    requires i < |s.clients|
  {
    s.(hub := H.DeleteBuffer(s.hub, s.clients[i].buffer),
       clients := s.clients[i := s.clients[i].(buffer := NULL)],
       count := s.count.(deleted := s.count.deleted + 1), pc := Continue(i, ret))
  }

  ghost function TaskStep(cfg: Config, s: State, m: Move): State {
    if s.pc == Idle then s
    else if !s.ctl.alive then s.(flags := s.flags.(dangling := true))
    else
      match s.pc
      case Idle => s
      case Outer => s.(pc := if s.ctl.taskRun then Reset else Finish)
      case Reset => StepReset(s)
      case Setup =>
        if !m.SetupDone? then s else if m.ok then s.(gen := s.gen + 1, pc := ClearNet) else s.(pc := Outer)
      case ClearNet => s.(ctl := s.ctl.(net := false), pc := Inner)
      case Inner => s.(pc := if s.ctl.taskRun then Accept else Teardown(0))
      case Accept => StepAccept(s, m)
      case Serve(i) => StepServe(cfg, s, i, m)
      case Creating(i) => if i < |s.clients| then StepCreate(cfg, s, i, m) else s
      case Registering(i) => if i < |s.clients| then StepRegister(s, i) else s
      case Sending(i, now) => if i < |s.clients| then StepSending(cfg, s, i, now, m) else s
      case Closing(i, ret) => if i < |s.clients| then StepClose(s, i, ret) else s
      case Unregistering(i, ret) => if i < |s.clients| then StepUnregister(s, i, ret) else s
      case Deleting(i, ret) => if i < |s.clients| then StepDelete(s, i, ret) else s
      case CheckNet => if s.ctl.net then s.(ctl := s.ctl.(net := false), pc := Teardown(0)) else s.(pc := Inner)
      case Teardown(i) => s.(pc := if i < |s.clients| then Closing(i, ToTeardown) else Outer)
      case Finish => s.(ctl := s.ctl.(stopped := true), pc := Idle)
  }

  // ---------------------------------------------------------------- the interface

  /** init, run, the network handler, stop, the wait inside it when it succeeds, and deinit. The
      caller initialises only after a deinit, and frees the server only if it was never started or
      its last stop succeeded; both are things a caller knows. Nothing keeps it from starting a
      server whose task is alive. */
  ghost function ApiStep(cfg: Config, s: State, c: Command): State {
    match c
    case Init(ok) =>
      if s.ctl.alive || !ok then s
      else
        s.(ctl := Control(true, false, false, false, 0, false), clients := seq(cfg.clients, _ => ZEROED),
           flags := s.flags.(lost := s.flags.lost || HoldsSomething(s), overlap := s.flags.overlap || s.pc != Idle))
    case Start(ok) =>
      if !s.ctl.alive || s.ctl.runs >= cfg.maxRuns then s
      else
        var t := s.(startCount := 0, flags := s.flags.(overlap := s.flags.overlap || s.pc != Idle));
        if !ok then t.(ctl := s.ctl.(taskRun := false))
        else t.(ctl := s.ctl.(taskRun := true, runs := s.ctl.runs + 1, stopOk := false), pc := Outer)
    case NetChanged => s.(ctl := s.ctl.(net := s.ctl.net || s.ctl.alive))
    case Stop => if s.ctl.alive then s.(ctl := s.ctl.(taskRun := false)) else s
    case WaitOk => if s.ctl.alive && s.ctl.stopped then s.(ctl := s.ctl.(stopOk := true)) else s
    case Deinit =>
      if s.ctl.alive && (s.ctl.stopOk || s.ctl.runs == 0) then s.(ctl := s.ctl.(alive := false)) else s
  }

  ghost function Step(cfg: Config, s: State, e: Act): State {
    match e
    case Other(x) => s.(hub := H.Step(s.hub, x))
    case Api(c) => ApiStep(cfg, s, c)
    case Task(m) => TaskStep(cfg, s, m)
  }

  ghost function Run(cfg: Config, s: State, es: seq<Act>): State
    decreases |es|
  {
    if es == [] then s else Step(cfg, Run(cfg, s, es[..|es| - 1]), es[|es| - 1])
  }

  /** Before the first init: nothing is registered, allocated or running. */
  function Boot(cfg: Config): State {
    State(H.EMPTY, Control(false, false, false, false, 0, false), seq(cfg.clients, _ => ZEROED), {},
          Idle, 0, 0, 0, Counts(0, 0, 0, 0), Flags(false, false, false))
  }
}
