/** What every step of the whole system keeps. */
module ServerInvariant {
  import opened Prelude
  import opened MessageBuffers
  import opened Registry
  import opened EventStream
  import opened Server
  import H = Hub
  import K = Keepalive
  import S = SocketSend

  // ---------------------------------------------------------------- the client table

  ghost function Held(clients: seq<Client>): set<Handle> {
    set c | c in clients && c.buffer != NULL :: c.buffer
  }

  ghost function OpenSocks(clients: seq<Client>): set<int> {
    set c | c in clients && c.sock != INVALID_SOCK :: c.sock
  }

  ghost predicate DistinctBuffers(clients: seq<Client>) {
    forall i, j :: 0 <= i < j < |clients| && clients[i].buffer != NULL ==> clients[i].buffer != clients[j].buffer
  }

  ghost predicate DistinctSocks(clients: seq<Client>) {
    forall i, j :: 0 <= i < j < |clients| && clients[i].sock != INVALID_SOCK ==> clients[i].sock != clients[j].sock
  }

  function Single<T(==)>(x: T, skip: T): set<T> {
    if x == skip then {} else {x}
  }

  lemma HeldUpdate(clients: seq<Client>, i: nat, c: Client)
    requires i < |clients| && DistinctBuffers(clients)
    ensures Held(clients[i := c]) == Held(clients) - {clients[i].buffer} + Single(c.buffer, NULL)
    ensures clients[i].buffer != NULL ==> clients[i].buffer in Held(clients)
  {
    var clients' := clients[i := c];
    assert clients[i] in clients;
    assert clients'[i] in clients';
    forall k | 0 <= k < |clients| && k != i
      ensures clients[k] in clients && clients[k] in clients'
      ensures clients[k].buffer != NULL ==> clients[k].buffer != clients[i].buffer
    {
      assert clients'[k] == clients[k];
    }
  }

  lemma OpenSocksUpdate(clients: seq<Client>, i: nat, c: Client)
    requires i < |clients| && DistinctSocks(clients)
    ensures OpenSocks(clients[i := c]) == OpenSocks(clients) - {clients[i].sock} + Single(c.sock, INVALID_SOCK)
  {
    var clients' := clients[i := c];
    assert clients[i] in clients;
    assert clients'[i] in clients';
    forall k | 0 <= k < |clients| && k != i
      ensures clients[k] in clients && clients[k] in clients'
      ensures clients[k].sock != INVALID_SOCK ==> clients[k].sock != clients[i].sock
    {
      assert clients'[k] == clients[k];
    }
  }

  lemma NoneHeld(clients: seq<Client>)
    requires forall i :: 0 <= i < |clients| ==> clients[i].buffer == NULL
    ensures Held(clients) == {} && DistinctBuffers(clients)
  {
  }

  // ---------------------------------------------------------------- one connection

  /** The log lines among the frames, in order. */
  function Positions(done: seq<Sent>): seq<nat> {
    if done == [] then []
    else Positions(done[..|done| - 1]) + PositionOf(done[|done| - 1])
  }

  function PositionOf(f: Sent): seq<nat> {
    match f
    case LogLine(pos, _) => [pos]
    case KeepAlive(_) => []
  }

  function InFlight(flight: Option<Flight>): seq<nat> {
    match flight
    case None => []
    case Some(f) => PositionOf(f.frame)
  }

  lemma OneMoreSent(done: seq<Sent>, f: Sent)
    ensures Positions(done + [f]) == Positions(done) + PositionOf(f)
  {
    assert (done + [f])[..|done|] == done;
  }

  function Bytes(cfg: Config, log: seq<string>, done: seq<Sent>): string {
    if done == [] then "" else Bytes(cfg, log, done[..|done| - 1]) + FrameBytes(cfg, log, done[|done| - 1])
  }

  ghost predicate FrameOk(cfg: Config, log: seq<string>, f: Sent) {
    match f
    case LogLine(pos, tick) => pos < |log| && |log[pos]| <= cfg.maxLength && tick < K.WRAP
    case KeepAlive(tick) => tick < K.WRAP
  }

  /** No send on this connection has moved the read position back. */
  ghost predicate Undisturbed(cfg: Config, c: Client) {
    cfg.stall == 0 || c.stalls == 0
  }

  ghost predicate FlightOk(cfg: Config, log: seq<string>, f: Flight) {
    && FrameOk(cfg, log, f.frame)
    && f.transfer.data == FrameBytes(cfg, log, f.frame)
    && S.Accounted(f.transfer, cfg.stall)
  }

  /** What the reader took out of its buffer is what it sent whole, and the line under way; the
      bytes the socket took in for whole frames are those frames, and for each send that would have
      blocked the stall more. */
  ghost predicate WireOk(cfg: Config, hub: H.Hub, c: Client) {
    && c.buffer in hub.bufs
    && hub.bufs[c.buffer].received == Positions(c.done) + InFlight(c.flight)
    && (forall f :: f in c.done ==> FrameOk(cfg, hub.log, f))
    && |c.wire| == |Bytes(cfg, hub.log, c.done)| + cfg.stall * c.stalls
    && (Undisturbed(cfg, c) ==> c.wire == Bytes(cfg, hub.log, c.done))
    && (c.flight.Some? ==> FlightOk(cfg, hub.log, c.flight.value))
  }

  lemma {:induction false} BytesKept(cfg: Config, log: seq<string>, log': seq<string>, done: seq<Sent>)
    requires log <= log' && forall f :: f in done ==> FrameOk(cfg, log, f)
    ensures Bytes(cfg, log', done) == Bytes(cfg, log, done)
    decreases |done|
  {
    if done == [] {
    } else {
      assert done[|done| - 1] in done;
      BytesKept(cfg, log, log', done[..|done| - 1]);
    }
  }

  lemma WireKept(cfg: Config, hub: H.Hub, hub': H.Hub, c: Client)
    requires WireOk(cfg, hub, c) && hub.log <= hub'.log
    requires c.buffer in hub'.bufs && hub'.bufs[c.buffer].received == hub.bufs[c.buffer].received
    ensures WireOk(cfg, hub', c)
  {
    hide LogFrame, KeepaliveFrame, S.Accounted, Bytes, Positions;
    BytesKept(cfg, hub.log, hub'.log, c.done);
    if c.flight.Some? && c.flight.value.frame.LogLine? {
      var pos := c.flight.value.frame.pos;
      assert Message(hub'.log, pos) == Message(hub.log, pos);
    }
  }

  // ---------------------------------------------------------------- where the task stands

  function Busy(pc: Pc): Option<nat> {
    match pc
    case Creating(i) => Some(i)
    case Registering(i) => Some(i)
    case Sending(i, _) => Some(i)
    case Closing(i, _) => Some(i)
    case Unregistering(i, _) => Some(i)
    case Deleting(i, _) => Some(i)
    case _ => None
  }

  /** Clients below this index are closed: cleaned up in this teardown, or not yet in use. */
  function ClosedBelow(pc: Pc, n: nat): nat {
    match pc
    case Setup => n
    case ClearNet => n
    case Teardown(i) => i
    case Closing(i, ToTeardown) => i
    case Unregistering(i, ToTeardown) => i
    case Deleting(i, ToTeardown) => i
    case _ => 0
  }

  /** Where the table must hold nothing, although it may still have to be initialised. */
  predicate AtRest(pc: Pc) {
    pc == Idle || pc == Outer || pc == Reset || pc == Finish
  }

  /** The client the task is working on; only here may a buffer exist without being registered. */
  ghost predicate BusyOk(hub: H.Hub, pc: Pc, c: Client) {
    match pc
    case Creating(_) => c.sock != INVALID_SOCK && c.buffer == NULL
    case Registering(_) =>
      c.sock != INVALID_SOCK && c.buffer in hub.bufs && hub.bufs[c.buffer].since == None && c.flight == None
    case Sending(_, _) => c.sock != INVALID_SOCK && c.buffer in hub.slots && c.buffer != NULL && c.flight != None
    case Unregistering(_, _) => c.sock == INVALID_SOCK
    case Deleting(_, _) => c.sock == INVALID_SOCK && c.buffer in hub.bufs && c.buffer !in hub.slots
    case _ => true
  }

  /** Every other client: a buffer is registered and belongs to an open socket with nothing under way. */
  ghost predicate Settled(hub: H.Hub, c: Client) {
    c.buffer != NULL ==> c.sock != INVALID_SOCK && c.buffer in hub.slots && c.flight == None
  }

  ghost predicate ClientOk(cfg: Config, hub: H.Hub, pc: Pc, i: nat, c: Client) {
    && (c.buffer != NULL ==> WireOk(cfg, hub, c))
    && (if Busy(pc) == Some(i) then BusyOk(hub, pc, c) else Settled(hub, c))
    && (i < ClosedBelow(pc, cfg.clients) ==> c.buffer == NULL && c.sock == INVALID_SOCK)
  }

  ghost predicate ClientsOk(cfg: Config, hub: H.Hub, pc: Pc, clients: seq<Client>) {
    forall i :: 0 <= i < |clients| ==> ClientOk(cfg, hub, pc, i, clients[i])
  }

  ghost predicate TableOk(s: State) {
    && DistinctBuffers(s.clients)
    && if AtRest(s.pc) then s.socks == {} && forall i :: 0 <= i < |s.clients| ==> s.clients[i].buffer == NULL
       else s.socks == OpenSocks(s.clients) && DistinctSocks(s.clients)
  }

  /** Each socket and each buffer that was opened is closed once or still in the table. */
  ghost predicate CountsOk(s: State) {
    && s.count.created == s.count.deleted + |Held(s.clients)|
    && s.count.connected == s.count.closed + |s.socks|
  }

  ghost predicate Inv(cfg: Config, s: State) {
    && |s.clients| == cfg.clients
    && (Busy(s.pc).Some? ==> Busy(s.pc).value < cfg.clients)
    && H.Sound(s.hub, Held(s.clients)) && !s.hub.fault
    && TableOk(s)
    && ClientsOk(cfg, s.hub, s.pc, s.clients)
    && !s.flags.lost
    && CountsOk(s)
  }

  lemma BootInv(cfg: Config)
    ensures Inv(cfg, Boot(cfg))
  {
    NoneHeld(Boot(cfg).clients);
    H.EmptyIsSound();
  }

  // ---------------------------------------------------------------- steps of the other tasks

  lemma OtherKeepsClient(cfg: Config, hub: H.Hub, hub': H.Hub, owned: set<Handle>, pc: Pc, i: nat, c: Client)
    requires ClientOk(cfg, hub, pc, i, c) && H.OwnedKept(hub, hub', owned)
    requires c.buffer != NULL ==> c.buffer in owned
    requires NULL !in hub.bufs
    ensures ClientOk(cfg, hub', pc, i, c)
  {
    if c.buffer != NULL {
      WireKept(cfg, hub, hub', c);
    }
    hide WireOk;
  }

  lemma OtherStepInv(cfg: Config, s: State, x: H.Event)
    requires Inv(cfg, s)
    ensures Inv(cfg, Step(cfg, s, Other(x)))
  {
    hide Inv, H.Step, H.Sound, ClientOk, TableOk, Held, H.OwnedKept;
    var owned, hub' := Held(s.clients), H.Step(s.hub, x);
    PartsOf(cfg, s);
    H.StepSound(s.hub, x, owned);
    H.StepKeepsOwned(s.hub, x, owned);
    forall i | 0 <= i < |s.clients| ensures ClientOk(cfg, hub', s.pc, i, s.clients[i]) {
      InHeld(s.clients, i);
      OwnersOf(cfg, s, i);
      OtherKeepsClient(cfg, s.hub, hub', owned, s.pc, i, s.clients[i]);
    }
    HubReplaced(cfg, s, hub');
  }

  lemma InHeld(clients: seq<Client>, i: nat)
    requires i < |clients|
    ensures clients[i].buffer != NULL ==> clients[i].buffer in Held(clients)
  {
    assert clients[i] in clients;
  }

  lemma HubReplaced(cfg: Config, s: State, hub': H.Hub)
    requires Inv(cfg, s) && H.Sound(hub', Held(s.clients)) && !hub'.fault
    requires ClientsOk(cfg, hub', s.pc, s.clients)
    ensures Inv(cfg, s.(hub := hub'))
  {
    hide H.Sound, ClientsOk, Held;
  }

  lemma ApiStepInv(cfg: Config, s: State, c: Command)
    requires Inv(cfg, s) && !Step(cfg, s, Api(c)).flags.overlap
    ensures Inv(cfg, Step(cfg, s, Api(c)))
  {
    var s' := Step(cfg, s, Api(c));
    hide H.Sound, WireOk;
    if c == Init(true) && !s.ctl.alive {
      NoneHeld(s.clients);
      NoneHeld(s'.clients);
      assert !HoldsSomething(s);
    }
  }

  // ---------------------------------------------------------------- steps of the server task

  lemma MovedOn(cfg: Config, hub: H.Hub, pc: Pc, pc': Pc, j: nat, c: Client)
    requires ClientOk(cfg, hub, pc, j, c) && Busy(pc) != Some(j) && Busy(pc') != Some(j)
    requires j < ClosedBelow(pc', cfg.clients) ==> j < ClosedBelow(pc, cfg.clients)
    ensures ClientOk(cfg, hub, pc', j, c)
  {
    hide WireOk;
  }

  /** The table entries a step does not work on: `i` is the one it does, if there is one. */
  ghost predicate OnlyClient(cfg: Config, s: State, s': State, i: nat) {
    && |s'.clients| == |s.clients|
    && (forall j :: 0 <= j < |s.clients| && j != i ==> s'.clients[j] == s.clients[j])
    && Busy(s.pc) in {None, Some(i)} && Busy(s'.pc) in {None, Some(i)}
    && var n := ClosedBelow(s.pc, cfg.clients);
       ClosedBelow(s'.pc, cfg.clients) <= if n == i then n + 1 else n
  }

  /** The buffers of all clients but i. */
  ghost function HeldByOthers(clients: seq<Client>, i: nat): set<Handle> {
    Held(clients) - if i < |clients| then {clients[i].buffer} else {}
  }

  /** A step that works on client i, if on any, leaves every other client as it should be. */
  lemma OthersOk(cfg: Config, s: State, s': State, i: nat)
    requires Inv(cfg, s) && OnlyClient(cfg, s, s', i)
    requires H.OwnedKept(s.hub, s'.hub, HeldByOthers(s.clients, i))
    ensures forall j :: 0 <= j < |s.clients| && j != i ==> ClientOk(cfg, s'.hub, s'.pc, j, s'.clients[j])
  {
    var owned := HeldByOthers(s.clients, i);
    assert NULL !in s.hub.bufs;
    hide H.Sound, ClientOk, H.OwnedKept;
    forall j | 0 <= j < |s.clients| && j != i ensures ClientOk(cfg, s'.hub, s'.pc, j, s'.clients[j]) {
      var c := s.clients[j];
      assert c in s.clients && ClientOk(cfg, s.hub, s.pc, j, c);
      OtherKeepsClient(cfg, s.hub, s'.hub, owned, s.pc, j, c);
      MovedOn(cfg, s'.hub, s.pc, s'.pc, j, c);
    }
  }

  /** The same for a step that leaves the registry and the buffers alone. */
  lemma OthersOkSameHub(cfg: Config, s: State, s': State, i: nat)
    requires Inv(cfg, s) && OnlyClient(cfg, s, s', i) && s'.hub == s.hub
    ensures forall j :: 0 <= j < |s.clients| && j != i ==> ClientOk(cfg, s'.hub, s'.pc, j, s'.clients[j])
  {
    HubUnchanged(cfg, s, HeldByOthers(s.clients, i));
    hide ClientOk, H.OwnedKept, H.Sound;
    OthersOk(cfg, s, s', i);
  }

  lemma HubUnchanged(cfg: Config, s: State, owned: set<Handle>)
    requires Inv(cfg, s) && owned <= Held(s.clients)
    ensures H.OwnedKept(s.hub, s.hub, owned)
  {
    assert H.Owned(s.hub, Held(s.clients));
  }

  /** Steps that only move the program counter or change a control bit. */
  lemma ControlMoveInv(cfg: Config, s: State, m: Move)
    requires Inv(cfg, s) && s.ctl.alive
    requires s.pc in {Outer, Setup, ClearNet, Inner, CheckNet, Finish}
    ensures Inv(cfg, TaskStep(cfg, s, m))
  {
    hide H.Sound, ClientOk;
    var s' := TaskStep(cfg, s, m);
    OthersOkSameHub(cfg, s, s', |s.clients|);
    if s.pc == Setup {
      AllClosed(cfg, s);
    }
  }

  lemma AllClosed(cfg: Config, s: State)
    requires Inv(cfg, s) && ClosedBelow(s.pc, cfg.clients) >= |s.clients| && Busy(s.pc) == None
    ensures forall k :: 0 <= k < |s.clients| ==> s.clients[k].buffer == NULL && s.clients[k].sock == INVALID_SOCK
    ensures OpenSocks(s.clients) == {}
  {
    hide H.Sound, WireOk;
    forall k | 0 <= k < |s.clients| ensures s.clients[k].buffer == NULL && s.clients[k].sock == INVALID_SOCK {
      assert ClientOk(cfg, s.hub, s.pc, k, s.clients[k]);
    }
  }

  lemma TeardownInv(cfg: Config, s: State, m: Move)
    requires Inv(cfg, s) && s.ctl.alive && s.pc.Teardown?
    ensures Inv(cfg, TaskStep(cfg, s, m))
  {
    hide H.Sound, WireOk;
    var s' := TaskStep(cfg, s, m);
    OthersOkSameHub(cfg, s, s', s.pc.i);
    if s.pc.i < |s.clients| {
      assert ClientOk(cfg, s.hub, s.pc, s.pc.i, s.clients[s.pc.i]);
    } else {
      AllClosed(cfg, s);
    }
  }

  lemma ResetInv(cfg: Config, s: State, m: Move)
    requires Inv(cfg, s) && s.ctl.alive && s.pc == Reset
    ensures Inv(cfg, TaskStep(cfg, s, m))
  {
    hide H.Sound;
    var s' := TaskStep(cfg, s, m);
    NoneHeld(s.clients);
    NoneHeld(s'.clients);
    assert !HoldsSomething(s);
  }

  lemma ConnectTable(s: State, s': State, j: nat, fd: int)
    requires TableOk(s) && !AtRest(s.pc) && !AtRest(s'.pc) && j < |s.clients| && s.clients[j].sock == INVALID_SOCK
    requires s.clients[j].buffer == NULL && fd >= 0 && fd !in s.socks
    requires s'.clients == s.clients[j := s.clients[j].(sock := fd)] && s'.socks == s.socks + {fd}
    ensures TableOk(s') && Held(s'.clients) == Held(s.clients)
  {
    var c' := s.clients[j].(sock := fd);
    HeldUpdate(s.clients, j, c');
    OpenSocksUpdate(s.clients, j, c');
    assert forall k :: 0 <= k < |s.clients| && s.clients[k].sock != INVALID_SOCK ==> s.clients[k] in s.clients;
    assert NULL !in Held(s.clients) && INVALID_SOCK !in OpenSocks(s.clients);
  }

  lemma TableMoved(s: State, s': State)
    requires TableOk(s) && AtRest(s.pc) == AtRest(s'.pc) && s'.clients == s.clients && s'.socks == s.socks
    ensures TableOk(s')
  {
  }

  /** The invariant after a step that moves on from, or to, client i without changing the table. */
  lemma PcOnlyInv(cfg: Config, s: State, s': State, i: nat)
    requires Inv(cfg, s) && OnlyClient(cfg, s, s', i) && s'.clients == s.clients && s'.hub == s.hub
    requires s'.socks == s.socks && s'.flags.lost == s.flags.lost
    requires s'.count == s.count
    requires AtRest(s.pc) == AtRest(s'.pc) && (Busy(s'.pc) == Some(i) ==> i < |s.clients|)
    requires i < |s.clients| ==> ClientOk(cfg, s.hub, s'.pc, i, s.clients[i])
    ensures Inv(cfg, s')
  {
    hide Inv, H.Sound, TableOk, ClientOk, Held;
    PartsOf(cfg, s);
    TableMoved(s, s');
    OthersOkSameHub(cfg, s, s', i);
    forall j | 0 <= j < |s'.clients| ensures ClientOk(cfg, s'.hub, s'.pc, j, s'.clients[j]) {
      assert j != i || j == i;
    }
    InvFromParts(cfg, s, s');
  }

  lemma ConnectInv(cfg: Config, s: State, s': State, j: nat, fd: int)
    requires Inv(cfg, s) && s.pc == Accept && j < |s.clients| && s.clients[j].sock == INVALID_SOCK
    requires fd >= 0 && fd !in s.socks && s'.pc in {Serve(0), Teardown(0)}
    requires s' == s.(clients := s.clients[j := s.clients[j].(sock := fd)], socks := s.socks + {fd},
                      accepts := s.accepts + 1, count := s.count.(connected := s.count.connected + 1), pc := s'.pc)
    ensures Inv(cfg, s')
  {
    hide Inv, H.Sound, TableOk, WireOk, Held, HeldByOthers, H.OwnedKept;
    PartsOf(cfg, s);
    assert ClientOk(cfg, s.hub, s.pc, j, s.clients[j]);
    ConnectTable(s, s', j, fd);
    OwnersOf(cfg, s, j);
    HubUnchanged(cfg, s, HeldByOthers(s.clients, j));
    Assemble(cfg, s, s', j);
  }

  lemma AcceptInv(cfg: Config, s: State, m: Move)
    requires Inv(cfg, s) && s.pc == Accept
    ensures Inv(cfg, StepAccept(s, m))
  {
    hide Inv, FirstFree, ClientOk;
    var s' := StepAccept(s, m);
    var j := FirstFree(s.clients);
    if s'.clients == s.clients && s'.socks == s.socks {
      PcOnlyInv(cfg, s, s', |s.clients|);
    } else {
      ConnectInv(cfg, s, s', j, m.outcome.fd);
    }
  }

  lemma ServeInv(cfg: Config, s: State, i: nat, m: Move)
    requires Inv(cfg, s) && s.pc == Serve(i)
    requires i < |s.clients| ==> s.clients[i].sock == INVALID_SOCK || s.clients[i].buffer == NULL
    ensures Inv(cfg, StepServe(cfg, s, i, m))
  {
    hide Inv, WireOk, H.Sound, TableOk, Held, StepPoll;
    PartsOf(cfg, s);
    if i < |s.clients| {
      assert ClientOk(cfg, s.hub, s.pc, i, s.clients[i]);
    }
    PcOnlyInv(cfg, s, StepServe(cfg, s, i, m), i);
  }

  /** Changing only the record of a connection leaves the table's handles and sockets alone. */
  lemma RecordUpdate(s: State, i: nat, c': Client)
    requires TableOk(s) && !AtRest(s.pc) && i < |s.clients|
    requires c'.buffer == s.clients[i].buffer && c'.sock == s.clients[i].sock
    ensures var clients' := s.clients[i := c'];
            && DistinctBuffers(clients') && DistinctSocks(clients')
            && OpenSocks(clients') == OpenSocks(s.clients) && Held(clients') == Held(s.clients)
  {
    HeldUpdate(s.clients, i, c');
    OpenSocksUpdate(s.clients, i, c');
    assert s.clients[i] in s.clients && NULL !in Held(s.clients) && INVALID_SOCK !in OpenSocks(s.clients);
  }

  /** A frame set in motion on a connection that had nothing under way. */
  lemma BeginFlightOk(cfg: Config, hub: H.Hub, hub': H.Hub, c: Client, f: Sent)
    requires WireOk(cfg, hub, c) && c.flight == None && hub'.log == hub.log
    requires c.buffer in hub'.bufs && hub'.bufs[c.buffer].received == hub.bufs[c.buffer].received + PositionOf(f)
    requires FrameOk(cfg, hub.log, f)
    ensures WireOk(cfg, hub', Served(c, f.tick, f.LogLine?).(flight := Some(Flight(f, S.Begin(FrameBytes(cfg, hub.log, f))))))
  {
    var bytes := FrameBytes(cfg, hub.log, f);
    assert S.Accounted(S.Begin(bytes), cfg.stall);
    assert Positions(c.done) + [] == Positions(c.done);
    hide LogFrame, KeepaliveFrame, S.Accounted, Bytes;
  }

  /** The invariant after a step on client i, from its parts. */
  lemma Assemble(cfg: Config, s: State, s': State, i: nat)
    requires Inv(cfg, s) && OnlyClient(cfg, s, s', i) && i < |s.clients|
    requires H.OwnedKept(s.hub, s'.hub, HeldByOthers(s.clients, i))
    requires H.Sound(s'.hub, Held(s'.clients)) && !s'.hub.fault
    requires TableOk(s') && ClientOk(cfg, s'.hub, s'.pc, i, s'.clients[i])
    requires s'.flags.lost == s.flags.lost
    requires CountsOk(s')
    ensures Inv(cfg, s')
  {
    hide Inv, H.Sound, H.OwnedKept, TableOk, ClientOk, Held, HeldByOthers;
    OthersOk(cfg, s, s', i);
    forall j | 0 <= j < |s'.clients| ensures ClientOk(cfg, s'.hub, s'.pc, j, s'.clients[j]) {
      assert j != i || j == i;
    }
    InvFromParts(cfg, s, s');
  }

  lemma InvFromParts(cfg: Config, s: State, s': State)
    requires Inv(cfg, s) && |s'.clients| == |s.clients| && (Busy(s'.pc).Some? ==> Busy(s'.pc).value < |s'.clients|)
    requires H.Sound(s'.hub, Held(s'.clients)) && !s'.hub.fault && TableOk(s')
    requires ClientsOk(cfg, s'.hub, s'.pc, s'.clients)
    requires s'.flags.lost == s.flags.lost
    requires CountsOk(s')
    ensures Inv(cfg, s')
  {
    hide H.Sound, TableOk, ClientsOk, Held;
  }

  lemma BeginFlightInv(cfg: Config, s: State, i: nat, hub': H.Hub, f: Sent)
    requires Inv(cfg, s) && s.pc == Serve(i) && i < |s.clients|
    requires s.clients[i].sock != INVALID_SOCK && s.clients[i].buffer != NULL
    requires H.OwnedKept(s.hub, hub', HeldByOthers(s.clients, i))
    requires H.Sound(hub', Held(s.clients)) && !hub'.fault
    requires hub'.slots == s.hub.slots && hub'.log == s.hub.log
    requires var h := s.clients[i].buffer;
             h in s.hub.bufs && h in hub'.bufs && hub'.bufs[h].received == s.hub.bufs[h].received + PositionOf(f)
    requires FrameOk(cfg, s.hub.log, f)
    ensures Inv(cfg, BeginFlight(cfg, s, i, hub', f))
  {
    hide H.Sound, WireOk, H.OwnedKept, Held, HeldByOthers, FrameBytes, FrameOk, S.Begin;
    var s' := BeginFlight(cfg, s, i, hub', f);
    var c := s.clients[i];
    assert ClientOk(cfg, s.hub, s.pc, i, c);
    BeginFlightOk(cfg, s.hub, hub', c, f);
    RecordUpdate(s, i, s'.clients[i]);
    hide TableOk;
    assert TableOk(s') by { RecordTable(s, s', i); }
    assert ClientOk(cfg, s'.hub, s'.pc, i, s'.clients[i]);
    hide ClientOk;
    Assemble(cfg, s, s', i);
  }

  lemma CountsKept(s: State, s': State)
    requires CountsOk(s) && Held(s'.clients) == Held(s.clients) && s'.socks == s.socks
    requires s'.count == s.count
    ensures CountsOk(s')
  {
  }

  lemma RecordTable(s: State, s': State, i: nat)
    requires TableOk(s) && !AtRest(s.pc) && !AtRest(s'.pc) && i < |s.clients| && |s'.clients| == |s.clients|
    requires s'.clients == s.clients[i := s'.clients[i]] && s'.socks == s.socks
    requires s'.clients[i].buffer == s.clients[i].buffer && s'.clients[i].sock == s.clients[i].sock
    ensures TableOk(s') && Held(s'.clients) == Held(s.clients)
  {
    RecordUpdate(s, i, s'.clients[i]);
  }

  lemma ReceiveKept(hub: H.Hub, h: Handle, room: nat, owned: set<Handle>)
    requires h in hub.bufs && h !in owned && owned <= hub.bufs.Keys
    ensures H.OwnedKept(hub, H.ReceiveBuffer(hub, h, room), owned)
  {
    hide Receive;
  }

  lemma HeldIsLive(cfg: Config, s: State, i: nat)
    requires Inv(cfg, s) && i < |s.clients| && s.clients[i].buffer != NULL
    ensures s.clients[i].buffer in s.hub.bufs && s.clients[i].buffer in Held(s.clients)
    ensures Consistent(s.hub.bufs[s.clients[i].buffer], |s.hub.log|)
    ensures HeldByOthers(s.clients, i) <= s.hub.bufs.Keys && s.clients[i].buffer !in HeldByOthers(s.clients, i)
  {
    assert s.clients[i] in s.clients && H.Owned(s.hub, Held(s.clients));
    hide Consistent;
  }

  lemma PollMessageInv(cfg: Config, s: State, i: nat, pos: nat, now: nat)
    requires Inv(cfg, s) && s.pc == Serve(i) && i < |s.clients|
    requires s.clients[i].sock != INVALID_SOCK && s.clients[i].buffer != NULL && s.clients[i].buffer in s.hub.bufs
    requires now < K.WRAP && Ready(s.hub.bufs[s.clients[i].buffer], s.hub.log, cfg.maxLength) == Some(pos)
    ensures Inv(cfg, BeginFlight(cfg, s, i, H.ReceiveBuffer(s.hub, s.clients[i].buffer, cfg.maxLength), LogLine(pos, now)))
  {
    hide Inv, BeginFlight, H.OwnedKept, H.Sound, Held, HeldByOthers, Ready, Receive, Consistent, TableOk, ClientOk;
    var h, room := s.clients[i].buffer, cfg.maxLength;
    PartsOf(cfg, s);
    HeldIsLive(cfg, s, i);
    ReceiveKeepsConsistent(s.hub.bufs[h], s.hub.log, room, |s.hub.log|);
    H.ReceiveSound(s.hub, h, room, Held(s.clients));
    ReceiveKept(s.hub, h, room, HeldByOthers(s.clients, i));
    BeginFlightInv(cfg, s, i, H.ReceiveBuffer(s.hub, h, room), LogLine(pos, now));
  }

  lemma PollKeepaliveInv(cfg: Config, s: State, i: nat, now: nat)
    requires Inv(cfg, s) && s.pc == Serve(i) && i < |s.clients| && now < K.WRAP
    requires s.clients[i].sock != INVALID_SOCK && s.clients[i].buffer != NULL && s.clients[i].buffer in s.hub.bufs
    ensures Inv(cfg, BeginFlight(cfg, s, i, s.hub, KeepAlive(now)))
  {
    hide Inv, BeginFlight, H.OwnedKept, H.Sound, Held, HeldByOthers, TableOk, ClientOk;
    PartsOf(cfg, s);
    OwnersOf(cfg, s, i);
    HubUnchanged(cfg, s, HeldByOthers(s.clients, i));
    var b := s.hub.bufs[s.clients[i].buffer];
    assert b.received + [] == b.received;
    BeginFlightInv(cfg, s, i, s.hub, KeepAlive(now));
  }

  lemma PollInv(cfg: Config, s: State, m: Move, i: nat)
    requires Inv(cfg, s) && s.pc == Serve(i) && i < |s.clients|
    requires s.clients[i].sock != INVALID_SOCK && s.clients[i].buffer != NULL
    ensures Inv(cfg, StepPoll(cfg, s, i, m))
  {
    hide Inv, BeginFlight, Ready, H.ReceiveBuffer, K.Due, Consistent;
    var h := s.clients[i].buffer;
    HeldIsLive(cfg, s, i);
    if m.Polled? && m.now < K.WRAP {
      match Ready(s.hub.bufs[h], s.hub.log, cfg.maxLength)
      case Some(pos) => PollMessageInv(cfg, s, i, pos, m.now);
      case None =>
        PollKeepaliveInv(cfg, s, i, m.now);
        PollPassInv(cfg, s, i, m.now);
    }
  }

  lemma PartsOf(cfg: Config, s: State)
    requires Inv(cfg, s)
    ensures H.Sound(s.hub, Held(s.clients)) && !s.hub.fault
    ensures CountsOk(s)
    ensures TableOk(s) && |s.clients| == cfg.clients
    ensures Busy(s.pc).Some? ==> Busy(s.pc).value < |s.clients|
    ensures forall i :: 0 <= i < |s.clients| ==> ClientOk(cfg, s.hub, s.pc, i, s.clients[i])
  {
    hide H.Sound, TableOk, ClientOk;
  }

  lemma PollPassInv(cfg: Config, s: State, i: nat, now: nat)
    requires Inv(cfg, s) && s.pc == Serve(i) && i < |s.clients|
    ensures Inv(cfg, s.(clients := s.clients[i := Served(s.clients[i], now, false)], pc := Serve(i + 1)))
  {
    hide Inv, H.Sound, TableOk, Held, HeldByOthers, H.OwnedKept, FlightOk, FrameOk;
    PartsOf(cfg, s);
    var s' := s.(clients := s.clients[i := Served(s.clients[i], now, false)], pc := Serve(i + 1));
    assert ClientOk(cfg, s.hub, s.pc, i, s.clients[i]);
    OwnersOf(cfg, s, i);
    HubUnchanged(cfg, s, HeldByOthers(s.clients, i));
    RecordTable(s, s', i);
    Assemble(cfg, s, s', i);
  }

  /** A connection with a fresh buffer. */
  lemma FreshWireOk(cfg: Config, hub: H.Hub, c: Client)
    requires c.buffer in hub.bufs && hub.bufs[c.buffer].received == []
    requires c.done == [] && c.wire == "" && c.flight == None && c.stalls == 0
    ensures WireOk(cfg, hub, c)
  {
  }

  lemma CreateTable(s: State, s': State, i: nat)
    requires TableOk(s) && !AtRest(s.pc) && !AtRest(s'.pc) && i < |s.clients| && s.clients[i].buffer == NULL
    requires |s'.clients| == |s.clients| && s'.clients == s.clients[i := s'.clients[i]] && s'.socks == s.socks
    requires var c' := s'.clients[i];
             c'.buffer != NULL && c'.buffer !in Held(s.clients) && c'.sock == s.clients[i].sock
    ensures TableOk(s') && Held(s'.clients) == Held(s.clients) + {s'.clients[i].buffer}
  {
    var c' := s'.clients[i];
    HeldUpdate(s.clients, i, c');
    OpenSocksUpdate(s.clients, i, c');
    assert forall k :: 0 <= k < |s.clients| && s.clients[k].buffer != NULL ==> s.clients[k] in s.clients;
    assert s.clients[i] in s.clients && NULL !in Held(s.clients) && INVALID_SOCK !in OpenSocks(s.clients);
  }

  lemma CreateKept(hub: H.Hub, h: Handle, size: nat, owned: set<Handle>)
    requires h !in hub.bufs && owned <= hub.bufs.Keys
    ensures H.OwnedKept(hub, H.CreateBuffer(hub, h, size), owned)
  {
  }

  lemma CreatedInv(cfg: Config, s: State, m: Move, i: nat)
    requires Inv(cfg, s) && s.pc == Creating(i) && m.Allocated? && m.h !in s.hub.bufs && m.h != NULL
    ensures i < |s.clients| && Inv(cfg, StepCreate(cfg, s, i, m))
  {
    hide H.Sound, WireOk, H.OwnedKept, Held, HeldByOthers, Inv, TableOk, Settled;
    PartsOf(cfg, s);
    var s' := StepCreate(cfg, s, i, m);
    assert ClientOk(cfg, s.hub, s.pc, i, s.clients[i]);
    OwnersOf(cfg, s, i);
    H.CreateSound(s.hub, m.h, cfg.bufferSize, Held(s.clients));
    CreateKept(s.hub, m.h, cfg.bufferSize, HeldByOthers(s.clients, i));
    CreateTable(s, s', i);
    FreshWireOk(cfg, s'.hub, s'.clients[i]);
    Assemble(cfg, s, s', i);
  }

  lemma CreateInv(cfg: Config, s: State, m: Move, i: nat)
    requires Inv(cfg, s) && s.pc == Creating(i)
    ensures i < |s.clients| && Inv(cfg, StepCreate(cfg, s, i, m))
  {
    hide H.Sound, WireOk, Held, HeldByOthers, TableOk;
    if m.Allocated? && m.h !in s.hub.bufs {
      if m.h == NULL {
        OthersOkSameHub(cfg, s, StepCreate(cfg, s, i, m), i);
        assert ClientOk(cfg, s.hub, s.pc, i, s.clients[i]);
        TableMoved(s, StepCreate(cfg, s, i, m));
      } else {
        CreatedInv(cfg, s, m, i);
      }
    }
  }

  /** The server's buffers, the application's and those not yet allocated. */
  lemma OwnersOf(cfg: Config, s: State, i: nat)
    requires Inv(cfg, s)
    ensures HeldByOthers(s.clients, i) <= Held(s.clients) <= s.hub.bufs.Keys && NULL !in s.hub.bufs
    ensures i < |s.clients| ==> s.clients[i].buffer !in HeldByOthers(s.clients, i)
  {
    H.SoundOwned(s.hub, Held(s.clients));
    hide H.Sound, TableOk, ClientsOk, Held;
  }

  lemma RegisterKept(hub: H.Hub, h: Handle, owned: set<Handle>, all: set<Handle>)
    requires H.Sound(hub, all) && hub.lock == None && h in hub.bufs && hub.bufs[h].since == None
    requires owned <= all && h !in owned
    ensures H.OwnedKept(hub, H.RegisterBuffer(hub, h), owned)
    ensures H.RegisterBuffer(hub, h).bufs.Keys == hub.bufs.Keys && H.RegisterBuffer(hub, h).log == hub.log
    ensures H.RegisterBuffer(hub, h).bufs[h].received == hub.bufs[h].received
  {
    H.RegisterSound(hub, h, all);
    assert H.Owned(hub, all);
    hide H.Sound, Insert;
  }

  lemma RegisterInv(cfg: Config, s: State, i: nat)
    requires Inv(cfg, s) && s.pc == Registering(i)
    ensures i < |s.clients| && Inv(cfg, StepRegister(s, i))
  {
    hide H.Sound, WireOk, H.OwnedKept, Held, HeldByOthers, Inv, TableOk, Settled, Insert, H.RegisterBuffer, Consistent;
    PartsOf(cfg, s);
    var c := s.clients[i];
    assert ClientOk(cfg, s.hub, s.pc, i, c);
    if s.hub.lock == None {
      var s' := StepRegister(s, i);
      OwnersOf(cfg, s, i);
      H.RegisterSound(s.hub, c.buffer, Held(s.clients));
      RegisterKept(s.hub, c.buffer, HeldByOthers(s.clients, i), Held(s.clients));
      WireKept(cfg, s.hub, s'.hub, c);
      assert s.clients[i := c] == s.clients;
      RecordTable(s, s', i);
      RegisteredClient(cfg, s.hub, s'.hub, s.pc, s'.pc, i, c, s'.clients[i]);
      hide ClientOk;
      RegisterNoFault(s.hub, c.buffer);
      Assemble(cfg, s, s', i);
    }
  }

  lemma RegisterNoFault(hub: H.Hub, h: Handle)
    ensures H.RegisterBuffer(hub, h).fault == hub.fault
  {
  }

  lemma RegisteredClient(cfg: Config, hub: H.Hub, hub': H.Hub, pc: Pc, pc': Pc, i: nat, c: Client, c': Client)
    requires ClientOk(cfg, hub, pc, i, c) && pc == Registering(i) && WireOk(cfg, hub', c)
    requires (c' == c && pc' == Closing(i, ToServe)) || (c' == c.(lastActivity := 0) && pc' == Serve(i + 1) && c.buffer in hub'.slots)
    ensures ClientOk(cfg, hub', pc', i, c')
  {
    hide FlightOk;
  }

  lemma DoneSnoc(cfg: Config, log: seq<string>, done: seq<Sent>, f: Sent)
    ensures Positions(done + [f]) == Positions(done) + PositionOf(f)
    ensures Bytes(cfg, log, done + [f]) == Bytes(cfg, log, done) + FrameBytes(cfg, log, f)
  {
    hide FrameBytes;
    assert (done + [f])[..|done + [f]| - 1] == done;
  }

  lemma SentWithStalls(t: S.Transfer, stall: nat, stalls: nat)
    requires S.Accounted(t, stall) && t.toWrite <= 0
    ensures |t.sent| + stall * stalls == |t.data| + stall * (stalls + t.blocks)
  {
  }

  /** A frame sent whole moves from under way to done. */
  lemma FrameDone(cfg: Config, hub: H.Hub, c: Client, now: nat)
    requires WireOk(cfg, hub, c) && c.flight.Some? && c.flight.value.transfer.toWrite <= 0
    ensures var f := c.flight.value;
            WireOk(cfg, hub, c.(done := c.done + [f.frame], wire := c.wire + f.transfer.sent,
              stalls := c.stalls + f.transfer.blocks, flight := None, lastActivity := now))
  {
    hide FrameBytes, FrameOk, S.Accounted, Bytes, Positions, PositionOf;
    var f := c.flight.value;
    S.CompleteTransfer(f.transfer, cfg.stall);
    DoneSnoc(cfg, hub.log, c.done, f.frame);
    SentWithStalls(f.transfer, cfg.stall, c.stalls);
    assert Positions(c.done + [f.frame]) + [] == Positions(c.done + [f.frame]);
    assert forall g :: g in c.done + [f.frame] ==> g in c.done || g == f.frame;
  }

  lemma SendTurn(cfg: Config, hub: H.Hub, c: Client, r: S.Result)
    requires WireOk(cfg, hub, c) && c.flight.Some? && S.Pending(c.flight.value.transfer)
    ensures var f := c.flight.value;
            WireOk(cfg, hub, c.(flight := Some(f.(transfer := S.Progress(f.transfer, r, cfg.stall)))))
  {
    S.ProgressAccounted(c.flight.value.transfer, r, cfg.stall);
    hide S.Progress, S.Accounted, FrameBytes, FrameOk, Bytes, Positions;
  }

  lemma SendingClient(cfg: Config, s: State, m: Move, i: nat, now: nat)
    requires s.pc == Sending(i, now) && i < |s.clients| && ClientOk(cfg, s.hub, s.pc, i, s.clients[i])
    ensures var s' := StepSending(cfg, s, i, now, m);
            && s'.hub == s.hub && ClientOk(cfg, s'.hub, s'.pc, i, s'.clients[i])
            && s'.clients == s.clients[i := s'.clients[i]]
            && s'.clients[i].buffer == s.clients[i].buffer && s'.clients[i].sock == s.clients[i].sock
  {
    hide WireOk, S.Progress;
    var c := s.clients[i];
    var t := c.flight.value.transfer;
    assert s.clients[i := c] == s.clients;
    if !t.failed {
      if t.toWrite <= 0 {
        FrameDone(cfg, s.hub, c, now);
      } else if m.Sends? {
        SendTurn(cfg, s.hub, c, m.result);
      }
    }
  }

  /** Sending changes the entry of its client and the place in the program, and no more. */
  lemma SendingFrame(cfg: Config, s: State, m: Move, i: nat, now: nat)
    requires s.pc == Sending(i, now) && i < |s.clients|
    ensures var s' := StepSending(cfg, s, i, now, m);
            && OnlyClient(cfg, s, s', i) && !AtRest(s'.pc)
            && s'.socks == s.socks && s'.count == s.count && s'.flags == s.flags
  {
    hide S.Progress;
  }

  lemma SendingInv(cfg: Config, s: State, m: Move, i: nat, now: nat)
    requires Inv(cfg, s) && s.pc == Sending(i, now)
    ensures i < |s.clients| && Inv(cfg, StepSending(cfg, s, i, now, m))
  {
    hide H.Sound, ClientOk, Held, HeldByOthers, Inv, TableOk, H.OwnedKept, CountsOk, StepSending, OnlyClient;
    PartsOf(cfg, s);
    var s' := StepSending(cfg, s, i, now, m);
    SendingClient(cfg, s, m, i, now);
    SendingFrame(cfg, s, m, i, now);
    RecordTable(s, s', i);
    CountsKept(s, s');
    HubUnchanged(cfg, s, HeldByOthers(s.clients, i)) by { OwnersOf(cfg, s, i); }
    Assemble(cfg, s, s', i);
  }

  lemma RemoveOne(socks: set<int>, sock: int)
    ensures |socks - {sock}| == |socks| - if sock in socks then 1 else 0
  {
    if sock !in socks {
      assert socks - {sock} == socks;
    }
  }

  lemma CloseTable(s: State, s': State, i: nat)
    requires TableOk(s) && !AtRest(s.pc) && !AtRest(s'.pc) && i < |s.clients|
    requires s'.clients == s.clients[i := s.clients[i].(sock := INVALID_SOCK)] && s'.socks == s.socks - {s.clients[i].sock}
    ensures TableOk(s') && Held(s'.clients) == Held(s.clients)
    ensures s.clients[i].sock != INVALID_SOCK <==> s.clients[i].sock in s.socks
  {
    HeldUpdate(s.clients, i, s'.clients[i]);
    OpenSocksUpdate(s.clients, i, s'.clients[i]);
    assert s.clients[i] in s.clients && NULL !in Held(s.clients);
  }

  lemma ClosedWire(cfg: Config, hub: H.Hub, c: Client)
    ensures WireOk(cfg, hub, c.(sock := INVALID_SOCK)) <==> WireOk(cfg, hub, c)
  {
    hide FlightOk, FrameOk;
  }

  lemma CloseInv(cfg: Config, s: State, i: nat, ret: Return)
    requires Inv(cfg, s) && s.pc == Closing(i, ret)
    ensures i < |s.clients| && Inv(cfg, StepClose(s, i, ret))
  {
    hide H.Sound, WireOk, Held, HeldByOthers, Inv, TableOk, H.OwnedKept;
    PartsOf(cfg, s);
    var s' := StepClose(s, i, ret);
    assert ClientOk(cfg, s.hub, s.pc, i, s.clients[i]);
    ClosedWire(cfg, s.hub, s.clients[i]);
    CloseTable(s, s', i);
    RemoveOne(s.socks, s.clients[i].sock);
    HubUnchanged(cfg, s, HeldByOthers(s.clients, i)) by { OwnersOf(cfg, s, i); }
    Assemble(cfg, s, s', i);
  }

  lemma UnregisterKept(hub: H.Hub, h: Handle, owned: set<Handle>)
    requires Distinct(hub.slots) && h != NULL && h !in owned && NULL !in owned && owned <= hub.bufs.Keys
    ensures H.OwnedKept(hub, H.UnregisterBuffer(hub, h), owned)
  {
    RemoveKeepsDistinct(hub.slots, h);
    hide Remove;
  }

  lemma UnregisterInv(cfg: Config, s: State, i: nat, ret: Return)
    requires Inv(cfg, s) && s.pc == Unregistering(i, ret)
    ensures i < |s.clients| && Inv(cfg, StepUnregister(s, i, ret))
  {
    hide H.Sound, WireOk, Held, HeldByOthers, Inv, TableOk, H.OwnedKept, Remove;
    PartsOf(cfg, s);
    var c := s.clients[i];
    var s' := StepUnregister(s, i, ret);
    assert ClientOk(cfg, s.hub, s.pc, i, c);
    assert s.clients[i := c] == s.clients;
    RecordTable(s, s', i);
    OwnersOf(cfg, s, i);
    if c.buffer == NULL || s.hub.lock != None {
      HubUnchanged(cfg, s, HeldByOthers(s.clients, i));
      Assemble(cfg, s, s', i);
    } else {
      H.UnregisterSound(s.hub, c.buffer, Held(s.clients));
      SoundDistinct(s.hub, Held(s.clients));
      hide Distinct;
      UnregisterKept(s.hub, c.buffer, HeldByOthers(s.clients, i));
      UnregisteredWire(cfg, s.hub, c);
      Assemble(cfg, s, s', i);
    }
  }

  lemma SoundDistinct(hub: H.Hub, owned: set<Handle>)
    requires H.Sound(hub, owned)
    ensures Distinct(hub.slots)
  {
  }

  lemma UnregisteredWire(cfg: Config, hub: H.Hub, c: Client)
    requires WireOk(cfg, hub, c)
    ensures WireOk(cfg, H.UnregisterBuffer(hub, c.buffer), c) && c.buffer in hub.bufs
    ensures H.UnregisterBuffer(hub, c.buffer).bufs == hub.bufs
    ensures H.UnregisterBuffer(hub, c.buffer).fault == hub.fault
  {
    hide Remove, FrameOk, FlightOk;
  }

  lemma DeleteTable(s: State, s': State, i: nat)
    requires TableOk(s) && !AtRest(s.pc) && !AtRest(s'.pc) && i < |s.clients|
    requires s'.clients == s.clients[i := s.clients[i].(buffer := NULL)] && s'.socks == s.socks
    requires s.clients[i].buffer != NULL
    ensures TableOk(s') && Held(s'.clients) == Held(s.clients) - {s.clients[i].buffer}
    ensures s.clients[i].buffer in Held(s.clients)
  {
    HeldUpdate(s.clients, i, s'.clients[i]);
    OpenSocksUpdate(s.clients, i, s'.clients[i]);
    assert s.clients[i] in s.clients && INVALID_SOCK !in OpenSocks(s.clients);
  }

  lemma DeleteKept(hub: H.Hub, h: Handle, owned: set<Handle>)
    requires h !in owned && owned <= hub.bufs.Keys
    ensures H.OwnedKept(hub, H.DeleteBuffer(hub, h), owned)
  {
  }

  lemma DeleteInv(cfg: Config, s: State, i: nat, ret: Return)
    requires Inv(cfg, s) && s.pc == Deleting(i, ret)
    ensures i < |s.clients| && Inv(cfg, StepDelete(s, i, ret))
  {
    hide H.Sound, WireOk, Held, HeldByOthers, Inv, TableOk, H.OwnedKept;
    PartsOf(cfg, s);
    var s' := StepDelete(s, i, ret);
    assert ClientOk(cfg, s.hub, s.pc, i, s.clients[i]);
    OwnersOf(cfg, s, i);
    DeleteTable(s, s', i);
    H.DeleteSound(s.hub, s.clients[i].buffer, Held(s.clients));
    DeleteKept(s.hub, s.clients[i].buffer, HeldByOthers(s.clients, i));
    assert |Held(s'.clients)| == |Held(s.clients)| - 1;
    Assemble(cfg, s, s', i);
  }

  // ---------------------------------------------------------------- every run

  /** Where the task works on client i, its step is the one for that place. */
  lemma Dispatch(cfg: Config, s: State, m: Move, i: nat)
    requires s.ctl.alive && i < |s.clients|
    ensures s.pc == Creating(i) ==> TaskStep(cfg, s, m) == StepCreate(cfg, s, i, m)
    ensures s.pc == Registering(i) ==> TaskStep(cfg, s, m) == StepRegister(s, i)
    ensures s.pc.Sending? && s.pc.i == i ==> TaskStep(cfg, s, m) == StepSending(cfg, s, i, s.pc.now, m)
    ensures s.pc.Closing? && s.pc.i == i ==> TaskStep(cfg, s, m) == StepClose(s, i, s.pc.ret)
    ensures s.pc.Unregistering? && s.pc.i == i ==> TaskStep(cfg, s, m) == StepUnregister(s, i, s.pc.ret)
    ensures s.pc.Deleting? && s.pc.i == i ==> TaskStep(cfg, s, m) == StepDelete(s, i, s.pc.ret)
    ensures s.pc == Serve(i) && s.clients[i].sock != INVALID_SOCK && s.clients[i].buffer != NULL ==>
              TaskStep(cfg, s, m) == StepPoll(cfg, s, i, m)
  {
    hide StepPoll, StepCreate, StepRegister, StepSending, StepClose, StepUnregister, StepDelete, StepAccept, StepReset, StepRequest;
  }

  lemma DispatchTable(cfg: Config, s: State, m: Move)
    requires s.ctl.alive
    ensures s.pc == Reset ==> TaskStep(cfg, s, m) == StepReset(s)
    ensures s.pc == Accept ==> TaskStep(cfg, s, m) == StepAccept(s, m)
  {
    hide StepReset, StepAccept, StepServe, StepSending;
  }

  lemma BusyStepInv(cfg: Config, s: State, m: Move)
    requires Inv(cfg, s) && Busy(s.pc).Some? && s.ctl.alive
    ensures Inv(cfg, TaskStep(cfg, s, m))
  {
    hide Inv, TaskStep, StepCreate, StepRegister, StepSending, StepClose, StepUnregister, StepDelete, StepPoll;
    var i := Busy(s.pc).value;
    assert i < |s.clients| by { PartsOf(cfg, s); }
    Dispatch(cfg, s, m, i);
    match s.pc
    case Creating(_) => CreateInv(cfg, s, m, i);
    case Registering(_) => RegisterInv(cfg, s, i);
    case Sending(_, now) => SendingInv(cfg, s, m, i, now);
    case Closing(_, ret) => CloseInv(cfg, s, i, ret);
    case Unregistering(_, ret) => UnregisterInv(cfg, s, i, ret);
    case Deleting(_, ret) => DeleteInv(cfg, s, i, ret);
  }

  lemma ServeStepInv(cfg: Config, s: State, m: Move, i: nat)
    requires Inv(cfg, s) && s.pc == Serve(i) && s.ctl.alive
    ensures Inv(cfg, TaskStep(cfg, s, m))
  {
    hide Inv, StepServe, StepPoll;
    if i < |s.clients| && s.clients[i].sock != INVALID_SOCK && s.clients[i].buffer != NULL {
      Dispatch(cfg, s, m, i);
      PollInv(cfg, s, m, i);
    } else {
      ServeInv(cfg, s, i, m);
    }
  }

  /** A task whose structure was freed does nothing the rest of the system could see. */
  lemma DanglingInv(cfg: Config, s: State)
    requires Inv(cfg, s)
    ensures Inv(cfg, s.(flags := s.flags.(dangling := true)))
  {
    hide H.Sound, ClientsOk;
  }

  lemma TaskStepInv(cfg: Config, s: State, m: Move)
    requires Inv(cfg, s)
    ensures Inv(cfg, TaskStep(cfg, s, m))
  {
    hide Inv, StepServe, StepCreate, StepRegister, StepSending, StepClose, StepUnregister, StepDelete, StepAccept, StepReset;
    if s.pc == Idle {
    } else if !s.ctl.alive {
      DanglingInv(cfg, s);
    } else if Busy(s.pc).Some? {
      BusyStepInv(cfg, s, m);
    } else if s.pc.Serve? {
      ServeStepInv(cfg, s, m, s.pc.i);
    } else if s.pc == Reset {
      ResetInv(cfg, s, m);
    } else if s.pc == Accept {
      AcceptInv(cfg, s, m);
    } else if s.pc.Teardown? {
      TeardownInv(cfg, s, m);
    } else {
      ControlMoveInv(cfg, s, m);
    }
  }

  lemma StepInv(cfg: Config, s: State, e: Act)
    requires Inv(cfg, s) && !Step(cfg, s, e).flags.overlap
    ensures Inv(cfg, Step(cfg, s, e))
  {
    hide Inv, TaskStep, ApiStep, H.Step;
    match e
    case Other(x) => OtherStepInv(cfg, s, x);
    case Api(c) => ApiStepInv(cfg, s, c);
    case Task(m) => TaskStepInv(cfg, s, m);
  }

  lemma OverlapStays(cfg: Config, s: State, e: Act)
    requires s.flags.overlap
    ensures Step(cfg, s, e).flags.overlap
  {
    hide H.Step, StepServe, StepCreate, StepRegister, StepSending, StepClose, StepUnregister, StepDelete, StepAccept, StepReset, HoldsSomething;
    if e.Task? && s.ctl.alive && (Busy(s.pc).Some? || s.pc.Serve? || s.pc == Reset || s.pc == Accept) {
      ClientStepFlags(cfg, s, e.m);
    }
  }

  ghost predicate FlagsKept(s: State, s': State) {
    && s'.flags.overlap == s.flags.overlap && s'.flags.dangling == s.flags.dangling
    && s'.ctl == s.ctl && (s.pc != Idle ==> s'.pc != Idle)
    && |s'.clients| == |s.clients|
  }

  lemma HandlerFlags(cfg: Config, s: State, i: nat, m: Move)
    requires i < |s.clients|
    ensures FlagsKept(s, StepCreate(cfg, s, i, m)) && FlagsKept(s, StepRegister(s, i)) && FlagsKept(s, StepPoll(cfg, s, i, m))
    ensures s.pc.Sending? ==> FlagsKept(s, StepSending(cfg, s, i, s.pc.now, m))
  {
    hide Ready, FrameBytes, S.Begin, S.Progress, K.Due, Insert, Served, H.ReceiveBuffer, H.CreateBuffer, H.RegisterBuffer;
  }

  lemma CleanupFlags(s: State, i: nat)
    requires i < |s.clients|
    ensures s.pc.Closing? ==> FlagsKept(s, StepClose(s, i, s.pc.ret))
    ensures s.pc.Unregistering? ==> FlagsKept(s, StepUnregister(s, i, s.pc.ret))
    ensures s.pc.Deleting? ==> FlagsKept(s, StepDelete(s, i, s.pc.ret))
  {
    hide H.UnregisterBuffer, H.DeleteBuffer;
  }

  lemma TableFlags(s: State, m: Move)
    ensures FlagsKept(s, StepReset(s)) && FlagsKept(s, StepAccept(s, m))
  {
    hide FirstFree, HoldsSomething;
  }

  /** The handlers of the task that touch the table leave the flags of the interface alone. */
  lemma ClientStepFlags(cfg: Config, s: State, m: Move)
    requires s.ctl.alive && (Busy(s.pc).Some? || s.pc.Serve? || s.pc == Reset || s.pc == Accept)
    ensures FlagsKept(s, TaskStep(cfg, s, m))
  {
    hide StepReset, StepAccept, StepPoll, StepCreate, StepRegister, StepSending, StepClose, StepUnregister, StepDelete;
    var i := if s.pc.Serve? then s.pc.i else if Busy(s.pc).Some? then Busy(s.pc).value else 0;
    TableFlags(s, m);
    if i < |s.clients| {
      HandlerFlags(cfg, s, i, m);
      CleanupFlags(s, i);
    }
  }

  lemma {:induction false} NoOverlapBefore(cfg: Config, s: State, es: seq<Act>, n: nat)
    requires n <= |es| && !Run(cfg, s, es).flags.overlap
    ensures !Run(cfg, s, es[..n]).flags.overlap
    decreases |es|
  {
    hide Step;
    if n == |es| {
      assert es[..n] == es;
    } else {
      var init := es[..|es| - 1];
      if Run(cfg, s, init).flags.overlap {
        OverlapStays(cfg, Run(cfg, s, init), es[|es| - 1]);
      }
      NoOverlapBefore(cfg, s, init, n);
      assert init[..n] == es[..n];
    }
  }

  /** Every interleaving of loggers, buffer owners, the event loop, the controlling task and the
      server keeps the invariant, as long as no start and no init overlaps an earlier task: no line
      is sent to a deleted buffer, the table and the registry agree, and nothing is lost in a
      restart. */
  lemma {:induction false} RunInv(cfg: Config, es: seq<Act>)
    requires !Run(cfg, Boot(cfg), es).flags.overlap
    ensures Inv(cfg, Run(cfg, Boot(cfg), es))
    decreases |es|
  {
    hide Inv, Step;
    if es == [] {
      BootInv(cfg);
    } else {
      var n := |es| - 1;
      NoOverlapBefore(cfg, Boot(cfg), es, n);
      RunInv(cfg, es[..n]);
      StepInv(cfg, Run(cfg, Boot(cfg), es[..n]), es[n]);
    }
  }

  // ---------------------------------------------------------------- one start per init

  /** With one start per init the stopped bit tells whether the task is gone. */
  ghost predicate StopInv(s: State) {
    && s.ctl.runs <= 1
    && (s.pc != Idle ==> s.ctl.alive && s.ctl.runs == 1 && !s.ctl.stopped)
    && (s.ctl.runs == 0 ==> s.pc == Idle && !s.ctl.stopped && !s.ctl.stopOk)
    && (s.ctl.stopOk ==> s.ctl.stopped)
    && !s.flags.dangling && !s.flags.overlap
  }

  lemma StepStopInv(cfg: Config, s: State, e: Act)
    requires StopInv(s) && cfg.maxRuns <= 1
    ensures StopInv(Step(cfg, s, e))
  {
    hide StepServe, StepCreate, StepRegister, StepSending, StepClose, StepUnregister, StepDelete, StepAccept, StepReset, H.Step, HoldsSomething;
    if e.Task? && s.ctl.alive && (Busy(s.pc).Some? || s.pc.Serve? || s.pc == Reset || s.pc == Accept) {
      ClientStepFlags(cfg, s, e.m);
    }
  }

  lemma {:induction false} RunStopInv(cfg: Config, es: seq<Act>)
    requires cfg.maxRuns <= 1
    ensures StopInv(Run(cfg, Boot(cfg), es))
    decreases |es|
  {
    hide StopInv, Step;
    if es == [] {
      assert StopInv(Boot(cfg)) by { BootStopInv(cfg); }
    } else {
      RunStopInv(cfg, es[..|es| - 1]);
      StepStopInv(cfg, Run(cfg, Boot(cfg), es[..|es| - 1]), es[|es| - 1]);
    }
  }

  lemma BootStopInv(cfg: Config)
    ensures StopInv(Boot(cfg))
  {
  }
}
