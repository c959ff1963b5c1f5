/** What the server does when it is its turn: from every state a run can reach, what one step, or the
    few steps that belong together, make of a connection. The invariant says what never happens; this
    says what does. */
module ServerProgress {
  import opened Prelude
  import opened MessageBuffers
  import opened Registry
  import opened Server
  import opened ServerInvariant
  import opened ServerTheorems
  import H = Hub
  import K = Keepalive
  import S = SocketSend

  /** A state of a run without overlap in which the task, on live structures, is at `pc`. */
  ghost predicate At(cfg: Config, es: seq<Act>, pc: Pc) {
    Reached(cfg, es).pc == pc && Reached(cfg, es).ctl.alive && !Reached(cfg, es).flags.overlap
  }

  /** Only entry i of the table may differ. */
  ghost predicate OthersKept(s: State, t: State, i: nat) {
    && |t.clients| == |s.clients|
    && forall j :: 0 <= j < |s.clients| && j != i ==> t.clients[j] == s.clients[j]
  }

  // ---------------------------------------------------------------- accepting

  /** The step from s to t has dealt with one outcome of accept, j being the first free entry. */
  ghost predicate Accepts(s: State, t: State, outcome: Acceptance, j: nat) {
    && OthersKept(s, t, j) && t.hub == s.hub
    && if j >= |s.clients| then t.clients == s.clients && t.socks == s.socks && t.accepts == s.accepts && t.pc == Serve(0)
       else
         && t.accepts == s.accepts + 1
         && match outcome
            case Connection(fd, nonblocking) =>
              && t.clients[j] == s.clients[j].(sock := fd) && t.socks == s.socks + {fd}
              && t.pc == if nonblocking then Serve(0) else Teardown(0)
            case NoConnection => t.clients == s.clients && t.socks == s.socks && t.pc == Serve(0)
            case AcceptError => t.clients == s.clients && t.socks == s.socks && t.pc == Teardown(0)
  }

  lemma AcceptStep(s: State, outcome: Acceptance, j: nat)
    requires s.pc == Accept && j == FirstFree(s.clients)
    requires outcome.Connection? ==> outcome.fd >= 0 && outcome.fd !in s.socks
    ensures Accepts(s, StepAccept(s, Accepted(outcome)), outcome, j)
  {
    hide FirstFree;
  }

  lemma FirstFreeIs(clients: seq<Client>, j: nat)
    requires j <= |clients| && forall k :: 0 <= k < j ==> clients[k].sock != INVALID_SOCK
    requires j < |clients| ==> clients[j].sock == INVALID_SOCK
    ensures FirstFree(clients) == j
  {
  }

  /** A connection goes into the first free entry and nowhere else; without a free entry none is
      accepted. Failures lead to the teardown. */
  lemma AcceptTakesFirstFree(cfg: Config, es: seq<Act>, outcome: Acceptance, j: nat)
    requires At(cfg, es, Accept)
    requires outcome.Connection? ==> outcome.fd >= 0 && outcome.fd !in Reached(cfg, es).socks
    requires j <= |Reached(cfg, es).clients| && forall k :: 0 <= k < j ==> Reached(cfg, es).clients[k].sock != INVALID_SOCK
    requires j < |Reached(cfg, es).clients| ==> Reached(cfg, es).clients[j].sock == INVALID_SOCK
    ensures Accepts(Reached(cfg, es), Step(cfg, Reached(cfg, es), Task(Accepted(outcome))), outcome, j)
    ensures j < |Reached(cfg, es).clients| ==> Reached(cfg, es).clients[j].buffer == NULL
  {
    hide Inv, Run, TaskStep, StepReset, StepAccept, Accepts, FirstFree, WireOk;
    var s := Reached(cfg, es);
    DispatchTable(cfg, s, Accepted(outcome));
    FirstFreeIs(s.clients, j);
    AcceptStep(s, outcome, j);
    if j < |s.clients| {
      RunInv(cfg, es);
      PartsOf(cfg, s);
      assert ClientOk(cfg, s.hub, s.pc, j, s.clients[j]);
    }
  }

  // ---------------------------------------------------------------- requests

  /** What one request leads to, if the peer has not subscribed yet. */
  lemma RequestIsAnswered(cfg: Config, es: seq<Act>, i: nat, request: Request)
    requires At(cfg, es, Serve(i)) && Waiting(Reached(cfg, es), i)
    ensures var s := Reached(cfg, es);
            var t := Step(cfg, s, Task(Requested(request)));
            && t.clients == s.clients && t.hub == s.hub && t.socks == s.socks && t.ctl == s.ctl && t.flags == s.flags
            && match request
               case NoData => t.pc == Serve(i + 1)
               case PeerClosed => t.pc == Serve(i + 1)
               case ReceiveError => t.pc == Closing(i, ToServe)
               case Page(sentOk) => t.pc == if sentOk then Serve(i + 1) else Closing(i, ToServe)
               case Subscribe => t.pc == Creating(i)
  {
    hide Run, StepPoll, StepSending, StepAccept, StepReset;
  }

  function Gos(n: nat): (es: seq<Act>)
    ensures |es| == n
  {
    if n == 0 then [] else Gos(n - 1) + [Task(Go)]
  }

  lemma RunGos(cfg: Config, s: State, n: nat)
    ensures Run(cfg, s, Gos(n + 1)) == Step(cfg, Run(cfg, s, Gos(n)), Task(Go))
  {
    RunSnoc(cfg, s, Gos(n), Task(Go));
  }

  /** The entry has given up everything, and the buffer it held is gone. */
  ghost predicate Released(s: State, t: State, i: nat) {
    && i < |s.clients| && OthersKept(s, t, i)
    && t.clients[i].sock == INVALID_SOCK && t.clients[i].buffer == NULL
    && t.socks == s.socks - {s.clients[i].sock}
    && s.clients[i].buffer !in t.hub.bufs
    && (s.clients[i].buffer != NULL ==> s.clients[i].buffer !in t.hub.slots)
    && t.ctl == s.ctl && t.flags == s.flags && t.hub.lock == s.hub.lock
  }

  /** Cleanup releases the entry: in two steps without a buffer, in three with one. */
  lemma CleanupReleases(cfg: Config, es: seq<Act>, i: nat, ret: Return)
    requires At(cfg, es, Closing(i, ret)) && Reached(cfg, es).hub.lock == None
    ensures var s := Reached(cfg, es);
            i < |s.clients| &&
            var t := Run(cfg, s, Gos(if s.clients[i].buffer == NULL then 2 else 3));
            Released(s, t, i) && t.pc == Continue(i, ret)
  {
    hide Inv, Run, H.Sound, WireOk;
    var s := Reached(cfg, es);
    RunInv(cfg, es);
    PartsOf(cfg, s);
    OwnersOf(cfg, s, i);
    SoundDistinct(s.hub, Held(s.clients));
    CleanupSteps(cfg, s, i, ret);
  }

  lemma CleanupSteps(cfg: Config, s: State, i: nat, ret: Return)
    requires s.pc == Closing(i, ret) && s.ctl.alive && s.hub.lock == None && i < |s.clients|
    requires NULL !in s.hub.bufs && Distinct(s.hub.slots)
    ensures var t := Run(cfg, s, Gos(if s.clients[i].buffer == NULL then 2 else 3));
            Released(s, t, i) && t.pc == Continue(i, ret)
  {
    hide Run, TaskStep, Distinct, Remove, Gos;
    var h := s.clients[i].buffer;
    Dispatch(cfg, s, Go, i);
    var s1 := StepClose(s, i, ret);
    Dispatch(cfg, s1, Go, i);
    var s2 := StepUnregister(s1, i, ret);
    assert Run(cfg, s, Gos(2)) == s2 by { TwoGos(cfg, s); }
    if h != NULL {
      RemoveKeepsDistinct(s.hub.slots, h);
      Dispatch(cfg, s2, Go, i);
      RunGos(cfg, s, 2);
      var s3 := StepDelete(s2, i, ret);
      assert Run(cfg, s, Gos(3)) == s3;
    }
  }

  lemma TwoGos(cfg: Config, s: State)
    ensures Run(cfg, s, Gos(2)) == Step(cfg, Step(cfg, s, Task(Go)), Task(Go))
  {
    hide Step;
    RunGos(cfg, s, 0);
    RunGos(cfg, s, 1);
  }

  /** A peer whose socket fails, or who cannot be answered, is closed in three steps. */
  lemma FailedPeerIsClosed(cfg: Config, es: seq<Act>, i: nat, request: Request)
    requires At(cfg, es, Serve(i)) && Waiting(Reached(cfg, es), i) && Reached(cfg, es).hub.lock == None
    requires request == ReceiveError || request == Page(false)
    ensures var s := Reached(cfg, es);
            var t := Run(cfg, s, [Task(Requested(request))] + Gos(2));
            Released(s, t, i) && t.pc == Serve(i + 1)
  {
    hide Run, Step;
    var s, e := Reached(cfg, es), Task(Requested(request));
    RequestIsAnswered(cfg, es, i, request);
    RunConcat(cfg, s, [e], Gos(2));
    OneStep(cfg, s, e);
    ReachedSnoc(cfg, es, e);
    CleanupReleases(cfg, es + [e], i, ToServe);
  }

  lemma OneStep(cfg: Config, s: State, e: Act)
    ensures Run(cfg, s, [e]) == Step(cfg, s, e)
  {
    RunSnoc(cfg, s, [], e);
    assert [] + [e] == [e];
    hide Step;
  }

  lemma ReachedSnoc(cfg: Config, es: seq<Act>, e: Act)
    ensures Reached(cfg, es + [e]) == Step(cfg, Reached(cfg, es), e)
  {
    RunSnoc(cfg, Boot(cfg), es, e);
    hide Step;
  }

  // ---------------------------------------------------------------- subscribing

  /** A subscription, with the buffer the allocator returns and the mutex free. */
  function Subscribing(h: Handle): seq<Act> {
    [Task(Requested(Request.Subscribe)), Task(Allocated(h)), Task(Go)]
  }

  lemma ThreeMore(cfg: Config, s: State, a: Act, b: Act, c: Act)
    ensures Run(cfg, s, [a, b, c]) == Step(cfg, Step(cfg, Step(cfg, s, a), b), c)
    ensures Run(cfg, s, [a, b]) == Step(cfg, Step(cfg, s, a), b)
  {
    hide Step;
    OneStep(cfg, s, a);
    RunSnoc(cfg, s, [a], b);
    RunSnoc(cfg, s, [a, b], c);
    assert [a] + [b] == [a, b] && [a, b] + [c] == [a, b, c];
  }

  /** A subscription creates an empty buffer of the configured size and registers it from the present
      end of the log on, if there is an empty slot; else the entry goes to cleanup with it. */
  lemma SubscriptionRegisters(cfg: Config, es: seq<Act>, i: nat, h: Handle)
    requires At(cfg, es, Serve(i)) && Waiting(Reached(cfg, es), i) && Reached(cfg, es).hub.lock == None
    requires h != NULL && h !in Reached(cfg, es).hub.bufs
    ensures var s := Reached(cfg, es);
            var t := Run(cfg, s, Subscribing(h));
            && OthersKept(s, t, i) && t.socks == s.socks && t.hub.log == s.hub.log && t.hub.lock == None
            && t.clients[i].sock == s.clients[i].sock && t.clients[i].buffer == h
            && t.clients[i].done == [] && t.clients[i].polls == [] && t.clients[i].flight == None
            && h in t.hub.bufs && t.hub.bufs[h].size == cfg.bufferSize && t.hub.bufs[h].queue == []
            && if NULL in s.hub.slots then
                 && h in t.hub.slots && t.hub.bufs[h].since == Some(|s.hub.log|)
                 && t.clients[i].lastActivity == 0 && t.pc == Serve(i + 1)
               else h !in t.hub.slots && t.pc == Closing(i, ToServe)
  {
    hide Inv, Run, H.Sound, Step;
    var s := Reached(cfg, es);
    RunInv(cfg, es);
    PartsOf(cfg, s);
    H.RegisteredLive(s.hub, Held(s.clients));
    RequestIsAnswered(cfg, es, i, Request.Subscribe);
    ThreeMore(cfg, s, Task(Requested(Request.Subscribe)), Task(Allocated(h)), Task(Go));
    CreateAndRegister(cfg, Step(cfg, s, Task(Requested(Request.Subscribe))), i, h);
  }

  lemma CreateAndRegister(cfg: Config, s: State, i: nat, h: Handle)
    requires s.pc == Creating(i) && s.ctl.alive && i < |s.clients| && s.hub.lock == None
    requires h != NULL && h !in s.hub.bufs && h !in s.hub.slots
    ensures var t := Step(cfg, Step(cfg, s, Task(Allocated(h))), Task(Go));
            && OthersKept(s, t, i) && t.socks == s.socks && t.hub.log == s.hub.log && t.hub.lock == None
            && t.clients[i].sock == s.clients[i].sock && t.clients[i].buffer == h
            && t.clients[i].done == [] && t.clients[i].polls == [] && t.clients[i].flight == None
            && h in t.hub.bufs && t.hub.bufs[h].size == cfg.bufferSize && t.hub.bufs[h].queue == []
            && if NULL in s.hub.slots then
                 && h in t.hub.slots && t.hub.bufs[h].since == Some(|s.hub.log|)
                 && t.clients[i].lastActivity == 0 && t.pc == Serve(i + 1)
               else h !in t.hub.slots && t.pc == Closing(i, ToServe)
  {
    hide TaskStep, Insert;
    Dispatch(cfg, s, Allocated(h), i);
    var s1 := StepCreate(cfg, s, i, Allocated(h));
    Dispatch(cfg, s1, Go, i);
    InsertIff(s.hub.slots, h);
    InsertFrame(s.hub.slots, h);
  }

  /** Without memory for a buffer the entry goes to cleanup. */
  lemma NoMemoryNoSubscription(cfg: Config, es: seq<Act>, i: nat)
    requires At(cfg, es, Creating(i))
    ensures var s := Reached(cfg, es);
            var t := Step(cfg, s, Task(Allocated(NULL)));
            t.clients == s.clients && t.hub == s.hub && t.pc == Closing(i, ToServe)
  {
    hide Inv, Run, TaskStep, H.Sound;
    var s := Reached(cfg, es);
    RunInv(cfg, es);
    PartsOf(cfg, s);
    OwnersOf(cfg, s, i);
    Dispatch(cfg, s, Allocated(NULL), i);
  }

  // ---------------------------------------------------------------- streaming

  /** A client with a registered buffer whose turn it is. */
  ghost predicate Subscribed(s: State, i: nat) {
    i < |s.clients| && s.clients[i].sock != INVALID_SOCK && s.clients[i].buffer != NULL
  }

  /** A poll takes the oldest waiting line out of the buffer, if it fits the server's destination, and
      begins its frame. Otherwise the buffer stays as it is, and the frame of a keepalive is begun if
      one is due. */
  lemma PollTakesTheLine(cfg: Config, es: seq<Act>, i: nat, now: nat)
    requires At(cfg, es, Serve(i)) && Subscribed(Reached(cfg, es), i) && now < K.WRAP
    ensures var s := Reached(cfg, es);
            var t := Step(cfg, s, Task(Polled(now)));
            var h := s.clients[i].buffer;
            && OthersKept(s, t, i) && h in s.hub.bufs && h in t.hub.bufs && t.hub.log == s.hub.log
            && t.clients[i].done == s.clients[i].done && t.clients[i].wire == s.clients[i].wire
            && var b, b' := s.hub.bufs[h], t.hub.bufs[h];
            if b.queue != [] && |Message(s.hub.log, b.queue[0])| <= cfg.maxLength then
              && b'.received == b.received + [b.queue[0]] && b'.queue == b.queue[1..]
              && Begins(cfg, t, i, LogLine(b.queue[0], now))
            else
              && t.hub == s.hub
              && if K.Due(now, s.clients[i].lastActivity, cfg.period) then Begins(cfg, t, i, KeepAlive(now))
                 else t.pc == Serve(i + 1) && t.clients[i].flight == s.clients[i].flight
  {
    hide Inv, Run, TaskStep, H.Sound, K.Due, FrameBytes, S.Begin, WireOk;
    var s := Reached(cfg, es);
    HeldIsLive(cfg, s, i) by { RunInv(cfg, es); }
    Dispatch(cfg, s, Polled(now), i);
  }

  /** The frame f is under way to client i, from its first byte on. */
  ghost predicate Begins(cfg: Config, t: State, i: nat, f: Sent)
    requires i < |t.clients|
  {
    t.pc == Sending(i, f.tick) && t.clients[i].flight == Some(Flight(f, S.Begin(FrameBytes(cfg, t.hub.log, f))))
  }

  function Sendings(results: seq<S.Result>): (es: seq<Act>)
    ensures |es| == |results|
  {
    if results == [] then [] else Sendings(results[..|results| - 1]) + [Task(Sends(results[|results| - 1]))]
  }

  /** Each of the results is asked for: the loop has not ended before. */
  ghost predicate Asked(t: S.Transfer, results: seq<S.Result>, stall: nat) {
    forall k :: 0 <= k < |results| ==> S.Pending(S.Transmit(t, results[..k], stall))
  }

  /** The state with the frame under way on client i as far as t. */
  function WithTransfer(s: State, i: nat, t: S.Transfer): State
    requires i < |s.clients| && s.clients[i].flight.Some?
  {
    s.(clients := s.clients[i := s.clients[i].(flight := Some(s.clients[i].flight.value.(transfer := t)))])
  }

  lemma SameTransfer(s: State, i: nat)
    requires i < |s.clients| && s.clients[i].flight.Some?
    ensures WithTransfer(s, i, s.clients[i].flight.value.transfer) == s
  {
    assert s.clients[i := s.clients[i]] == s.clients;
  }

  lemma SendStep(cfg: Config, s: State, i: nat, now: nat, t: S.Transfer, r: S.Result)
    requires s.pc == Sending(i, now) && s.ctl.alive && i < |s.clients| && s.clients[i].flight.Some? && S.Pending(t)
    ensures Step(cfg, WithTransfer(s, i, t), Task(Sends(r))) == WithTransfer(s, i, S.Progress(t, r, cfg.stall))
  {
    hide TaskStep, S.Progress;
    Dispatch(cfg, WithTransfer(s, i, t), Sends(r), i);
  }

  lemma {:induction false} SendsTransmit(cfg: Config, s: State, i: nat, now: nat, results: seq<S.Result>)
    requires s.pc == Sending(i, now) && s.ctl.alive && i < |s.clients| && s.clients[i].flight.Some?
    requires Asked(s.clients[i].flight.value.transfer, results, cfg.stall)
    ensures Run(cfg, s, Sendings(results)) ==
            WithTransfer(s, i, S.Transmit(s.clients[i].flight.value.transfer, results, cfg.stall))
    decreases |results|
  {
    hide Step, S.Progress, WithTransfer;
    var first := s.clients[i].flight.value.transfer;
    if results == [] {
      SameTransfer(s, i);
    } else {
      var n := |results| - 1;
      var init, r := results[..n], results[n];
      assert Asked(first, init, cfg.stall) && S.Pending(S.Transmit(first, init, cfg.stall)) by {
        assert forall k :: 0 <= k <= n ==> init[..k] == results[..k];
        assert init[..n] == init;
      }
      hide S.Transmit, Asked;
      SendsTransmit(cfg, s, i, now, init);
      RunSnoc(cfg, s, Sendings(init), Task(Sends(r)));
      SendStep(cfg, s, i, now, S.Transmit(first, init, cfg.stall), r);
      S.TransmitAppend(first, init, r, cfg.stall);
      assert init + [r] == results;
    }
  }

  /** The frame is on the wire, and the client is served again later. */
  ghost predicate Delivered(s: State, t: State, i: nat, f: Sent, bytes: string) {
    && OthersKept(s, t, i) && i < |t.clients| && t.pc == Serve(i + 1)
    && t.clients[i].done == s.clients[i].done + [f] && t.clients[i].wire == s.clients[i].wire + bytes
    && t.clients[i].lastActivity == f.tick && t.clients[i].flight == None
    && t.clients[i].sock == s.clients[i].sock && t.clients[i].buffer == s.clients[i].buffer
  }

  /** When the sends end the loop, the frame is delivered, or the client is cleaned up if one failed. */
  lemma SendsDeliver(cfg: Config, s: State, i: nat, now: nat, results: seq<S.Result>)
    requires s.pc == Sending(i, now) && s.ctl.alive && i < |s.clients| && s.clients[i].flight.Some?
    requires s.clients[i].flight.value.frame.tick == now
    requires Asked(s.clients[i].flight.value.transfer, results, cfg.stall)
    ensures var f := s.clients[i].flight.value;
            var u := S.Transmit(f.transfer, results, cfg.stall);
            var t := Run(cfg, s, Sendings(results) + [Task(Go)]);
            !S.Pending(u) ==>
              t.hub == s.hub && if u.failed then t.pc == Closing(i, ToServe) else Delivered(s, t, i, f.frame, u.sent)
  {
    hide TaskStep, S.Transmit;
    SendsTransmit(cfg, s, i, now, results);
    hide Run;
    var t := Run(cfg, s, Sendings(results));
    RunSnoc(cfg, s, Sendings(results), Task(Go));
    Dispatch(cfg, t, Go, i);
  }

  /** A line waiting for a client is delivered in the client's turn: the poll takes it, and the socket
      takes in its frame, in whatever pieces. */
  lemma WaitingLineIsDelivered(cfg: Config, es: seq<Act>, i: nat, now: nat, pieces: seq<S.Result>)
    requires At(cfg, es, Serve(i)) && Subscribed(Reached(cfg, es), i) && now < K.WRAP
    requires var s := Reached(cfg, es);
             var h := s.clients[i].buffer;
             h in s.hub.bufs ==>
               && s.hub.bufs[h].queue != [] && |Message(s.hub.log, s.hub.bufs[h].queue[0])| <= cfg.maxLength
               && S.Partials(pieces) && S.Total(pieces) == |FrameBytes(cfg, s.hub.log, LogLine(s.hub.bufs[h].queue[0], now))|
    ensures var s := Reached(cfg, es);
            var t := Run(cfg, s, [Task(Polled(now))] + (Sendings(pieces) + [Task(Go)]));
            var h := s.clients[i].buffer;
            && h in s.hub.bufs && s.hub.bufs[h].queue != []
            && var m := s.hub.bufs[h].queue[0];
            && Delivered(s, t, i, LogLine(m, now), FrameBytes(cfg, s.hub.log, LogLine(m, now)))
            && h in t.hub.bufs && t.hub.bufs[h].queue == s.hub.bufs[h].queue[1..]
  {
    hide Inv, Run, Step, H.Sound, S.Transmit, S.Partials, S.Total, FrameBytes, K.Due, Sendings;
    var s := Reached(cfg, es);
    PollTakesTheLine(cfg, es, i, now);
    var f := LogLine(s.hub.bufs[s.clients[i].buffer].queue[0], now);
    var bytes := FrameBytes(cfg, s.hub.log, f);
    S.EverySplitEnds(S.Begin(bytes), pieces, cfg.stall);
    S.EverySplitDelivers(bytes, pieces, cfg.stall);
    OneStep(cfg, s, Task(Polled(now)));
    RunConcat(cfg, s, [Task(Polled(now))], Sendings(pieces) + [Task(Go)]);
    PollFlags(cfg, s, i, now);
    hide S.Begin;
    SendsDeliver(cfg, Step(cfg, s, Task(Polled(now))), i, now, pieces);
  }

  lemma PollFlags(cfg: Config, s: State, i: nat, now: nat)
    requires s.pc == Serve(i) && s.ctl.alive && Subscribed(s, i)
    ensures var t := Step(cfg, s, Task(Polled(now)));
            t.ctl.alive && i < |t.clients| && t.clients[i].sock == s.clients[i].sock && t.clients[i].buffer == s.clients[i].buffer
  {
    hide TaskStep, Ready, H.ReceiveBuffer, K.Due, FrameBytes, S.Begin;
    Dispatch(cfg, s, Polled(now), i);
  }

  // ---------------------------------------------------------------- stopping

  /** Left alone from s on, the task comes to its end: it holds nothing and the stopped bit is set. */
  ghost predicate Ends(cfg: Config, s: State) {
    exists n :: EndsIn(cfg, s, n)
  }

  ghost predicate EndsIn(cfg: Config, s: State, n: nat) {
    var t := Run(cfg, s, Gos(n));
    t.pc == Idle && t.ctl.stopped && t.socks == {} && forall i :: 0 <= i < |t.clients| ==> t.clients[i].buffer == NULL
  }

  lemma {:induction false} GosConcat(m: nat, n: nat)
    ensures Gos(m + n) == Gos(m) + Gos(n)
  {
    if n > 0 {
      GosConcat(m, n - 1);
    } else {
      assert Gos(m) + [] == Gos(m);
    }
  }

  lemma EndsLater(cfg: Config, s: State, k: nat)
    requires Ends(cfg, Run(cfg, s, Gos(k)))
    ensures Ends(cfg, s)
  {
    hide Run;
    var n: nat :| EndsIn(cfg, Run(cfg, s, Gos(k)), n);
    GosConcat(k, n);
    RunConcat(cfg, s, Gos(k), Gos(n));
    assert EndsIn(cfg, s, k + n);
  }

  /** What the steps below ask of the state they start from. */
  ghost predicate ToldToStop(s: State) {
    s.ctl.alive && !s.ctl.taskRun && s.hub.lock == None && !s.flags.overlap
  }

  lemma OuterEnds(cfg: Config, es: seq<Act>)
    requires Reached(cfg, es).pc == Outer && ToldToStop(Reached(cfg, es))
    ensures Ends(cfg, Reached(cfg, es))
  {
    hide Inv, Run, StepServe, StepSending, StepAccept, StepReset, H.Sound;
    var s := Reached(cfg, es);
    RunInv(cfg, es);
    PartsOf(cfg, s);
    TwoGos(cfg, s);
    assert EndsIn(cfg, s, 2);
  }

  lemma GoToClosing(cfg: Config, s: State, i: nat)
    requires s.pc == Teardown(i) && s.ctl.alive
    ensures Step(cfg, s, Task(Go)) == s.(pc := if i < |s.clients| then Closing(i, ToTeardown) else Outer)
  {
    hide StepServe, StepSending, StepAccept, StepReset;
  }

  lemma {:induction false} TeardownEnds(cfg: Config, es: seq<Act>, i: nat)
    requires Reached(cfg, es).pc == Teardown(i) && ToldToStop(Reached(cfg, es))
    ensures Ends(cfg, Reached(cfg, es))
    decreases |Reached(cfg, es).clients| - i
  {
    hide Run, Step, Ends, Gos;
    var s := Reached(cfg, es);
    GoToClosing(cfg, s, i);
    ReachedSnoc(cfg, es, Task(Go));
    var es' := es + [Task(Go)];
    assert Run(cfg, s, Gos(1)) == Reached(cfg, es') by { OneGo(cfg, s); }
    if i < |s.clients| {
      var k := if s.clients[i].buffer == NULL then 2 else 3;
      CleanupReleases(cfg, es', i, ToTeardown);
      RunConcat(cfg, Boot(cfg), es', Gos(k));
      TeardownEnds(cfg, es' + Gos(k), i + 1);
      EndsLater(cfg, Reached(cfg, es'), k);
    } else {
      OuterEnds(cfg, es');
    }
    EndsLater(cfg, s, 1);
  }

  lemma OneGo(cfg: Config, s: State)
    ensures Run(cfg, s, Gos(1)) == Step(cfg, s, Task(Go))
  {
    RunGos(cfg, s, 0);
    hide Step;
  }

  lemma LeavesLoop(cfg: Config, s: State)
    requires s.ctl.alive && (s.pc == Inner || s.pc == CheckNet)
    ensures s.pc == Inner && !s.ctl.taskRun ==> Step(cfg, s, Task(Go)) == s.(pc := Teardown(0))
    ensures s.pc == CheckNet ==>
              Step(cfg, s, Task(Go)) == if s.ctl.net then s.(ctl := s.ctl.(net := false), pc := Teardown(0)) else s.(pc := Inner)
  {
    hide StepServe, StepSending, StepAccept, StepReset;
  }

  /** A task that is told to stop ends by itself: from between two turns of its loops, with the mutex
      free and nobody else running, it closes every client, unregisters and deletes every buffer of
      its own, and sets the stopped bit for which stop waits. */
  lemma StopTakesEffect(cfg: Config, es: seq<Act>)
    requires ToldToStop(Reached(cfg, es)) && Reached(cfg, es).pc in {Outer, Inner, CheckNet, Teardown(0)}
    ensures Ends(cfg, Reached(cfg, es))
  {
    hide Run, Step, Ends, Gos;
    var s := Reached(cfg, es);
    if s.pc == Outer {
      OuterEnds(cfg, es);
    } else if s.pc == Teardown(0) {
      TeardownEnds(cfg, es, 0);
    } else {
      var es' := es + [Task(Go)];
      LeavesLoop(cfg, s);
      ReachedSnoc(cfg, es, Task(Go));
      assert Run(cfg, s, Gos(1)) == Reached(cfg, es') by { OneGo(cfg, s); }
      if s.pc == CheckNet && !s.ctl.net {
        StopTakesEffectInside(cfg, es');
      } else {
        TeardownEnds(cfg, es', 0);
      }
      EndsLater(cfg, s, 1);
    }
  }

  lemma StopTakesEffectInside(cfg: Config, es: seq<Act>)
    requires ToldToStop(Reached(cfg, es)) && Reached(cfg, es).pc == Inner
    ensures Ends(cfg, Reached(cfg, es))
  {
    hide Run, Step, Ends, Gos;
    var s := Reached(cfg, es);
    LeavesLoop(cfg, s);
    ReachedSnoc(cfg, es, Task(Go));
    assert Run(cfg, s, Gos(1)) == Reached(cfg, es + [Task(Go)]) by { OneGo(cfg, s); }
    TeardownEnds(cfg, es + [Task(Go)], 0);
    EndsLater(cfg, s, 1);
  }

  /** When the calls that make a listener succeed a new one is in use, with the event bit cleared; when
      one fails the outer loop goes round. */
  lemma ListenerIsSetUp(cfg: Config, es: seq<Act>, works: bool)
    requires At(cfg, es, Setup)
    ensures var s := Reached(cfg, es);
            var t := Step(cfg, s, Task(SetupDone(works)));
            if works then t.gen == s.gen + 1 && Step(cfg, t, Task(Go)).pc == Inner && !Step(cfg, t, Task(Go)).ctl.net
            else t == s.(pc := Outer)
  {
    hide Run, StepServe, StepSending, StepAccept, StepReset;
  }
}
