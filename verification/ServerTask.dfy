/** The server task as the program it is (src/builtin_sse_server/sse_server.c): nested loops over a
    client table changed in place. Every method is proved to follow the step relation of module
    Server: `trace` is the run that has led to the present state, so everything proved of runs
    holds at each point of this program, whatever the other tasks do between its steps. */
module ServerTask {
  import opened Prelude
  import opened MessageBuffers
  import opened Registry
  import opened Server
  import opened ServerInvariant
  import H = Hub
  import K = Keepalive
  import S = SocketSend
  import T = ServerTheorems

  class SseServer {
    const cfg: Config
    const client: array<Client>
    var hub: H.Hub
    var ctl: Control
    var socks: set<int>
    var startCount: nat
    ghost var pc: Pc
    ghost var gen: nat
    ghost var accepts: nat
    ghost var count: Counts
    ghost var flags: Flags
    ghost var trace: seq<Act>

    ghost function Now(): State
      reads this, client
    {
      State(hub, ctl, client[..], socks, pc, startCount, gen, accepts, count, flags)
    }

    /** The state is the one to which the recorded run leads. */
    ghost predicate Follows()
      reads this, client
    {
      client.Length == cfg.clients && Now() == Run(cfg, Boot(cfg), trace)
    }

    ghost predicate Valid()
      reads this, client
    {
      Follows() && (pc != Idle ==> ctl.alive) && !flags.dangling && !flags.overlap
    }

    constructor (cfg: Config)
      ensures Valid() && fresh(client) && this.cfg == cfg && trace == [] && pc == Idle
    {
      this.cfg := cfg;
      client := new Client[cfg.clients](_ => ZEROED);
      hub := H.EMPTY;
      ctl := Control(false, false, false, false, 0, false);
      socks, startCount := {}, 0;
      pc, gen, accepts, trace := Idle, 0, 0, [];
      count, flags := Counts(0, 0, 0, 0), Flags(false, false, false);
      new;
      assert client[..] == seq(cfg.clients, _ => ZEROED);
    }

    /** Records one step of the run that the code has just carried out. */
    ghost method Commit(before: State, e: Act)
      requires client.Length == cfg.clients
      requires before == Run(cfg, Boot(cfg), trace) && Now() == Step(cfg, before, e)
      modifies this`trace
      ensures Follows() && trace == old(trace) + [e]
    {
      T.RunSnoc(cfg, Boot(cfg), trace, e);
      trace := trace + [e];
    }

    lemma Facts()
      requires Valid()
      ensures Inv(cfg, Now())
    {
      RunInv(cfg, trace);
    }

    // -------------------------------------------------------------- the other tasks

    /** Any number of steps of other tasks. None of them can restart a task that was told to stop or
        take back a signal, and none frees the server while its task is alive: when that cannot
        happen is the subject of `DeinitIsSafeIff`. */
    method Yield()
      requires Valid() && pc != Idle
      modifies this`hub, this`ctl, this`trace
      ensures Valid() && (!old(ctl.taskRun) ==> !ctl.taskRun) && (old(ctl.net) ==> ctl.net)
    {
      hide Run, Boot, H.Step, Inv, TaskStep;
      var n: nat := *;
      while n > 0
        invariant Valid() && (!old(ctl.taskRun) ==> !ctl.taskRun) && (old(ctl.net) ==> ctl.net)
      {
        ghost var before := Now();
        var x: H.Event := *;
        var signal: bool, stop: bool, wait: bool := *, *, *;
        if signal {
          ctl := ctl.(net := ctl.net || ctl.alive);
          Commit(before, Api(NetChanged));
        } else if stop {
          RequestStop();
        } else if wait {
          ctl := ctl.(stopOk := ctl.stopOk || ctl.stopped);
          Commit(before, Api(WaitOk));
        } else {
          hub := H.Step(hub, x);
          Commit(before, Other(x));
        }
        n := n - 1;
      }
    }

    /** The part of stop that another task carries out. */
    method RequestStop()
      requires Valid() && pc != Idle
      modifies this`ctl, this`trace
      ensures Valid() && ctl == old(ctl).(taskRun := false)
    {
      hide Run, Boot, Inv, TaskStep;
      ghost var before := Now();
      ctl := ctl.(taskRun := false);
      Commit(before, Api(Stop));
    }

    /** Waits for the mutex: whoever holds it finishes its fan-out. */
    method AwaitMutex()
      requires Valid()
      modifies this`hub, this`trace
      ensures Valid() && hub.lock == None
    {
      hide Run, Boot, Registry.OfferTo, TaskStep;
      while hub.lock != None
        invariant Valid()
        decreases if hub.lock == None then 0 else if hub.lock.value < |hub.slots| then 1 + |hub.slots| - hub.lock.value else 1
      {
        ghost var before := Now();
        hub := H.Step(hub, H.FanStep);
        Commit(before, Other(H.FanStep));
      }
    }

    // -------------------------------------------------------------- one client

    method CloseSocket(i: nat, ghost ret: Return)
      requires Valid() && i < client.Length && pc == Closing(i, ret)
      modifies this`socks, this`count, this`pc, this`trace, client
      ensures Valid() && pc == Unregistering(i, ret) && count.closed == old(count.closed) + if old(client[i]).sock != INVALID_SOCK then 1 else 0
      ensures client[..] == old(client[..])[i := old(client[i]).(sock := INVALID_SOCK)]
    {
      hide Run, Boot, Inv, TaskStep;
      ghost var before := Now();
      count := if client[i].sock != INVALID_SOCK then count.(closed := count.closed + 1) else count;
      socks := socks - {client[i].sock};
      client[i] := client[i].(sock := INVALID_SOCK);
      pc := Unregistering(i, ret);
      assert Step(cfg, before, Task(Go)) == StepClose(before, i, ret) by { Dispatch(cfg, before, Go, i); }
      Commit(before, Task(Go));
    }

    method UnregisterClient(i: nat, ghost ret: Return)
      requires Valid() && i < client.Length && pc == Unregistering(i, ret) && client[i].buffer != NULL
      modifies this`hub, this`ctl, this`pc, this`trace
      ensures Valid() && pc == Deleting(i, ret) && (!old(ctl.taskRun) ==> !ctl.taskRun)
    {
      hide Run, Boot, Inv, TaskStep, H.UnregisterBuffer;
      Yield();
      AwaitMutex();
      ghost var before := Now();
      hub := H.UnregisterBuffer(hub, client[i].buffer);
      pc := Deleting(i, ret);
      assert Step(cfg, before, Task(Go)) == StepUnregister(before, i, ret) by { Dispatch(cfg, before, Go, i); }
      Commit(before, Task(Go));
    }

    method DeleteClient(i: nat, ghost ret: Return)
      requires Valid() && i < client.Length && pc == Deleting(i, ret)
      modifies this`hub, this`ctl, this`pc, this`count, this`trace, client
      ensures Valid() && pc == Continue(i, ret) && (!old(ctl.taskRun) ==> !ctl.taskRun)
      ensures client[..] == old(client[..])[i := old(client[i]).(buffer := NULL)]
    {
      hide Run, Boot, Inv, TaskStep, H.DeleteBuffer;
      Yield();
      ghost var before := Now();
      hub := H.DeleteBuffer(hub, client[i].buffer);
      client[i] := client[i].(buffer := NULL);
      count := count.(deleted := count.deleted + 1);
      pc := Continue(i, ret);
      assert Step(cfg, before, Task(Go)) == StepDelete(before, i, ret) by { Dispatch(cfg, before, Go, i); }
      Commit(before, Task(Go));
    }

    method CleanupClient(i: nat, ghost ret: Return)
      requires Valid() && i < client.Length && pc == Closing(i, ret)
      modifies this, client
      ensures Valid() && pc == Continue(i, ret) && (!old(ctl.taskRun) ==> !ctl.taskRun)
      ensures client[..] == old(client[..])[i := old(client[i]).(sock := INVALID_SOCK, buffer := NULL)]
      ensures startCount == old(startCount) && accepts == old(accepts) && gen == old(gen)
    {
      hide Run, Boot, Inv, TaskStep;
      CloseSocket(i, ret);
      if client[i].buffer != NULL {
        UnregisterClient(i, ret);
        DeleteClient(i, ret);
      } else {
        ghost var before := Now();
        pc := Continue(i, ret);
        assert Step(cfg, before, Task(Go)) == StepUnregister(before, i, ret) by { Dispatch(cfg, before, Go, i); }
        Commit(before, Task(Go));
      }
    }

    /** One send() on the frame under way. */
    method SendOnce(i: nat, now: nat, r: S.Result)
      requires Valid() && i < client.Length && pc == Sending(i, now)
      requires client[i].flight.Some? && S.Pending(client[i].flight.value.transfer)
      modifies this`hub, this`ctl, this`trace, client
      ensures Valid() && (!old(ctl.taskRun) ==> !ctl.taskRun)
      ensures client[..] == old(client[..])[i := client[i]]
      ensures var f := old(client[i]).flight.value;
              client[i] == old(client[i]).(flight := Some(f.(transfer := S.Progress(f.transfer, r, cfg.stall))))
      ensures S.Shrinks(old(client[i]).flight.value.transfer, client[i].flight.value.transfer, r)
    {
      hide Run, Boot, Inv, TaskStep, S.Progress, S.Shrinks;
      Yield();
      ghost var before := Now();
      var f := client[i].flight.value;
      S.ProgressShrinks(f.transfer, r, cfg.stall);
      client[i] := client[i].(flight := Some(f.(transfer := S.Progress(f.transfer, r, cfg.stall))));
      assert Now() == Step(cfg, before, Task(Sends(r))) by { Dispatch(cfg, before, Sends(r), i); }
      Commit(before, Task(Sends(r)));
    }

    /** The frame under way on a connection has become the last one sent. */
    ghost predicate SentWhole(c: Client, c': Client, now: nat) {
      && c.flight.Some? && c'.flight == None && c'.lastActivity == now
      && c'.done == c.done + [c.flight.value.frame]
    }

    /** The bookkeeping behind the loop. */
    method FinishFrame(i: nat, now: nat) returns (ok: bool)
      requires Valid() && i < client.Length && pc == Sending(i, now)
      requires client[i].flight.Some? && !S.Pending(client[i].flight.value.transfer)
      modifies this`hub, this`ctl, this`pc, this`trace, client
      ensures Valid() && (!old(ctl.taskRun) ==> !ctl.taskRun)
      ensures if ok then pc == Serve(i + 1) else pc == Closing(i, ToServe)
      ensures forall j :: 0 <= j < client.Length ==> client[j].sock == old(client[j].sock) && client[j].buffer == old(client[j].buffer)
      ensures if ok then SentWhole(old(client[i]), client[i], now) else client[i] == old(client[i])
    {
      hide Run, Boot, Inv, TaskStep, S.Progress, StepPoll, StepCreate, StepRegister, StepClose, StepUnregister, StepDelete;
      Yield();
      ghost var before := Now();
      var f := client[i].flight.value;
      ok := !f.transfer.failed;
      if ok {
        var c := client[i];
        client[i] := c.(done := c.done + [f.frame], wire := c.wire + f.transfer.sent,
                        stalls := c.stalls + f.transfer.blocks, flight := None, lastActivity := now);
        pc := Serve(i + 1);
      } else {
        pc := Closing(i, ToServe);
      }
      assert Now() == Step(cfg, before, Task(Go)) by { Dispatch(cfg, before, Go, i); }
      Commit(before, Task(Go));
    }

    /** socket_send for the frame under way on client i. `patience` bounds the sends without progress,
        so that the loop ends; a peer that stalls forever is a run this program does not end. */
    method SendFrame(i: nat, now: nat) returns (ok: bool)
      requires Valid() && i < client.Length && pc == Sending(i, now)
      modifies this`hub, this`ctl, this`pc, this`trace, client
      ensures Valid() && (!old(ctl.taskRun) ==> !ctl.taskRun)
      ensures if ok then pc == Serve(i + 1) else pc == Closing(i, ToServe)
      ensures forall j :: 0 <= j < client.Length ==> client[j].sock == old(client[j].sock) && client[j].buffer == old(client[j].buffer)
      ensures old(client[i]).flight.Some?
      ensures if ok then SentWhole(old(client[i]), client[i], now)
              else client[i].done == old(client[i]).done && client[i].flight.Some?
                   && client[i].flight.value.frame == old(client[i]).flight.value.frame
    {
      hide Run, Boot, Inv, TaskStep, S.Progress, StepSending;
      var patience: nat := *;
      SendingFacts(i, now);
      while S.Pending(client[i].flight.value.transfer)
        invariant Valid() && pc == Sending(i, now) && (!old(ctl.taskRun) ==> !ctl.taskRun)
        invariant client[i].flight.Some? && client[i].done == old(client[i]).done
        invariant client[i].flight.value.frame == old(client[i]).flight.value.frame
        invariant forall j :: 0 <= j < client.Length ==> client[j].sock == old(client[j].sock) && client[j].buffer == old(client[j].buffer)
        decreases if client[i].flight.value.transfer.failed then 0 else 1, patience, client[i].flight.value.transfer.toWrite
      {
        var r: S.Result := *;
        var advances := r.Wrote? && 0 < |r.memory| <= client[i].flight.value.transfer.toWrite;
        if patience == 0 && !advances {
          r := S.Fatal;
        } else if !advances && !r.Fatal? {
          patience := patience - 1;
        }
        SendOnce(i, now, r);
      }
      ok := FinishFrame(i, now);
    }

    lemma SendingFacts(i: nat, now: nat)
      requires Valid() && i < client.Length && pc == Sending(i, now)
      ensures client[i].flight.Some?
    {
      hide Run, Boot;
      Facts();
      assert ClientOk(cfg, Now().hub, pc, i, Now().clients[i]);
    }

    /** Creates a buffer for client i with what the allocator returns: a handle not in use, or none. */
    method CreateClientBuffer(i: nat, handle: Handle) returns (ok: bool)
      requires Valid() && i < client.Length && pc == Creating(i)
      modifies this`hub, this`ctl, this`pc, this`count, this`trace, client
      ensures Valid() && (!old(ctl.taskRun) ==> !ctl.taskRun)
      ensures if ok then pc == Registering(i) && client[i].buffer == handle
              else pc == Closing(i, ToServe) && client[..] == old(client[..]) && (handle == NULL || handle in hub.bufs)
    {
      hide Run, Boot, Inv, TaskStep, H.CreateBuffer, StepPoll, StepRegister, StepSending, StepClose, StepUnregister, StepDelete;
      Yield();
      NullNotLive();
      var h := if handle in hub.bufs then NULL else handle;
      ghost var before := Now();
      ok := h != NULL;
      if ok {
        hub := H.CreateBuffer(hub, h, cfg.bufferSize);
        client[i] := client[i].(buffer := h, polls := [], done := [], wire := "", stalls := 0, flight := None);
        count := count.(created := count.created + 1);
        pc := Registering(i);
      } else {
        pc := Closing(i, ToServe);
      }
      assert Now() == Step(cfg, before, Task(Allocated(h))) by { Dispatch(cfg, before, Allocated(h), i); }
      Commit(before, Task(Allocated(h)));
    }

    /** Client i is served from a registered buffer. */
    ghost predicate Streams(i: nat, h: Handle)
      requires i < client.Length
      reads this, client
    {
      h != NULL && client[i].buffer == h && h in hub.slots && client[i].lastActivity == 0
    }

    /** The subscription: a fresh buffer, registered under the mutex. Returns what serve_client does. */
    method Subscribe(i: nat, handle: Handle) returns (ret: int)
      requires Valid() && i < client.Length && pc == Creating(i) && client[i].buffer == NULL
      modifies this`hub, this`ctl, this`pc, this`count, this`trace, client
      ensures Valid() && (!old(ctl.taskRun) ==> !ctl.taskRun)
      ensures if ret == 0 then pc == Serve(i + 1) else pc == Closing(i, ToServe)
      ensures if ret == 0 then Streams(i, handle)
              else if client[i].buffer == handle && handle != NULL then NULL !in hub.slots
              else client[i].buffer == old(client[i]).buffer && (handle == NULL || handle in hub.bufs)
    {
      hide Run, Boot, TaskStep;
      var ok := CreateClientBuffer(i, handle);
      if !ok {
        return -1;
      }
      ret := RegisterClient(i);
    }

    lemma NullNotLive()
      requires Valid()
      ensures NULL !in hub.bufs
    {
      hide Run, Boot;
      Facts();
      H.SoundOwned(hub, Held(client[..]));
    }

    lemma RegisteringFacts(i: nat)
      requires Valid() && i < client.Length && pc == Registering(i)
      ensures client[i].buffer != NULL
    {
      hide Run, Boot;
      Facts();
      NullNotLive();
      assert ClientOk(cfg, Now().hub, pc, i, Now().clients[i]);
    }

    method RegisterClient(i: nat) returns (ret: int)
      requires Valid() && i < client.Length && pc == Registering(i)
      modifies this`hub, this`ctl, this`pc, this`trace, client
      ensures Valid() && (!old(ctl.taskRun) ==> !ctl.taskRun)
      ensures if ret == 0 then pc == Serve(i + 1) else pc == Closing(i, ToServe)
      ensures client[i].buffer == old(client[i]).buffer != NULL
      ensures if ret == 0 then Streams(i, client[i].buffer) else NULL !in hub.slots
    {
      hide Run, Boot, Inv, TaskStep, H.RegisterBuffer, Insert;
      Yield();
      AwaitMutex();
      ghost var before := Now();
      RegisteringFacts(i);
      InsertIff(hub.slots, client[i].buffer);
      InsertFrame(hub.slots, client[i].buffer);
      H.RegisterSlots(hub, client[i].buffer);
      var code := Insert(hub.slots, client[i].buffer).0;
      hub := H.RegisterBuffer(hub, client[i].buffer);
      if code != OK {
        ret := -1;
        pc := Closing(i, ToServe);
      } else {
        ret := 0;
        client[i] := client[i].(lastActivity := 0);
        pc := Serve(i + 1);
      }
      assert Now() == Step(cfg, before, Task(Go)) by { Dispatch(cfg, before, Go, i); }
      Commit(before, Task(Go));
    }

    /** serve_client before the subscription, for what recv() and the request turn out to be, and the
        handle the allocator would return. */
    method AnswerRequest(i: nat, request: Request, handle: Handle) returns (ret: int)
      requires Valid() && i < client.Length && pc == Serve(i)
      requires client[i].sock != INVALID_SOCK && client[i].buffer == NULL
      modifies this`hub, this`ctl, this`pc, this`count, this`trace, client
      ensures Valid() && (!old(ctl.taskRun) ==> !ctl.taskRun)
      ensures if ret == 0 then pc == Serve(i + 1) else pc == Closing(i, ToServe)
      ensures match request
              case NoData => ret == 0 && client[..] == old(client[..])
              case PeerClosed => ret == 0 && client[..] == old(client[..])
              case ReceiveError => ret != 0 && client[..] == old(client[..])
              case Page(sentOk) => (ret == 0 <==> sentOk) && client[..] == old(client[..])
              case Subscribe =>
                if ret == 0 then Streams(i, handle)
                else if client[i].buffer == handle && handle != NULL then NULL !in hub.slots
                else client[i].buffer == NULL && (handle == NULL || handle in hub.bufs)
    {
      hide Run, Boot, Inv, StepPoll, StepSending, StepAccept, StepReset;
      ghost var before := Now();
      ret := 0;
      match request {
        case NoData => pc := Serve(i + 1);
        case PeerClosed => pc := Serve(i + 1);
        case ReceiveError => pc, ret := Closing(i, ToServe), -1;
        case Page(sentOk) =>
          if sentOk {
            pc := Serve(i + 1);
          } else {
            pc, ret := Closing(i, ToServe), -1;
          }
        case Subscribe => pc := Creating(i);
      }
      Commit(before, Task(Requested(request)));
      if request.Subscribe? {
        ret := Subscribe(i, handle);
      }
    }

    /** The message serve_client receives, or the keepalive it makes when one is due: either is the
        frame to be sent next. */
    method TakeNext(i: nat, now: nat) returns (sending: bool, ghost frame: Sent)
      requires Valid() && i < client.Length && pc == Serve(i) && now < K.WRAP
      requires client[i].sock != INVALID_SOCK && client[i].buffer != NULL
      modifies this`hub, this`pc, this`trace, client
      ensures Valid() && client[i].buffer == old(client[i].buffer) && client[i].done == old(client[i].done)
      ensures old(client[i].buffer in hub.bufs)
      ensures match Ready(old(hub.bufs[client[i].buffer]), old(hub.log), cfg.maxLength)
              case Some(m) => sending && frame == LogLine(m, now)
              case None => frame == KeepAlive(now) && sending == K.Due(now, old(client[i].lastActivity), cfg.period)
      ensures if sending then pc == Sending(i, now) && client[i].flight.Some? && client[i].flight.value.frame == frame
              else pc == Serve(i + 1)
    {
      hide Run, Boot, Inv, TaskStep, Ready, H.ReceiveBuffer, FrameBytes, K.Due, S.Begin;
      BufferLive(i);
      ghost var before := Now();
      var received := Ready(hub.bufs[client[i].buffer], hub.log, cfg.maxLength);
      var next := KeepAlive(now);
      sending := true;
      match received {
        case Some(pos) =>
          hub := H.ReceiveBuffer(hub, client[i].buffer, cfg.maxLength);
          next := LogLine(pos, now);
        case None =>
          sending := K.Due(now, client[i].lastActivity, cfg.period);
      }
      client[i] := Served(client[i], now, next.LogLine?);
      if sending {
        var flight := Flight(next, S.Begin(FrameBytes(cfg, hub.log, next)));
        client[i] := client[i].(flight := Some(flight));
        pc := Sending(i, now);
      } else {
        pc := Serve(i + 1);
      }
      frame := next;
      assert Now() == Step(cfg, before, Task(Polled(now))) by { Dispatch(cfg, before, Polled(now), i); }
      Commit(before, Task(Polled(now)));
    }

    function KeepaliveIfDue(now: nat, lastActivity: nat): seq<Sent> {
      if K.Due(now, lastActivity, cfg.period) then [KeepAlive(now)] else []
    }

    /** serve_client after the subscription: the next message, or a keepalive when one is due. */
    method StreamNext(i: nat, now: nat) returns (ret: int)
      requires Valid() && i < client.Length && pc == Serve(i) && now < K.WRAP
      requires client[i].sock != INVALID_SOCK && client[i].buffer != NULL
      modifies this`hub, this`ctl, this`pc, this`trace, client
      ensures Valid() && (!old(ctl.taskRun) ==> !ctl.taskRun)
      ensures if ret == 0 then pc == Serve(i + 1) else pc == Closing(i, ToServe)
      ensures client[i].buffer == old(client[i].buffer)
      ensures old(client[i].buffer in hub.bufs) && client[i].buffer in hub.bufs
      ensures match Ready(old(hub.bufs[client[i].buffer]), old(hub.log), cfg.maxLength)
              case Some(m) =>
                && hub.bufs[client[i].buffer].received == old(hub.bufs[client[i].buffer].received) + [m]
                && (ret == 0 ==> client[i].done == old(client[i].done) + [LogLine(m, now)])
              case None =>
                && hub.bufs[client[i].buffer].received == old(hub.bufs[client[i].buffer].received)
                && (ret == 0 ==>
                      client[i].done == old(client[i].done) + KeepaliveIfDue(now, old(client[i].lastActivity)))
    {
      hide Run, Boot, Inv, TaskStep, Ready, K.Due, Positions, Valid;
      ReceivedIsSent(i);
      ghost var done := client[i].done;
      var sending, frame := TakeNext(i, now);
      ret := 0;
      if sending {
        var ok := SendFrame(i, now);
        ret := if ok then 0 else -1;
      }
      ReceivedIsSent(i);
      OneMoreSent(done, frame);
    }

    /** What was taken out of the buffer of a client is what was sent, and the line under way. */
    lemma ReceivedIsSent(i: nat)
      requires Valid() && i < client.Length && client[i].buffer != NULL
      ensures client[i].buffer in hub.bufs
      ensures hub.bufs[client[i].buffer].received == Positions(client[i].done) + InFlight(client[i].flight)
      ensures Busy(pc) != Some(i) ==> client[i].flight == None
    {
      hide Run, Boot;
      Facts();
      assert ClientOk(cfg, Now().hub, pc, i, Now().clients[i]);
    }

    lemma BufferLive(i: nat)
      requires Valid() && i < client.Length && client[i].buffer != NULL
      ensures client[i].buffer in hub.bufs
    {
      hide Run, Boot;
      Facts();
      assert ClientOk(cfg, Now().hub, pc, i, Now().clients[i]);
    }

    /** One pass over the table; afterwards the task looks at the event bits. */
    method ServeAll()
      requires Valid() && pc == Serve(0)
      modifies this, client
      ensures Valid() && pc == CheckNet && (!old(ctl.taskRun) ==> !ctl.taskRun)
      ensures startCount == old(startCount) && accepts == old(accepts) && gen == old(gen)
    {
      hide Run, Boot, Inv, StepPoll, StepRequest, StepSending, StepAccept, StepReset;
      for i := 0 to client.Length
        invariant startCount == old(startCount) && accepts == old(accepts) && gen == old(gen)
        invariant Valid() && pc == Serve(i) && (!old(ctl.taskRun) ==> !ctl.taskRun)
      {
        Yield();
        if client[i].sock != INVALID_SOCK {
          var ret: int;
          if client[i].buffer == NULL {
            var request: Request, handle: Handle := *, *;
            ret := AnswerRequest(i, request, handle);
          } else {
            var now: nat := *;
            ret := StreamNext(i, now % K.WRAP);
          }
          if ret != 0 {
            CleanupClient(i, ToServe);
          }
        } else {
          ghost var before := Now();
          pc := Serve(i + 1);
          Commit(before, Task(Go));
        }
      }
      ghost var before := Now();
      pc := CheckNet;
      Commit(before, Task(Go));
    }

    /** Closes every client; afterwards nothing is open and nothing is held. */
    method TearDown()
      requires Valid() && pc == Teardown(0)
      modifies this, client
      ensures Valid() && pc == Outer && (!old(ctl.taskRun) ==> !ctl.taskRun)
      ensures socks == {} && forall j :: 0 <= j < client.Length ==> client[j].buffer == NULL
      ensures startCount == old(startCount) && accepts == old(accepts) && gen == old(gen)
    {
      hide Run, Boot, Inv, StepServe, StepSending, StepAccept, StepReset;
      for i := 0 to client.Length
        invariant startCount == old(startCount) && accepts == old(accepts) && gen == old(gen)
        invariant Valid() && pc == Teardown(i) && (!old(ctl.taskRun) ==> !ctl.taskRun)
      {
        ghost var before := Now();
        pc := Closing(i, ToTeardown);
        Commit(before, Task(Go));
        CleanupClient(i, ToTeardown);
      }
      ghost var before := Now();
      pc := Outer;
      Commit(before, Task(Go));
      AtRestFacts();
    }

    lemma AtRestFacts()
      requires Valid() && AtRest(pc)
      ensures socks == {} && forall j :: 0 <= j < client.Length ==> client[j].buffer == NULL
      ensures Inv(cfg, Now())
    {
      hide Run, Boot;
      Facts();
      assert TableOk(Now());
      assert forall j :: 0 <= j < client.Length ==> Now().clients[j] == client[j];
    }

    /** Tries to accept one connection into the first free entry. The system returns a socket not in
        use. */
    method AcceptOne(outcome: Acceptance) returns (ok: bool)
      requires Valid() && pc == Accept
      requires outcome.Connection? ==> outcome.fd >= 0 && outcome.fd !in socks
      modifies this`socks, this`pc, this`accepts, this`count, this`trace, client
      ensures Valid() && (if ok then pc == Serve(0) else pc == Teardown(0))
      ensures var free := FirstFree(old(client[..]));
              if free == client.Length then ok && client[..] == old(client[..]) && accepts == old(accepts)
              else
                && accepts == old(accepts) + 1
                && match outcome
                   case NoConnection => ok && client[..] == old(client[..])
                   case AcceptError => !ok && client[..] == old(client[..])
                   case Connection(fd, nonblocking) =>
                     ok == nonblocking && client[..] == old(client[..])[free := old(client[..])[free].(sock := fd)]
    {
      hide Run, Boot, Inv, TaskStep, FirstFree, StepReset;
      var free := 0;
      while free < client.Length && client[free].sock != INVALID_SOCK
        invariant free <= client.Length && forall j :: 0 <= j < free ==> client[j].sock != INVALID_SOCK
      {
        free := free + 1;
      }
      ghost var before := Now();
      ok := true;
      if free < client.Length {
        accepts := accepts + 1;
        match outcome {
          case NoConnection =>
          case AcceptError => ok := false;
          case Connection(fd, nonblocking) =>
            client[free] := client[free].(sock := fd);
            socks, count := socks + {fd}, count.(connected := count.connected + 1);
            ok := nonblocking;
        }
      }
      pc := if ok then Serve(0) else Teardown(0);
      DispatchTable(cfg, before, Accepted(outcome));
      Commit(before, Task(Accepted(outcome)));
    }

    /** Marks every entry as available. */
    method ResetClients()
      requires Valid() && pc == Reset
      modifies this`startCount, this`pc, this`flags, this`trace, client
      ensures Valid() && pc == Setup && !flags.lost && startCount == old(startCount) + 1
    {
      hide Run, Boot, Inv, TaskStep, HoldsSomething;
      ghost var before := Now();
      assert !before.flags.lost && !HoldsSomething(before) by {
        Facts();
        NothingToLose(cfg, before);
      }
      startCount := startCount + 1;
      assert before.ctl.alive && before.pc == Reset;
      for i := 0 to client.Length
        invariant before == Run(cfg, Boot(cfg), trace) && startCount == before.startCount + 1
        invariant Now() == before.(clients := client[..], startCount := startCount)
        invariant client[..i] == ResetTable(before.clients)[..i] && client[i..] == before.clients[i..]
      {
        client[i] := client[i].(sock := INVALID_SOCK, buffer := NULL);
      }
      pc, flags := Setup, flags.(lost := flags.lost || HoldsSomething(before));
      assert client[..] == ResetTable(before.clients);
      DispatchTable(cfg, before, Go);
      Commit(before, Task(Go));
    }

    /** A step that changes nothing but the place in the program. */
    method Move(m: Server.Move, ghost pc': Pc)
      requires Valid() && pc != Idle
      requires ctl.alive ==> Step(cfg, Now(), Task(m)) == Now().(pc := pc')
      modifies this`pc, this`trace
      ensures Valid() && pc == pc'
    {
      hide Run, Boot, Inv, TaskStep;
      ghost var before := Now();
      pc := pc';
      Commit(before, Task(m));
    }

    /** Consumes a pending network change: the bit it finds decides where it goes, and is cleared. */
    method CheckNetwork() returns (changed: bool)
      requires Valid() && pc == CheckNet
      modifies this`hub, this`ctl, this`pc, this`trace
      ensures Valid() && (!old(ctl.taskRun) ==> !ctl.taskRun)
      ensures trace != [] && changed == Run(cfg, Boot(cfg), trace[..|trace| - 1]).ctl.net
      ensures (old(ctl.net) ==> changed) && !ctl.net
      ensures if changed then pc == Teardown(0) else pc == Inner
    {
      hide Run, Boot, Inv, StepServe, StepSending, StepAccept, StepReset;
      Yield();
      ghost var before := Now();
      changed := ctl.net;
      ctl := ctl.(net := false);
      pc := if changed then Teardown(0) else Inner;
      Commit(before, Task(Go));
    }

    method EnterAccept()
      requires Valid() && pc == Inner && ctl.taskRun
      modifies this`pc, this`trace
      ensures Valid() && pc == Accept
    {
      hide Run, Boot, Inv, StepServe, StepSending, StepAccept, StepReset;
      Move(Go, Accept);
    }

    /** One turn of the inner loop: accepts if there is a free entry, serves every client, and looks
        whether the network has changed. */
    method OneTurn(outcome: Acceptance) returns (again: bool)
      requires Valid() && pc == Inner && ctl.taskRun
      modifies this, client
      ensures Valid() && (if again then pc == Inner else pc == Teardown(0))
      ensures startCount == old(startCount) && gen == old(gen)
      ensures accepts == old(accepts) + if FirstFree(old(client[..])) < client.Length then 1 else 0
    {
      hide Run, Boot, Inv, Step, FirstFree;
      EnterAccept();
      Yield();
      var possible := outcome;
      if possible.Connection? && (possible.fd < 0 || possible.fd in socks) {
        possible := NoConnection;
      }
      again := AcceptOne(possible);
      if again {
        ServeAll();
        var changed := CheckNetwork();
        again := !changed;
      }
    }

    /** Accepts and serves clients until the task is stopped, the listener fails, or the network
        changes. `rounds` bounds the iterations; when it is used up, the task is told to stop. */
    method AcceptAndServe(rounds: nat)
      requires Valid() && pc == Inner
      modifies this, client
      ensures Valid() && pc == Teardown(0) && startCount == old(startCount) && gen == old(gen)
      ensures rounds > 0 && old(ctl.taskRun) && FirstFree(old(client[..])) < client.Length ==> accepts > old(accepts)
    {
      hide Run, Boot, Inv, StepServe, StepSending, StepAccept, StepReset, FirstFree;
      var left := rounds;
      while true
        invariant Valid() && pc == Inner
        invariant startCount == old(startCount) && gen == old(gen) && accepts >= old(accepts) && 0 <= left <= rounds
        invariant left == rounds ==> ctl == old(ctl) && client[..] == old(client[..]) && accepts == old(accepts)
        invariant left < rounds && FirstFree(old(client[..])) < client.Length ==> accepts > old(accepts)
        decreases left
      {
        if left == 0 {
          RequestStop();
        }
        if !ctl.taskRun {
          Move(Go, Teardown(0));
          return;
        }
        var outcome: Acceptance := *;
        var again := OneTurn(outcome);
        if !again {
          return;
        }
        Yield();
        left := left - 1;
      }
    }

    /** A listener was set up, or not, as the calls into the system turned out. */
    method SetUpListener(works: bool) returns (ok: bool)
      requires Valid() && pc == Setup
      modifies this`hub, this`ctl, this`pc, this`gen, this`trace
      ensures Valid() && (!old(ctl.taskRun) ==> !ctl.taskRun) && (if ok then pc == Inner else pc == Outer)
      ensures ok == works && gen == old(gen) + if ok then 1 else 0
    {
      hide Run, Boot, Inv, StepServe, StepSending, StepAccept, StepReset;
      Yield();
      ok := works;
      ghost var before := Now();
      if ok {
        gen := gen + 1;
        pc := ClearNet;
      } else {
        pc := Outer;
      }
      Commit(before, Task(SetupDone(ok)));
      if ok {
        ClearNetBit();
      }
    }

    /** A signal that came before this point is absorbed by the new listener. */
    method ClearNetBit()
      requires Valid() && pc == ClearNet
      modifies this`hub, this`ctl, this`pc, this`trace
      ensures Valid() && (!old(ctl.taskRun) ==> !ctl.taskRun) && pc == Inner && !ctl.net
    {
      hide Run, Boot, Inv, StepServe, StepSending, StepAccept, StepReset;
      Yield();
      ghost var before := Now();
      ctl := ctl.(net := false);
      pc := Inner;
      Commit(before, Task(Go));
    }

    /** One turn of the outer loop: resets the table, sets up a listener, serves on it until it is to
        be given up, and closes every client. */
    method OneGeneration(works: bool, rounds: nat)
      requires Valid() && pc == Outer && ctl.taskRun
      modifies this, client
      ensures Valid() && pc == Outer && startCount == old(startCount) + 1
      ensures gen == old(gen) + if works then 1 else 0
    {
      hide Run, Boot, Inv, StepServe, StepSending, StepAccept, StepReset;
      Move(Go, Reset);
      ResetClients();
      var ok := SetUpListener(works);
      if ok {
        Yield();
        AcceptAndServe(rounds);
        TearDown();
      }
    }

    /** The whole task. However it is interleaved, it ends with every client closed, every buffer
        of its own unregistered and deleted, and the stopped bit set. */
    method ServerTask(restarts: nat, rounds: nat)
      requires Valid() && pc == Outer
      modifies this, client
      ensures Valid() && pc == Idle && ctl.stopped && !ctl.taskRun
      ensures socks == {} && forall j :: 0 <= j < client.Length ==> client[j].buffer == NULL
      ensures hub.bufs.Keys == hub.apps && !hub.fault && !flags.lost && !flags.dangling
      ensures startCount >= old(startCount) + if restarts > 0 && old(ctl.taskRun) then 1 else 0
    {
      hide Run, Boot, Inv, StepServe, StepSending, StepAccept, StepReset;
      var left := restarts;
      while true
        invariant Valid() && pc == Outer
        invariant 0 <= left <= restarts && startCount >= old(startCount) + if left < restarts then 1 else 0
        invariant left == restarts ==> ctl == old(ctl)
        decreases left
      {
        if left == 0 {
          RequestStop();
        }
        if !ctl.taskRun {
          break;
        }
        var works: bool := *;
        OneGeneration(works, rounds);
        Yield();
        left := left - 1;
      }
      SignalStopped();
    }

    /** Leaves the loop and reports the end of the task. */
    method SignalStopped()
      requires Valid() && pc == Outer && !ctl.taskRun
      modifies this`ctl, this`pc, this`trace
      ensures Valid() && pc == Idle && ctl == old(ctl).(stopped := true)
      ensures socks == {} && forall j :: 0 <= j < client.Length ==> client[j].buffer == NULL
      ensures hub.bufs.Keys == hub.apps && !hub.fault && !flags.lost && !flags.dangling
    {
      hide Run, Boot, Inv, StepServe, StepSending, StepAccept, StepReset;
      Move(Go, Finish);
      ghost var before := Now();
      ctl := ctl.(stopped := true);
      pc := Idle;
      Commit(before, Task(Go));
      AtRestFacts();
      RestingHub(cfg, Now());
    }

    /** init: the structure and its event group are allocated, or nothing has happened in the end. */
    method Init(mallocOk: bool, eventsOk: bool) returns (ok: bool)
      requires Valid() && pc == Idle && !ctl.alive
      modifies this`ctl, this`flags, this`trace, client
      ensures Valid() && ok == (mallocOk && eventsOk) && ctl.alive == ok && flags == old(flags)
      ensures if ok then ctl.runs == 0 && !ctl.stopped else ctl == old(ctl) && client[..] == old(client[..])
    {
      hide Run, Boot, Inv, TaskStep, H.Step, HoldsSomething;
      ghost var before := Now();
      ok := mallocOk && eventsOk;
      assert !HoldsSomething(before) by {
        Facts();
        NothingToLose(cfg, before);
      }
      if ok {
        ctl := Control(true, false, false, false, 0, false);
        forall i | 0 <= i < client.Length {
          client[i] := ZEROED;
        }
        assert client[..] == seq(cfg.clients, _ => ZEROED);
      }
      Commit(before, Api(Server.Init(ok)));
    }

    /** run: sets the flag and creates the task, without looking whether an earlier one is alive. If
        one is, the recorded run says so; otherwise the new task is the only one. */
    method Start(created: bool) returns (ok: bool)
      requires Valid() && ctl.alive && ctl.runs < cfg.maxRuns
      modifies this`ctl, this`startCount, this`pc, this`flags, this`trace
      ensures Follows() && ok == created && (flags.overlap <==> old(pc) != Idle)
      ensures old(pc) == Idle ==> Valid()
      ensures startCount == 0 && if ok then pc == Outer && ctl.taskRun else pc == old(pc) && !ctl.taskRun
    {
      hide Run, Boot, Inv, TaskStep, H.Step, HoldsSomething;
      ghost var before := Now();
      flags := flags.(overlap := flags.overlap || pc != Idle);
      ctl, startCount := ctl.(taskRun := true), 0;
      if created {
        ctl := ctl.(runs := ctl.runs + 1, stopOk := false);
        pc := Outer;
      } else {
        ctl := ctl.(taskRun := false);
      }
      Commit(before, Api(Server.Start(created)));
      return created;
    }
  }

  lemma NothingToLose(cfg: Config, s: State)
    requires Inv(cfg, s) && AtRest(s.pc)
    ensures !s.flags.lost && !HoldsSomething(s)
  {
    hide H.Sound, ClientsOk;
  }

  lemma RestingHub(cfg: Config, s: State)
    requires Inv(cfg, s) && AtRest(s.pc)
    ensures s.hub.bufs.Keys == s.hub.apps && !s.hub.fault && !s.flags.lost
  {
    H.SoundOwned(s.hub, Held(s.clients));
    NoneHeld(s.clients);
  }
}
