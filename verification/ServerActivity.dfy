/** The keepalive timer in runs of the server: what module Keepalive proves of a list of polls holds
    of the polls and the frames of every streaming connection. */
module ServerActivity {
  import opened Prelude
  import opened MessageBuffers
  import opened Registry
  import opened Server
  import opened ServerInvariant
  import H = Hub
  import K = Keepalive
  import S = SocketSend

  /** When the frames sent whole were started. */
  function Ticks(done: seq<Sent>): (ticks: seq<nat>)
    ensures |ticks| == |done|
  {
    seq(|done|, k requires 0 <= k < |done| => done[k].tick)
  }

  function PolledTicks(cfg: Config, c: Client): seq<nat> {
    K.TransmissionTicks(c.polls, |c.polls|, cfg.period)
  }

  /** The poll that started the frame under way was the last one, and did transmit. */
  ghost predicate FlightActive(cfg: Config, c: Client, now: nat) {
    && c.polls != [] && c.polls[|c.polls| - 1].now == now
    && K.Transmits(c.polls, |c.polls| - 1, cfg.period)
    && Ticks(c.done) + [now] == PolledTicks(cfg, c)
    && (c.flight.Some? ==> c.flight.value.frame.tick == now)
  }

  /** Between two services of a client, `last_activity` is what its polls make of it, and a frame
      was sent for each poll that transmits and for no other. */
  ghost predicate RestActive(cfg: Config, c: Client) {
    && c.lastActivity == K.LastActivity(c.polls, |c.polls|, cfg.period)
    && Ticks(c.done) == PolledTicks(cfg, c)
  }

  ghost predicate ClientActive(cfg: Config, pc: Pc, i: nat, c: Client) {
    c.buffer != NULL ==>
      if Busy(pc) != Some(i) then RestActive(cfg, c)
      else
        match pc
        case Registering(_) => c.polls == [] && c.done == []
        case Sending(_, now) => FlightActive(cfg, c, now)
        case _ => Ticks(c.done) <= PolledTicks(cfg, c)
  }

  ghost predicate AllActive(cfg: Config, s: State) {
    forall i :: 0 <= i < |s.clients| ==> ClientActive(cfg, s.pc, i, s.clients[i])
  }

  lemma PollPasses(cfg: Config, c: Client, now: nat)
    requires RestActive(cfg, c) && !K.Due(now, c.lastActivity, cfg.period)
    ensures RestActive(cfg, Served(c, now, false))
  {
    K.EarlierPolls(c.polls, K.Poll(now, false), |c.polls|, cfg.period);
  }

  lemma PollTransmits(cfg: Config, c: Client, f: Sent, bytes: string)
    requires RestActive(cfg, c) && (f.LogLine? || K.Due(f.tick, c.lastActivity, cfg.period))
    ensures FlightActive(cfg, Served(c, f.tick, f.LogLine?).(flight := Some(Flight(f, S.Begin(bytes)))), f.tick)
  {
    K.EarlierPolls(c.polls, K.Poll(f.tick, f.LogLine?), |c.polls|, cfg.period);
    hide S.Begin;
  }

  lemma FrameCompletes(cfg: Config, c: Client, c': Client, now: nat)
    requires FlightActive(cfg, c, now) && c.flight.Some?
    requires c'.polls == c.polls && c'.done == c.done + [c.flight.value.frame] && c'.lastActivity == now
    ensures RestActive(cfg, c')
  {
    assert Ticks(c'.done) == Ticks(c.done) + [now];
  }

  lemma PollActivity(cfg: Config, s: State, i: nat, m: Move)
    requires AllActive(cfg, s) && s.pc == Serve(i) && i < |s.clients| && s.clients[i].buffer != NULL
    ensures AllActive(cfg, StepPoll(cfg, s, i, m))
  {
    hide RestActive, FlightActive, Ready, H.ReceiveBuffer, K.Due, FrameBytes, S.Begin;
    var c := s.clients[i];
    assert RestActive(cfg, c) by { assert ClientActive(cfg, s.pc, i, c); }
    if m.Polled? && m.now < K.WRAP && c.buffer in s.hub.bufs {
      match Ready(s.hub.bufs[c.buffer], s.hub.log, cfg.maxLength)
      case Some(pos) =>
        var hub := H.ReceiveBuffer(s.hub, c.buffer, cfg.maxLength);
        PollTransmits(cfg, c, LogLine(pos, m.now), FrameBytes(cfg, hub.log, LogLine(pos, m.now)));
      case None =>
        if K.Due(m.now, c.lastActivity, cfg.period) {
          PollTransmits(cfg, c, KeepAlive(m.now), FrameBytes(cfg, s.hub.log, KeepAlive(m.now)));
        } else {
          PollPasses(cfg, c, m.now);
        }
    }
  }

  lemma SendingActivity(cfg: Config, s: State, i: nat, now: nat, m: Move)
    requires AllActive(cfg, s) && s.pc == Sending(i, now) && i < |s.clients|
    ensures AllActive(cfg, StepSending(cfg, s, i, now, m))
  {
    hide RestActive, S.Progress;
    var c, s' := s.clients[i], StepSending(cfg, s, i, now, m);
    assert ClientActive(cfg, s.pc, i, c);
    if c.buffer != NULL && c.flight.Some? && !c.flight.value.transfer.failed && c.flight.value.transfer.toWrite <= 0 {
      FrameCompletes(cfg, c, s'.clients[i], now);
    }
  }

  lemma RegisterActivity(cfg: Config, s: State, i: nat)
    requires AllActive(cfg, s) && s.pc == Registering(i) && i < |s.clients|
    ensures AllActive(cfg, StepRegister(s, i))
  {
    hide H.RegisterBuffer, Insert;
    assert ClientActive(cfg, s.pc, i, s.clients[i]);
    assert Ticks([]) == [];
  }

  lemma OtherBusyActivity(cfg: Config, s: State, i: nat, m: Move)
    requires AllActive(cfg, s) && i < |s.clients|
    ensures s.pc == Creating(i) ==> AllActive(cfg, StepCreate(cfg, s, i, m))
    ensures forall ret :: s.pc == Closing(i, ret) ==> AllActive(cfg, StepClose(s, i, ret))
    ensures forall ret :: s.pc == Unregistering(i, ret) ==> AllActive(cfg, StepUnregister(s, i, ret))
    ensures forall ret :: s.pc == Deleting(i, ret) ==> AllActive(cfg, StepDelete(s, i, ret))
  {
    hide RestActive, FlightActive, Ticks, H.CreateBuffer, H.UnregisterBuffer, H.DeleteBuffer;
    assert ClientActive(cfg, s.pc, i, s.clients[i]);
  }

  /** The steps between two clients leave the connections alone; a reset finds none. */
  ghost predicate SameConnection(c: Client, c': Client) {
    c'.buffer != NULL ==>
      c.buffer != NULL && c'.lastActivity == c.lastActivity && c'.polls == c.polls && c'.done == c.done
  }

  ghost predicate ConnectionsKept(s: State, s': State) {
    && |s'.clients| == |s.clients|
    && (forall i :: 0 <= i < |s.clients| ==> SameConnection(s.clients[i], s'.clients[i]))
    && (Busy(s'.pc) == None || s'.pc.Closing?
        || (s'.pc.Creating? && (s'.pc.i < |s.clients| ==> s'.clients[s'.pc.i].buffer == NULL)))
  }

  lemma AcceptKeeps(s: State, m: Move)
    requires s.pc == Accept
    ensures ConnectionsKept(s, StepAccept(s, m))
  {
    hide FirstFree;
  }

  lemma ResetKeeps(s: State)
    ensures ConnectionsKept(s, StepReset(s))
  {
    hide HoldsSomething;
  }

  lemma ServeKeeps(cfg: Config, s: State, i: nat, m: Move)
    requires s.pc == Serve(i)
    requires i < |s.clients| ==> s.clients[i].sock == INVALID_SOCK || s.clients[i].buffer == NULL
    ensures ConnectionsKept(s, StepServe(cfg, s, i, m))
  {
    hide StepPoll;
  }

  lemma MoveKeeps(cfg: Config, s: State, m: Move)
    requires Busy(s.pc) == None && s.ctl.alive
    requires s.pc.Serve? && s.pc.i < |s.clients| ==> s.clients[s.pc.i].sock == INVALID_SOCK || s.clients[s.pc.i].buffer == NULL
    ensures ConnectionsKept(s, TaskStep(cfg, s, m))
  {
    hide StepServe, StepAccept, StepReset, ConnectionsKept;
    if s.pc == Accept {
      AcceptKeeps(s, m);
    } else if s.pc == Reset {
      ResetKeeps(s);
    } else if s.pc.Serve? {
      ServeKeeps(cfg, s, s.pc.i, m);
    } else {
      SameClients(s, TaskStep(cfg, s, m));
    }
  }

  lemma SameClients(s: State, s': State)
    requires s'.clients == s.clients && (Busy(s'.pc) == None || s'.pc.Closing?)
    ensures ConnectionsKept(s, s')
  {
  }

  lemma MoveActivity(cfg: Config, s: State, m: Move)
    requires AllActive(cfg, s) && Busy(s.pc) == None && s.ctl.alive
    requires s.pc.Serve? && s.pc.i < |s.clients| ==> s.clients[s.pc.i].sock == INVALID_SOCK || s.clients[s.pc.i].buffer == NULL
    ensures AllActive(cfg, TaskStep(cfg, s, m))
  {
    MoveKeeps(cfg, s, m);
    var s' := TaskStep(cfg, s, m);
    hide TaskStep, Ticks;
    forall i | 0 <= i < |s'.clients| ensures ClientActive(cfg, s'.pc, i, s'.clients[i]) {
      assert ClientActive(cfg, s.pc, i, s.clients[i]) && SameConnection(s.clients[i], s'.clients[i]);
    }
  }

  lemma TaskStepActivity(cfg: Config, s: State, m: Move)
    requires AllActive(cfg, s)
    ensures AllActive(cfg, TaskStep(cfg, s, m))
  {
    hide AllActive, TaskStep, StepPoll, StepSending, StepRegister, StepCreate, StepClose, StepUnregister, StepDelete;
    var i := if s.pc.Serve? then s.pc.i else if Busy(s.pc).Some? then Busy(s.pc).value else |s.clients|;
    if !s.ctl.alive || (Busy(s.pc).Some? && i >= |s.clients|) {
      assert AllActive(cfg, TaskStep(cfg, s, m)) by { IdleActivity(cfg, s, m); }
    } else if i < |s.clients| && (s.pc.Serve? ==> s.clients[i].sock != INVALID_SOCK && s.clients[i].buffer != NULL) {
      Dispatch(cfg, s, m, i);
      if s.pc.Serve? {
        PollActivity(cfg, s, i, m);
      } else if s.pc.Sending? {
        SendingActivity(cfg, s, i, s.pc.now, m);
      } else if s.pc.Registering? {
        RegisterActivity(cfg, s, i);
      } else {
        OtherBusyActivity(cfg, s, i, m);
      }
    } else {
      MoveActivity(cfg, s, m);
    }
  }

  lemma IdleActivity(cfg: Config, s: State, m: Move)
    requires AllActive(cfg, s) && (!s.ctl.alive || (Busy(s.pc).Some? && Busy(s.pc).value >= |s.clients|))
    ensures AllActive(cfg, TaskStep(cfg, s, m))
  {
    hide ClientActive;
  }

  lemma StepActivity(cfg: Config, s: State, e: Act)
    requires AllActive(cfg, s) && !Step(cfg, s, e).flags.overlap
    ensures AllActive(cfg, Step(cfg, s, e))
  {
    hide TaskStep, H.Step, RestActive, FlightActive;
    if e.Task? {
      TaskStepActivity(cfg, s, e.m);
    }
  }

  lemma {:induction false} RunActivity(cfg: Config, es: seq<Act>)
    requires !Run(cfg, Boot(cfg), es).flags.overlap
    ensures AllActive(cfg, Run(cfg, Boot(cfg), es))
    decreases |es|
  {
    hide Step, ClientActive;
    if es == [] {
      BootActivity(cfg);
    } else {
      NoOverlapBefore(cfg, Boot(cfg), es, |es| - 1);
      RunActivity(cfg, es[..|es| - 1]);
      StepActivity(cfg, Run(cfg, Boot(cfg), es[..|es| - 1]), es[|es| - 1]);
    }
  }

  lemma BootActivity(cfg: Config)
    ensures AllActive(cfg, Boot(cfg))
  {
  }

  /** On every connection of every run, each frame is the answer to one poll: the frames sent whole
      were started at the ticks of the polls that had a message or found the keepalive due, in that
      order; only the last such poll may still be without its frame. */
  lemma FramesFollowPolls(cfg: Config, es: seq<Act>, i: nat)
    requires var s := Run(cfg, Boot(cfg), es); !s.flags.overlap && i < |s.clients| && s.clients[i].buffer != NULL
    ensures var s := Run(cfg, Boot(cfg), es);
            var c := s.clients[i];
            && Ticks(c.done) <= PolledTicks(cfg, c)
            && (Busy(s.pc) != Some(i) ==>
                  Ticks(c.done) == PolledTicks(cfg, c)
                  && c.lastActivity == if c.done == [] then 0 else c.done[|c.done| - 1].tick)
            && (s.pc.Sending? && s.pc.i == i ==>
                  c.polls != [] && PolledTicks(cfg, c) == Ticks(c.done) + [c.polls[|c.polls| - 1].now])
  {
    hide Run;
    var s := Run(cfg, Boot(cfg), es);
    RunActivity(cfg, es);
    var c := s.clients[i];
    assert ClientActive(cfg, s.pc, i, c);
    K.ActivityIsLastTick(c.polls, |c.polls|, cfg.period);
  }

  /** When the page's watchdog fires at the earliest: 15 seconds after the last event it was sent
      whole, or after it was set with the page's own subscription. */
  function WatchdogFires(c: Client, takes: seq<nat>, subscribed: nat, lead: nat, rate: nat): int
    requires |takes| == |c.done|
  {
    var n := |c.done|;
    (if n == 0 then subscribed - lead else c.done[n - 1].tick + takes[n - 1]) + K.WATCHDOG_SECONDS * rate
  }

  /** A client that is served at least every `slack` ticks hears from the server in time for the
      page's watchdog, however the run goes: in the first place, from event to event, and up to the
      last time it was served, whether or not that is when the next event was begun. */
  lemma ClientBeatsWatchdog(cfg: Config, es: seq<Act>, i: nat, takes: seq<nat>, subscribed: nat, lead: nat, slack: nat, rate: nat)
    requires cfg.period == K.PERIOD_SECONDS * rate < K.WRAP
    requires var s := Run(cfg, Boot(cfg), es); !s.flags.overlap && i < |s.clients| && s.clients[i].buffer != NULL
    requires K.Regular(Run(cfg, Boot(cfg), es).clients[i].polls, subscribed, slack, cfg.period)
    requires |takes| == |Run(cfg, Boot(cfg), es).clients[i].done|
    requires lead + slack < (K.WATCHDOG_SECONDS - K.PERIOD_SECONDS) * rate
    requires forall k :: 0 <= k < |takes| ==>
               (if k == 0 then lead else 0) + slack + takes[k] < (K.WATCHDOG_SECONDS - K.PERIOD_SECONDS) * rate
    ensures var s := Run(cfg, Boot(cfg), es);
            var c := s.clients[i];
            && K.BeatsWatchdog(Ticks(c.done), takes, subscribed, lead, rate)
            && (c.polls != [] && (Busy(s.pc) != Some(i) || s.pc.Sending?) ==>
                  c.polls[|c.polls| - 1].now < WatchdogFires(c, takes, subscribed, lead, rate))
  {
    hide Run, Ticks, PolledTicks, K.Regular, K.Spaced, K.BeatsWatchdog, WatchdogFires;
    var s := Run(cfg, Boot(cfg), es);
    var c := s.clients[i];
    FramesFollowPolls(cfg, es, i);
    SpacedFrames(cfg, c, subscribed, slack);
    K.KeepaliveBeatsWatchdog(Ticks(c.done), takes, subscribed, lead, slack, rate);
    if c.polls != [] && (Busy(s.pc) != Some(i) || s.pc.Sending?) {
      LastPollBeforeWatchdog(cfg, c, takes, subscribed, lead, slack, rate);
    }
  }

  lemma SpacedFrames(cfg: Config, c: Client, subscribed: nat, slack: nat)
    requires cfg.period < K.WRAP && K.Regular(c.polls, subscribed, slack, cfg.period) && Ticks(c.done) <= PolledTicks(cfg, c)
    ensures K.Spaced(Ticks(c.done), subscribed, cfg.period + slack)
    ensures K.Spaced(PolledTicks(cfg, c), subscribed, cfg.period + slack)
  {
    K.TransmissionsAreSpaced(c.polls, subscribed, slack, cfg.period, |c.polls|);
    hide Ticks, K.Regular;
    var ticks, polled := Ticks(c.done), PolledTicks(cfg, c);
    assert forall k :: 0 <= k < |ticks| ==> ticks[k] == polled[k];
  }

  /** At its last poll a client was not overdue: nothing was to be sent, or the next frame is begun. */
  lemma LastPollBeforeWatchdog(cfg: Config, c: Client, takes: seq<nat>, subscribed: nat, lead: nat, slack: nat, rate: nat)
    requires cfg.period == K.PERIOD_SECONDS * rate < K.WRAP && |takes| == |c.done| && c.polls != []
    requires K.Regular(c.polls, subscribed, slack, cfg.period) && K.Spaced(PolledTicks(cfg, c), subscribed, cfg.period + slack)
    requires PolledTicks(cfg, c) == Ticks(c.done) || PolledTicks(cfg, c) == Ticks(c.done) + [c.polls[|c.polls| - 1].now]
    requires lead + slack < (K.WATCHDOG_SECONDS - K.PERIOD_SECONDS) * rate
    ensures c.polls[|c.polls| - 1].now < WatchdogFires(c, takes, subscribed, lead, rate)
  {
    if PolledTicks(cfg, c) == Ticks(c.done) {
      K.LastPollIsInTime(c.polls, subscribed, slack, cfg.period);
    } else {
      var n := |c.done|;
      assert PolledTicks(cfg, c)[n] == c.polls[|c.polls| - 1].now;
      assert n > 0 ==> PolledTicks(cfg, c)[n - 1] == c.done[n - 1].tick;
    }
  }
}
