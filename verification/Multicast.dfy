/** The multicast sender task (src/builtin_client/multicast_log_sender.c): one reader whose buffer
    outlives any number of socket re-creations. */
module Multicast {
  import opened Prelude
  import opened MessageBuffers
  import opened Registry
  import H = Hub

  /** The received messages marked with `which`, in order. */
  function Chosen(received: seq<nat>, marks: seq<bool>, which: bool): (s: seq<nat>)
    requires |marks| == |received|
  {
    if received == [] then []
    else
      var n := |received| - 1;
      Chosen(received[..n], marks[..n], which) + if marks[n] == which then [received[n]] else []
  }

  lemma ChosenSnoc(received: seq<nat>, marks: seq<bool>, m: nat, mark: bool, which: bool)
    requires |marks| == |received|
    ensures Chosen(received + [m], marks + [mark], which) == Chosen(received, marks, which) + if mark == which then [m] else []
  {
    assert (received + [m])[..|received|] == received;
    assert (marks + [mark])[..|marks|] == marks;
  }

  /** The two parts lose nothing and invent nothing. */
  lemma {:induction false} ChosenIsSplit(received: seq<nat>, marks: seq<bool>)
    requires |marks| == |received|
    ensures multiset(Chosen(received, marks, true)) + multiset(Chosen(received, marks, false)) == multiset(received)
    decreases |received|
  {
    if received == [] {
    } else {
      var n := |received| - 1;
      ChosenIsSplit(received[..n], marks[..n]);
      assert received == received[..n] + [received[n]];
      ChosenSnoc(received[..n], marks[..n], received[n], marks[n], true);
      ChosenSnoc(received[..n], marks[..n], received[n], marks[n], false);
    }
  }

  /** Each part keeps the order the messages had in the log. */
  lemma {:induction false} ChosenKeepsOrder(received: seq<nat>, marks: seq<bool>, which: bool)
    requires |marks| == |received| && Increasing(received)
    ensures Increasing(Chosen(received, marks, which))
    ensures forall k :: 0 <= k < |Chosen(received, marks, which)| ==> Chosen(received, marks, which)[k] in received
    decreases |received|
  {
    if received == [] {
    } else {
      var n := |received| - 1;
      ChosenKeepsOrder(received[..n], marks[..n], which);
      assert forall m :: m in received[..n] ==> m < received[n] && m in received;
    }
  }

  /** The buffer and the log at the moment a socket was ready and the task still running. */
  datatype Start = Start(buffer: Buffer, log: seq<string>)

  class MulticastSender {
    const maxLength: nat
    const bufferSize: nat
    var hub: H.Hub
    var taskRun: bool
    var stopped: bool
    /** Positions of the messages sent and lost, the datagrams, and how often sendto failed. */
    var sent: seq<nat>
    var lost: seq<nat>
    var datagrams: seq<string>
    var failures: nat
    var sockets: nat
    var buffer: Handle
    ghost var marks: seq<bool>
    ghost var starts: seq<Start>

    ghost function Own(): set<Handle>
      reads this
    {
      if buffer == NULL then {} else {buffer}
    }

    ghost predicate Valid()
      reads this
    {
      && H.Sound(hub, Own()) && !hub.fault
      && (buffer != NULL ==> buffer in hub.bufs)
    }

    /** What has become of the messages taken out of the buffer. */
    ghost predicate Conserved(received: seq<nat>)
      reads this
    {
      && |marks| == |received|
      && sent == Chosen(received, marks, true) && lost == Chosen(received, marks, false)
      && |lost| == failures
      && |datagrams| == |sent| && (forall k :: 0 <= k < |sent| ==> sent[k] < |hub.log| && datagrams[k] == hub.log[sent[k]])
    }

    /** Whatever line was waiting when a socket became ready has been sent or lost. */
    ghost predicate StartsServed()
      reads this`starts, this`sent, this`lost
    {
      forall k :: 0 <= k < |starts| ==> StartServed(starts[k])
    }

    ghost predicate StartServed(start: Start)
      reads this`sent, this`lost
    {
      match Ready(start.buffer, start.log, maxLength)
      case None => true
      case Some(m) => m in sent || m in lost
    }

    constructor (maxLength: nat, bufferSize: nat, hub: H.Hub)
      requires H.Sound(hub, {}) && !hub.fault
      ensures starts == [] && sockets == 0
      ensures Valid() && buffer == NULL && Conserved([]) && !taskRun && !stopped && this.hub == hub
      ensures this.maxLength == maxLength && this.bufferSize == bufferSize
    {
      this.maxLength, this.bufferSize, this.hub := maxLength, bufferSize, hub;
      taskRun, stopped, sent, lost, datagrams, failures, sockets := false, false, [], [], [], 0, 0;
      buffer, marks, starts := NULL, [], [];
    }

    method Run(created: bool) returns (ok: bool)
      requires Valid()
      modifies this`taskRun
      ensures Valid() && ok == created && taskRun == created
    {
      taskRun := created;
      return created;
    }

    /** Any number of steps of other tasks; one of them may ask this task to stop. */
    method Yield()
      requires Valid()
      modifies this`hub, this`taskRun
      ensures Valid() && (!old(taskRun) ==> !taskRun) && old(hub).log <= hub.log
      ensures H.OwnedKept(old(hub), hub, Own())
    {
      hide H.Step, H.Sound;
      H.SoundReflexive(hub, Own());
      var n: nat := *;
      while n > 0
        invariant Valid() && (!old(taskRun) ==> !taskRun) && old(hub).log <= hub.log
        invariant H.OwnedKept(old(hub), hub, Own())
      {
        var x: H.Event := *;
        var stop: bool := *;
        H.StepSound(hub, x, Own());
        H.StepKeepsOwned(hub, x, Own());
        hub, taskRun := H.Step(hub, x), taskRun && !stop;
        n := n - 1;
      }
    }

    /** The part of stop that another task carries out. */
    method RequestStop()
      requires Valid()
      modifies this`taskRun
      ensures Valid() && !taskRun
    {
      taskRun := false;
    }

    method AwaitMutex()
      requires Valid()
      modifies this`hub
      ensures Valid() && hub.lock == None && old(hub).log <= hub.log
      ensures H.OwnedKept(old(hub), hub, Own())
    {
      hide H.Sound, H.OwnedKept, OfferTo;
      H.SoundReflexive(hub, Own());
      while hub.lock != None
        invariant Valid() && old(hub).log <= hub.log && H.OwnedKept(old(hub), hub, Own())
        decreases if hub.lock == None then 0 else if hub.lock.value < |hub.slots| then 1 + |hub.slots| - hub.lock.value else 1
      {
        ghost var before := hub;
        H.StepSound(hub, H.FanStep, Own());
        H.StepKeepsOwned(hub, H.FanStep, Own());
        hub := H.Step(hub, H.FanStep);
        H.KeptTransitive(old(hub), before, hub, Own());
      }
    }

    /** Takes the next message out of the buffer, if there is one. */
    method ReceiveNext() returns (received: Option<nat>)
      requires Valid() && buffer != NULL && Conserved(hub.bufs[buffer].received)
      modifies this`hub
      ensures Valid() && hub.log == old(hub.log) && hub.slots == old(hub.slots) && hub.lock == old(hub.lock)
      ensures hub.bufs[buffer].since == old(hub.bufs[buffer].since)
      ensures received == Ready(old(hub.bufs[buffer]), old(hub.log), maxLength)
      ensures match received
              case None => hub.bufs[buffer].received == old(hub.bufs[buffer].received)
              case Some(m) => m < |hub.log| && hub.bufs[buffer].received == old(hub.bufs[buffer].received) + [m]
    {
      received := Ready(hub.bufs[buffer], hub.log, maxLength);
      H.HistoryOf(hub, Own(), buffer);
      ReceiveKeepsConsistent(hub.bufs[buffer], hub.log, maxLength, |hub.log|);
      H.ReceiveSound(hub, buffer, maxLength, Own());
      hub := H.ReceiveBuffer(hub, buffer, maxLength);
      hide H.Sound, Consistent;
    }

    /** One turn of the inner loop; false when sendto failed and the socket must be made anew. */
    method SendNext() returns (ok: bool)
      requires Valid() && buffer != NULL && Conserved(hub.bufs[buffer].received) && hub.bufs[buffer].since.Some?
      modifies this`hub, this`sent, this`lost, this`datagrams, this`failures, this`marks
      ensures Valid() && Conserved(hub.bufs[buffer].received) && hub.bufs[buffer].since.Some?
      ensures failures == old(failures) + if ok then 0 else 1
      ensures match Ready(old(hub.bufs[buffer]), old(hub.log), maxLength)
              case None =>
                ok && (sent, lost, datagrams) == (old(sent), old(lost), old(datagrams))
                && hub.bufs[buffer].received == old(hub.bufs[buffer].received)
              case Some(m) =>
                m < |old(hub.log)| && hub.bufs[buffer].received == old(hub.bufs[buffer].received) + [m]
                && (sent, lost, datagrams) ==
                   if ok then (old(sent) + [m], old(lost), old(datagrams) + [old(hub.log)[m]])
                   else (old(sent), old(lost) + [m], old(datagrams))
    {
      hide H.Sound, Chosen;
      var received := ReceiveNext();
      ok := true;
      match received {
        case None =>
        case Some(m) =>
          ok := *;
          ghost var before := hub.bufs[buffer].received[..|marks|];
          assert hub.bufs[buffer].received == before + [m];
          ChosenSnoc(before, marks, m, ok, true);
          ChosenSnoc(before, marks, m, ok, false);
          if ok {
            sent, datagrams := sent + [m], datagrams + [hub.log[m]];
          } else {
            lost, failures := lost + [m], failures + 1;
          }
          marks := marks + [ok];
      }
    }

    lemma StillConserved(received: seq<nat>, hub0: H.Hub)
      requires forall k :: 0 <= k < |sent| ==> sent[k] < |hub0.log| && k < |datagrams| && datagrams[k] == hub0.log[sent[k]]
      requires hub0.log <= hub.log
      ensures forall k :: 0 <= k < |sent| ==> sent[k] < |hub.log| && datagrams[k] == hub.log[sent[k]]
    {
    }

    /** Yield, for the reader of a buffer. */
    method Wait()
      requires Valid() && buffer != NULL && Conserved(hub.bufs[buffer].received) && hub.bufs[buffer].since.Some?
      modifies this`hub, this`taskRun
      ensures Valid() && Conserved(hub.bufs[buffer].received) && hub.bufs[buffer].since.Some?
      ensures hub.bufs[buffer].received == old(hub.bufs[buffer].received)
      ensures !old(taskRun) ==> !taskRun
    {
      hide H.Sound;
      Yield();
      assert buffer in Own();
      StillConserved(hub.bufs[buffer].received, old(hub));
    }

    /** Creates the buffer, for which the allocator returns h, and registers it. It fails only if there
        is no memory or no empty slot. */
    method SetUp(h: Handle) returns (ok: bool)
      requires Valid() && buffer == NULL && Conserved([])
      modifies this`hub, this`taskRun, this`buffer
      ensures Valid() && (!old(taskRun) ==> !taskRun)
      ensures buffer == NULL ==> Conserved([])
      ensures buffer != NULL ==> Conserved(hub.bufs[buffer].received) && (buffer in hub.slots <==> ok)
      ensures ok ==> buffer != NULL && hub.bufs[buffer].since.Some?
      ensures buffer == NULL ==> h == NULL || h in hub.bufs
      ensures buffer != NULL ==> buffer == h && (!ok ==> NULL !in hub.slots)
    {
      hide H.Sound, Insert;
      Yield();
      StillConserved([], old(hub));
      if h == NULL || h in hub.bufs {
        return false;
      }
      H.CreateSound(hub, h, bufferSize, Own());
      assert Own() + {h} == {h};
      hub, buffer := H.CreateBuffer(hub, h, bufferSize), h;
      ghost var created := hub;
      Yield();
      AwaitMutex();
      H.KeptSince(created, hub, Own(), buffer);
      StillConserved([], created);
      InsertIff(hub.slots, buffer);
      InsertFrame(hub.slots, buffer);
      ok := Insert(hub.slots, buffer).0 == OK;
      H.RegisterSound(hub, buffer, Own());
      H.RegisterMarks(hub, buffer);
      hub := H.RegisterBuffer(hub, buffer);
    }

    /** Unregisters and deletes the buffer, if it was created. */
    method CleanUp() returns (ghost last: Option<Buffer>)
      requires Valid() && (if buffer == NULL then Conserved([]) else Conserved(hub.bufs[buffer].received))
      modifies this`hub, this`taskRun, this`buffer
      ensures Valid() && buffer == NULL && (last == None <==> old(buffer) == NULL)
      ensures match last
              case None => Conserved([])
              case Some(b) => Consistent(b, |hub.log|) && Conserved(b.received)
    {
      hide H.Sound, Remove, Consistent;
      last := None;
      if buffer == NULL {
        return;
      }
      AwaitMutex();
      H.UnregisterSound(hub, buffer, Own());
      hub := H.UnregisterBuffer(hub, buffer);
      ghost var unregistered := hub;
      Yield();
      H.NotRegisteredSince(unregistered, hub, Own(), buffer);
      last := Some(hub.bufs[buffer]);
      StillConserved(hub.bufs[buffer].received, old(hub));
      H.HistoryOf(hub, Own(), buffer);
      H.DeleteSound(hub, buffer, Own());
      hub := H.DeleteBuffer(hub, buffer);
      assert Own() - {buffer} == {};
      buffer := NULL;
    }

    /** The whole task. Over any number of socket failures and re-creations, the messages its buffer
        took in are those sent, those lost and those still queued: the received ones are a split, in
        order, into datagrams of one message each and losses, at most one per failed sendto. Each
        socket that was ready while the task was running has served the line then waiting; only the
        last one may have come too late. */
    method Task(h: Handle, restarts: nat, rounds: nat) returns (ghost last: Option<Buffer>)
      requires Valid() && buffer == NULL && Conserved([]) && !stopped && starts == [] && sockets == 0
      modifies this
      ensures Valid() && buffer == NULL && stopped
      ensures StartsServed() && |starts| <= sockets <= |starts| + 1
      ensures match last
              case None => Conserved([])
              case Some(b) => b.accepted == b.received + b.queue && Increasing(b.accepted) && Conserved(b.received)
    {
      hide H.Sound, StartServed, Ready;
      var ok := SetUp(h);
      if ok {
        var left := restarts;
        while taskRun
          invariant Valid() && buffer != NULL && Conserved(hub.bufs[buffer].received) && hub.bufs[buffer].since.Some?
          invariant StartsServed() && |starts| <= sockets <= |starts| + if taskRun then 0 else 1
          decreases left, taskRun
        {
          Wait();
          var setUp: bool := *;
          if setUp {
            sockets := sockets + 1;
            ServeSocket(rounds);
          }
          if left == 0 {
            RequestStop();
          } else {
            left := left - 1;
          }
        }
      }
      last := CleanUp();
      stopped := true;
    }

    /** One socket, with what was waiting when it was ready. */
    method ServeSocket(rounds: nat)
      requires Valid() && buffer != NULL && Conserved(hub.bufs[buffer].received) && hub.bufs[buffer].since.Some?
      requires StartsServed()
      modifies this`hub, this`taskRun, this`sent, this`lost, this`datagrams, this`failures, this`marks, this`starts
      ensures Valid() && Conserved(hub.bufs[buffer].received) && hub.bufs[buffer].since.Some?
      ensures StartsServed() && (!old(taskRun) ==> !taskRun)
      ensures starts == old(starts) + if old(taskRun) then [Start(old(hub.bufs[buffer]), old(hub.log))] else []
    {
      hide H.Sound;
      ghost var before := starts;
      var wasRunning := taskRun;
      ghost var start := Start(hub.bufs[buffer], hub.log);
      ghost var sent0, lost0 := sent, lost;
      SendUntilFailure(rounds);
      if wasRunning {
        starts := starts + [start];
      }
      StillServed(before, sent0, lost0);
      assert forall k :: 0 <= k < |starts| ==> starts[k] in before || starts[k] == start;
    }

    lemma StillServed(before: seq<Start>, sent0: seq<nat>, lost0: seq<nat>)
      requires sent0 <= sent && lost0 <= lost
      requires forall k :: 0 <= k < |before| ==>
                 match Ready(before[k].buffer, before[k].log, maxLength) case None => true case Some(m) => m in sent0 || m in lost0
      ensures forall start :: start in before ==> StartServed(start)
    {
      assert forall m :: m in sent0 ==> m in sent;
      assert forall m :: m in lost0 ==> m in lost;
    }

    /** The inner loop: one socket, until a send fails on it or the task is stopped. The line waiting
        at its beginning is taken out first, and sent or lost. */
    method SendUntilFailure(rounds: nat)
      requires Valid() && buffer != NULL && Conserved(hub.bufs[buffer].received) && hub.bufs[buffer].since.Some?
      modifies this`hub, this`taskRun, this`sent, this`lost, this`datagrams, this`failures, this`marks
      ensures Valid() && Conserved(hub.bufs[buffer].received) && hub.bufs[buffer].since.Some?
      ensures |lost| <= |old(lost)| + 1 && (!old(taskRun) ==> !taskRun)
      ensures old(sent) <= sent && old(lost) <= lost && old(datagrams) <= datagrams
      ensures !taskRun || failures == old(failures) + 1
      ensures old(hub.bufs[buffer].received) <= hub.bufs[buffer].received
      ensures old(taskRun) ==>
                match Ready(old(hub.bufs[buffer]), old(hub.log), maxLength)
                case None => true
                case Some(m) =>
                  old(hub.bufs[buffer].received) + [m] <= hub.bufs[buffer].received
                  && (m in sent[|old(sent)|..] || m in lost[|old(lost)|..])
    {
      hide H.Sound, Ready;
      var left, first := rounds, true;
      ghost var next := Ready(hub.bufs[buffer], hub.log, maxLength);
      while taskRun
        invariant Valid() && Conserved(hub.bufs[buffer].received) && hub.bufs[buffer].since.Some?
        invariant failures == old(failures) && (!old(taskRun) ==> !taskRun)
        invariant old(sent) <= sent && old(lost) <= lost && old(datagrams) <= datagrams
        invariant first ==> hub == old(hub) && sent == old(sent) && lost == old(lost) && taskRun == old(taskRun)
        invariant old(hub.bufs[buffer].received) <= hub.bufs[buffer].received
        invariant !first && next.Some? ==>
                    old(hub.bufs[buffer].received) + [next.value] <= hub.bufs[buffer].received
                    && (next.value in sent[|old(sent)|..] || next.value in lost[|old(lost)|..])
        decreases left, taskRun
      {
        var ok := SendNext();
        first := false;
        Wait();
        if !ok {
          break;
        }
        if left == 0 {
          taskRun := false;
        } else {
          left := left - 1;
        }
      }
    }
  }
}
