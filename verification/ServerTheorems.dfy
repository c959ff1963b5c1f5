/** What the invariant means for a reader, for the registry, and for the task that stops the server. */
module ServerTheorems {
  import opened Prelude
  import opened MessageBuffers
  import opened Registry
  import opened EventStream
  import opened Server
  import opened ServerInvariant
  import H = Hub
  import S = SocketSend

  ghost function Reached(cfg: Config, es: seq<Act>): State {
    Run(cfg, Boot(cfg), es)
  }

  // ---------------------------------------------------------------- from a log call to the page

  /** Every byte the socket of a client took in since its subscription. */
  function Wire(c: Client): string {
    match c.flight
    case None => c.wire
    case Some(f) => c.wire + f.transfer.sent
  }

  /** No send on the connection, finished or not, has moved the read position back. */
  ghost predicate Clean(cfg: Config, c: Client) {
    Undisturbed(cfg, c) && (c.flight.Some? ==> S.Exact(c.flight.value.transfer, cfg.stall))
  }

  function Text(log: seq<string>, pos: nat): string {
    TextOf(Message(log, pos))
  }

  /** What the page's listener is given for the lines at some positions of the log. */
  function Shown(log: seq<string>, ps: seq<nat>): seq<string> {
    if ps == [] then [] else Shown(log, ps[..|ps| - 1]) + Alone(Item(LOG_LINE, Text(log, ps[|ps| - 1])))
  }

  function ItemOf(log: seq<string>, f: Sent): Item {
    match f
    case LogLine(pos, _) => Item(LOG_LINE, Text(log, pos))
    case KeepAlive(tick) => Item(KEEPALIVE, Digits(tick))
  }

  function Items(log: seq<string>, done: seq<Sent>): seq<Item> {
    seq(|done|, k requires 0 <= k < |done| => ItemOf(log, done[k]))
  }

  lemma FrameIsItem(cfg: Config, log: seq<string>, f: Sent)
    requires FrameOk(cfg, log, f)
    ensures FrameBytes(cfg, log, f) == Frame(ItemOf(log, f).typ, ItemOf(log, f).text)
  {
    match f
    case LogLine(pos, _) => FramesAreWhole(cfg.maxLength, Message(log, pos), 0);
    case KeepAlive(tick) => FramesAreWhole(0, "", tick);
  }

  lemma {:induction false} BytesAreStream(cfg: Config, log: seq<string>, done: seq<Sent>)
    requires forall f :: f in done ==> FrameOk(cfg, log, f)
    ensures Bytes(cfg, log, done) == Stream(Items(log, done))
    decreases |done|
  {
    if done == [] {
    } else {
      hide FrameBytes, Frame, FrameOk, ItemOf, Items, Stream;
      var init, f := done[..|done| - 1], done[|done| - 1];
      assert f in done && done == init + [f];
      FrameIsItem(cfg, log, f);
      BytesAreStream(cfg, log, init);
      ItemsSnoc(log, init, f);
      StreamSnoc(Items(log, init), ItemOf(log, f));
    }
  }

  /** Keepalives do not reach the log-line listener. */
  lemma HeardOfFrame(log: seq<string>, f: Sent)
    ensures Alone(ItemOf(log, f)) == Shown(log, PositionOf(f))
  {
    hide Alone;
    match f
    case LogLine(pos, _) =>
      assert [pos][..0] == [];
      assert Shown(log, [pos]) == [] + Alone(ItemOf(log, f));
    case KeepAlive(tick) =>
      assert LOG_LINE[0] == 'l' && KEEPALIVE[0] == 'k';
      AloneOther(KEEPALIVE, Digits(tick));
  }

  lemma ShownOfFrame(log: seq<string>, ps: seq<nat>, f: Sent)
    ensures Shown(log, ps + PositionOf(f)) == Shown(log, ps) + Shown(log, PositionOf(f))
  {
    hide Alone;
    match f
    case LogLine(pos, _) =>
      assert (ps + [pos])[..|ps|] == ps && [pos][..0] == [];
    case KeepAlive(_) =>
      assert ps + [] == ps;
  }

  lemma {:induction false} HeardOfItems(log: seq<string>, done: seq<Sent>)
    ensures Heard(Items(log, done)) == Shown(log, Positions(done))
    decreases |done|
  {
    if done == [] {
    } else {
      hide Alone, Items, Shown, Heard, Positions;
      var init, f := done[..|done| - 1], done[|done| - 1];
      assert done == init + [f];
      HeardOfItems(log, init);
      ItemsSnoc(log, init, f);
      HeardSnoc(Items(log, init), ItemOf(log, f));
      HeardOfFrame(log, f);
      ShownOfFrame(log, Positions(init), f);
    }
  }

  /** What a standard parser makes of the bytes on the wire, cut into any chunks: what the frames
      sent whole yield, each by itself, and at most what the frame under way does. */
  lemma WireDecodes(cfg: Config, hub: H.Hub, c: Client, chunks: seq<string>)
    requires WireOk(cfg, hub, c) && Clean(cfg, c) && Concat(chunks) == Wire(c)
    ensures var lines := LogLines(FeedChunks(Fresh(START), chunks).m.out);
            Shown(hub.log, Positions(c.done)) <= lines <= Shown(hub.log, Positions(c.done) + InFlight(c.flight))
  {
    hide Feed, FrameBytes, FrameOk, Frame, LogLines, Items, Shown, Positions, Heard;
    var log, items := hub.log, Items(hub.log, c.done);
    FeedConcat(Fresh(START), chunks);
    BytesAreStream(cfg, log, c.done);
    HeardOfItems(log, c.done);
    if c.flight == None {
      AnyStream(items);
      assert Positions(c.done) + [] == Positions(c.done);
    } else {
      var f := c.flight.value;
      var x := ItemOf(log, f.frame);
      FrameIsItem(cfg, log, f.frame);
      AnyStreamPrefix(items, x, |f.transfer.sent|);
      HeardOfItems(log, c.done + [f.frame]);
      ItemsSnoc(log, c.done, f.frame);
    }
  }

  lemma ItemsSnoc(log: seq<string>, done: seq<Sent>, f: Sent)
    ensures Items(log, done + [f]) == Items(log, done) + [ItemOf(log, f)]
    ensures Positions(done + [f]) == Positions(done) + PositionOf(f)
  {
    assert (done + [f])[..|done|] == done;
  }

  /** The slot of a registered buffer, and with it how much of the log the buffer has seen. */
  ghost predicate SeenUpto(hub: H.Hub, h: Handle, upto: nat) {
    exists a :: 0 <= a < |hub.slots| && hub.slots[a] == h && upto == H.Upto(hub.lock, hub.log, a)
  }

  /** End-to-end delivery, in every interleaving. Of the lines logged while a client's buffer is
      registered, each is exactly one of received by the server, still queued, or dropped when
      the buffer was full. The page's listener is given, in log order, what the frames of the
      received lines yield, each by itself, except perhaps for the frame under way; for a
      single-line text, and for no other, that is the text (`AloneIff`). */
  lemma EndToEnd(cfg: Config, es: seq<Act>, i: nat, chunks: seq<string>, upto: nat)
    requires !Reached(cfg, es).flags.overlap
    requires var s := Reached(cfg, es); i < |s.clients| && s.clients[i].buffer != NULL
    requires var s := Reached(cfg, es); SeenUpto(s.hub, s.clients[i].buffer, upto)
    ensures var s := Reached(cfg, es);
            var c := s.clients[i];
            && c.buffer in s.hub.bufs
            && var b := s.hub.bufs[c.buffer];
            && b.since.Some? && upto <= |s.hub.log|
            && b.accepted == b.received + b.queue && Increasing(b.accepted) && Increasing(b.dropped)
            && (forall pos :: b.since.value <= pos < upto <==> pos in b.accepted || pos in b.dropped)
            && (forall pos :: pos in b.accepted ==> pos !in b.dropped)
            && b.received == Positions(c.done) + InFlight(c.flight)
            && (Clean(cfg, c) && Concat(chunks) == Wire(c) ==>
                  var lines := LogLines(FeedChunks(Fresh(START), chunks).m.out);
                  Shown(s.hub.log, Positions(c.done)) <= lines <= Shown(s.hub.log, b.received))
  {
    hide Inv, Run, Feed, FeedChunks, SeenUpto, Clean, Wire, LogLines, H.Sound, TableOk, Consistent, Shown;
    var s := Reached(cfg, es);
    var c := s.clients[i];
    RunInv(cfg, es);
    PartsOf(cfg, s);
    assert ClientOk(cfg, s.hub, s.pc, i, c);
    assert WireOk(cfg, s.hub, c);
    if Clean(cfg, c) && Concat(chunks) == Wire(c) {
      WireDecodes(cfg, s.hub, c, chunks);
    }
    Ledger(s.hub, Held(s.clients), c.buffer, upto);
  }

  /** On every connection of every run, what the socket took in for the frames sent whole is exactly
      those frames if and only if no send on it would have blocked, or such a send adds nothing; each
      one made the socket take in `stall` bytes too many. */
  lemma WireIsExactIff(cfg: Config, es: seq<Act>, i: nat)
    requires !Reached(cfg, es).flags.overlap
    requires i < |Reached(cfg, es).clients| && Reached(cfg, es).clients[i].buffer != NULL
    ensures var s, c := Reached(cfg, es), Reached(cfg, es).clients[i];
            && |c.wire| == |Bytes(cfg, s.hub.log, c.done)| + cfg.stall * c.stalls
            && (c.wire == Bytes(cfg, s.hub.log, c.done) <==> cfg.stall == 0 || c.stalls == 0)
  {
    hide Inv, Run, H.Sound, TableOk, Bytes, Positions;
    var s := Reached(cfg, es);
    RunInv(cfg, es);
    PartsOf(cfg, s);
    assert ClientOk(cfg, s.hub, s.pc, i, s.clients[i]);
    NotAbsorbed(cfg.stall, s.clients[i].stalls);
  }

  lemma NotAbsorbed(a: nat, b: nat)
    ensures a * b == 0 <==> a == 0 || b == 0
  {
  }

  /** The books of one registered buffer. */
  lemma Ledger(hub: H.Hub, owned: set<Handle>, h: Handle, upto: nat)
    requires H.Sound(hub, owned) && h != NULL && SeenUpto(hub, h, upto)
    ensures h in hub.bufs && upto <= |hub.log|
    ensures var b := hub.bufs[h];
            && b.since.Some?
            && b.accepted == b.received + b.queue && Increasing(b.accepted) && Increasing(b.dropped)
            && (forall pos :: b.since.value <= pos < upto <==> pos in b.accepted || pos in b.dropped)
            && (forall pos :: pos in b.accepted ==> pos !in b.dropped)
  {
    var a :| 0 <= a < |hub.slots| && hub.slots[a] == h && upto == H.Upto(hub.lock, hub.log, a);
    assert H.SlotOk(hub.slots[a], hub.bufs, upto);
    var b := hub.bufs[h];
    assert Consistent(b, |hub.log|);
    forall pos: nat ensures b.since.value <= pos < upto <==> pos in b.offered {
      if b.since.value <= pos < upto {
        assert b.offered[pos - b.since.value] == pos;
      }
    }
  }

  /** The step that made a buffer drop a line: a logger served its slot, and the line did not fit behind
      what was queued. */
  ghost predicate DroppedForWant(cfg: Config, es: seq<Act>, k: nat, h: Handle, m: nat) {
    && k < |es| && es[k] == Other(H.FanStep)
    && var w := Reached(cfg, es[..k]).hub;
       h in w.bufs && m + 1 == |w.log| && Cost(w.log, w.bufs[h].queue + [m]) > w.bufs[h].size
  }

  /** No task of the server drops a line. */
  lemma TaskDropsNothing(cfg: Config, s: State, m: Move, h: Handle)
    requires h in TaskStep(cfg, s, m).hub.bufs
    ensures (h in s.hub.bufs && TaskStep(cfg, s, m).hub.bufs[h].dropped == s.hub.bufs[h].dropped)
         || TaskStep(cfg, s, m).hub.bufs[h].dropped == []
  {
    hide StepServe, StepCreate, StepRegister, StepSending, StepClose, StepUnregister, StepDelete, StepReset, StepAccept;
    OtherHubUnchanged(cfg, s, m);
    if !s.ctl.alive {
    } else if s.pc.Serve? {
      ServeDropsNothing(cfg, s, s.pc.i, m, h);
    } else if Busy(s.pc).Some? && Busy(s.pc).value < |s.clients| {
      ClientDropsNothing(cfg, s, Busy(s.pc).value, m, h);
    }
  }

  lemma ServeDropsNothing(cfg: Config, s: State, i: nat, m: Move, h: Handle)
    requires h in StepServe(cfg, s, i, m).hub.bufs
    ensures h in s.hub.bufs && StepServe(cfg, s, i, m).hub.bufs[h].dropped == s.hub.bufs[h].dropped
  {
    hide Ready, FrameBytes, S.Begin;
  }

  lemma ClientDropsNothing(cfg: Config, s: State, i: nat, m: Move, h: Handle)
    requires i < |s.clients|
    ensures s.pc == Creating(i) && h in StepCreate(cfg, s, i, m).hub.bufs ==>
              (h in s.hub.bufs && StepCreate(cfg, s, i, m).hub.bufs[h].dropped == s.hub.bufs[h].dropped)
              || StepCreate(cfg, s, i, m).hub.bufs[h].dropped == []
    ensures s.pc == Registering(i) && h in StepRegister(s, i).hub.bufs ==>
              h in s.hub.bufs && StepRegister(s, i).hub.bufs[h].dropped == s.hub.bufs[h].dropped
    ensures s.pc.Unregistering? && h in StepUnregister(s, i, s.pc.ret).hub.bufs ==>
              h in s.hub.bufs && StepUnregister(s, i, s.pc.ret).hub.bufs[h].dropped == s.hub.bufs[h].dropped
    ensures s.pc.Deleting? && h in StepDelete(s, i, s.pc.ret).hub.bufs ==>
              h in s.hub.bufs && StepDelete(s, i, s.pc.ret).hub.bufs[h].dropped == s.hub.bufs[h].dropped
  {
    hide Insert, Remove;
  }

  /** A line that is missing because a buffer dropped it did not fit when it was offered. */
  lemma {:induction false} DroppedDidNotFit(cfg: Config, es: seq<Act>, h: Handle, m: nat)
    requires h in Reached(cfg, es).hub.bufs && m in Reached(cfg, es).hub.bufs[h].dropped
    ensures exists k: nat :: DroppedForWant(cfg, es, k, h, m)
    decreases |es|
  {
    if es == [] {
      assert false;
    } else {
      var n := |es| - 1;
      var s := Reached(cfg, es[..n]);
      assert s.hub.lock.Some? ==> s.hub.log != [] by { LockedLogNotEmpty(cfg, es[..n]); }
      if h in s.hub.bufs && m in s.hub.bufs[h].dropped {
        hide Step;
        DroppedDidNotFit(cfg, es[..n], h, m);
        var k: nat :| DroppedForWant(cfg, es[..n], k, h, m);
        assert es[..n][..k] == es[..k];
        assert DroppedForWant(cfg, es, k, h, m);
      } else {
        hide TaskStep, ApiStep, H.Step, Cost;
        match es[n]
        case Other(x) => H.StepDrops(s.hub, x, h, m);
          assert DroppedForWant(cfg, es, n, h, m);
        case Api(c) => ApiKeepsHub(cfg, s, c);
        case Task(mv) => TaskDropsNothing(cfg, s, mv, h);
      }
    }
  }

  lemma {:induction false} LockedLogNotEmpty(cfg: Config, es: seq<Act>)
    ensures Reached(cfg, es).hub.lock.Some? ==> Reached(cfg, es).hub.log != []
    decreases |es|
  {
    if es != [] {
      LockedLogNotEmpty(cfg, es[..|es| - 1]);
      var s, e := Reached(cfg, es[..|es| - 1]), es[|es| - 1];
      hide TaskStep, ApiStep;
      match e
      case Other(x) => LockLogStep(s.hub, x);
      case Api(c) => ApiKeepsHub(cfg, s, c);
      case Task(m) => TaskKeepsLock(cfg, s, m);
    }
  }

  lemma LockLogStep(w: H.Hub, x: H.Event)
    requires w.lock.Some? ==> w.log != []
    ensures H.Step(w, x).lock.Some? ==> H.Step(w, x).log != []
  {
    hide Insert, Remove, OfferTo, Receive;
  }

  lemma TaskKeepsLock(cfg: Config, s: State, m: Move)
    ensures TaskStep(cfg, s, m).hub.lock == s.hub.lock && TaskStep(cfg, s, m).hub.log == s.hub.log
  {
    hide StepServe, StepCreate, StepRegister, StepSending, StepClose, StepUnregister, StepDelete, StepReset, StepAccept;
    OtherHubUnchanged(cfg, s, m);
    if s.pc.Serve? {
      ServeKeepsLock(cfg, s, s.pc.i, m);
    } else if Busy(s.pc).Some? && Busy(s.pc).value < |s.clients| {
      ClientKeepsLock(cfg, s, Busy(s.pc).value, m);
    }
  }

  lemma ServeKeepsLock(cfg: Config, s: State, i: nat, m: Move)
    ensures StepServe(cfg, s, i, m).hub.lock == s.hub.lock && StepServe(cfg, s, i, m).hub.log == s.hub.log
  {
    hide Ready, FrameBytes, S.Begin;
  }

  lemma ClientKeepsLock(cfg: Config, s: State, i: nat, m: Move)
    requires i < |s.clients|
    ensures StepCreate(cfg, s, i, m).hub.lock == s.hub.lock && StepCreate(cfg, s, i, m).hub.log == s.hub.log
    ensures StepRegister(s, i).hub.lock == s.hub.lock && StepRegister(s, i).hub.log == s.hub.log
    ensures forall ret :: StepUnregister(s, i, ret).hub.lock == s.hub.lock && StepUnregister(s, i, ret).hub.log == s.hub.log
    ensures forall ret :: StepDelete(s, i, ret).hub.lock == s.hub.lock && StepDelete(s, i, ret).hub.log == s.hub.log
  {
    hide Insert, Remove;
  }

  /** One order for all sinks: the lines any two live buffers took in stand in the same order in
      both, because both follow the order in which the mutex was obtained. */
  lemma SinksAgree(cfg: Config, es: seq<Act>, g: Handle, h: Handle, i: nat, j: nat, k: nat, l: nat)
    requires !Reached(cfg, es).flags.overlap
    requires var bufs := Reached(cfg, es).hub.bufs;
             g in bufs && h in bufs && i < j < |bufs[g].accepted| && k < |bufs[h].accepted| && l < |bufs[h].accepted|
             && bufs[g].accepted[i] == bufs[h].accepted[k] && bufs[g].accepted[j] == bufs[h].accepted[l]
    ensures k < l
  {
    RunInv(cfg, es);
    var s := Reached(cfg, es);
    assert Consistent(s.hub.bufs[g], |s.hub.log|) && Consistent(s.hub.bufs[h], |s.hub.log|);
    SinksAgreeOnOrder(s.hub.bufs[g], s.hub.bufs[h], |s.hub.log|, i, j, k, l);
  }

  // ---------------------------------------------------------------- the table and the registry

  /** The points of the accept-and-serve loop between two clients. */
  predicate BetweenClients(pc: Pc) {
    pc == Inner || pc == Accept || pc.Serve? || pc == CheckNet
  }

  function Streaming(clients: seq<Client>): nat {
    if clients == [] then 0
    else Streaming(clients[..|clients| - 1]) + if clients[|clients| - 1].buffer != NULL then 1 else 0
  }

  lemma {:induction false} StreamingIsHeld(clients: seq<Client>)
    requires DistinctBuffers(clients)
    ensures Streaming(clients) == |Held(clients)|
    decreases |clients|
  {
    if clients == [] {
      assert Held(clients) == {};
    } else {
      var init, c := clients[..|clients| - 1], clients[|clients| - 1];
      StreamingIsHeld(init);
      assert clients == init + [c];
      assert forall d :: d in clients <==> d in init || d == c;
      if c.buffer == NULL {
        assert Held(clients) == Held(init);
      } else {
        assert Held(clients) == Held(init) + {c.buffer};
        assert c.buffer !in Held(init);
      }
    }
  }

  ghost function Registered(slots: seq<Handle>): set<Handle> {
    set h | h in slots && h != NULL
  }

  lemma {:induction false} RegisteredAtMost(slots: seq<Handle>)
    ensures |Registered(slots)| <= |slots|
    decreases |slots|
  {
    if slots == [] {
      assert Registered(slots) == {};
    } else {
      var init, h := slots[..|slots| - 1], slots[|slots| - 1];
      RegisteredAtMost(init);
      assert slots == init + [h];
      assert Registered(slots) <= Registered(init) + {h};
      SubsetSize(Registered(slots), Registered(init) + {h});
    }
  }

  lemma {:induction false} SubsetSize<T>(a: set<T>, b: set<T>)
    requires a <= b
    ensures |a| <= |b|
    decreases |b|
  {
    if a != {} {
      var x :| x in a;
      SubsetSize(a - {x}, b - {x});
    }
  }

  /** Between two clients, the table and the registry agree: an entry without socket has no buffer;
      every entry's buffer is live and registered, in one slot, and belongs to that entry alone;
      every other registered buffer belongs to the application. So streaming clients and other
      registrants together never exceed the six slots, however large the table is. */
  lemma TableMatchesRegistry(cfg: Config, es: seq<Act>)
    requires !Reached(cfg, es).flags.overlap && BetweenClients(Reached(cfg, es).pc)
    ensures var s := Reached(cfg, es);
            && (forall i :: 0 <= i < |s.clients| && s.clients[i].sock == INVALID_SOCK ==> s.clients[i].buffer == NULL)
            && (forall i :: 0 <= i < |s.clients| && s.clients[i].buffer != NULL ==>
                  s.clients[i].buffer in s.hub.slots && s.clients[i].buffer in s.hub.bufs && s.clients[i].buffer !in s.hub.apps)
            && DistinctBuffers(s.clients) && Distinct(s.hub.slots)
            && (forall h :: h in s.hub.slots && h != NULL ==>
                  h in s.hub.bufs && (h in s.hub.apps || exists c :: c in s.clients && c.buffer == h))
            && Streaming(s.clients) + |Registered(s.hub.slots) * s.hub.apps| <= SLOTS
  {
    hide Inv, Run, H.Sound, ClientOk, Distinct, Registered;
    var s := Reached(cfg, es);
    RunInv(cfg, es);
    PartsOf(cfg, s);
    SoundDistinct(s.hub, Held(s.clients));
    RegisteredIsLive(s.hub, Held(s.clients));
    EntriesRegistered(cfg, s);
    SlotsSuffice(s);
  }

  lemma RegisteredIsLive(hub: H.Hub, owned: set<Handle>)
    requires H.Sound(hub, owned)
    ensures forall h :: h in hub.slots && h != NULL ==> h in hub.bufs
    ensures hub.bufs.Keys == hub.apps + owned && hub.apps !! owned && |hub.slots| == SLOTS
  {
    forall h | h in hub.slots && h != NULL ensures h in hub.bufs {
      var a :| 0 <= a < |hub.slots| && hub.slots[a] == h;
      assert H.SlotOk(hub.slots[a], hub.bufs, H.Upto(hub.lock, hub.log, a));
    }
  }

  lemma EntriesRegistered(cfg: Config, s: State)
    requires Inv(cfg, s) && BetweenClients(s.pc)
    ensures forall i :: 0 <= i < |s.clients| && s.clients[i].sock == INVALID_SOCK ==> s.clients[i].buffer == NULL
    ensures forall i :: 0 <= i < |s.clients| && s.clients[i].buffer != NULL ==>
              s.clients[i].buffer in s.hub.slots && s.clients[i].buffer in Held(s.clients)
    ensures forall h :: h in Held(s.clients) ==> h != NULL && h in s.hub.slots
  {
    hide Inv, H.Sound, TableOk, WireOk;
    PartsOf(cfg, s);
    forall i | 0 <= i < |s.clients|
      ensures s.clients[i].sock == INVALID_SOCK ==> s.clients[i].buffer == NULL
      ensures s.clients[i].buffer != NULL ==> s.clients[i].buffer in s.hub.slots && s.clients[i].buffer in Held(s.clients)
    {
      InHeld(s.clients, i);
      assert ClientOk(cfg, s.hub, s.pc, i, s.clients[i]);
    }
  }

  lemma SlotsSuffice(s: State)
    requires DistinctBuffers(s.clients) && Held(s.clients) !! s.hub.apps && |s.hub.slots| == SLOTS
    requires forall h :: h in Held(s.clients) ==> h != NULL && h in s.hub.slots
    ensures Streaming(s.clients) + |Registered(s.hub.slots) * s.hub.apps| <= SLOTS
  {
    hide Held;
    var owned, others := Held(s.clients), Registered(s.hub.slots) * s.hub.apps;
    StreamingIsHeld(s.clients);
    RegisteredAtMost(s.hub.slots);
    SubsetSize(owned + others, Registered(s.hub.slots));
    assert owned * others == {};
    assert |owned + others| == |owned| + |others|;
  }

  /** Over any run, with any number of restarts, the client buffers created are those deleted and
      those held now, the sockets accepted are those closed and those open now, the table was never
      overwritten while it held something, and no task met a deleted buffer. */
  lemma NothingLost(cfg: Config, es: seq<Act>)
    requires !Reached(cfg, es).flags.overlap
    ensures var s := Reached(cfg, es);
            && s.count.created == s.count.deleted + Streaming(s.clients) && s.count.connected == s.count.closed + |s.socks|
            && !s.flags.lost && !s.hub.fault
  {
    RunInv(cfg, es);
    StreamingIsHeld(Reached(cfg, es).clients);
  }

  // ---------------------------------------------------------------- stop and deinit

  /** When stop has returned ESP_OK the task is gone: it holds no socket and no buffer, and whatever
      is still registered belongs to the application. */
  lemma StopIsComplete(cfg: Config, es: seq<Act>)
    requires cfg.maxRuns <= 1 && Reached(cfg, es).ctl.stopOk
    ensures var s := Reached(cfg, es);
            && s.pc == Idle && s.socks == {} && s.count.created == s.count.deleted
            && s.hub.bufs.Keys == s.hub.apps
            && forall h :: h in s.hub.slots && h != NULL ==> h in s.hub.apps
  {
    var s := Reached(cfg, es);
    RunStopInv(cfg, es);
    RunInv(cfg, es);
    assert H.Owned(s.hub, Held(s.clients));
    NoneHeld(s.clients);
    forall h | h in s.hub.slots && h != NULL ensures h in s.hub.bufs {
      var a :| 0 <= a < |s.hub.slots| && s.hub.slots[a] == h;
      assert H.SlotOk(s.hub.slots[a], s.hub.bufs, H.Upto(s.hub.lock, s.hub.log, a));
    }
  }

  lemma RunSnoc(cfg: Config, s: State, es: seq<Act>, e: Act)
    ensures Run(cfg, s, es + [e]) == Step(cfg, Run(cfg, s, es), e)
  {
    assert (es + [e])[..|es|] == es;
    hide Step;
  }

  /** Starting the server a second time without a new init: the stopped bit is still set, so the
      second stop returns at once, the structure is freed, and the task goes on using it. */
  function StaleStop(): seq<Act> {
    [Api(Init(true)), Api(Start(true)), Api(Stop), Task(Go), Task(Go), Api(WaitOk),
     Api(Start(true)), Api(Stop), Api(WaitOk), Api(Deinit), Task(Go)]
  }

  /** The caller starts the server only if it has not started it yet or its last stop returned
      ESP_OK, and does not free it. */
  ghost predicate Careful(cfg: Config, es: seq<Act>)
    decreases |es|
  {
    es == [] || (Careful(cfg, es[..|es| - 1]) && CarefulAct(Reached(cfg, es[..|es| - 1]), es[|es| - 1]))
  }

  ghost predicate CarefulAct(s: State, e: Act) {
    && e != Api(Deinit)
    && (e.Api? && e.c.Start? ==> s.ctl.runs == 0 || s.ctl.stopOk)
  }

  lemma StepsTo(cfg: Config, es: seq<Act>, n: nat, s: State, s': State)
    requires 0 < n <= |es| && Run(cfg, Boot(cfg), es[..n - 1]) == s && Step(cfg, s, es[n - 1]) == s'
    ensures Run(cfg, Boot(cfg), es[..n]) == s'
    ensures Careful(cfg, es[..n - 1]) && CarefulAct(s, es[n - 1]) ==> Careful(cfg, es[..n])
  {
    hide Step, CarefulAct;
    assert es[..n] == es[..n - 1] + [es[n - 1]];
    assert es[..n][..n - 1] == es[..n - 1];
    RunSnoc(cfg, Boot(cfg), es[..n - 1], es[n - 1]);
  }

  /** Three steps of a run at once. */
  lemma ThreeSteps(cfg: Config, es: seq<Act>, n: nat, s: State, s1: State, s2: State, s3: State)
    requires n + 3 <= |es| && Run(cfg, Boot(cfg), es[..n]) == s
    requires Step(cfg, s, es[n]) == s1 && Step(cfg, s1, es[n + 1]) == s2 && Step(cfg, s2, es[n + 2]) == s3
    ensures Run(cfg, Boot(cfg), es[..n + 3]) == s3
    ensures Careful(cfg, es[..n]) && CarefulAct(s, es[n]) && CarefulAct(s1, es[n + 1]) && CarefulAct(s2, es[n + 2]) ==>
              Careful(cfg, es[..n + 3])
  {
    hide Step, CarefulAct;
    StepsTo(cfg, es, n + 1, s, s1);
    StepsTo(cfg, es, n + 2, s1, s2);
    StepsTo(cfg, es, n + 3, s2, s3);
  }

  /** Init, run, stop. */
  lemma FirstStop(cfg: Config) returns (s1: State, s2: State, s3: State)
    requires cfg.maxRuns >= 1
    ensures Step(cfg, Boot(cfg), Api(Init(true))) == s1 && Step(cfg, s1, Api(Start(true))) == s2 && Step(cfg, s2, Api(Stop)) == s3
    ensures s1.ctl.runs == 0 && s3.pc == Outer && s3.ctl == Control(true, false, false, false, 1, false)
    ensures s3.clients == Boot(cfg).clients && s3.socks == {} && !s3.flags.overlap
  {
    s1 := Step(cfg, Boot(cfg), Api(Init(true)));
    s2 := Step(cfg, s1, Api(Start(true)));
    s3 := Step(cfg, s2, Api(Stop));
  }

  /** The task's two steps to its end, and the wait that finds it ended. */
  lemma FirstEnd(cfg: Config, s: State) returns (s1: State, s2: State, s3: State)
    requires s.pc == Outer && s.ctl == Control(true, false, false, false, 1, false)
    ensures Step(cfg, s, Task(Go)) == s1 && Step(cfg, s1, Task(Go)) == s2 && Step(cfg, s2, Api(WaitOk)) == s3
    ensures s3 == s.(pc := Idle, ctl := Control(true, false, true, false, 1, true))
  {
    s1 := s.(pc := Finish);
    s2 := s1.(pc := Idle, ctl := Control(true, false, true, false, 1, false));
    s3 := s2.(ctl := Control(true, false, true, false, 1, true));
    hide StepReset, StepAccept, StepServe, StepSending;
  }

  /** The second start, and a stop that returns at once. */
  lemma SecondStop(cfg: Config, s: State) returns (s1: State, s2: State, s3: State)
    requires cfg.maxRuns >= 2 && s.pc == Idle && s.ctl == Control(true, false, true, false, 1, true)
    ensures Step(cfg, s, Api(Start(true))) == s1 && Step(cfg, s1, Api(Stop)) == s2 && Step(cfg, s2, Api(WaitOk)) == s3
    ensures s3.pc == Outer && s3.ctl.alive && s3.ctl.stopOk
  {
    s1 := Step(cfg, s, Api(Start(true)));
    s2 := Step(cfg, s1, Api(Stop));
    s3 := Step(cfg, s2, Api(WaitOk));
  }

  lemma NoStepYet(cfg: Config, s: State)
    ensures Run(cfg, s, []) == s
  {
  }

  lemma AfterFirstStop(cfg: Config, es: seq<Act>) returns (s6: State)
    requires cfg.maxRuns >= 1 && |es| >= 6
    requires es[0] == Api(Init(true)) && es[1] == Api(Start(true)) && es[2] == Api(Stop)
    requires es[3] == Task(Go) && es[4] == Task(Go) && es[5] == Api(WaitOk)
    ensures Careful(cfg, es[..6]) && s6 == Run(cfg, Boot(cfg), es[..6])
    ensures s6.pc == Idle && s6.ctl == Control(true, false, true, false, 1, true)
    ensures s6.clients == Boot(cfg).clients && s6.socks == {} && !s6.flags.overlap
  {
    hide Step, Boot, StaleStop, Run;
    var s1, s2, s3 := FirstStop(cfg);
    assert es[..0] == [];
    assert Run(cfg, Boot(cfg), []) == Boot(cfg) by { NoStepYet(cfg, Boot(cfg)); }
    ThreeSteps(cfg, es, 0, Boot(cfg), s1, s2, s3);
    var s4, s5;
    s4, s5, s6 := FirstEnd(cfg, s3);
    ThreeSteps(cfg, es, 3, s3, s4, s5, s6);
  }

  /** The second stop returns ESP_OK while the second task has yet to begin. */
  lemma AfterStaleStop(cfg: Config) returns (s9: State)
    requires cfg.maxRuns >= 2
    ensures s9 == Run(cfg, Boot(cfg), StaleStop()[..9])
    ensures s9.pc == Outer && s9.ctl.alive && s9.ctl.stopOk
  {
    hide Step;
    var es := StaleStop();
    var s6 := AfterFirstStop(cfg, es);
    var s7, s8;
    s7, s8, s9 := SecondStop(cfg, s6);
    ThreeSteps(cfg, es, 6, s6, s7, s8, s9);
  }

  lemma FreedWhileAlive(cfg: Config, s: State) returns (s1: State, s2: State)
    requires s.pc == Outer && s.ctl.alive && s.ctl.stopOk
    ensures Step(cfg, s, Api(Deinit)) == s1 && Step(cfg, s1, Task(Go)) == s2 && s2.flags.dangling
  {
    s1 := Step(cfg, s, Api(Deinit));
    s2 := Step(cfg, s1, Task(Go));
  }

  lemma StaleStopDangles(cfg: Config)
    requires cfg.maxRuns >= 2
    ensures Reached(cfg, StaleStop()).flags.dangling
  {
    hide Step;
    var es := StaleStop();
    var s9 := AfterStaleStop(cfg);
    var s10, s11 := FreedWhileAlive(cfg, s9);
    StepsTo(cfg, es, 10, s9, s10);
    StepsTo(cfg, es, 11, s10, s11);
    assert es[..11] == es;
  }

  /** That stop returned ESP_OK means in every interleaving that the task is gone, if and only if the
      server is started at most once per init. */
  lemma StopMeansGoneIff(cfg: Config)
    ensures (forall es :: Reached(cfg, es).ctl.stopOk ==> Reached(cfg, es).pc == Idle) <==> cfg.maxRuns <= 1
  {
    hide Run;
    if cfg.maxRuns <= 1 {
      forall es | Reached(cfg, es).ctl.stopOk ensures Reached(cfg, es).pc == Idle {
        RunStopInv(cfg, es);
      }
    } else {
      var s9 := AfterStaleStop(cfg);
      assert Reached(cfg, StaleStop()[..9]) == s9;
    }
  }

  /** Freeing the server after a successful stop is safe in every interleaving if and only if it is
      started at most once per init. */
  lemma DeinitIsSafeIff(cfg: Config)
    ensures (forall es :: !Reached(cfg, es).flags.dangling) <==> cfg.maxRuns <= 1
  {
    if cfg.maxRuns <= 1 {
      forall es ensures !Reached(cfg, es).flags.dangling {
        RunStopInv(cfg, es);
      }
    } else {
      StaleStopDangles(cfg);
    }
  }

  // ---------------------------------------------------------------- starts that overlap

  /** No start and no init ever overlaps an earlier task, in any interleaving, if and only if the
      server is started at most once per init. */
  lemma NoOverlapIff(cfg: Config)
    ensures (forall es :: !Reached(cfg, es).flags.overlap) <==> cfg.maxRuns <= 1
  {
    if cfg.maxRuns <= 1 {
      forall es ensures !Reached(cfg, es).flags.overlap {
        RunStopInv(cfg, es);
      }
    } else {
      StartTwice(cfg);
    }
  }

  lemma StartTwice(cfg: Config)
    requires cfg.maxRuns >= 2
    ensures Reached(cfg, [Api(Init(true)), Api(Start(true)), Api(Start(true))]).flags.overlap
  {
    var es := [Api(Init(true)), Api(Start(true)), Api(Start(true))];
    var s1 := Step(cfg, Boot(cfg), es[0]);
    var s2 := Step(cfg, s1, es[1]);
    var s3 := Step(cfg, s2, es[2]);
    assert s3.flags.overlap;
    hide Step;
    assert es[..0] == [] && es[..3] == es;
    ThreeSteps(cfg, es, 0, Boot(cfg), s1, s2, s3);
  }

  /** With a careful caller the first task is gone when the server is started again. */
  ghost predicate CarefulInv(s: State) {
    && s.ctl.runs <= 2
    && (s.pc != Idle ==> s.ctl.alive && s.ctl.runs >= 1)
    && (s.ctl.runs == 0 ==> s.pc == Idle && !s.ctl.stopped && !s.ctl.stopOk)
    && (s.ctl.runs == 1 && s.pc != Idle ==> !s.ctl.stopped && !s.ctl.stopOk)
    && (s.ctl.stopOk ==> s.ctl.stopped)
    && !s.flags.overlap
  }

  lemma StepCarefulInv(cfg: Config, s: State, e: Act)
    requires CarefulInv(s) && cfg.maxRuns <= 2 && CarefulAct(s, e)
    ensures CarefulInv(Step(cfg, s, e))
  {
    hide StepServe, StepCreate, StepRegister, StepSending, StepClose, StepUnregister, StepDelete, StepAccept, StepReset, H.Step, HoldsSomething;
    if e.Task? && s.ctl.alive && (Busy(s.pc).Some? || s.pc.Serve? || s.pc == Reset || s.pc == Accept) {
      ClientStepFlags(cfg, s, e.m);
    }
  }

  lemma {:induction false} RunCarefulInv(cfg: Config, es: seq<Act>)
    requires cfg.maxRuns <= 2 && Careful(cfg, es)
    ensures CarefulInv(Reached(cfg, es))
    decreases |es|
  {
    if es == [] {
    } else {
      hide CarefulInv, CarefulAct, Step;
      RunCarefulInv(cfg, es[..|es| - 1]);
      StepCarefulInv(cfg, Reached(cfg, es[..|es| - 1]), es[|es| - 1]);
    }
  }

  /** A careful caller's third start: the second stop returned ESP_OK at once because of the stale
      bit, while the second task has a client. The third task resets the table over it. */
  function ThirdStart(): seq<Act> {
    [Api(Init(true)), Api(Start(true)), Api(Stop), Task(Go), Task(Go), Api(WaitOk),
     Api(Start(true)), Task(Go), Task(Go), Task(SetupDone(true)), Task(Go), Task(Go),
     Task(Accepted(Connection(5, true))), Api(Stop), Api(WaitOk), Api(Start(true)), Task(Go), Task(Go)]
  }

  /** The second task sets the table up. */
  lemma SecondTaskBegins(cfg: Config, s: State) returns (s1: State, s2: State, s3: State)
    requires cfg.maxRuns >= 3 && s.pc == Idle && s.ctl == Control(true, false, true, false, 1, true)
    ensures Step(cfg, s, Api(Start(true))) == s1 && Step(cfg, s1, Task(Go)) == s2 && Step(cfg, s2, Task(Go)) == s3
    ensures s3.pc == Setup && s3.ctl == Control(true, true, true, false, 2, false)
    ensures s3.clients == ResetTable(s.clients) && s3.socks == s.socks && s3.flags.overlap == s.flags.overlap
  {
    hide ResetTable, HoldsSomething, StepServe, StepSending, StepAccept;
    s1 := Step(cfg, s, Api(Start(true)));
    s2 := Step(cfg, s1, Task(Go));
    assert s2.pc == Reset;
    s3 := Step(cfg, s2, Task(Go));
  }

  /** It sets up its listener. */
  lemma SecondTaskListens(cfg: Config, s: State) returns (s1: State, s2: State, s3: State)
    requires s.pc == Setup && s.ctl == Control(true, true, true, false, 2, false)
    ensures Step(cfg, s, Task(SetupDone(true))) == s1 && Step(cfg, s1, Task(Go)) == s2 && Step(cfg, s2, Task(Go)) == s3
    ensures s3 == s.(pc := Accept, gen := s.gen + 1)
  {
    hide StepServe, StepSending, StepAccept, StepReset;
    s1 := s.(pc := ClearNet, gen := s.gen + 1);
    s2 := s1.(pc := Inner);
    s3 := s2.(pc := Accept);
  }

  /** It accepts a client; then the second stop returns at once. */
  lemma SecondTaskAccepts(cfg: Config, s: State) returns (s1: State, s2: State, s3: State)
    requires s.pc == Accept && s.ctl == Control(true, true, true, false, 2, false)
    requires s.socks == {} && FirstFree(s.clients) < |s.clients|
    ensures Step(cfg, s, Task(Accepted(Connection(5, true)))) == s1 && Step(cfg, s1, Api(Stop)) == s2 && Step(cfg, s2, Api(WaitOk)) == s3
    ensures s3.pc == Serve(0) && s3.ctl == Control(true, false, true, false, 2, true) && s3.socks == {5} && s3.flags.overlap == s.flags.overlap
  {
    hide StepServe, StepSending, StepReset, FirstFree;
    s1 := Step(cfg, s, Task(Accepted(Connection(5, true))));
    assert s1.pc == Serve(0) && s1.ctl == s.ctl && s1.socks == {5};
    s2 := s1.(ctl := Control(true, false, true, false, 2, false));
    s3 := s2.(ctl := Control(true, false, true, false, 2, true));
  }

  /** The third task resets the table. */
  lemma ThirdTaskBegins(cfg: Config, s: State) returns (s1: State, s2: State, s3: State)
    requires cfg.maxRuns >= 3 && s.pc == Serve(0) && s.ctl == Control(true, false, true, false, 2, true) && s.socks == {5}
    ensures Step(cfg, s, Api(Start(true))) == s1 && Step(cfg, s1, Task(Go)) == s2 && Step(cfg, s2, Task(Go)) == s3
    ensures s3.flags.overlap && s3.flags.lost
  {
    hide ResetTable, StepServe, StepSending, StepAccept;
    s1 := Step(cfg, s, Api(Start(true)));
    s2 := Step(cfg, s1, Task(Go));
    assert s2.pc == Reset && s2.socks == {5};
    s3 := Step(cfg, s2, Task(Go));
  }

  lemma AfterSecondStop(cfg: Config, es: seq<Act>) returns (s15: State)
    requires cfg.maxRuns >= 3 && cfg.clients > 0 && |es| == 18
    requires es[0] == Api(Init(true)) && es[1] == Api(Start(true)) && es[2] == Api(Stop)
    requires es[3] == Task(Go) && es[4] == Task(Go) && es[5] == Api(WaitOk)
    requires es[6] == Api(Start(true)) && es[7] == Task(Go) && es[8] == Task(Go)
    requires es[9] == Task(SetupDone(true)) && es[10] == Task(Go) && es[11] == Task(Go)
    requires es[12] == Task(Accepted(Connection(5, true))) && es[13] == Api(Stop) && es[14] == Api(WaitOk)
    ensures Careful(cfg, es[..15]) && s15 == Run(cfg, Boot(cfg), es[..15])
    ensures s15.pc == Serve(0) && s15.ctl == Control(true, false, true, false, 2, true) && s15.socks == {5}
  {
    hide Step, Run, Careful;
    var s6 := AfterFirstStop(cfg, es);
    var s7, s8, s9 := SecondTaskBegins(cfg, s6);
    ThreeSteps(cfg, es, 6, s6, s7, s8, s9);
    var s10, s11, s12 := SecondTaskListens(cfg, s9);
    ThreeSteps(cfg, es, 9, s9, s10, s11, s12);
    assert s12.clients[0].sock == INVALID_SOCK;
    hide Boot;
    var s13, s14;
    s13, s14, s15 := SecondTaskAccepts(cfg, s12);
    ThreeSteps(cfg, es, 12, s12, s13, s14, s15);
  }

  lemma ThirdStartLoses(cfg: Config)
    requires cfg.maxRuns >= 3 && cfg.clients > 0
    ensures Careful(cfg, ThirdStart()) && Reached(cfg, ThirdStart()).flags.overlap && Reached(cfg, ThirdStart()).flags.lost
  {
    hide Step, Run, Boot, Careful;
    var es := ThirdStart();
    var s15 := AfterSecondStop(cfg, es);
    var s16, s17, s18 := ThirdTaskBegins(cfg, s15);
    ThreeSteps(cfg, es, 15, s15, s16, s17, s18);
    assert es[..18] == es;
  }

  /** With a careful caller no start overlaps an earlier task, and no reset loses a socket or a buffer,
      if and only if the server is started at most twice per init. */
  lemma CarefulCallerIff(cfg: Config)
    requires cfg.clients > 0
    ensures (forall es :: Careful(cfg, es) ==> !Reached(cfg, es).flags.overlap) <==> cfg.maxRuns <= 2
    ensures (forall es :: Careful(cfg, es) ==> !Reached(cfg, es).flags.lost) <==> cfg.maxRuns <= 2
  {
    if cfg.maxRuns <= 2 {
      forall es | Careful(cfg, es) ensures !Reached(cfg, es).flags.overlap && !Reached(cfg, es).flags.lost {
        RunCarefulInv(cfg, es);
        NothingLost(cfg, es);
      }
    } else {
      ThirdStartLoses(cfg);
    }
  }

  // ---------------------------------------------------------------- network changes

  /** The task is inside the accept-and-serve loop of the current listener. */
  predicate Listening(pc: Pc) {
    match pc
    case Inner => true
    case Accept => true
    case Serve(_) => true
    case Creating(_) => true
    case Registering(_) => true
    case Sending(_, _) => true
    case Closing(_, ret) => ret == ToServe
    case Unregistering(_, ret) => ret == ToServe
    case Deleting(_, ret) => ret == ToServe
    case CheckNet => true
    case _ => false
  }

  /** Where the task may still accept before it looks at the event bit. */
  predicate BeforeAccept(pc: Pc) {
    pc == Inner || pc == Accept
  }

  function AcceptsLeft(pc: Pc): nat {
    if BeforeAccept(pc) then 1 else 0
  }

  /** Since the signal in state s: either a later listener is in place, or the task has left this
      one, or the signal is still pending and the task has not gone back to accept. */
  ghost predicate SignalPending(s: State, t: State) {
    || t.gen > s.gen
    || (t.gen == s.gen && !Listening(t.pc) && t.pc != ClearNet && t.accepts <= s.accepts + AcceptsLeft(s.pc))
    || (t.gen == s.gen && Listening(t.pc) && t.ctl.net
        && t.accepts + AcceptsLeft(t.pc) <= s.accepts + AcceptsLeft(s.pc))
  }

  /** The listener, the event bit and the place in the loop are as before. */
  ghost predicate OnlyClientWork(t: State, t': State) {
    && t'.gen == t.gen && t'.accepts == t.accepts && t'.ctl == t.ctl
    && Listening(t'.pc) == Listening(t.pc) && t'.pc !in {Inner, Accept, Setup, ClearNet}
  }

  lemma ServeWork(cfg: Config, t: State, i: nat, m: Move)
    requires t.pc == Serve(i)
    ensures OnlyClientWork(t, StepServe(cfg, t, i, m))
  {
    hide H.ReceiveBuffer, Ready, FrameBytes, S.Begin;
  }

  lemma SendingWork(cfg: Config, t: State, i: nat, now: nat, m: Move)
    requires t.pc == Sending(i, now) && i < |t.clients|
    ensures OnlyClientWork(t, StepSending(cfg, t, i, now, m))
  {
    hide S.Progress;
  }

  lemma CleanupWork(cfg: Config, t: State, i: nat, m: Move)
    requires i < |t.clients|
    ensures t.pc == Creating(i) ==> OnlyClientWork(t, StepCreate(cfg, t, i, m))
    ensures t.pc == Registering(i) ==> OnlyClientWork(t, StepRegister(t, i))
    ensures forall ret :: t.pc == Closing(i, ret) ==> OnlyClientWork(t, StepClose(t, i, ret))
    ensures forall ret :: t.pc == Unregistering(i, ret) ==> OnlyClientWork(t, StepUnregister(t, i, ret))
    ensures forall ret :: t.pc == Deleting(i, ret) ==> OnlyClientWork(t, StepDelete(t, i, ret))
  {
    hide H.CreateBuffer, H.RegisterBuffer, H.UnregisterBuffer, H.DeleteBuffer, Insert;
  }

  /** Working on one client neither touches the listener nor the event bit. */
  lemma ClientWork(cfg: Config, t: State, m: Move)
    requires t.pc.Serve? || Busy(t.pc).Some?
    ensures OnlyClientWork(t, TaskStep(cfg, t, m))
  {
    hide StepServe, StepCreate, StepRegister, StepSending, StepClose, StepUnregister, StepDelete;
    if t.pc.Serve? {
      ServeWork(cfg, t, t.pc.i, m);
    } else if t.pc.Sending? {
      if t.pc.i < |t.clients| { SendingWork(cfg, t, t.pc.i, t.pc.now, m); }
    } else if Busy(t.pc).value < |t.clients| {
      CleanupWork(cfg, t, Busy(t.pc).value, m);
    }
  }

  lemma SignalPendingStep(cfg: Config, s: State, t: State, e: Act)
    requires SignalPending(s, t) && !Step(cfg, t, e).flags.overlap
    ensures SignalPending(s, Step(cfg, t, e))
    ensures Step(cfg, t, e).gen >= t.gen && (Step(cfg, t, e).gen > t.gen ==> t.pc == Setup)
  {
    hide TaskStep, ApiStep, H.Step;
    match e
    case Task(m) =>
      if t.pc.Serve? || Busy(t.pc).Some? {
        ClientWork(cfg, t, m);
      } else {
        ListenerWork(cfg, s, t, m);
      }
    case Api(c) => ApiWork(cfg, s, t, c);
    case Other(_) =>
  }

  lemma ApiWork(cfg: Config, s: State, t: State, c: Command)
    requires SignalPending(s, t) && !ApiStep(cfg, t, c).flags.overlap
    ensures SignalPending(s, ApiStep(cfg, t, c)) && ApiStep(cfg, t, c).gen == t.gen
  {
  }

  lemma ListenerWork(cfg: Config, s: State, t: State, m: Move)
    requires SignalPending(s, t) && !t.pc.Serve? && Busy(t.pc) == None
    ensures SignalPending(s, TaskStep(cfg, t, m))
    ensures TaskStep(cfg, t, m).gen >= t.gen && (TaskStep(cfg, t, m).gen > t.gen ==> t.pc == Setup)
  {
    hide StepServe, StepCreate, StepRegister, StepSending, StepClose, StepUnregister, StepDelete,
      FirstFree, HoldsSomething, ResetTable;
  }

  lemma {:induction false} SignalStaysPending(cfg: Config, s: State, es: seq<Act>)
    requires s.ctl.net && Listening(s.pc) && !Run(cfg, s, es).flags.overlap
    ensures SignalPending(s, Run(cfg, s, es))
    decreases |es|
  {
    hide Step;
    if es != [] {
      NoOverlapBefore(cfg, s, es, |es| - 1);
      SignalStaysPending(cfg, s, es[..|es| - 1]);
      SignalPendingStep(cfg, s, Run(cfg, s, es[..|es| - 1]), es[|es| - 1]);
    }
  }

  /** Nothing is open and nothing is held. */
  ghost predicate TornDown(s: State) {
    && s.socks == {}
    && forall i :: 0 <= i < |s.clients| ==> s.clients[i].buffer == NULL && s.clients[i].sock == INVALID_SOCK
  }

  lemma SetupIsTornDown(cfg: Config, s: State)
    requires Inv(cfg, s) && s.pc == Setup
    ensures TornDown(s)
  {
    AllClosed(cfg, s);
    hide H.Sound, ClientsOk;
  }

  /** The point at which the listener in use in s is given up: the task is about to set up the next
      one, has closed every client and released every buffer, and has accepted at most once more. */
  ghost predicate HandedOver(s: State, t: State) {
    t.pc == Setup && t.gen == s.gen && TornDown(t) && t.accepts <= s.accepts + AcceptsLeft(s.pc)
  }

  /** A network change signalled while a listener is in use is not lost. The task accepts on that
      listener at most once more, and only if it had not yet done so in this turn of the loop; any
      further connection comes from a later listener, which is set up only after every client of
      this one has been closed and its buffer released. */
  lemma {:induction false} NetworkChangeIsHandled(cfg: Config, es: seq<Act>, later: seq<Act>)
    requires Reached(cfg, es).ctl.net && Listening(Reached(cfg, es).pc) && !Run(cfg, Reached(cfg, es), later).flags.overlap
    ensures var s, t := Reached(cfg, es), Run(cfg, Reached(cfg, es), later);
            && (t.accepts > s.accepts + AcceptsLeft(s.pc) ==> t.gen > s.gen)
            && (t.gen > s.gen ==> exists k :: 0 <= k < |later| && HandedOver(s, Run(cfg, s, later[..k])))
  {
    hide Step, Inv, HandedOver;
    var s := Reached(cfg, es);
    SignalStaysPending(cfg, s, later);
    if Run(cfg, s, later).gen > s.gen {
      ListenerReplaced(cfg, es, later);
    }
  }

  /** A network event while a listener is in use is not lost: what NetworkChangeIsHandled says, from the
      call of the event handler on, whatever else happens. */
  lemma SignalIsHandled(cfg: Config, es: seq<Act>, later: seq<Act>)
    requires Listening(Reached(cfg, es).pc) && Reached(cfg, es).ctl.alive
    requires !Reached(cfg, es + [Api(NetChanged)] + later).flags.overlap
    ensures var s, t := Reached(cfg, es), Reached(cfg, es + [Api(NetChanged)] + later);
            && (t.accepts > s.accepts + AcceptsLeft(s.pc) ==> t.gen > s.gen)
            && (t.gen > s.gen ==>
                  exists k :: 0 <= k < |later| && HandedOver(s, Reached(cfg, es + [Api(NetChanged)] + later[..k])))
  {
    hide HandedOver, Listening, Run;
    var es', s := es + [Api(NetChanged)], Reached(cfg, es);
    RunSnoc(cfg, Boot(cfg), es, Api(NetChanged));
    var s' := Reached(cfg, es');
    assert s' == s.(ctl := s.ctl.(net := true));
    hide Step;
    RunConcat(cfg, Boot(cfg), es', later);
    NetworkChangeIsHandled(cfg, es', later);
    forall k | 0 <= k < |later| ensures Run(cfg, s', later[..k]) == Reached(cfg, es' + later[..k]) {
      RunConcat(cfg, Boot(cfg), es', later[..k]);
    }
    if Run(cfg, s', later).gen > s.gen {
      var k :| 0 <= k < |later| && HandedOver(s', Run(cfg, s', later[..k]));
      SameHandover(s, s', Run(cfg, s', later[..k]));
    }
  }

  lemma SameHandover(s: State, s': State, t: State)
    requires HandedOver(s', t) && s'.gen == s.gen && s'.accepts == s.accepts && s'.pc == s.pc
    ensures HandedOver(s, t)
  {
  }

  lemma StepSetsBit(cfg: Config, s: State, e: Act)
    requires Step(cfg, s, e).ctl.net && !s.ctl.net
    ensures e == Api(NetChanged) && s.ctl.alive
  {
    hide StepServe, StepCreate, StepRegister, StepSending, StepClose, StepUnregister, StepDelete, StepAccept, StepReset, H.Step, HoldsSomething;
    if e.Task? && s.ctl.alive && (Busy(s.pc).Some? || s.pc.Serve? || s.pc == Reset || s.pc == Accept) {
      ClientStepFlags(cfg, s, e.m);
    }
  }

  /** The bit is never set but by a network event, and then it has been pending ever since: so no
      listener is given up for a change that did not happen. */
  lemma {:induction false} BitMeansSignal(cfg: Config, es: seq<Act>)
    requires Reached(cfg, es).ctl.net
    ensures exists k :: 0 <= k < |es| && es[k] == Api(NetChanged) && Reached(cfg, es[..k]).ctl.alive
                     && forall j :: k < j <= |es| ==> Reached(cfg, es[..j]).ctl.net
    decreases |es|
  {
    hide Step;
    if es == [] {
      assert false;
    } else {
      var n := |es| - 1;
      var init := es[..n];
      assert es[..|es|] == es;
      if Reached(cfg, init).ctl.net {
        BitMeansSignal(cfg, init);
        var k :| 0 <= k < n && init[k] == Api(NetChanged) && Reached(cfg, init[..k]).ctl.alive
                 && forall j :: k < j <= n ==> Reached(cfg, init[..j]).ctl.net;
        assert init[..k] == es[..k];
        forall j | k < j <= |es| ensures Reached(cfg, es[..j]).ctl.net {
          assert j <= n ==> init[..j] == es[..j];
        }
        assert es[k] == Api(NetChanged);
      } else {
        StepSetsBit(cfg, Reached(cfg, init), es[n]);
        forall j | n < j <= |es| ensures Reached(cfg, es[..j]).ctl.net {
          assert es[..j] == es;
        }
        assert es[n] == Api(NetChanged);
      }
    }
  }

  /** A new listener is set up only after the old one's clients are gone. */
  lemma {:induction false} ListenerReplaced(cfg: Config, es: seq<Act>, later: seq<Act>)
    requires Reached(cfg, es).ctl.net && Listening(Reached(cfg, es).pc) && !Run(cfg, Reached(cfg, es), later).flags.overlap
    requires Run(cfg, Reached(cfg, es), later).gen > Reached(cfg, es).gen
    ensures exists k :: 0 <= k < |later| && HandedOver(Reached(cfg, es), Run(cfg, Reached(cfg, es), later[..k]))
    decreases |later|
  {
    hide Step, Inv, TornDown;
    var s, n := Reached(cfg, es), |later| - 1;
    var t := Run(cfg, s, later[..n]);
    NoOverlapBefore(cfg, s, later, n);
    SignalStaysPending(cfg, s, later[..n]);
    SignalPendingStep(cfg, s, t, later[n]);
    if t.gen > s.gen {
      ListenerReplaced(cfg, es, later[..n]);
      var k :| 0 <= k < n && HandedOver(s, Run(cfg, s, later[..n][..k]));
      assert later[..n][..k] == later[..k];
    } else {
      RunConcat(cfg, Boot(cfg), es, later[..n]);
      RunInv(cfg, es + later[..n]);
      SetupIsTornDown(cfg, t);
      assert HandedOver(s, t);
    }
  }

  lemma {:induction false} RunConcat(cfg: Config, s: State, es: seq<Act>, fs: seq<Act>)
    ensures Run(cfg, s, es + fs) == Run(cfg, Run(cfg, s, es), fs)
    decreases |fs|
  {
    hide Step;
    if fs == [] {
      assert es + fs == es;
    } else {
      var n := |fs| - 1;
      assert (es + fs)[..|es + fs| - 1] == es + fs[..n];
      RunConcat(cfg, s, es, fs[..n]);
    }
  }

  // ---------------------------------------------------------------- peers that went away

  /** An entry with a connection that has not subscribed. */
  ghost predicate Waiting(s: State, i: nat) {
    i < |s.clients| && s.clients[i].sock != INVALID_SOCK && s.clients[i].buffer == NULL && Busy(s.pc) != Some(i)
  }

  ghost predicate KeepsSock(s: State, t: State, i: nat) {
    i < |s.clients| && Waiting(t, i) && t.clients[i].sock == s.clients[i].sock
  }

  /** Whenever client i is served, its recv() finds nothing, or the end of the stream. */
  ghost predicate SilentPeer(cfg: Config, s: State, es: seq<Act>, i: nat)
    decreases |es|
  {
    es == [] ||
    var n := |es| - 1;
    && SilentPeer(cfg, s, es[..n], i)
    && (Run(cfg, s, es[..n]).pc == Serve(i) && es[n].Task? && es[n].m.Requested? ==>
          es[n].m.request == NoData || es[n].m.request == PeerClosed)
  }

  /** As long as the listener of s is in use: every entry in `peers` is as it was, and when these are
      all the entries no connection has been accepted. */
  ghost predicate EntriesKept(s: State, t: State, peers: set<nat>) {
    || t.gen > s.gen
    || (t.gen == s.gen && !Listening(t.pc) && t.pc != ClearNet && (All(s, peers) ==> t.accepts == s.accepts))
    || (t.gen == s.gen && Listening(t.pc) && |t.clients| == |s.clients| && (All(s, peers) ==> t.accepts == s.accepts)
        && forall i :: i in peers ==> KeepsSock(s, t, i))
  }

  ghost predicate All(s: State, peers: set<nat>) {
    forall i :: 0 <= i < |s.clients| ==> i in peers
  }

  /** Entry i is neither worked on nor about to be. */
  ghost predicate EntrySame(t: State, t': State, i: nat) {
    |t'.clients| == |t.clients| && i < |t.clients| && t'.clients[i] == t.clients[i] && Busy(t'.pc) != Some(i)
  }

  lemma BusyElsewhere(cfg: Config, t: State, m: Move, i: nat)
    requires Waiting(t, i) && t.ctl.alive && (Busy(t.pc).Some? || t.pc.Serve?)
    requires t.pc == Serve(i) && m.Requested? ==> m.request == NoData || m.request == PeerClosed
    ensures EntrySame(t, TaskStep(cfg, t, m), i)
  {
    var k := if t.pc.Serve? then t.pc.i else Busy(t.pc).value;
    hide StepPoll, StepCreate, StepRegister, StepSending, StepClose, StepUnregister, StepDelete;
    if k < |t.clients| && k != i {
      HandlerElsewhere(cfg, t, m, k, i);
    }
  }

  lemma HandlerElsewhere(cfg: Config, t: State, m: Move, k: nat, i: nat)
    requires k < |t.clients| && i < |t.clients| && i != k
    ensures t.pc == Serve(k) ==> EntrySame(t, StepPoll(cfg, t, k, m), i)
    ensures t.pc == Creating(k) ==> EntrySame(t, StepCreate(cfg, t, k, m), i)
    ensures t.pc == Registering(k) ==> EntrySame(t, StepRegister(t, k), i)
    ensures t.pc.Sending? && t.pc.i == k ==> EntrySame(t, StepSending(cfg, t, k, t.pc.now, m), i)
    ensures t.pc.Closing? && t.pc.i == k ==> EntrySame(t, StepClose(t, k, t.pc.ret), i)
    ensures t.pc.Unregistering? && t.pc.i == k ==> EntrySame(t, StepUnregister(t, k, t.pc.ret), i)
    ensures t.pc.Deleting? && t.pc.i == k ==> EntrySame(t, StepDelete(t, k, t.pc.ret), i)
  {
    hide Ready, FrameBytes, S.Begin, S.Progress, Insert, Served,
      H.ReceiveBuffer, H.CreateBuffer, H.RegisterBuffer, H.UnregisterBuffer, H.DeleteBuffer;
  }

  lemma AcceptElsewhere(t: State, m: Move, peers: set<nat>)
    requires t.pc == Accept && forall i :: i in peers ==> Waiting(t, i)
    ensures var t' := StepAccept(t, m);
            && t'.gen == t.gen && |t'.clients| == |t.clients| && Busy(t'.pc) == None && t'.pc != ClearNet
            && (All(t, peers) ==> t'.accepts == t.accepts)
            && forall i :: i in peers ==> KeepsSock(t, t', i)
  {
    var j := FirstFree(t.clients);
    if j < |t.clients| {
      assert j in peers ==> Waiting(t, j);
    }
    hide FirstFree;
  }

  lemma EntriesKeptStep(cfg: Config, s: State, t: State, e: Act, peers: set<nat>)
    requires EntriesKept(s, t, peers) && !Step(cfg, t, e).flags.overlap
    requires forall i :: i in peers && t.pc == Serve(i) && e.Task? && e.m.Requested? ==>
               e.m.request == NoData || e.m.request == PeerClosed
    ensures EntriesKept(s, Step(cfg, t, e), peers)
  {
    hide TaskStep, ApiStep, H.Step, All;
    match e
    case Other(_) =>
    case Api(c) => EntriesKeptApi(cfg, s, t, c, peers);
    case Task(m) =>
      if t.ctl.alive && (Busy(t.pc).Some? || t.pc.Serve?) {
        ClientWork(cfg, t, m);
        ClientStepFlags(cfg, t, m);
        forall i | i in peers && t.gen == s.gen && Listening(t.pc)
          ensures KeepsSock(s, TaskStep(cfg, t, m), i) {
          BusyElsewhere(cfg, t, m, i);
        }
      } else {
        EntriesKeptMove(cfg, s, t, m, peers);
      }
  }

  lemma EntriesKeptApi(cfg: Config, s: State, t: State, c: Command, peers: set<nat>)
    requires EntriesKept(s, t, peers) && !ApiStep(cfg, t, c).flags.overlap
    ensures EntriesKept(s, ApiStep(cfg, t, c), peers)
  {
    hide All, HoldsSomething;
  }

  lemma AcceptGen(t: State, m: Move)
    ensures StepAccept(t, m).gen == t.gen
  {
    hide FirstFree;
  }

  lemma EntriesKeptMove(cfg: Config, s: State, t: State, m: Move, peers: set<nat>)
    requires EntriesKept(s, t, peers)
    requires t.ctl.alive ==> Busy(t.pc) == None && !t.pc.Serve?
    ensures EntriesKept(s, TaskStep(cfg, t, m), peers)
  {
    hide StepServe, StepCreate, StepRegister, StepSending, StepClose, StepUnregister, StepDelete, StepAccept, HoldsSomething, ResetTable;
    AcceptGen(t, m);
    if t.pc == Accept && t.gen == s.gen {
      AcceptElsewhere(t, m, peers);
    }
  }

  /** A peer that closes its connection before it subscribes is not noticed: recv() of 0 bytes counts
      as no data, so through any number of polls its entry keeps the socket, until the listener is
      given up. When all entries are taken by such peers, no further connection is accepted. */
  lemma {:induction false} SilentPeersKeepEntries(cfg: Config, s: State, later: seq<Act>, peers: set<nat>)
    requires Listening(s.pc) && !Run(cfg, s, later).flags.overlap
    requires forall i :: i in peers ==> Waiting(s, i) && SilentPeer(cfg, s, later, i)
    ensures var t := Run(cfg, s, later);
            && (t.gen == s.gen && Listening(t.pc) ==>
                  forall i :: i in peers ==> KeepsSock(s, t, i))
            && (t.gen <= s.gen && All(s, peers) ==> t.accepts == s.accepts)
    ensures EntriesKept(s, Run(cfg, s, later), peers)
    decreases |later|
  {
    hide Step, EntriesKept, All;
    if later == [] {
      assert EntriesKept(s, s, peers) by { EntriesKeptAtFirst(s, peers); }
    } else {
      var n := |later| - 1;
      NoOverlapBefore(cfg, s, later, n);
      SilentPeersKeepEntries(cfg, s, later[..n], peers);
      EntriesKeptStep(cfg, s, Run(cfg, s, later[..n]), later[n], peers);
    }
    EntriesKeptMeans(s, Run(cfg, s, later), peers);
  }

  lemma EntriesKeptAtFirst(s: State, peers: set<nat>)
    requires Listening(s.pc) && forall i :: i in peers ==> Waiting(s, i)
    ensures EntriesKept(s, s, peers)
  {
  }

  lemma EntriesKeptMeans(s: State, t: State, peers: set<nat>)
    requires EntriesKept(s, t, peers)
    ensures t.gen == s.gen && Listening(t.pc) ==>
              forall i :: i in peers ==> KeepsSock(s, t, i)
    ensures t.gen <= s.gen && All(s, peers) ==> t.accepts == s.accepts
  {
  }

  // ---------------------------------------------------------------- readers that keep up

  ghost predicate LinesFit(cfg: Config, e: Act, size: nat) {
    e.Other? ==> H.Bounded(e.x, cfg.maxLength, size)
  }

  lemma ReceiveBufferFits(cfg: Config, hub: H.Hub, h: Handle, size: nat)
    requires H.QueuesFit(hub, cfg.maxLength) && H.LinesAndSizes(hub, cfg.maxLength, size) && h in hub.bufs
    ensures var hub' := H.ReceiveBuffer(hub, h, cfg.maxLength);
            H.QueuesFit(hub', cfg.maxLength) && H.LinesAndSizes(hub', cfg.maxLength, size)
  {
    H.ReceiveFits(hub.bufs[h], hub.log, cfg.maxLength, cfg.maxLength);
    hide Receive, H.QueueFits;
  }

  lemma OwnBufferFits(cfg: Config, hub: H.Hub, h: Handle, size: nat)
    requires H.QueuesFit(hub, cfg.maxLength) && H.LinesAndSizes(hub, cfg.maxLength, size) && cfg.bufferSize <= size
    ensures H.QueuesFit(H.CreateBuffer(hub, h, cfg.bufferSize), cfg.maxLength)
    ensures H.LinesAndSizes(H.CreateBuffer(hub, h, cfg.bufferSize), cfg.maxLength, size)
    ensures H.QueuesFit(H.RegisterBuffer(hub, h), cfg.maxLength)
    ensures H.LinesAndSizes(H.RegisterBuffer(hub, h), cfg.maxLength, size)
    ensures H.QueuesFit(H.DeleteBuffer(hub, h), cfg.maxLength)
    ensures H.LinesAndSizes(H.DeleteBuffer(hub, h), cfg.maxLength, size)
  {
    hide Insert;
  }

  lemma TaskStepFits(cfg: Config, s: State, m: Move, size: nat)
    requires H.QueuesFit(s.hub, cfg.maxLength) && H.LinesAndSizes(s.hub, cfg.maxLength, size) && cfg.bufferSize <= size
    ensures H.QueuesFit(TaskStep(cfg, s, m).hub, cfg.maxLength)
    ensures H.LinesAndSizes(TaskStep(cfg, s, m).hub, cfg.maxLength, size)
  {
    hide StepServe, StepCreate, StepRegister, StepSending, StepClose, StepUnregister, StepDelete, StepReset, StepAccept;
    hide H.QueuesFit, H.LinesAndSizes;
    match s.pc
    case Serve(i) => ServeFits(cfg, s, i, m, size);
    case Creating(i) => if i < |s.clients| { ClientHubFits(cfg, s, i, m, size); }
    case Registering(i) => if i < |s.clients| { ClientHubFits(cfg, s, i, m, size); }
    case Deleting(i, _) => if i < |s.clients| { ClientHubFits(cfg, s, i, m, size); }
    case Unregistering(i, ret) => if i < |s.clients| { UnregisterFits(cfg, s, i, ret, size); }
    case _ => OtherHubUnchanged(cfg, s, m);
  }

  lemma OtherHubUnchanged(cfg: Config, s: State, m: Move)
    ensures StepReset(s).hub == s.hub && StepAccept(s, m).hub == s.hub
    ensures forall i, now :: 0 <= i < |s.clients| ==> StepSending(cfg, s, i, now, m).hub == s.hub
    ensures forall i, ret :: 0 <= i < |s.clients| ==> StepClose(s, i, ret).hub == s.hub
  {
    hide S.Progress, HoldsSomething;
  }

  lemma ServeFits(cfg: Config, s: State, i: nat, m: Move, size: nat)
    requires H.QueuesFit(s.hub, cfg.maxLength) && H.LinesAndSizes(s.hub, cfg.maxLength, size)
    ensures H.QueuesFit(StepServe(cfg, s, i, m).hub, cfg.maxLength)
    ensures H.LinesAndSizes(StepServe(cfg, s, i, m).hub, cfg.maxLength, size)
  {
    if i < |s.clients| && s.clients[i].buffer in s.hub.bufs {
      ReceiveBufferFits(cfg, s.hub, s.clients[i].buffer, size);
    }
    hide H.QueueFits, H.ReceiveBuffer, Ready, FrameBytes, S.Begin;
  }

  lemma UnregisterFits(cfg: Config, s: State, i: nat, ret: Return, size: nat)
    requires H.QueuesFit(s.hub, cfg.maxLength) && H.LinesAndSizes(s.hub, cfg.maxLength, size) && i < |s.clients|
    ensures H.QueuesFit(StepUnregister(s, i, ret).hub, cfg.maxLength)
    ensures H.LinesAndSizes(StepUnregister(s, i, ret).hub, cfg.maxLength, size)
  {
    hide H.QueueFits, Remove;
  }

  lemma ClientHubFits(cfg: Config, s: State, i: nat, m: Move, size: nat)
    requires H.QueuesFit(s.hub, cfg.maxLength) && H.LinesAndSizes(s.hub, cfg.maxLength, size) && cfg.bufferSize <= size
    requires i < |s.clients|
    ensures H.QueuesFit(StepCreate(cfg, s, i, m).hub, cfg.maxLength)
    ensures H.LinesAndSizes(StepCreate(cfg, s, i, m).hub, cfg.maxLength, size)
    ensures H.QueuesFit(StepRegister(s, i).hub, cfg.maxLength)
    ensures H.LinesAndSizes(StepRegister(s, i).hub, cfg.maxLength, size)
    ensures forall ret :: H.QueuesFit(StepDelete(s, i, ret).hub, cfg.maxLength)
    ensures forall ret :: H.LinesAndSizes(StepDelete(s, i, ret).hub, cfg.maxLength, size)
  {
    hide H.QueuesFit, H.LinesAndSizes, H.CreateBuffer, H.RegisterBuffer, H.DeleteBuffer, Insert;
    OwnBufferFits(cfg, s.hub, s.clients[i].buffer, size);
    if m.Allocated? {
      OwnBufferFits(cfg, s.hub, m.h, size);
    }
  }

  /** If every formatted line fits maxLength bytes with its NUL, then in every reachable state a
      client's receive comes back empty only when its queue is empty. */
  lemma {:induction false} ServerReadersKeepUp(cfg: Config, es: seq<Act>, size: nat)
    requires cfg.bufferSize <= size && forall e :: e in es ==> LinesFit(cfg, e, size)
    ensures H.QueuesFit(Reached(cfg, es).hub, cfg.maxLength) && H.LinesAndSizes(Reached(cfg, es).hub, cfg.maxLength, size)
    ensures forall h :: h in Reached(cfg, es).hub.bufs ==>
              var b := Reached(cfg, es).hub.bufs[h];
              Ready(b, Reached(cfg, es).hub.log, cfg.maxLength) == None <==> b.queue == []
    decreases |es|
  {
    if es == [] {
    } else {
      var init, e := es[..|es| - 1], es[|es| - 1];
      assert e in es;
      ServerReadersKeepUp(cfg, init, size);
      var s := Reached(cfg, init);
      match e
      case Other(x) => H.StepFits(s.hub, x, cfg.maxLength, cfg.maxLength, size);
      case Api(c) => ApiKeepsHub(cfg, s, c);
      case Task(m) => TaskStepFits(cfg, s, m, size);
    }
  }

  lemma ApiKeepsHub(cfg: Config, s: State, c: Command)
    ensures ApiStep(cfg, s, c).hub == s.hub
  {
  }
}
