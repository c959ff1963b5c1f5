/** The part of the component that its tasks share: the registry and its mutex, the live message
    buffers and the log. Each event below is one atomic step of some task other than the server:
    a logger inside logging_vprintf, or the owner of a buffer registered by the application or by
    the multicast sender. */
module Hub {
  import opened Prelude
  import opened MessageBuffers
  import opened Registry

  /** `lock` is None while the mutex is free and Some(i) while a logger is about to serve slot i.
      `apps` are the live buffers not owned by the server. `fault` records a use of a deleted
      buffer. */
  datatype Hub = Hub(
    lock: Option<nat>,
    slots: seq<Handle>,
    bufs: map<Handle, Buffer>,
    log: seq<string>,
    apps: set<Handle>,
    fault: bool)

  const EMPTY: Hub := Hub(None, [NULL, NULL, NULL, NULL, NULL, NULL], map[], [], {}, false)

  datatype Event =
    | Log(message: string)
    | FanStep
    | AppCreate(h: Handle, size: nat)
    | AppRegister(h: Handle)
    | AppUnregister(h: Handle)
    | AppDelete(h: Handle)
    | AppReceive(h: Handle, room: nat)

  // ---------------------------------------------------------------- operations

  /** Obtains the mutex with a formatted line, which is never empty before its NUL. */
  function TakeLock(w: Hub, message: string): Hub {
    if w.lock == None && |message| >= 2 then w.(lock := Some(0), log := w.log + [message]) else w
  }

  /** The position of the line being fanned out. */
  function Newest(log: seq<string>): nat {
    if log == [] then 0 else |log| - 1
  }

  /** Serves one slot, or gives the mutex back after the last one. */
  function ServeSlot(w: Hub): Hub {
    if w.lock == None then w
    else if w.lock.value >= |w.slots| then w.(lock := None)
    else
      var slot := w.slots[w.lock.value];
      w.(lock := Some(w.lock.value + 1),
         bufs := OfferTo(slot, w.bufs, w.log, Newest(w.log)),
         fault := w.fault || (slot != NULL && slot !in w.bufs))
  }

  function CreateBuffer(w: Hub, h: Handle, size: nat): Hub {
    w.(bufs := w.bufs[h := Empty(size)])
  }

  function MarkRegistered(bufs: map<Handle, Buffer>, h: Handle, since: nat): map<Handle, Buffer> {
    if h in bufs then bufs[h := bufs[h].(since := Some(since))] else bufs
  }

  /** The critical sections of register and unregister: nobody else is inside one. */
  function RegisterBuffer(w: Hub, h: Handle): Hub {
    var (code, slots') := Insert(w.slots, h);
    w.(slots := slots', bufs := if code == OK then MarkRegistered(w.bufs, h, |w.log|) else w.bufs)
  }

  function UnregisterBuffer(w: Hub, h: Handle): Hub {
    w.(slots := Remove(w.slots, h).1)
  }

  function DeleteBuffer(w: Hub, h: Handle): Hub {
    w.(bufs := w.bufs - {h}, fault := w.fault || h !in w.bufs)
  }

  function ReceiveBuffer(w: Hub, h: Handle, room: nat): Hub {
    if h in w.bufs then w.(bufs := w.bufs[h := Receive(w.bufs[h], w.log, room)]) else w.(fault := true)
  }

  /** An event whose guard does not hold does not happen. The owner of an application buffer
      registers it at most once and deletes it only while it is not registered. */
  function Step(w: Hub, x: Event): Hub {
    match x
    case Log(message) => TakeLock(w, message)
    case FanStep => ServeSlot(w)
    case AppCreate(h, size) =>
      if h != NULL && h !in w.bufs then CreateBuffer(w, h, size).(apps := w.apps + {h}) else w
    case AppRegister(h) =>
      if w.lock == None && h in w.apps && h in w.bufs && w.bufs[h].since == None then RegisterBuffer(w, h) else w
    case AppUnregister(h) =>
      if w.lock == None && h in w.apps then UnregisterBuffer(w, h) else w
    case AppDelete(h) =>
      if h in w.apps && h !in w.slots then DeleteBuffer(w, h).(apps := w.apps - {h}) else w
    case AppReceive(h, room) =>
      if h in w.apps then ReceiveBuffer(w, h, room) else w
  }

  function Run(w: Hub, xs: seq<Event>): Hub
    decreases |xs|
  {
    if xs == [] then w else Run(Step(w, xs[0]), xs[1..])
  }

  // ---------------------------------------------------------------- what every step keeps

  /** How much of the log the buffer in slot a has been offered. */
  function Upto(lock: Option<nat>, log: seq<string>, a: nat): nat {
    if lock.Some? && lock.value <= a then Newest(log) else |log|
  }

  /** A registered buffer is live and has been offered exactly the lines logged since it was
      registered. */
  ghost predicate SlotOk(h: Handle, bufs: map<Handle, Buffer>, upto: nat) {
    h != NULL ==> h in bufs && bufs[h].since.Some? && IsRange(bufs[h].offered, bufs[h].since.value, upto)
  }

  ghost predicate SlotsOk(w: Hub) {
    forall a :: 0 <= a < |w.slots| ==> SlotOk(w.slots[a], w.bufs, Upto(w.lock, w.log, a))
  }

  ghost predicate HistoriesOk(bufs: map<Handle, Buffer>, bound: nat) {
    forall h :: h in bufs ==> Consistent(bufs[h], bound)
  }

  ghost predicate Owned(w: Hub, owned: set<Handle>) {
    NULL !in w.bufs && w.bufs.Keys == w.apps + owned && w.apps !! owned
  }

  ghost predicate LockOk(w: Hub) {
    w.lock.Some? ==> w.lock.value <= |w.slots| && |w.log| > 0
  }

  /** The invariant, relative to the set of buffers the server owns. */
  ghost predicate Sound(w: Hub, owned: set<Handle>) {
    && |w.slots| == SLOTS && Distinct(w.slots)
    && LockOk(w)
    && Owned(w, owned)
    && SlotsOk(w)
    && HistoriesOk(w.bufs, |w.log|)
  }

  lemma EmptyIsSound()
    ensures Sound(EMPTY, {})
  {
  }

  lemma TakeLockSound(w: Hub, message: string, owned: set<Handle>)
    requires Sound(w, owned)
    ensures Sound(TakeLock(w, message), owned)
  {
  }

  /** The buffer in the slot being served takes in or drops the newest line, and is then up to date. */
  lemma ServedBuffer(b: Buffer, log: seq<string>)
    requires log != [] && b.since.Some? && IsRange(b.offered, b.since.value, |log| - 1) && Consistent(b, |log|)
    ensures var b' := Send(b, log, Newest(log));
            && b'.since == b.since
            && IsRange(b'.offered, b.since.value, |log|)
            && Consistent(b', |log|)
  {
    assert Consistent(b, |log| - 1);
    SendKeepsConsistent(b, log, |log| - 1);
  }

  lemma ServeOneSound(w: Hub, i: nat, owned: set<Handle>)
    requires Sound(w, owned) && w.lock == Some(i) && i < SLOTS && w.slots[i] != NULL
    ensures Sound(ServeSlot(w), owned) && ServeSlot(w).fault == w.fault
  {
    var h := w.slots[i];
    assert SlotOk(h, w.bufs, Upto(w.lock, w.log, i));
    assert Consistent(w.bufs[h], |w.log|);
    ServedBuffer(w.bufs[h], w.log);
    hide Send, Consistent, IsRange;
    var w' := ServeSlot(w);
    assert w'.bufs == w.bufs[h := Send(w.bufs[h], w.log, Newest(w.log))];
    forall a | 0 <= a < SLOTS ensures SlotOk(w'.slots[a], w'.bufs, Upto(w'.lock, w'.log, a)) {
      assert SlotOk(w.slots[a], w.bufs, Upto(w.lock, w.log, a));
    }
  }

  /** A fan-out step never meets a deleted buffer. */
  lemma ServeSlotSound(w: Hub, owned: set<Handle>)
    requires Sound(w, owned)
    ensures Sound(ServeSlot(w), owned) && ServeSlot(w).fault == w.fault
  {
    if w.lock.Some? && w.lock.value < SLOTS && w.slots[w.lock.value] != NULL {
      ServeOneSound(w, w.lock.value, owned);
    } else {
      hide IsRange, Consistent;
    }
  }

  lemma CreateSound(w: Hub, h: Handle, size: nat, owned: set<Handle>)
    requires Sound(w, owned) && h != NULL && h !in w.bufs
    ensures Sound(CreateBuffer(w, h, size), owned + {h})
    ensures Sound(CreateBuffer(w, h, size).(apps := w.apps + {h}), owned)
  {
    assert Consistent(Empty(size), |w.log|);
    hide IsRange, Consistent, Distinct, Empty;
    var w' := CreateBuffer(w, h, size);
    forall a | 0 <= a < SLOTS ensures SlotOk(w'.slots[a], w'.bufs, Upto(w'.lock, w'.log, a)) {
      assert SlotOk(w.slots[a], w.bufs, Upto(w.lock, w.log, a));
    }
  }

  /** A buffer never registered before is in no slot and has an empty history. */
  lemma FreshNotRegistered(w: Hub, h: Handle, owned: set<Handle>)
    requires Sound(w, owned) && h in w.bufs && w.bufs[h].since == None
    ensures h !in w.slots && w.bufs[h].offered == []
  {
    hide IsRange;
    forall a | 0 <= a < SLOTS ensures w.slots[a] != h {
      assert SlotOk(w.slots[a], w.bufs, Upto(w.lock, w.log, a));
    }
    assert Consistent(w.bufs[h], |w.log|);
  }

  lemma RegisterSound(w: Hub, h: Handle, owned: set<Handle>)
    requires Sound(w, owned) && w.lock == None && h in w.bufs && w.bufs[h].since == None
    ensures Sound(RegisterBuffer(w, h), owned)
    ensures h !in w.slots
    ensures forall g :: g != NULL ==> (g in RegisterBuffer(w, h).slots <==>
              g in w.slots || (g == h && Insert(w.slots, h).0 == OK))
  {
    FreshNotRegistered(w, h, owned);
    InsertKeepsDistinct(w.slots, h);
    InsertFrame(w.slots, h);
    var b := w.bufs[h].(since := Some(|w.log|));
    assert Consistent(b, |w.log|) by { assert Consistent(w.bufs[h], |w.log|); }
    assert IsRange(b.offered, |w.log|, |w.log|);
    hide IsRange, Consistent, Insert;
    var w' := RegisterBuffer(w, h);
    if Insert(w.slots, h).0 == OK {
      assert w'.bufs == w.bufs[h := b];
      forall a | 0 <= a < SLOTS ensures SlotOk(w'.slots[a], w'.bufs, Upto(w'.lock, w'.log, a)) {
        assert SlotOk(w.slots[a], w.bufs, Upto(w.lock, w.log, a));
        assert w.slots[a] in w.slots;
      }
    }
  }

  lemma UnregisterSound(w: Hub, h: Handle, owned: set<Handle>)
    requires Sound(w, owned) && h != NULL
    ensures Sound(UnregisterBuffer(w, h), owned)
    ensures forall g :: g != NULL ==> (g in UnregisterBuffer(w, h).slots <==> g in w.slots && g != h)
    ensures |UnregisterBuffer(w, h).slots| == |w.slots|
    ensures forall a :: 0 <= a < |w.slots| ==>
              UnregisterBuffer(w, h).slots[a] == if w.slots[a] == h then NULL else w.slots[a]
  {
    hide IsRange, Consistent;
    RemoveKeepsDistinct(w.slots, h);
    RemoveFrame(w.slots, h);
    hide Remove, Distinct;
    var w' := UnregisterBuffer(w, h);
    forall a | 0 <= a < SLOTS ensures SlotOk(w'.slots[a], w'.bufs, Upto(w'.lock, w'.log, a)) {
      assert SlotOk(w.slots[a], w.bufs, Upto(w.lock, w.log, a));
    }
  }

  lemma DeleteSound(w: Hub, h: Handle, owned: set<Handle>)
    requires Sound(w, owned) && h in w.bufs && h !in w.slots
    ensures h in owned ==> Sound(DeleteBuffer(w, h), owned - {h})
    ensures h in w.apps ==> Sound(DeleteBuffer(w, h).(apps := w.apps - {h}), owned)
    ensures DeleteBuffer(w, h).fault == w.fault
  {
    hide IsRange, Consistent, Distinct;
    var w' := DeleteBuffer(w, h);
    forall a | 0 <= a < SLOTS ensures SlotOk(w'.slots[a], w'.bufs, Upto(w'.lock, w'.log, a)) {
      assert SlotOk(w.slots[a], w.bufs, Upto(w.lock, w.log, a));
      assert w.slots[a] in w.slots;
    }
  }

  lemma ReceiveSound(w: Hub, h: Handle, room: nat, owned: set<Handle>)
    requires Sound(w, owned) && h in w.bufs
    ensures Sound(ReceiveBuffer(w, h, room), owned) && ReceiveBuffer(w, h, room).fault == w.fault
  {
    var b := Receive(w.bufs[h], w.log, room);
    assert Consistent(w.bufs[h], |w.log|);
    ReceiveKeepsConsistent(w.bufs[h], w.log, room, |w.log|);
    assert b.since == w.bufs[h].since && b.offered == w.bufs[h].offered;
    hide IsRange, Consistent, Distinct, Receive;
  }

  /** No step of another task breaks the registry or touches a deleted buffer. */
  lemma StepSound(w: Hub, x: Event, owned: set<Handle>)
    requires Sound(w, owned)
    ensures Sound(Step(w, x), owned) && Step(w, x).fault == w.fault
  {
    match x
    case Log(message) => TakeLockSound(w, message, owned);
    case FanStep => ServeSlotSound(w, owned);
    case AppCreate(h, size) => if h != NULL && h !in w.bufs { CreateSound(w, h, size, owned); }
    case AppRegister(h) =>
      if w.lock == None && h in w.apps && w.bufs[h].since == None { RegisterSound(w, h, owned); }
    case AppUnregister(h) => if w.lock == None && h in w.apps { UnregisterSound(w, h, owned); }
    case AppDelete(h) => if h in w.apps && h !in w.slots { DeleteSound(w, h, owned); }
    case AppReceive(h, room) => if h in w.apps { ReceiveSound(w, h, room, owned); }
  }

  /** What another task can do to the server's own buffers: nothing but offer them lines. */
  ghost predicate OwnedKept(w: Hub, w': Hub, owned: set<Handle>) {
    && w.log <= w'.log
    && forall h :: h in owned ==>
         && h in w.bufs && h in w'.bufs
         && w'.bufs[h].received == w.bufs[h].received && w'.bufs[h].since == w.bufs[h].since
         && (h in w'.slots <==> h in w.slots)
  }

  lemma SoundReflexive(w: Hub, owned: set<Handle>)
    requires Sound(w, owned)
    ensures OwnedKept(w, w, owned)
  {
    assert Owned(w, owned);
  }

  lemma KeptTransitive(w: Hub, w': Hub, w'': Hub, owned: set<Handle>)
    requires OwnedKept(w, w', owned) && OwnedKept(w', w'', owned)
    ensures OwnedKept(w, w'', owned)
  {
  }

  lemma HistoryOf(w: Hub, owned: set<Handle>, h: Handle)
    requires Sound(w, owned) && h in w.bufs
    ensures Consistent(w.bufs[h], |w.log|)
  {
  }

  /** No slot holds a buffer that is not live. */
  lemma RegisteredLive(w: Hub, owned: set<Handle>)
    requires Sound(w, owned)
    ensures forall h :: h in w.slots && h != NULL ==> h in w.bufs
  {
    forall h | h in w.slots && h != NULL ensures h in w.bufs {
      var a :| 0 <= a < |w.slots| && w.slots[a] == h;
      assert SlotOk(w.slots[a], w.bufs, Upto(w.lock, w.log, a));
    }
  }

  /** What the owner of a buffer knows after other tasks have run. */
  lemma KeptSince(w: Hub, w': Hub, owned: set<Handle>, h: Handle)
    requires OwnedKept(w, w', owned) && h in owned
    ensures h in w.bufs && h in w'.bufs && w.log <= w'.log
    ensures w'.bufs[h].received == w.bufs[h].received && w'.bufs[h].since == w.bufs[h].since
  {
  }

  lemma NotRegisteredSince(w: Hub, w': Hub, owned: set<Handle>, h: Handle)
    requires OwnedKept(w, w', owned) && h in owned && h !in w.slots
    ensures h in w'.bufs && h !in w'.slots && w'.bufs[h].received == w.bufs[h].received
  {
  }

  lemma RegisterSlots(w: Hub, h: Handle)
    ensures RegisterBuffer(w, h).slots == Insert(w.slots, h).1
  {
    hide Insert;
  }

  lemma RegisterMarks(w: Hub, h: Handle)
    requires h in w.bufs
    ensures var w' := RegisterBuffer(w, h);
            && w'.fault == w.fault && w'.log == w.log && w'.bufs.Keys == w.bufs.Keys
            && w'.bufs[h].received == w.bufs[h].received
            && (Insert(w.slots, h).0 == OK ==> w'.bufs[h].since.Some?)
  {
    hide Insert;
  }

  lemma ServeSlotKeepsOwned(w: Hub, owned: set<Handle>)
    requires Owned(w, owned)
    ensures OwnedKept(w, ServeSlot(w), owned)
  {
    hide Fits;
  }

  lemma StepKeepsOwned(w: Hub, x: Event, owned: set<Handle>)
    requires Sound(w, owned)
    ensures OwnedKept(w, Step(w, x), owned)
  {
    SoundOwned(w, owned);
    hide Sound, ServeSlot, RegisterBuffer, UnregisterBuffer, Receive;
    match x
    case Log(message) => assert w.log <= TakeLock(w, message).log;
    case FanStep => ServeSlotKeepsOwned(w, owned);
    case AppRegister(h) =>
      if w.lock == None && h in w.apps && w.bufs[h].since == None {
        RegisterKeepsOwned(w, h, owned);
      }
    case AppUnregister(h) =>
      if w.lock == None && h in w.apps {
        UnregisterSound(w, h, owned);
        UnregisterFrame(w, h);
      }
    case _ =>
  }

  lemma SoundOwned(w: Hub, owned: set<Handle>)
    requires Sound(w, owned)
    ensures Owned(w, owned)
  {
  }

  lemma UnregisterFrame(w: Hub, h: Handle)
    ensures UnregisterBuffer(w, h).bufs == w.bufs && UnregisterBuffer(w, h).log == w.log
  {
  }

  lemma RegisterKeepsOwned(w: Hub, h: Handle, owned: set<Handle>)
    requires Sound(w, owned) && w.lock == None && h in w.apps && h in w.bufs && w.bufs[h].since == None
    ensures OwnedKept(w, RegisterBuffer(w, h), owned)
  {
    SoundOwned(w, owned);
    RegisterSound(w, h, owned);
    hide Sound, Insert;
  }

  /** In every reachable state of a registry nobody but the application uses: each registered
      buffer is live, in one slot, and has been offered exactly the lines logged since. */
  lemma {:induction false} RunSound(w: Hub, xs: seq<Event>, owned: set<Handle>)
    requires Sound(w, owned)
    ensures Sound(Run(w, xs), owned) && Run(w, xs).fault == w.fault
    decreases |xs|
  {
    if xs == [] {
    } else {
      StepSound(w, xs[0], owned);
      RunSound(Step(w, xs[0]), xs[1..], owned);
    }
  }

  ghost predicate AllWithinSize(w: Hub) {
    forall h :: h in w.bufs ==> WithinSize(w.bufs[h], w.log)
  }

  lemma StepWithinSize(w: Hub, x: Event, owned: set<Handle>)
    requires AllWithinSize(w) && Sound(w, owned)
    ensures AllWithinSize(Step(w, x))
  {
    match x
    case Log(message) =>
      forall h | h in w.bufs ensures WithinSize(w.bufs[h], TakeLock(w, message).log) {
        UsedKept(w.log, TakeLock(w, message).log, w.bufs[h].queue);
      }
    case FanStep =>
      if w.lock.Some? && w.lock.value < |w.slots| && w.slots[w.lock.value] in w.bufs {
        SendWithinSize(w.bufs[w.slots[w.lock.value]], w.log, Newest(w.log));
      }
      hide Sound, Send, WithinSize;
    case AppReceive(h, room) =>
      if h in w.bufs {
        ReceiveWithinSize(w.bufs[h], w.log, room);
      }
      hide Sound, Receive, WithinSize;
    case AppRegister(h) => hide Sound, Insert;
    case AppUnregister(h) => hide Sound, Remove;
    case _ => hide Sound;
  }

  /** No buffer is ever filled beyond its size. */
  lemma {:induction false} RunWithinSize(w: Hub, xs: seq<Event>, owned: set<Handle>)
    requires AllWithinSize(w) && Sound(w, owned)
    ensures AllWithinSize(Run(w, xs))
    decreases |xs|
  {
    hide Sound, AllWithinSize, Step;
    if xs == [] {
    } else {
      StepSound(w, xs[0], owned);
      StepWithinSize(w, xs[0], owned);
      RunWithinSize(Step(w, xs[0]), xs[1..], owned);
    }
  }

  // ---------------------------------------------------------------- the fan-out as one block

  function FanSteps(n: nat): (xs: seq<Event>)
    ensures |xs| == n
    ensures forall k :: 0 <= k < n ==> xs[k] == FanStep
  {
    seq(n, _ => FanStep)
  }

  /** A logger that runs undisturbed does in its small steps what the loop of logging_vprintf
      does: every slot in turn is offered the new line. */
  lemma {:induction false} FanStepsAreFanOut(w: Hub, k: nat, n: nat, bufs: map<Handle, Buffer>)
    requires w.lock == Some(k) && k + n == |w.slots|
    requires w.bufs == FanOut(w.slots, k, bufs, w.log, Newest(w.log))
    ensures Run(w, FanSteps(n + 1)).lock == None
    ensures Run(w, FanSteps(n + 1)).bufs == FanOut(w.slots, |w.slots|, bufs, w.log, Newest(w.log))
    decreases n
  {
    hide OfferTo;
    var w' := ServeSlot(w);
    assert FanSteps(n + 1)[1..] == FanSteps(n);
    assert Run(w, FanSteps(n + 1)) == Run(w', FanSteps(n));
    if n > 0 {
      FanStepsAreFanOut(w', k + 1, n - 1, bufs);
    }
  }

  /** A logger that finds the mutex free: its line goes to the end of the log, every slot in turn is
      offered it, and the mutex is free again. */
  lemma LoggedAndFannedOut(w: Hub, message: string)
    requires w.lock == None && |message| >= 2
    ensures var w' := Run(w, [Log(message)] + FanSteps(|w.slots| + 1));
            && w'.lock == None && w'.log == w.log + [message] && w'.slots == w.slots
            && w'.bufs == FanOut(w.slots, |w.slots|, w.bufs, w.log + [message], |w.log|)
  {
    var xs := [Log(message)] + FanSteps(|w.slots| + 1);
    var w1 := Step(w, Log(message));
    assert w1 == w.(lock := Some(0), log := w.log + [message]);
    assert xs[0] == Log(message) && xs[1..] == FanSteps(|w.slots| + 1);
    assert Run(w, xs) == Run(w1, FanSteps(|w.slots| + 1));
    FanStepsAreFanOut(w1, 0, |w.slots|, w.bufs);
    FanStepsKeep(w1, |w.slots| + 1);
  }

  lemma {:induction false} FanStepsKeep(w: Hub, n: nat)
    ensures Run(w, FanSteps(n)).log == w.log && Run(w, FanSteps(n)).slots == w.slots
    decreases n
  {
    hide OfferTo;
    if n > 0 {
      assert FanSteps(n)[1..] == FanSteps(n - 1);
      FanStepsKeep(ServeSlot(w), n - 1);
    }
  }

  /** In every sound state, the buffer in the slot a logger serves takes the newest line in, at the end
      of its queue, if and only if it fits behind what is queued; otherwise it drops it. */
  lemma FanStepTakesInIff(w: Hub, owned: set<Handle>, a: nat)
    requires Sound(w, owned) && w.lock == Some(a) && a < SLOTS && w.slots[a] != NULL
    ensures var h, m, w' := w.slots[a], |w.log| - 1, Step(w, FanStep);
            && m >= 0 && h in w.bufs && h in w'.bufs
            && var b, b' := w.bufs[h], w'.bufs[h];
            && (b'.queue == b.queue + [m] <==> Cost(w.log, b.queue + [m]) <= b.size)
            && (b'.queue == b.queue && b'.dropped == b.dropped + [m] <==> Cost(w.log, b.queue + [m]) > b.size)
  {
    var h, log := w.slots[a], w.log;
    var b := w.bufs[h];
    assert SlotOk(h, w.bufs, Upto(w.lock, log, a)) && Consistent(b, |log|);
    assert Step(w, FanStep).bufs == w.bufs[h := Send(b, log, |log| - 1)] by { hide Send; }
    hide Sound, Consistent, Cost, Step;
    SendTakesInIff(b, log, |log| - 1, |log|);
    hide Send;
  }

  /** The only step that makes a buffer drop a line is a logger's, and the line did not fit. */
  ghost predicate DropsForWant(w: Hub, x: Event, h: Handle, m: nat) {
    && x == FanStep && h in w.bufs && m + 1 == |w.log|
    && Cost(w.log, w.bufs[h].queue + [m]) > w.bufs[h].size
  }

  lemma StepDrops(w: Hub, x: Event, h: Handle, m: nat)
    requires h in Step(w, x).bufs && m in Step(w, x).bufs[h].dropped
    requires w.lock.Some? ==> w.log != []
    ensures (h in w.bufs && m in w.bufs[h].dropped) || DropsForWant(w, x, h, m)
  {
    match x
    case FanStep =>
      if h in w.bufs {
        UsedIsCost(w.log, w.bufs[h].queue);
        var q := w.bufs[h].queue;
        assert (q + [m])[..|q|] == q;
      }
    case AppRegister(_) => hide Insert;
    case AppUnregister(_) => hide Remove;
    case _ =>
  }

  /** What an owner's calls do when they may: a created buffer is empty and the owner's, a registered
      one is in a slot if there was room, an unregistered one in none, a deleted one gone, and a
      receive hands over the oldest line that fits. */
  lemma OwnerCalls(w: Hub, owned: set<Handle>, h: Handle, size: nat, room: nat)
    requires Sound(w, owned)
    ensures h != NULL && h !in w.bufs ==>
              h in Step(w, AppCreate(h, size)).apps && h in Step(w, AppCreate(h, size)).bufs
              && Step(w, AppCreate(h, size)).bufs[h] == Buffer(size, [], None, [], [], [], [])
    ensures w.lock == None && h in w.apps && w.bufs[h].since == None && NULL in w.slots ==> h in Step(w, AppRegister(h)).slots
    ensures w.lock == None && h in w.apps ==> h !in Step(w, AppUnregister(h)).slots
    ensures h in w.apps && h !in w.slots ==> h !in Step(w, AppDelete(h)).bufs && h !in Step(w, AppDelete(h)).apps
    ensures h in w.apps ==>
              var b, b' := w.bufs[h], Step(w, AppReceive(h, room)).bufs[h];
              if b.queue != [] && |Message(w.log, b.queue[0])| <= room
              then b'.received == b.received + [b.queue[0]] && b'.queue == b.queue[1..]
              else b' == b
  {
    SoundOwned(w, owned);
    if w.lock == None && h in w.apps {
      RegistrationCalls(w, owned, h);
    }
    hide Sound, RegisterBuffer, UnregisterBuffer;
  }

  lemma RegistrationCalls(w: Hub, owned: set<Handle>, h: Handle)
    requires Sound(w, owned) && h in w.apps && w.lock == None
    ensures w.bufs[h].since == None && NULL in w.slots ==> h in RegisterBuffer(w, h).slots
    ensures h !in UnregisterBuffer(w, h).slots
  {
    SoundOwned(w, owned);
    UnregisterSound(w, h, owned);
    InsertIff(w.slots, h);
    RegisterSlots(w, h);
    hide Sound, Insert, Remove;
  }

  // ---------------------------------------------------------------- readers that keep up

  /** Every queued message fits a reader's destination of `room` bytes. */
  ghost predicate QueueFits(b: Buffer, log: seq<string>, room: nat) {
    forall k :: 0 <= k < |b.queue| ==> b.queue[k] < |log| && |log[b.queue[k]]| <= room
  }

  ghost predicate QueuesFit(w: Hub, room: nat) {
    forall h :: h in w.bufs ==> QueueFits(w.bufs[h], w.log, room)
  }

  /** No line is longer than `limit` bytes with its NUL, and no buffer larger than `size`. */
  ghost predicate Bounded(x: Event, limit: nat, size: nat) {
    (x.Log? ==> |x.message| <= limit) && (x.AppCreate? ==> x.size <= size)
  }

  ghost predicate LinesAndSizes(w: Hub, limit: nat, size: nat) {
    && (forall m :: 0 <= m < |w.log| ==> |w.log[m]| <= limit)
    && (forall h :: h in w.bufs ==> w.bufs[h].size <= size)
    && (w.lock.Some? ==> w.log != [])
  }

  lemma SendFits(b: Buffer, log: seq<string>, room: nat, limit: nat, size: nat)
    requires QueueFits(b, log, room) && log != []
    requires |log[|log| - 1]| <= limit && b.size <= size && (limit <= room || size <= room + HEADER)
    ensures QueueFits(Send(b, log, Newest(log)), log, room) && Send(b, log, Newest(log)).size == b.size
  {
  }

  lemma ReceiveFits(b: Buffer, log: seq<string>, room: nat, dest: nat)
    requires QueueFits(b, log, room)
    ensures QueueFits(Receive(b, log, dest), log, room) && Receive(b, log, dest).size == b.size
  {
  }

  lemma StepFits(w: Hub, x: Event, room: nat, limit: nat, size: nat)
    requires QueuesFit(w, room) && LinesAndSizes(w, limit, size) && Bounded(x, limit, size)
    requires limit <= room || size <= room + HEADER
    ensures QueuesFit(Step(w, x), room) && LinesAndSizes(Step(w, x), limit, size)
  {
    match x
    case Log(message) =>
    case FanStep =>
      if w.lock.Some? && w.lock.value < |w.slots| {
        var h := w.slots[w.lock.value];
        if h != NULL && h in w.bufs {
          SendFits(w.bufs[h], w.log, room, limit, size);
          hide Send, QueueFits;
        }
      }
    case AppReceive(h, dest) =>
      if h in w.apps && h in w.bufs {
        ReceiveFits(w.bufs[h], w.log, room, dest);
        hide Receive, QueueFits;
      }
    case AppRegister(h) => hide Insert;
    case AppUnregister(h) => hide Remove;
    case _ =>
  }

  lemma {:induction false} RunFits(w: Hub, xs: seq<Event>, room: nat, limit: nat, size: nat)
    requires QueuesFit(w, room) && LinesAndSizes(w, limit, size)
    requires forall x :: x in xs ==> Bounded(x, limit, size)
    requires limit <= room || size <= room + HEADER
    ensures QueuesFit(Run(w, xs), room)
    decreases |xs|
  {
    if xs == [] {
    } else {
      StepFits(w, xs[0], room, limit, size);
      RunFits(Step(w, xs[0]), xs[1..], room, limit, size);
    }
  }

  ghost predicate NoReaderWedged(w: Hub, room: nat) {
    forall h :: h in w.bufs ==> !Wedged(w.bufs[h], w.log, room)
  }

  function Padding(n: nat): (s: string)
    ensures |s| == n
  {
    seq(n, _ => 'x')
  }

  /** A run of four steps in which a line too long for the reader gets stuck in its buffer. */
  function WedgingRun(room: nat, size: nat): seq<Event> {
    [AppCreate(1, size), AppRegister(1), Log(Padding(room + 1)), FanStep]
  }

  lemma WedgingRunWedges(room: nat, size: nat)
    requires room > 0 && size > room + HEADER
    ensures !NoReaderWedged(Run(EMPTY, WedgingRun(room, size)), room)
  {
    var xs := WedgingRun(room, size);
    var w1 := Step(EMPTY, xs[0]);
    var w2 := Step(w1, xs[1]);
    assert FirstIndex(w1.slots, NULL) == 0;
    assert w2.slots[0] == 1 && w2.bufs == map[1 := Empty(size).(since := Some(0))];
    var w3 := Step(w2, xs[2]);
    assert w3.log == [Padding(room + 1)] && w3.lock == Some(0);
    var w4 := Step(w3, xs[3]);
    assert Fits(w3.bufs[1], w3.log, 0);
    assert w4.bufs[1].queue == [0];
    assert Wedged(w4.bufs[1], w4.log, room);
    assert xs[1..][0] == xs[1] && xs[1..][1..] == xs[2..] && xs[2..][1..] == xs[3..] && xs[3..][1..] == [];
    assert Run(EMPTY, xs) == Run(w1, xs[1..]);
    assert Run(w1, xs[1..]) == Run(w2, xs[2..]);
    assert Run(w2, xs[2..]) == Run(w3, xs[3..]);
    assert Run(w3, xs[3..]) == Run(w4, []);
  }

  ghost predicate AllBounded(xs: seq<Event>, limit: nat, size: nat) {
    forall x :: x in xs ==> Bounded(x, limit, size)
  }

  /** The exact guard under which no reader ever gets stuck, in any run: either the formatted lines
      with their NUL fit the reader's destination (the length check logging_vprintf does not make),
      or the buffers are so small that longer ones are dropped. */
  lemma ReadersNeverWedgeIff(room: nat, limit: nat, size: nat)
    requires room > 0
    ensures (forall xs :: AllBounded(xs, limit, size) ==> NoReaderWedged(Run(EMPTY, xs), room))
       <==> (limit <= room || size <= room + HEADER)
  {
    if limit <= room || size <= room + HEADER {
      forall xs | AllBounded(xs, limit, size) ensures NoReaderWedged(Run(EMPTY, xs), room) {
        RunFits(EMPTY, xs, room, limit, size);
      }
    } else {
      assert AllBounded(WedgingRun(room, size), limit, size);
      WedgingRunWedges(room, size);
    }
  }
}
