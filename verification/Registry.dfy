/** The registry of receive buffers and the fan-out of one log line (src/net_logging.c). */
module Registry {
  import opened Prelude
  import opened MessageBuffers

  const SLOTS: nat := 6

  datatype Code = OK | INVALID_ARG | NO_MEM | NOT_FOUND

  /** Index of the first slot holding h, or |slots| when there is none. */
  function FirstIndex(slots: seq<Handle>, h: Handle): (i: nat)
    ensures i <= |slots|
    ensures i < |slots| ==> slots[i] == h
    ensures forall j :: 0 <= j < i ==> slots[j] != h
  {
    if slots == [] then 0 else if slots[0] == h then 0 else 1 + FirstIndex(slots[1..], h)
  }

  function Insert(slots: seq<Handle>, h: Handle): (Code, seq<Handle>) {
    if h == NULL then (INVALID_ARG, slots)
    else
      var i := FirstIndex(slots, NULL);
      if i < |slots| then (OK, slots[i := h]) else (NO_MEM, slots)
  }

  function Remove(slots: seq<Handle>, h: Handle): (Code, seq<Handle>) {
    if h == NULL then (INVALID_ARG, slots)
    else
      var i := FirstIndex(slots, h);
      if i < |slots| then (OK, slots[i := NULL]) else (NOT_FOUND, slots)
  }

  /** A registration fills one empty slot and leaves the others alone, or changes nothing. */
  lemma InsertFrame(slots: seq<Handle>, h: Handle)
    ensures var (code, slots') := Insert(slots, h);
            && |slots'| == |slots|
            && (code == OK ==> exists i :: 0 <= i < |slots| && slots[i] == NULL && slots' == slots[i := h])
            && (code != OK ==> slots' == slots)
  {
  }

  /** It succeeds exactly when there is an empty slot. */
  lemma InsertIff(slots: seq<Handle>, h: Handle)
    requires h != NULL
    ensures Insert(slots, h).0 == OK <==> NULL in slots
    ensures Insert(slots, h).0 == OK ==> h in Insert(slots, h).1
  {
    var i := FirstIndex(slots, NULL);
    if i < |slots| {
      assert slots[i := h][i] == h;
    }
  }

  /** An unregistration empties one slot that held h and leaves the others alone, or changes nothing. */
  lemma RemoveFrame(slots: seq<Handle>, h: Handle)
    ensures var (code, slots') := Remove(slots, h);
            && |slots'| == |slots|
            && (code == OK ==> exists i :: 0 <= i < |slots| && slots[i] == h && slots' == slots[i := NULL])
            && (code != OK ==> slots' == slots && (h == NULL || h !in slots))
  {
  }

  ghost predicate Distinct(slots: seq<Handle>) {
    forall a, b :: 0 <= a < b < |slots| && slots[a] != NULL ==> slots[a] != slots[b]
  }

  lemma InsertKeepsDistinct(slots: seq<Handle>, h: Handle)
    requires Distinct(slots) && h !in slots
    ensures var (code, slots') := Insert(slots, h);
            Distinct(slots') && (code == OK ==> forall g :: g != NULL ==> (g in slots' <==> g in slots || g == h))
  {
    var i := FirstIndex(slots, NULL);
    if h != NULL && i < |slots| {
      var slots' := slots[i := h];
      assert slots'[i] == h;
      forall g | g != NULL ensures g in slots' <==> g in slots || g == h {
        if g in slots {
          var k :| 0 <= k < |slots| && slots[k] == g;
          assert slots'[k] == g;
        }
      }
    }
  }

  lemma RemoveKeepsDistinct(slots: seq<Handle>, h: Handle)
    requires Distinct(slots)
    ensures Distinct(Remove(slots, h).1)
    ensures forall g :: g != NULL ==> (g in Remove(slots, h).1 <==> g in slots && g != h)
  {
    var i := FirstIndex(slots, h);
    if h != NULL && i < |slots| {
      var slots' := slots[i := NULL];
      forall g | g != NULL ensures g in slots' <==> g in slots && g != h {
        if g in slots && g != h {
          var k :| 0 <= k < |slots| && slots[k] == g;
          assert slots'[k] == g;
        }
      }
    }
  }

  // ---------------------------------------------------------------- refinement of a bounded multiset

  datatype Call = Register(h: Handle) | Unregister(h: Handle)

  ghost function Content(slots: seq<Handle>): multiset<Handle> {
    multiset(slots)[NULL := 0]
  }

  /** What one call means on a multiset of handles of the given capacity. */
  ghost function Abstract(call: Call, capacity: nat, m: multiset<Handle>): (Code, multiset<Handle>) {
    match call
    case Register(h) =>
      if h == NULL then (INVALID_ARG, m)
      else if |m| < capacity then (OK, m + multiset{h}) else (NO_MEM, m)
    case Unregister(h) =>
      if h == NULL then (INVALID_ARG, m)
      else if h in m then (OK, m - multiset{h}) else (NOT_FOUND, m)
  }

  function Concrete(call: Call, slots: seq<Handle>): (r: (Code, seq<Handle>))
    ensures |r.1| == |slots|
  {
    match call
    case Register(h) => Insert(slots, h)
    case Unregister(h) => Remove(slots, h)
  }

  function RunSlots(calls: seq<Call>, slots: seq<Handle>): (r: (seq<Code>, seq<Handle>))
    ensures |r.1| == |slots| && |r.0| == |calls|
    decreases |calls|
  {
    if calls == [] then ([], slots)
    else
      var (c, slots') := Concrete(calls[0], slots);
      var (cs, slots'') := RunSlots(calls[1..], slots');
      ([c] + cs, slots'')
  }

  ghost function RunAbstract(calls: seq<Call>, capacity: nat, m: multiset<Handle>): (seq<Code>, multiset<Handle>)
    decreases |calls|
  {
    if calls == [] then ([], m)
    else
      var (c, m') := Abstract(calls[0], capacity, m);
      var (cs, m'') := RunAbstract(calls[1..], capacity, m');
      ([c] + cs, m'')
  }

  lemma UpdateSlot(slots: seq<Handle>, i: nat, h: Handle)
    requires i < |slots|
    ensures multiset(slots[i := h]) == multiset(slots) - multiset{slots[i]} + multiset{h}
  {
    assert slots == slots[..i] + [slots[i]] + slots[i + 1..];
    assert slots[i := h] == slots[..i] + [h] + slots[i + 1..];
  }

  /** Only the non-NULL half of the update shows in the content. */
  lemma UpdateContent(slots: seq<Handle>, i: nat, h: Handle)
    requires i < |slots| && (slots[i] == NULL || h == NULL) && slots[i] != h
    ensures Content(slots[i := h]) ==
            if h == NULL then Content(slots) - multiset{slots[i]} else Content(slots) + multiset{h}
  {
    UpdateSlot(slots, i, h);
    var before, after := multiset(slots), multiset(slots[i := h]);
    assert slots[i] in slots;
    assert forall g :: g != slots[i] && g != h ==> after[g] == before[g];
    assert after[slots[i]] == before[slots[i]] - 1 && after[h] == before[h] + 1;
  }

  lemma ContentSize(slots: seq<Handle>)
    ensures |Content(slots)| < |slots| <==> FirstIndex(slots, NULL) < |slots|
  {
    var nulls: multiset<Handle> := multiset{}[NULL := multiset(slots)[NULL]];
    assert multiset(slots) == Content(slots) + nulls;
    assert NULL in slots <==> nulls[NULL] > 0;
    if nulls[NULL] == 0 {
      assert nulls == multiset{};
    } else {
      assert NULL in nulls;
    }
  }

  lemma RegisterRefines(h: Handle, slots: seq<Handle>)
    ensures Insert(slots, h).0 == Abstract(Register(h), |slots|, Content(slots)).0
    ensures Content(Insert(slots, h).1) == Abstract(Register(h), |slots|, Content(slots)).1
  {
    ContentSize(slots);
    var i := FirstIndex(slots, NULL);
    if h != NULL && i < |slots| {
      UpdateContent(slots, i, h);
    }
  }

  lemma UnregisterRefines(h: Handle, slots: seq<Handle>)
    ensures Remove(slots, h).0 == Abstract(Unregister(h), |slots|, Content(slots)).0
    ensures Content(Remove(slots, h).1) == Abstract(Unregister(h), |slots|, Content(slots)).1
  {
    var i := FirstIndex(slots, h);
    if h != NULL {
      assert h in Content(slots) <==> h in slots;
      if i < |slots| {
        UpdateContent(slots, i, NULL);
      }
    }
  }

  /** Every sequence of calls returns the codes, and leaves the content, that the bounded
      multiset prescribes. */
  lemma {:induction false} RegistryRefinesMultiset(calls: seq<Call>, slots: seq<Handle>)
    ensures RunSlots(calls, slots).0 == RunAbstract(calls, |slots|, Content(slots)).0
    ensures Content(RunSlots(calls, slots).1) == RunAbstract(calls, |slots|, Content(slots)).1
    decreases |calls|
  {
    if calls != [] {
      match calls[0] {
        case Register(h) => RegisterRefines(h, slots);
        case Unregister(h) => UnregisterRefines(h, slots);
      }
      RegistryRefinesMultiset(calls[1..], Concrete(calls[0], slots).1);
    }
  }

  // ---------------------------------------------------------------- fan-out

  /** Offers message m to the buffer in one slot; an empty slot is skipped. */
  function OfferTo(slot: Handle, bufs: map<Handle, Buffer>, log: seq<string>, m: nat): map<Handle, Buffer> {
    if slot != NULL && slot in bufs then bufs[slot := Send(bufs[slot], log, m)] else bufs
  }

  /** The buffers after the first k slots have been served. */
  function FanOut(slots: seq<Handle>, k: nat, bufs: map<Handle, Buffer>, log: seq<string>, m: nat): map<Handle, Buffer>
    requires k <= |slots|
  {
    if k == 0 then bufs else OfferTo(slots[k - 1], FanOut(slots, k - 1, bufs, log, m), log, m)
  }

  /** Each registered buffer is offered the line exactly once, and no other buffer changes. */
  lemma {:induction false} FanOutOffersOnce(slots: seq<Handle>, k: nat, bufs: map<Handle, Buffer>, log: seq<string>, m: nat)
    requires k <= |slots| && Distinct(slots)
    ensures FanOut(slots, k, bufs, log, m).Keys == bufs.Keys
    ensures forall h :: h in bufs ==>
              FanOut(slots, k, bufs, log, m)[h] ==
              if h != NULL && h in slots[..k] then Send(bufs[h], log, m) else bufs[h]
  {
    if k > 0 {
      FanOutOffersOnce(slots, k - 1, bufs, log, m);
      assert slots[..k] == slots[..k - 1] + [slots[k - 1]];
    }
  }

  // ---------------------------------------------------------------- the log output hook

  /** Who prints a log line: this component's logging_vprintf, or another function, or nobody. */
  datatype Hook = NoHook | Logger | Foreign(id: nat)

  /** The hook in place, the one the last init saved (NoHook before the first), and whether the
      mutex that logging_vprintf takes exists. */
  datatype Hooks = Hooks(current: Hook, saved: Hook, mutex: bool)

  datatype HookCall = InitCall(mutexCreated: bool) | DeinitCall

  function Hooked(h: Hooks, call: HookCall): Hooks {
    match call
    case InitCall(created) => if created then Hooks(Logger, h.current, true) else h.(mutex := false)
    case DeinitCall => Hooks(h.saved, h.saved, false)
  }

  function RunHooks(h: Hooks, calls: seq<HookCall>): Hooks
    decreases |calls|
  {
    if calls == [] then h else Hooked(RunHooks(h, calls[..|calls| - 1]), calls[|calls| - 1])
  }

  /** Somebody prints, the logger exactly while its mutex exists, and deinit would take it out. */
  predicate Restorable(h: Hooks) {
    h.current != NoHook && (h.current == Logger <==> h.mutex) && h.saved != Logger
  }

  /** An init comes only while the logger is not in place, and a deinit only when a hook was saved. */
  predicate InTurn(h: Hooks, call: HookCall) {
    match call
    case InitCall(_) => h.current != Logger
    case DeinitCall => h.saved != NoHook
  }

  predicate AllInTurn(h: Hooks, calls: seq<HookCall>)
    decreases |calls|
  {
    calls == [] ||
    var n := |calls| - 1;
    AllInTurn(h, calls[..n]) && InTurn(RunHooks(h, calls[..n]), calls[n])
  }

  /** The state after each of the calls, and before the first. */
  predicate AllRestorable(h: Hooks, calls: seq<HookCall>)
    decreases |calls|
  {
    Restorable(RunHooks(h, calls)) && (calls == [] || AllRestorable(h, calls[..|calls| - 1]))
  }

  lemma HookedRestorableIff(h: Hooks, call: HookCall)
    requires Restorable(h)
    ensures Restorable(Hooked(h, call)) <==> InTurn(h, call)
  {
  }

  /** Over any sequence of calls: after each of them somebody prints, the logger only while its mutex
      exists, and it can be taken out again, if and only if all calls come in turn. */
  lemma {:induction false} HooksStayRestorableIff(h: Hooks, calls: seq<HookCall>)
    requires Restorable(h)
    ensures AllInTurn(h, calls) <==> AllRestorable(h, calls)
    decreases |calls|
  {
    hide Restorable, Hooked, InTurn;
    if calls == [] {
    } else {
      var init := calls[..|calls| - 1];
      HooksStayRestorableIff(h, init);
      if AllRestorable(h, init) {
        assert Restorable(RunHooks(h, init));
        HookedRestorableIff(RunHooks(h, init), calls[|calls| - 1]);
      }
    }
  }

  ghost predicate InitBefore(calls: seq<HookCall>, k: nat) {
    exists j :: 0 <= j < k && j < |calls| && calls[j] == InitCall(true)
  }

  /** A hook is saved once an init has succeeded, provided that there was one to save. */
  lemma {:induction false} SavedIffInit(h: Hooks, calls: seq<HookCall>)
    requires h.saved == NoHook && forall k :: 0 <= k <= |calls| ==> RunHooks(h, calls[..k]).current != NoHook
    ensures RunHooks(h, calls).saved != NoHook <==> InitBefore(calls, |calls|)
    decreases |calls|
  {
    if calls != [] {
      var n := |calls| - 1;
      var init := calls[..n];
      assert forall k :: 0 <= k <= n ==> init[..k] == calls[..k];
      assert init[..n] == init && calls[..|calls|] == calls;
      SavedIffInit(h, init);
      assert InitBefore(calls, |calls|) <==> InitBefore(init, n) || calls[n] == InitCall(true) by {
        assert forall j :: 0 <= j < n ==> init[j] == calls[j];
      }
    }
  }

  /** From a fresh device on, there is always somebody who prints if and only if each deinit has a
      successful init before it. */
  lemma {:induction false} AlwaysHookedIff(h: Hooks, calls: seq<HookCall>)
    requires h.saved == NoHook && h.current != NoHook
    ensures (forall k :: 0 <= k <= |calls| ==> RunHooks(h, calls[..k]).current != NoHook)
       <==> (forall k :: 0 <= k < |calls| && calls[k] == DeinitCall ==> InitBefore(calls, k))
    decreases |calls|
  {
    if calls != [] {
      var n := |calls| - 1;
      var init := calls[..n];
      AlwaysHookedIff(h, init);
      assert forall k :: 0 <= k <= n ==> init[..k] == calls[..k];
      assert init[..n] == init && calls[..|calls|] == calls;
      assert forall k :: 0 <= k <= n ==> (InitBefore(init, k) <==> InitBefore(calls, k)) by {
        assert forall j :: 0 <= j < n ==> init[j] == calls[j];
      }
      if forall k :: 0 <= k <= n ==> RunHooks(h, init[..k]).current != NoHook {
        SavedIffInit(h, init);
        hide InitBefore;
      }
    }
  }

  /** Deinit puts back what printed before the last init, whatever calls fail in between: an init
      that finds no memory for the mutex leaves the saved hook alone. */
  lemma {:induction false} DeinitRestores(h: Hooks, failed: nat)
    ensures RunHooks(h, [InitCall(true)] + seq(failed, _ => InitCall(false)) + [DeinitCall]) == Hooks(h.current, h.current, false)
  {
    var calls := [InitCall(true)] + seq(failed, _ => InitCall(false));
    FailedInits(h, failed);
    assert (calls + [DeinitCall])[..|calls|] == calls;
  }

  lemma {:induction false} FailedInits(h: Hooks, failed: nat)
    ensures var h' := RunHooks(h, [InitCall(true)] + seq(failed, _ => InitCall(false)));
            h'.current == Logger && h'.saved == h.current
    decreases failed
  {
    var calls := [InitCall(true)] + seq(failed, _ => InitCall(false));
    if failed == 0 {
      assert calls == [InitCall(true)] && calls[..0] == [];
    } else {
      FailedInits(h, failed - 1);
      assert calls[..failed] == [InitCall(true)] + seq(failed - 1, _ => InitCall(false));
    }
  }

  /** The state of src/net_logging.c: the slot array, the output hooks, the buffers the slots
      point to, and the lines formatted so far in the order their tasks obtained the mutex. */
  class NetLogging {
    const maxLength: nat
    var logBuffers: array<Handle>
    var mutex: bool
    var hook: Hook
    var oldVprintf: Hook
    var bufs: map<Handle, Buffer>
    var log: seq<string>

    ghost predicate Valid()
      reads this
    {
      logBuffers.Length == SLOTS
    }

    function HookState(): Hooks
      reads this
    {
      Hooks(hook, oldVprintf, mutex)
    }

    constructor (maxLength: nat, hook: Hook)
      ensures HookState() == Hooks(hook, NoHook, false)
      ensures Valid() && fresh(logBuffers) && bufs == map[] && log == []
      ensures this.maxLength == maxLength && forall k :: 0 <= k < SLOTS ==> logBuffers[k] == NULL
    {
      this.maxLength := maxLength;
      logBuffers := new Handle[SLOTS](_ => NULL);
      mutex, this.hook, oldVprintf := false, hook, NoHook;
      bufs := map[];
      log := [];
    }

    method Init(mutexCreated: bool) returns (code: Code)
      requires Valid()
      modifies this`mutex, this`hook, this`oldVprintf, logBuffers
      ensures HookState() == Hooked(old(HookState()), InitCall(mutexCreated))
      ensures (code == OK <==> mutexCreated) && (code != OK ==> code == NO_MEM)
      ensures if mutexCreated then Content(logBuffers[..]) == multiset{} else logBuffers[..] == old(logBuffers[..])
    {
      mutex := mutexCreated;
      if !mutex {
        return NO_MEM;
      }
      for i := 0 to SLOTS
        invariant mutex && hook == old(hook) && oldVprintf == old(oldVprintf)
        invariant forall k :: 0 <= k < i ==> logBuffers[k] == NULL
      {
        logBuffers[i] := NULL;
      }
      assert forall h :: h in logBuffers[..] ==> h == NULL;
      hook, oldVprintf := Logger, hook;
      return OK;
    }

    /** One formatted line. `len` is what vsnprintf returned and `memory` the len + 1 bytes
        that start at the allocation (which holds only the first maxLength of them). */
    method LoggingVprintf(mallocOk: bool, len: int, memory: string)
      requires Valid()
      requires len > 0 ==> |memory| == len + 1
      requires forall k :: 0 <= k < SLOTS && logBuffers[k] != NULL ==> logBuffers[k] in bufs
      modifies this`bufs, this`log
      ensures mallocOk && len > 0 ==>
                log == old(log) + [memory] && bufs == FanOut(logBuffers[..], SLOTS, old(bufs), log, |old(log)|)
      ensures !(mallocOk && len > 0) ==> log == old(log) && bufs == old(bufs)
    {
      if !mallocOk || len <= 0 {
        return;
      }
      log := log + [memory];
      for i := 0 to SLOTS
        invariant log == old(log) + [memory]
        invariant bufs == FanOut(logBuffers[..], i, old(bufs), log, |old(log)|) && bufs.Keys == old(bufs.Keys)
      {
        if logBuffers[i] != NULL {
          bufs := bufs[logBuffers[i] := Send(bufs[logBuffers[i]], log, |log| - 1)];
        }
      }
    }

    method RegisterBuffer(buffer: Handle) returns (code: Code)
      requires Valid()
      modifies logBuffers
      ensures (code, logBuffers[..]) == Insert(old(logBuffers[..]), buffer)
    {
      if buffer == NULL {
        return INVALID_ARG;
      }
      for i := 0 to SLOTS
        invariant logBuffers[..] == old(logBuffers[..])
        invariant forall k :: 0 <= k < i ==> logBuffers[k] != NULL
      {
        if logBuffers[i] == NULL {
          assert i == FirstIndex(logBuffers[..], NULL);
          logBuffers[i] := buffer;
          return OK;
        }
      }
      return NO_MEM;
    }

    method UnregisterBuffer(buffer: Handle) returns (code: Code)
      requires Valid()
      modifies logBuffers
      ensures (code, logBuffers[..]) == Remove(old(logBuffers[..]), buffer)
    {
      if buffer == NULL {
        return INVALID_ARG;
      }
      for i := 0 to SLOTS
        invariant logBuffers[..] == old(logBuffers[..])
        invariant forall k :: 0 <= k < i ==> logBuffers[k] != buffer
      {
        if logBuffers[i] == buffer {
          assert i == FirstIndex(logBuffers[..], buffer);
          logBuffers[i] := NULL;
          return OK;
        }
      }
      return NOT_FOUND;
    }

    method Deinit() returns (code: Code)
      requires Valid()
      modifies this`mutex, this`hook
      ensures HookState() == Hooked(old(HookState()), DeinitCall) && code == OK
    {
      hook := oldVprintf;
      if mutex {
        mutex := false;
      }
      return OK;
    }
  }
}
