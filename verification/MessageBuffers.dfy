/** FreeRTOS message buffers, seen as bounded lossy FIFOs.
    A message is named by its position in the global log (the order in which logging
    tasks obtained the mutex); its bytes are looked up there. */
module MessageBuffers {
  import opened Prelude

  type Handle = nat

  const NULL: Handle := 0

  /** Bytes of bookkeeping a message buffer stores in front of each message. */
  const HEADER: nat := 4

  /** `queue` is the buffer proper. The other fields record its history: the position in
      the log at which it was registered, and every message that was offered to it,
      taken in, discarded for lack of room, or handed to its reader. */
  datatype Buffer = Buffer(
    size: nat,
    queue: seq<nat>,
    since: Option<nat>,
    offered: seq<nat>,
    accepted: seq<nat>,
    dropped: seq<nat>,
    received: seq<nat>)

  function Empty(size: nat): Buffer {
    Buffer(size, [], None, [], [], [], [])
  }

  function Message(log: seq<string>, m: nat): string {
    if m < |log| then log[m] else ""
  }

  function Used(log: seq<string>, queue: seq<nat>): nat {
    if queue == [] then 0 else HEADER + |Message(log, queue[0])| + Used(log, queue[1..])
  }

  predicate Fits(b: Buffer, log: seq<string>, m: nat) {
    Used(log, b.queue) + HEADER + |Message(log, m)| <= b.size
  }

  /** xMessageBufferSend without waiting: the whole message or nothing. */
  function Send(b: Buffer, log: seq<string>, m: nat): Buffer {
    if Fits(b, log, m) then
      b.(queue := b.queue + [m], accepted := b.accepted + [m], offered := b.offered + [m])
    else
      b.(dropped := b.dropped + [m], offered := b.offered + [m])
  }

  /** A receive finds nothing when the queue is empty, and also when the oldest message
      is larger than the destination, in which case the message stays where it is. */
  function Ready(b: Buffer, log: seq<string>, room: nat): Option<nat> {
    if b.queue != [] && |Message(log, b.queue[0])| <= room then Some(b.queue[0]) else None
  }

  function Receive(b: Buffer, log: seq<string>, room: nat): Buffer {
    match Ready(b, log, room)
    case None => b
    case Some(m) => b.(queue := b.queue[1..], received := b.received + [m])
  }

  /** The history of a buffer is consistent: accepted messages are the received ones
      followed by the queued ones, and the offered ones split into accepted and dropped,
      each part in log order. */
  ghost predicate Consistent(b: Buffer, bound: nat) {
    && b.accepted == b.received + b.queue
    && Increasing(b.offered) && Increasing(b.accepted) && Increasing(b.dropped)
    && AllBelow(b.offered, bound)
    && (forall m :: m in b.offered <==> m in b.accepted || m in b.dropped)
    && (forall m :: m in b.accepted ==> m !in b.dropped)
    && (b.since.None? ==> b.offered == [])
  }

  lemma SendKeepsConsistent(b: Buffer, log: seq<string>, m: nat)
    requires Consistent(b, m) && b.since.Some?
    ensures Consistent(Send(b, log, m), m + 1)
    ensures Send(b, log, m).offered == b.offered + [m]
    ensures Send(b, log, m).received == b.received
  {
    assert AllBelow(b.accepted, m) && AllBelow(b.dropped, m) by {
      assert forall k :: 0 <= k < |b.accepted| ==> b.accepted[k] in b.offered;
      assert forall k :: 0 <= k < |b.dropped| ==> b.dropped[k] in b.offered;
    }
    assert m !in b.offered;
    IncreasingSnoc(b.offered, m);
    IncreasingSnoc(b.accepted, m);
    IncreasingSnoc(b.dropped, m);
    hide Fits, Increasing, AllBelow;
    var b' := Send(b, log, m);
    if b'.dropped == b.dropped {
      assert b.received + b.queue + [m] == b.received + (b.queue + [m]);
    }
  }

  lemma ReceiveKeepsConsistent(b: Buffer, log: seq<string>, room: nat, bound: nat)
    requires Consistent(b, bound)
    ensures Consistent(Receive(b, log, room), bound)
    ensures forall m :: Ready(b, log, room) == Some(m) ==>
              m < bound && Receive(b, log, room).received == b.received + [m] && |Message(log, m)| <= room
  {
    match Ready(b, log, room)
    case None =>
    case Some(m) =>
      assert b.received + b.queue == (b.received + [m]) + b.queue[1..];
      assert m == b.accepted[|b.received|];
      assert m in b.offered;
  }

  /** Two sinks never disagree about the order of two messages they both took in. */
  lemma SinksAgreeOnOrder(b: Buffer, c: Buffer, bound: nat, i: nat, j: nat, k: nat, l: nat)
    requires Consistent(b, bound) && Consistent(c, bound)
    requires i < |b.accepted| && j < |b.accepted| && k < |c.accepted| && l < |c.accepted|
    requires b.accepted[i] == c.accepted[k] && b.accepted[j] == c.accepted[l]
    ensures i < j <==> k < l
  {
  }

  // ---------------------------------------------------------------- what is taken in

  /** What a list of messages costs, each with its header. */
  function Cost(log: seq<string>, ps: seq<nat>): nat {
    if ps == [] then 0 else Cost(log, ps[..|ps| - 1]) + HEADER + |Message(log, ps[|ps| - 1])|
  }

  lemma {:induction false} UsedIsCost(log: seq<string>, ps: seq<nat>)
    ensures Used(log, ps) == Cost(log, ps)
    decreases |ps|
  {
    if ps == [] {
    } else {
      var init, last := ps[..|ps| - 1], ps[|ps| - 1];
      assert ps == init + [last];
      UsedSnoc(log, init, last);
      UsedIsCost(log, init);
    }
  }

  /** An offered message is taken in, at the end of the queue, if and only if it fits behind what is
      queued already; otherwise it is dropped, and the queue stays as it is. */
  lemma SendTakesInIff(b: Buffer, log: seq<string>, m: nat, bound: nat)
    requires Consistent(b, bound) && m !in b.offered
    ensures var b' := Send(b, log, m);
            var fits := Cost(log, b.queue + [m]) <= b.size;
            && (m in b'.accepted <==> fits) && (m in b'.dropped <==> !fits)
            && b'.queue == (if fits then b.queue + [m] else b.queue)
            && b'.accepted == (if fits then b.accepted + [m] else b.accepted)
            && b'.dropped == (if fits then b.dropped else b.dropped + [m])
            && b'.received == b.received && b'.size == b.size && b'.since == b.since
  {
    UsedIsCost(log, b.queue);
    assert (b.queue + [m])[..|b.queue|] == b.queue;
    assert m !in b.accepted && m !in b.dropped;
  }

  // ---------------------------------------------------------------- bounded size

  lemma {:induction false} UsedSnoc(log: seq<string>, queue: seq<nat>, m: nat)
    ensures Used(log, queue + [m]) == Used(log, queue) + HEADER + |Message(log, m)|
    decreases |queue|
  {
    if queue == [] {
      assert queue + [m] == [m];
    } else {
      assert (queue + [m])[1..] == queue[1..] + [m];
      UsedSnoc(log, queue[1..], m);
    }
  }

  lemma {:induction false} UsedKept(log: seq<string>, log': seq<string>, queue: seq<nat>)
    requires log <= log' && AllBelow(queue, |log|)
    ensures Used(log', queue) == Used(log, queue)
    decreases |queue|
  {
    if queue == [] {
    } else {
      assert forall k :: 0 <= k < |queue[1..]| ==> queue[1..][k] == queue[k + 1];
      UsedKept(log, log', queue[1..]);
    }
  }

  /** The queued messages and their headers never take more room than the buffer has. */
  ghost predicate WithinSize(b: Buffer, log: seq<string>) {
    Used(log, b.queue) <= b.size && AllBelow(b.queue, |log|)
  }

  lemma SendWithinSize(b: Buffer, log: seq<string>, m: nat)
    requires WithinSize(b, log) && m < |log|
    ensures WithinSize(Send(b, log, m), log)
  {
    UsedSnoc(log, b.queue, m);
  }

  lemma ReceiveWithinSize(b: Buffer, log: seq<string>, room: nat)
    requires WithinSize(b, log)
    ensures WithinSize(Receive(b, log, room), log)
  {
    if b.queue != [] {
      assert forall k :: 0 <= k < |b.queue[1..]| ==> b.queue[1..][k] == b.queue[k + 1];
    }
  }

  // ---------------------------------------------------------------- a reader that gets stuck

  datatype Use = Offer(m: nat) | Take

  function Apply(b: Buffer, log: seq<string>, room: nat, uses: seq<Use>): Buffer
    decreases |uses|
  {
    if uses == [] then b
    else
      var b' := match uses[0]
                case Offer(m) => Send(b, log, m)
                case Take => Receive(b, log, room);
      Apply(b', log, room, uses[1..])
  }

  predicate Wedged(b: Buffer, log: seq<string>, room: nat) {
    b.queue != [] && |Message(log, b.queue[0])| > room
  }

  /** Once a message too large for the reader is at the head, no further traffic frees
      the reader: it never receives anything again. */
  lemma {:induction false} WedgedForever(b: Buffer, log: seq<string>, room: nat, uses: seq<Use>)
    requires Wedged(b, log, room)
    ensures Wedged(Apply(b, log, room, uses), log, room)
    ensures Apply(b, log, room, uses).received == b.received
    decreases |uses|
  {
    if uses != [] {
      match uses[0]
      case Offer(m) => WedgedForever(Send(b, log, m), log, room, uses[1..]);
      case Take => WedgedForever(b, log, room, uses[1..]);
    }
  }

  function Takes(n: nat): (uses: seq<Use>)
    ensures |uses| == n
    ensures forall k :: 0 <= k < n ==> uses[k] == Take
  {
    seq(n, _ => Take)
  }

  /** As many receives as there are queued messages empty the queue exactly when every
      queued message fits the reader's destination. */
  lemma {:induction false} DrainsIffAllFit(b: Buffer, log: seq<string>, room: nat)
    ensures Apply(b, log, room, Takes(|b.queue|)).queue == []
       <==> forall k :: 0 <= k < |b.queue| ==> |Message(log, b.queue[k])| <= room
    decreases |b.queue|
  {
    if b.queue != [] {
      var uses := Takes(|b.queue|);
      assert uses[1..] == Takes(|b.queue| - 1);
      if Wedged(b, log, room) {
        WedgedForever(b, log, room, uses);
        assert |Message(log, b.queue[0])| > room;
      } else {
        DrainsIffAllFit(Receive(b, log, room), log, room);
        assert forall k :: 0 < k < |b.queue| ==> b.queue[k] == b.queue[1..][k - 1];
      }
    }
  }
}
