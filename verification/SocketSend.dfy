/** The partial-write loop `socket_send` (src/builtin_sse_server/sse_server.c).
    The loop subtracts what send() returned even when that is -1 because the socket would
    block, so a blocked send moves the read position one byte back. `stall` is what such a
    send adds to the count of bytes still to write: 1 in the code, 0 in a loop that does what
    its comment says ("blocks until all bytes got sent"). */
module SocketSend {

  /** What one send() did: it took in |memory| bytes, or it would block, or it failed. `memory`
      is what the caller's memory holds at the position read, and matters only where that
      position lies in front of the data. */
  datatype Result = Wrote(memory: string) | WouldBlock | Fatal

  datatype Transfer = Transfer(data: string, toWrite: int, sent: string, blocks: nat, failed: bool)

  function Begin(data: string): Transfer {
    Transfer(data, |data|, "", 0, false)
  }

  predicate Pending(t: Transfer) {
    t.toWrite > 0 && !t.failed
  }

  /** The bytes at the read position, which may lie in front of the data. */
  function ReadFrom(data: string, toWrite: int, memory: string): string
    requires 0 < toWrite && |memory| <= toWrite
  {
    var offset := |data| - toWrite;
    if 0 <= offset then data[offset..offset + |memory|] else memory
  }

  /** One turn of the loop. A socket takes in no more than it is offered. */
  function Progress(t: Transfer, r: Result, stall: nat): Transfer
    requires Pending(t)
  {
    match r
    case Wrote(memory) =>
      if |memory| > t.toWrite then t
      else t.(toWrite := t.toWrite - |memory|, sent := t.sent + ReadFrom(t.data, t.toWrite, memory))
    case WouldBlock => t.(toWrite := t.toWrite + stall, blocks := t.blocks + 1)
    case Fatal => t.(failed := true)
  }

  /** A turn that ends the loop or leaves less to write, unless it made no progress. */
  ghost predicate Shrinks(t: Transfer, t': Transfer, r: Result) {
    && (r.Fatal? ==> t'.failed) && (!r.Fatal? ==> t'.failed == t.failed)
    && (r.Wrote? && 0 < |r.memory| <= t.toWrite ==> t'.toWrite < t.toWrite)
  }

  lemma ProgressShrinks(t: Transfer, r: Result, stall: nat)
    requires Pending(t)
    ensures Shrinks(t, Progress(t, r, stall), r)
  {
  }

  function Transmit(t: Transfer, results: seq<Result>, stall: nat): Transfer
    decreases |results|
  {
    if results == [] || !Pending(t) then t else Transmit(Progress(t, results[0], stall), results[1..], stall)
  }

  ghost predicate Exact(t: Transfer, stall: nat) {
    stall == 0 || t.blocks == 0
  }

  /** What every turn keeps. */
  ghost predicate Accounted(t: Transfer, stall: nat) {
    && t.toWrite >= 0
    && |t.sent| == |t.data| - t.toWrite + stall * t.blocks
    && (Exact(t, stall) ==> t.toWrite <= |t.data| && t.sent == t.data[..|t.data| - t.toWrite])
  }

  lemma ProgressAccounted(t: Transfer, r: Result, stall: nat)
    requires Pending(t) && Accounted(t, stall)
    ensures Accounted(Progress(t, r, stall), stall)
    ensures Exact(Progress(t, r, stall), stall) ==> Exact(t, stall)
    ensures Progress(t, r, stall).data == t.data
  {
    match r
    case Wrote(memory) =>
      var offset, n := |t.data| - t.toWrite, |memory|;
      if n <= t.toWrite && 0 <= offset {
        assert t.data[..offset + n] == t.data[..offset] + t.data[offset..offset + n];
      }
    case WouldBlock =>
      assert stall * (t.blocks + 1) == stall * t.blocks + stall;
    case Fatal =>
  }

  lemma CompleteTransfer(t: Transfer, stall: nat)
    requires Accounted(t, stall) && t.toWrite <= 0
    ensures Exact(t, stall) ==> t.sent == t.data
  {
    assert t.data[..|t.data|] == t.data;
  }

  lemma {:induction false} TransmitAccounted(t: Transfer, results: seq<Result>, stall: nat)
    requires Accounted(t, stall)
    ensures Accounted(Transmit(t, results, stall), stall)
    ensures Transmit(t, results, stall).data == t.data
    decreases |results|
  {
    if results == [] || !Pending(t) {
    } else {
      ProgressAccounted(t, results[0], stall);
      TransmitAccounted(Progress(t, results[0], stall), results[1..], stall);
    }
  }

  /** Without a stall penalty, or before the first blocked send, the socket holds a prefix of the
      data, and all of it exactly when the loop has run to its end. */
  lemma SentIsPrefix(data: string, results: seq<Result>, stall: nat)
    requires Exact(Transmit(Begin(data), results, stall), stall)
    ensures var t := Transmit(Begin(data), results, stall);
            0 <= t.toWrite <= |data| && t.sent == data[..|data| - t.toWrite] && (t.sent == data <==> t.toWrite == 0)
  {
    TransmitAccounted(Begin(data), results, stall);
    var t := Transmit(Begin(data), results, stall);
    assert |data[..|data| - t.toWrite]| == |data| - t.toWrite;
    assert data[..|data|] == data;
  }

  /** How many bytes a sequence of partial sends takes in. */
  function Total(results: seq<Result>): nat {
    if results == [] then 0 else (if results[0].Wrote? then |results[0].memory| else 0) + Total(results[1..])
  }

  ghost predicate Partials(results: seq<Result>) {
    forall k :: 0 <= k < |results| ==> results[k].Wrote? && results[k].memory != ""
  }

  /** The loop goes on until every byte is taken in, and no longer, however the bytes are split. */
  lemma {:induction false} EverySplitEnds(t: Transfer, results: seq<Result>, stall: nat)
    requires Partials(results) && !t.failed && t.toWrite == Total(results)
    ensures var u := Transmit(t, results, stall); u.toWrite == 0 && !u.failed && u.blocks == t.blocks
    ensures forall k :: 0 <= k < |results| ==> Pending(Transmit(t, results[..k], stall))
    decreases |results|
  {
    if results != [] {
      var t', rest := Progress(t, results[0], stall), results[1..];
      EverySplitEnds(t', rest, stall);
      forall k | 0 <= k < |results| ensures Pending(Transmit(t, results[..k], stall)) {
        if k > 0 {
          assert results[..k][1..] == rest[..k - 1];
        }
      }
    }
  }

  /** So in whatever pieces the socket takes the data in, all of it gets through. */
  lemma EverySplitDelivers(data: string, results: seq<Result>, stall: nat)
    requires Partials(results) && Total(results) == |data|
    ensures var u := Transmit(Begin(data), results, stall);
            u.toWrite == 0 && !u.failed && u.blocks == 0 && u.sent == data
  {
    EverySplitEnds(Begin(data), results, stall);
    SentIsPrefix(data, results, stall);
  }

  /** When the code's loop reports success, the socket holds exactly the data if and only if no
      send would have blocked; each blocked send made it accept one byte too many. */
  lemma CompleteSendIsExactIff(data: string, results: seq<Result>)
    requires var t := Transmit(Begin(data), results, 1); t.toWrite <= 0 && !t.failed
    ensures var t := Transmit(Begin(data), results, 1);
            |t.sent| == |data| + t.blocks && (t.sent == data <==> t.blocks == 0)
  {
    TransmitAccounted(Begin(data), results, 1);
    var t := Transmit(Begin(data), results, 1);
    assert t.blocks == 0 ==> t.sent == data[..|data|];
  }

  /** The smallest failing run: a blocked first send makes the code read in front of the data and
      deliver two bytes of a one-byte message. */
  lemma BlockedSendReadsBeforeData()
    ensures var t := Transmit(Begin("a"), [WouldBlock, Wrote("xa")], 1);
            t.toWrite == 0 && !t.failed && t.sent == "xa"
  {
    var t0 := Begin("a");
    var t1 := Progress(t0, WouldBlock, 1);
    assert |t1.data| - t1.toWrite == -1;
    var t2 := Progress(t1, Wrote("xa"), 1);
    assert [WouldBlock, Wrote("xa")][1..] == [Wrote("xa")];
    assert Transmit(t0, [WouldBlock, Wrote("xa")], 1) == Transmit(t1, [Wrote("xa")], 1);
    assert Transmit(t1, [Wrote("xa")], 1) == Transmit(t2, [], 1);
  }

  lemma {:induction false} TransmitAppend(t: Transfer, results: seq<Result>, r: Result, stall: nat)
    requires Pending(Transmit(t, results, stall))
    ensures Transmit(t, results + [r], stall) == Progress(Transmit(t, results, stall), r, stall)
    decreases |results|
  {
    if results == [] {
      assert results + [r] == [r];
      assert [r][1..] == [];
    } else {
      assert (results + [r])[1..] == results[1..] + [r];
      TransmitAppend(Progress(t, results[0], stall), results[1..], r, stall);
    }
  }

  /** The loop itself. `patience` bounds the sends that make no progress; with any such bound it
      ends, because each turn lowers (patience, toWrite) lexicographically. */
  method Send(data: string, stall: nat, patience: nat) returns (ret: int, sent: string, results: seq<Result>)
    ensures var t := Transmit(Begin(data), results, stall);
            !Pending(t) && sent == t.sent && ret == if t.failed then -1 else |data|
  {
    var toWrite, blocks, left := |data|, 0, patience;
    sent, results := "", [];
    assert Transmit(Begin(data), results, stall) == Transfer(data, toWrite, sent, blocks, false);
    hide Transmit, ReadFrom;
    while toWrite > 0
      invariant Transmit(Begin(data), results, stall) == Transfer(data, toWrite, sent, blocks, false)
      decreases left, toWrite
    {
      var r: Result := *;
      if left == 0 && !(r.Wrote? && 0 < |r.memory| <= toWrite) {
        r := Fatal;
      }
      TransmitAppend(Begin(data), results, r, stall);
      results := results + [r];
      match r {
        case Fatal => return -1, sent, results;
        case WouldBlock => toWrite, blocks, left := toWrite + stall, blocks + 1, left - 1;
        case Wrote(memory) =>
          if memory == "" || |memory| > toWrite {
            left := left - 1;
          }
          if |memory| <= toWrite {
            sent := sent + ReadFrom(data, toWrite, memory);
            toWrite := toWrite - |memory|;
          }
      }
    }
    ret := |data|;
  }
}
