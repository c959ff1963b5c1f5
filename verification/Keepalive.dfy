/** The keepalive timer of a streaming client (src/builtin_sse_server/sse_server.c) against the
    15-second watchdog of the page (src/builtin_sse_server/www/index.html). */
module Keepalive {

  /** Ticks are 32-bit and wrap around. */
  const WRAP: nat := 0x1_0000_0000

  /** The test the server makes when it has no message: the sum wraps, the comparison does not
      know about it. */
  predicate Due(now: nat, last: nat, period: nat) {
    now > (last + period) % WRAP
  }

  /** The test a given number of ticks after the last activity. */
  predicate DueAfter(elapsed: nat, last: nat, period: nat) {
    Due((last + elapsed) % WRAP, last, period)
  }

  lemma WrapOnce(x: nat)
    requires x < 2 * WRAP
    ensures x % WRAP == if x < WRAP then x else x - WRAP
  {
  }

  /** The meaning of the test for every elapsed time: right when neither or both of the current
      tick and the sum have wrapped, always true when only the sum has, never when only the
      current tick has. */
  lemma DueMeans(last: nat, elapsed: nat, period: nat)
    requires last < WRAP && elapsed < WRAP && period < WRAP
    ensures var nowWrapped, sumWrapped := last + elapsed >= WRAP, last + period >= WRAP;
            DueAfter(elapsed, last, period) <==>
              if nowWrapped == sumWrapped then elapsed > period else sumWrapped
  {
    WrapOnce(last + elapsed);
    WrapOnce(last + period);
  }

  /** Every poll more than `period` and at most `period + slack` ticks after the last activity
      finds a keepalive due, if and only if no wrap falls between those two ends. */
  lemma DueInTimeIff(last: nat, period: nat, slack: nat)
    requires last < WRAP && period + slack < WRAP && slack > 0
    ensures (forall elapsed: nat :: period < elapsed <= period + slack ==> DueAfter(elapsed, last, period))
       <==> (last + period >= WRAP || last + period + slack < WRAP)
  {
    forall elapsed: nat | period < elapsed <= period + slack
      ensures DueAfter(elapsed, last, period) <==> (last + period >= WRAP || last + elapsed < WRAP)
    {
      DueMeans(last, elapsed, period);
    }
    var e := period + slack;
    assert DueAfter(e, last, period) <==> (last + period >= WRAP || last + e < WRAP);
  }

  // ---------------------------------------------------------------- a run of polls

  /** One call of serve_client for a streaming client: the tick it read, and whether a message was
      waiting. */
  datatype Poll = Poll(now: nat, message: bool)

  /** last_activity when poll j starts; it is 0 right after the subscription. */
  function LastActivity(polls: seq<Poll>, j: nat, period: nat): nat
    requires j <= |polls|
    decreases j, 0
  {
    if j == 0 then 0
    else if Transmits(polls, j - 1, period) then polls[j - 1].now
    else LastActivity(polls, j - 1, period)
  }

  predicate Transmits(polls: seq<Poll>, j: nat, period: nat)
    requires j < |polls|
    decreases j, 1
  {
    polls[j].message || Due(polls[j].now, LastActivity(polls, j, period), period)
  }

  /** The ticks of the first n polls that transmitted. */
  function TransmissionTicks(polls: seq<Poll>, n: nat, period: nat): (ticks: seq<nat>)
    requires n <= |polls|
  {
    if n == 0 then []
    else TransmissionTicks(polls, n - 1, period) + if Transmits(polls, n - 1, period) then [polls[n - 1].now] else []
  }

  /** Polls at most `slack` ticks apart, starting within `slack` of the subscription, and no tick
      near enough the wrap to matter. */
  ghost predicate Regular(polls: seq<Poll>, subscribed: nat, slack: nat, period: nat) {
    && (forall j :: 0 <= j < |polls| ==> polls[j].now + period < WRAP)
    && (polls != [] ==> subscribed <= polls[0].now <= subscribed + slack)
    && (forall j :: 0 < j < |polls| ==> polls[j - 1].now <= polls[j].now <= polls[j - 1].now + slack)
  }

  /** A client that was not served for a transmission is never further than one period behind. */
  lemma {:induction false} SilenceIsBounded(polls: seq<Poll>, subscribed: nat, slack: nat, period: nat, j: nat)
    requires Regular(polls, subscribed, slack, period) && j < |polls| && !Transmits(polls, j, period)
    requires period < WRAP
    ensures LastActivity(polls, j, period) + period < WRAP
    ensures polls[j].now <= LastActivity(polls, j, period) + period
  {
    ActivityInRange(polls, subscribed, slack, period, j);
    WrapOnce(LastActivity(polls, j, period) + period);
  }

  lemma {:induction false} ActivityInRange(polls: seq<Poll>, subscribed: nat, slack: nat, period: nat, j: nat)
    requires Regular(polls, subscribed, slack, period) && j <= |polls| && period < WRAP
    ensures LastActivity(polls, j, period) + period < WRAP
  {
    if j > 0 {
      ActivityInRange(polls, subscribed, slack, period, j - 1);
    }
  }

  lemma {:induction false} ActivityIsLastTransmission(polls: seq<Poll>, i: nat, j: nat, period: nat)
    requires i < j <= |polls| && Transmits(polls, i, period)
    requires forall k :: i < k < j ==> !Transmits(polls, k, period)
    ensures LastActivity(polls, j, period) == polls[i].now
  {
    if i < j - 1 {
      ActivityIsLastTransmission(polls, i, j - 1, period);
    }
  }

  lemma {:induction false} NoActivityYet(polls: seq<Poll>, j: nat, period: nat)
    requires j <= |polls| && forall k :: 0 <= k < j ==> !Transmits(polls, k, period)
    ensures LastActivity(polls, j, period) == 0
  {
    if j > 0 {
      NoActivityYet(polls, j - 1, period);
    }
  }

  /** What the server does at a poll depends on the polls before it only. */
  lemma {:induction false} EarlierPolls(polls: seq<Poll>, p: Poll, j: nat, period: nat)
    requires j <= |polls|
    ensures LastActivity(polls + [p], j, period) == LastActivity(polls, j, period)
    ensures TransmissionTicks(polls + [p], j, period) == TransmissionTicks(polls, j, period)
    ensures j < |polls| ==> Transmits(polls + [p], j, period) == Transmits(polls, j, period)
  {
    if j > 0 {
      EarlierPolls(polls, p, j - 1, period);
    }
  }

  /** `last_activity` is the tick of the last transmission. */
  lemma {:induction false} ActivityIsLastTick(polls: seq<Poll>, n: nat, period: nat)
    requires n <= |polls|
    ensures var ticks := TransmissionTicks(polls, n, period);
            LastActivity(polls, n, period) == if ticks == [] then 0 else ticks[|ticks| - 1]
  {
    if n > 0 {
      ActivityIsLastTick(polls, n - 1, period);
    }
  }

  /** The first transmission, and each later one, starts at most period + slack ticks after the
      subscription or the one before it. */
  ghost predicate Spaced(ticks: seq<nat>, subscribed: nat, gap: nat) {
    && (ticks != [] ==> ticks[0] <= subscribed + gap)
    && forall k :: 0 < k < |ticks| ==> ticks[k] <= ticks[k - 1] + gap
  }

  lemma {:induction false} TransmissionsAreSpaced(polls: seq<Poll>, subscribed: nat, slack: nat, period: nat, n: nat)
    requires Regular(polls, subscribed, slack, period) && period < WRAP && n <= |polls|
    ensures Spaced(TransmissionTicks(polls, n, period), subscribed, period + slack)
  {
    if n > 0 {
      TransmissionsAreSpaced(polls, subscribed, slack, period, n - 1);
      if Transmits(polls, n - 1, period) {
        ActivityIsLastTick(polls, n - 1, period);
        if n > 1 && !Transmits(polls, n - 2, period) {
          SilenceIsBounded(polls, subscribed, slack, period, n - 2);
        }
      }
    }
  }

  /** The server has not been silent for more than a period when it serves the client: every poll is
      at most one period behind the last transmission, or behind the subscription. */
  lemma LastPollIsInTime(polls: seq<Poll>, subscribed: nat, slack: nat, period: nat)
    requires Regular(polls, subscribed, slack, period) && period < WRAP && polls != []
    ensures var ticks := TransmissionTicks(polls, |polls|, period);
            polls[|polls| - 1].now <= (if ticks == [] then subscribed else ticks[|ticks| - 1]) + period
  {
    var n := |polls| - 1;
    ActivityIsLastTick(polls, n, period);
    if !Transmits(polls, n, period) {
      SilenceIsBounded(polls, subscribed, slack, period, n);
    }
  }

  /** The comment at the subscription promises a keepalive on the first run. An idle client gets
      one exactly when the device has been up for more than one period. */
  lemma FirstPollKeepaliveIff(polls: seq<Poll>, period: nat)
    requires polls != [] && !polls[0].message && period < WRAP
    ensures Transmits(polls, 0, period) <==> polls[0].now > period
  {
    WrapOnce(period);
  }

  const PERIOD_SECONDS: nat := 10
  const WATCHDOG_SECONDS: nat := 15

  /** The transmissions at `ticks`, the k-th of which took `takes[k]`, keep the page's watchdog from
      firing: the page sets it when it subscribes, `lead` ticks before the server takes the
      subscription, and anew with every event. */
  ghost predicate BeatsWatchdog(ticks: seq<nat>, takes: seq<nat>, subscribed: nat, lead: nat, rate: nat)
    requires |takes| >= |ticks|
  {
    && (ticks != [] ==> ticks[0] + takes[0] < subscribed - lead + WATCHDOG_SECONDS * rate)
    && forall k :: 0 < k < |ticks| ==> ticks[k] + takes[k] < ticks[k - 1] + takes[k - 1] + WATCHDOG_SECONDS * rate
  }

  /** With `rate` ticks a second, transmissions spaced by the keepalive period and the poll spacing
      come in time, as long as connecting, poll spacing and sending take less than 5 seconds. */
  lemma KeepaliveBeatsWatchdog(ticks: seq<nat>, takes: seq<nat>, subscribed: nat, lead: nat, slack: nat, rate: nat)
    requires Spaced(ticks, subscribed, PERIOD_SECONDS * rate + slack) && |takes| >= |ticks|
    requires forall k :: 0 <= k < |ticks| ==>
               (if k == 0 then lead else 0) + slack + takes[k] < (WATCHDOG_SECONDS - PERIOD_SECONDS) * rate
    ensures BeatsWatchdog(ticks, takes, subscribed, lead, rate)
  {
    assert ticks != [] ==> lead + slack + takes[0] < 5 * rate;
  }
}
