/**
 The in-process sliding window of app/core/ratelimit.py: one queue of admitted
 hit times per key, trimmed from the front and bounded by a limit.
 */
module RateLimit {
  import opened Prelude
  import opened Windows

  // IndexError: a limit below 1 is reached by an empty queue, whose head is then read.
  datatype Decision = Allowed | Denied(retryAfter: int) | IndexError

  datatype Call = Call(key: string, now: real)

  /** Python's int() on a float: truncation towards zero. */
  function Trunc(x: real): int {
    if x >= 0.0 then x.Floor else -(-x).Floor
  }

  function RetryAfter(window: real, now: real, oldest: real): int {
    var wait := Trunc(window - (now - oldest)) + 1;
    if wait < 1 then 1 else wait
  }

  function Trim(q: seq<real>, cutoff: real): seq<real> {
    if q != [] && q[0] <= cutoff then Trim(q[1..], cutoff) else q
  }

  /** Trimming drops a longest prefix of expired times: the first `gone` of them. */
  lemma {:induction false} TrimDropsPrefix(q: seq<real>, cutoff: real) returns (gone: nat)
    ensures gone <= |q| && Trim(q, cutoff) == q[gone..]
    ensures forall i | 0 <= i < gone :: q[i] <= cutoff
    ensures gone < |q| ==> q[gone] > cutoff
  {
    gone := 0;
    if q != [] && q[0] <= cutoff {
      gone := TrimDropsPrefix(q[1..], cutoff);
      gone := gone + 1;
    }
  }

  /** The decision on one call and the queue it leaves. */
  function Allow(q: seq<real>, limit: int, window: real, now: real): (Decision, seq<real>) {
    Admit(Trim(q, now - window), limit, window, now)
  }

  function Admit(live: seq<real>, limit: int, window: real, now: real): (Decision, seq<real>) {
    if |live| < limit then (Allowed, live + [now])
    else if live == [] then (IndexError, live)
    else (Denied(RetryAfter(window, now, live[0])), live)
  }

  function QueueOf(hits: map<string, seq<real>>, key: string): seq<real> {
    if key in hits then hits[key] else []
  }

  class MemorySlidingWindow {
    var hits: map<string, seq<real>>

    constructor ()
      ensures hits == map[]
    {
      hits := map[];
    }

    method AllowCall(key: string, limit: int, window: real, now: real) returns (d: Decision)
      modifies this
      ensures (d, QueueOf(hits, key)) == Allow(QueueOf(old(hits), key), limit, window, now)
      ensures hits == old(hits)[key := QueueOf(hits, key)]
    {
      var queue := QueueOf(hits, key);
      while queue != [] && queue[0] <= now - window
        invariant Trim(queue, now - window) == Trim(QueueOf(hits, key), now - window)
        decreases |queue|
      {
        queue := queue[1..];
      }
      assert queue == Trim(QueueOf(hits, key), now - window);
      if |queue| >= limit {
        hits := hits[key := queue];
        d := if queue == [] then IndexError else Denied(RetryAfter(window, now, queue[0]));
      } else {
        hits := hits[key := queue + [now]];
        d := Allowed;
      }
    }
  }

  // ------------------------------------------------------------------
  // Whole runs of calls under one limit and window
  // ------------------------------------------------------------------

  ghost predicate Clocked(calls: seq<Call>) {
    forall i, j | 0 <= i < j < |calls| :: calls[i].now <= calls[j].now
  }

  ghost function Hits(calls: seq<Call>, limit: int, window: real): map<string, seq<real>> {
    if calls == [] then map[]
    else
      var hits, c := Hits(calls[..|calls| - 1], limit, window), calls[|calls| - 1];
      hits[c.key := Allow(QueueOf(hits, c.key), limit, window, c.now).1]
  }

  ghost function DecisionAfter(calls: seq<Call>, limit: int, window: real, c: Call): Decision {
    Allow(QueueOf(Hits(calls, limit, window), c.key), limit, window, c.now).0
  }

  /** The times at which calls for one key were let through. */
  ghost function Admitted(calls: seq<Call>, key: string, limit: int, window: real): seq<real> {
    if calls == [] then []
    else
      var init, c := calls[..|calls| - 1], calls[|calls| - 1];
      Admitted(init, key, limit, window)
      + if c.key == key && DecisionAfter(init, limit, window, c) == Allowed then [c.now] else []
  }

  /**
   What a run keeps for one key, by time `now`: the first k admitted times have
   left the window, the queue is the rest, and admitted times are spaced.
   */
  ghost predicate KeyInv(q: seq<real>, times: seq<real>, k: nat, limit: nat, window: real, now: real) {
    && k <= |times| && |q| <= limit
    && q == times[k..]
    && (forall i | 0 <= i < k :: times[i] <= now - window)
    && (forall i | 0 <= i < |times| :: times[i] <= now)
    && Sorted(times) && Spaced(times, limit, window)
  }

  /** Trimming moves the boundary k forward and touches nothing else. */
  lemma TrimKeepsKeyInv(times: seq<real>, k: nat, limit: nat, window: real, before: real, now: real)
      returns (k': nat)
    requires k <= |times| && before <= now && KeyInv(times[k..], times, k, limit, window, before)
    ensures k' <= |times| && KeyInv(times[k'..], times, k', limit, window, now)
    ensures Trim(times[k..], now - window) == times[k'..]
    ensures k' < |times| ==> times[k'] > now - window
  {
    var gone := TrimDropsPrefix(times[k..], now - window);
    k' := k + gone;
    assert times[k..][gone..] == times[k'..];
    forall i | 0 <= i < k' ensures times[i] <= now - window {
      if i >= k { assert times[i] == times[k..][i - k]; }
    }
  }

  /** A hit admitted while fewer than limit are in the window keeps the spacing. */
  lemma AdmitKeepsKeyInv(times: seq<real>, k: nat, limit: nat, window: real, now: real)
    requires k <= |times| && KeyInv(times[k..], times, k, limit, window, now) && |times| - k < limit
    ensures KeyInv(times[k..] + [now], times + [now], k, limit, window, now)
  {
    var times' := times + [now];
    assert times[k..] + [now] == times'[k..];
    forall i, j | 0 <= i && i + limit <= j < |times'| ensures times'[i] + window <= times'[j] {
      if j == |times| {
        assert i < k;
        assert times[i] <= now - window;
      } else {
        assert times[i] + window <= times[j];
      }
    }
  }

  lemma AllowKeepsKeyInv(times: seq<real>, k: nat, limit: nat, window: real, before: real, now: real)
      returns (k': nat, times': seq<real>)
    requires limit >= 1 && k <= |times| && before <= now && KeyInv(times[k..], times, k, limit, window, before)
    ensures var (d, q') := Allow(times[k..], limit, window, now);
      && times' == times + (if d == Allowed then [now] else [])
      && KeyInv(q', times', k', limit, window, now)
    ensures k' < |times'| && window > 0.0 ==> times'[k'] > now - window
  {
    k' := TrimKeepsKeyInv(times, k, limit, window, before, now);
    if |times| - k' < limit {
      AdmitKeepsKeyInv(times, k', limit, window, now);
      times' := times + [now];
    } else {
      times' := times;
    }
  }

  lemma KeyInvLater(q: seq<real>, times: seq<real>, k: nat, limit: nat, window: real, before: real, now: real)
    requires before <= now && KeyInv(q, times, k, limit, window, before)
    ensures KeyInv(q, times, k, limit, window, now)
  {
  }

  lemma ClockedBefore(calls: seq<Call>)
    requires Clocked(calls) && calls != []
    ensures var init := calls[..|calls| - 1];
      Clocked(init) && (init != [] ==> init[|init| - 1].now <= calls[|calls| - 1].now)
  {
  }

  /** What the last call adds to a key's queue and admitted times. */
  lemma OneMoreCall(calls: seq<Call>, key: string, limit: int, window: real)
    requires calls != []
    ensures var init, c := calls[..|calls| - 1], calls[|calls| - 1];
      var q, times := QueueOf(Hits(init, limit, window), key), Admitted(init, key, limit, window);
      var (d, q') := Allow(q, limit, window, c.now);
      && QueueOf(Hits(calls, limit, window), key) == (if c.key == key then q' else q)
      && Admitted(calls, key, limit, window) == times + (if c.key == key && d == Allowed then [c.now] else [])
  {
  }

  /** The invariant holds after every run of calls, at any time not before the last of them. */
  lemma {:induction false} RunInvariant(calls: seq<Call>, key: string, limit: int, window: real, now: real)
      returns (k: nat, times: seq<real>)
    requires limit >= 1 && Clocked(calls) && (calls != [] ==> calls[|calls| - 1].now <= now)
    ensures times == Admitted(calls, key, limit, window)
    ensures KeyInv(QueueOf(Hits(calls, limit, window), key), times, k, limit, window, now)
    ensures calls != [] && calls[|calls| - 1].key == key && k < |times| && window > 0.0
        ==> times[k] > calls[|calls| - 1].now - window
  {
    if calls == [] {
      k, times := 0, [];
    } else {
      var c := calls[|calls| - 1];
      ClockedBefore(calls);
      OneMoreCall(calls, key, limit, window);
      k, times := RunInvariant(calls[..|calls| - 1], key, limit, window, c.now);
      if c.key == key {
        k, times := AllowKeepsKeyInv(times, k, limit, window, c.now, c.now);
      }
      KeyInvLater(QueueOf(Hits(calls, limit, window), key), times, k, limit, window, c.now, now);
    }
  }

  lemma SplitAt(times: seq<real>, k: nat, cutoff: real)
    requires k <= |times| && Sorted(times)
    requires forall i | 0 <= i < k :: times[i] <= cutoff
    requires k < |times| ==> times[k] > cutoff
    ensures forall i | 0 <= i < |times| :: times[i] > cutoff <==> i >= k
  {
    forall i | k <= i < |times| ensures times[i] > cutoff {
      assert times[k] <= times[i];
    }
  }

  /** After a call the queue is exactly the admitted times still inside the window, in order. */
  lemma QueueIsRecentHits(calls: seq<Call>, limit: int, window: real)
    requires limit >= 1 && window > 0.0 && Clocked(calls) && calls != []
    ensures var c := calls[|calls| - 1];
      var q, times := QueueOf(Hits(calls, limit, window), c.key), Admitted(calls, c.key, limit, window);
      && |q| <= |times| && q == times[|times| - |q|..]
      && forall i | 0 <= i < |times| :: times[i] > c.now - window <==> i >= |times| - |q|
  {
    var c := calls[|calls| - 1];
    var k, times := RunInvariant(calls, c.key, limit, window, c.now);
    SplitAt(times, k, c.now - window);
  }

  /** No window of the given length ever admits more than `limit` hits for a key. */
  lemma NeverOverLimit(calls: seq<Call>, key: string, limit: int, window: real, lo: real)
    requires limit >= 1 && Clocked(calls)
    ensures CountIn(Admitted(calls, key, limit, window), lo, lo + window) <= limit
  {
    var _, _ := RunInvariant(calls, key, limit, window, if calls == [] then 0.0 else calls[|calls| - 1].now);
    WindowBound(Admitted(calls, key, limit, window), limit, window, lo);
  }

  /** The next call on a full, freshly trimmed queue. */
  lemma FullQueueWait(q: seq<real>, limit: nat, window: real, now: real, d: real)
    requires limit >= 1 && |q| == limit && q[0] > now - window
    ensures Allow(q, limit, window, now + d).0 == Allowed <==> d >= q[0] + window - now
    ensures var retry, wait := RetryAfter(window, now, q[0]), q[0] + window - now;
      retry as real - 1.0 <= wait < retry as real
  {
    var gone := TrimDropsPrefix(q, now + d - window);
  }

  /**
   After a refusal, a repeat of the call d seconds later is let through exactly
   when d reaches the true wait; Retry-After covers that wait and overshoots it
   by at most one second.
   */
  lemma RetryAfterIsTight(calls: seq<Call>, limit: int, window: real, c: Call, d: real)
    requires limit >= 1 && Clocked(calls + [c])
    requires DecisionAfter(calls, limit, window, c).Denied?
    ensures var q := QueueOf(Hits(calls + [c], limit, window), c.key);
      && q != []
      && var wait, retry := q[0] + window - c.now, DecisionAfter(calls, limit, window, c).retryAfter;
      && (DecisionAfter(calls + [c], limit, window, Call(c.key, c.now + d)) == Allowed <==> d >= wait)
      && retry as real - 1.0 <= wait < retry as real
  {
    assert (calls + [c])[..|calls|] == calls;
    var _, _ := RunInvariant(calls + [c], c.key, limit, window, c.now);
    var q := QueueOf(Hits(calls, limit, window), c.key);
    var gone := TrimDropsPrefix(q, c.now - window);
    FullQueueWait(q[gone..], limit, window, c.now, d);
  }

  /**
   A call is let through exactly when fewer than limit of the hits let through
   before it are still in the window: there are not as many, or the one limit
   places back has left it.
   */
  lemma AllowedIff(calls: seq<Call>, limit: int, window: real, c: Call)
    requires limit >= 1 && Clocked(calls + [c])
    ensures var times := Admitted(calls, c.key, limit, window);
      DecisionAfter(calls, limit, window, c) == Allowed
      <==> |times| < limit || times[|times| - limit] <= c.now - window
  {
    ClockedBefore(calls + [c]);
    assert (calls + [c])[..|calls|] == calls;
    var k, times := RunInvariant(calls, c.key, limit, window, c.now);
    TailAllows(times, k, limit, window, c.now);
  }

  lemma TailAllows(times: seq<real>, k: nat, limit: nat, window: real, now: real)
    requires k <= |times| && limit >= 1 && KeyInv(times[k..], times, k, limit, window, now)
    ensures Allow(times[k..], limit, window, now).0 == Allowed
       <==> |times| < limit || times[|times| - limit] <= now - window
  {
    var k' := TrimKeepsKeyInv(times, k, limit, window, now, now);
    if |times| >= limit {
      if |times| - limit < k' {
        assert times[|times| - limit] <= now - window;
      } else {
        assert times[k'] > now - window && times[k'] <= times[|times| - limit];
      }
    }
  }

  /**
   Whatever the queue, a refusal asks to wait a second at least, and with a
   limit of one or more there is a head to ask.
   */
  lemma RefusalAsksForASecond(q: seq<real>, limit: int, window: real, now: real)
    ensures var d := Allow(q, limit, window, now).0;
      && (d.Denied? ==> d.retryAfter >= 1)
      && (d == IndexError ==> limit < 1)
  {
  }
}
