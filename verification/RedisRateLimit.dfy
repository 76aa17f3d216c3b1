/**
 The Redis form of the sliding window (app/core/ratelimit.py): a sorted set of
 hits that one round trip trims and counts and a later one extends, so several
 calls can stand between the count and the add.
 */
module RedisRateLimit {
  import opened Prelude
  import opened RateLimit

  datatype Entry = Entry(score: real, member: nat)

  /** One rate-limit key: its sorted set and the time at which the key expires. */
  datatype Server = Server(zset: seq<Entry>, expiresAt: Option<real>)

  ghost predicate Ordered(z: seq<Entry>) {
    forall i, j | 0 <= i < j < |z| :: z[i].score <= z[j].score
  }

  function Insert(z: seq<Entry>, e: Entry): seq<Entry> {
    if z == [] || z[|z| - 1].score <= e.score then z + [e]
    else Insert(z[..|z| - 1], e) + [z[|z| - 1]]
  }

  lemma {:induction false} InsertAdds(z: seq<Entry>, e: Entry)
    ensures |Insert(z, e)| == |z| + 1
    ensures forall f :: f in Insert(z, e) <==> f in z || f == e
  {
    if z != [] && z[|z| - 1].score > e.score {
      InsertAdds(z[..|z| - 1], e);
      assert z == z[..|z| - 1] + [z[|z| - 1]];
    }
  }

  /** ZREMRANGEBYSCORE lo hi: both ends included. */
  function RemoveRange(z: seq<Entry>, lo: real, hi: real): seq<Entry> {
    if z == [] then []
    else if lo <= z[0].score <= hi then RemoveRange(z[1..], lo, hi)
    else [z[0]] + RemoveRange(z[1..], lo, hi)
  }

  lemma {:induction false} RemoveRangeKeeps(z: seq<Entry>, lo: real, hi: real)
    ensures |RemoveRange(z, lo, hi)| <= |z|
    ensures forall e :: e in RemoveRange(z, lo, hi) <==> e in z && !(lo <= e.score <= hi)
  {
    if z != [] { RemoveRangeKeeps(z[1..], lo, hi); }
  }

  function Expire(s: Server, now: real): Server {
    if s.expiresAt.Some? && s.expiresAt.value <= now then Server([], None) else s
  }

  /** The first round trip: trim, then count what is left. An emptied key is dropped. */
  function CountPhase(s: Server, window: real, now: real): Server {
    var live := Expire(s, now);
    var z := RemoveRange(live.zset, 0.0, now - window);
    Server(z, if z == [] then None else live.expiresAt)
  }

  function ExpirySeconds(window: real): real {
    (Trunc(window * 1000.0) + 1000) as real / 1000.0
  }

  /** The second round trip, at time now, for a call whose clock read `score`. */
  function AddPhase(s: Server, member: nat, score: real, window: real, now: real): Server {
    Server(Insert(Expire(s, now).zset, Entry(score, member)), Some(now + ExpirySeconds(window)))
  }

  function Refusal(z: seq<Entry>, window: real, now: real): Decision {
    Denied(if z == [] then Trunc(window) else RetryAfter(window, now, z[0].score))
  }

  /** A call that counts at `now` and adds at `later`, without another call in between. */
  function SerialCall(s: Server, member: nat, limit: int, window: real, now: real, later: real): (Decision, Server) {
    var counted := CountPhase(s, window, now);
    if |counted.zset| >= limit then (Refusal(counted.zset, window, now), counted)
    else (Allowed, AddPhase(counted, member, now, window, later))
  }

  class DistributedSlidingWindowLimiter {
    var counter: nat
    var zset: seq<Entry>
    var expiresAt: Option<real>

    function Contents(): Server
      reads this
    {
      Server(zset, expiresAt)
    }

    constructor ()
      ensures Contents() == Server([], None) && counter == 0
    {
      counter, zset, expiresAt := 0, [], None;
    }

    /** The server drops an expired key before it serves a round trip. */
    method ExpireKey(now: real)
      modifies this`zset, this`expiresAt
      ensures Contents() == Expire(old(Contents()), now)
    {
      if expiresAt.Some? && expiresAt.value <= now {
        zset, expiresAt := [], None;
      }
    }

    method AllowAsync(limit: int, window: real, now: real, later: real) returns (d: Decision)
      modifies this
      ensures counter == old(counter) + 1
      ensures (d, Contents()) == SerialCall(old(Contents()), counter, limit, window, now, later)
    {
      counter := counter + 1;
      ExpireKey(now);
      zset := RemoveRange(zset, 0.0, now - window);
      if zset == [] {
        expiresAt := None;
      }
      if |zset| >= limit {
        var retry := Trunc(window);
        if zset != [] {
          retry := RetryAfter(window, now, zset[0].score);
        }
        return Denied(retry);
      }
      ExpireKey(later);
      zset := Insert(zset, Entry(now, counter));
      expiresAt := Some(later + ExpirySeconds(window));
      d := Allowed;
    }
  }

  // ------------------------------------------------------------------
  // The two round trips as steps of a machine
  // ------------------------------------------------------------------

  /**
   The key, the calls that have counted but not added, the shared clock, and
   when each call began and was decided how.
   */
  datatype Limiter = Limiter(server: Server, inFlight: map<nat, real>, counter: nat, clock: real,
                             begins: seq<real>, decisions: seq<Decision>)

  type Span = r: real | r >= 0.0

  datatype Action =
    | Tick(elapsed: Span)
    | Begin               // a call reads the clock, trims and counts
    | Finish(call: nat)   // a call that was under the limit adds its hit

  const Idle := Limiter(Server([], None), map[], 0, 0.0, [], [])

  /** Any call may step at any time, as long as at most n are between count and add. */
  function Step(s: Limiter, a: Action, limit: int, window: real, n: nat): Limiter {
    match a
    case Tick(elapsed) => s.(clock := s.clock + elapsed)
    case Begin =>
      var counted := CountPhase(s.server, window, s.clock);
      if |s.inFlight| >= n then s
      else
        var full := |counted.zset| >= limit;
        s.(server := counted, counter := s.counter + 1, begins := s.begins + [s.clock],
           decisions := s.decisions + [if full then Refusal(counted.zset, window, s.clock) else Allowed],
           inFlight := if full then s.inFlight else s.inFlight[s.counter := s.clock])
    case Finish(call) =>
      if call !in s.inFlight then s
      else s.(server := AddPhase(s.server, call, s.inFlight[call], window, s.clock), inFlight := s.inFlight - {call})
  }

  function Run(actions: seq<Action>, limit: int, window: real, n: nat): Limiter {
    if actions == [] then Idle
    else Step(Run(actions[..|actions| - 1], limit, window, n), actions[|actions| - 1], limit, window, n)
  }

  /** With nothing in flight, a call's two steps, any time apart, are one serial call. */
  lemma CallIsBeginFinish(s: Limiter, limit: int, window: real, n: nat, elapsed: Span)
    requires s.inFlight == map[] && n >= 1
    ensures var began := Step(s, Begin, limit, window, n);
      var after := Step(Step(began, Tick(elapsed), limit, window, n), Finish(s.counter), limit, window, n);
      (after.decisions, after.server, after.inFlight)
      == var (d, server) := SerialCall(s.server, s.counter, limit, window, s.clock, s.clock + elapsed);
         (s.decisions + [d], server, map[])
  {
    assert map[s.counter := s.clock] - {s.counter} == map[];
  }

  // ------------------------------------------------------------------
  // Serial calls: the sorted set is the in-memory queue
  // ------------------------------------------------------------------

  ghost function Scores(z: seq<Entry>): (r: seq<real>)
    ensures |r| == |z| && forall i | 0 <= i < |z| :: r[i] == z[i].score
  {
    seq(|z|, i requires 0 <= i < |z| => z[i].score)
  }

  ghost function MemoryRun(times: seq<real>, limit: int, window: real): (seq<Decision>, seq<real>) {
    if times == [] then ([], [])
    else
      var (decisions, q) := MemoryRun(times[..|times| - 1], limit, window);
      var (d, q') := Allow(q, limit, window, times[|times| - 1]);
      (decisions + [d], q')
  }

  lemma ExpiryExceedsWindow(window: real)
    requires window >= 0.0
    ensures ExpirySeconds(window) >= window
  {
  }

  /** On an ordered set the range removal drops a prefix, as the queue does. */
  lemma {:induction false} RemoveRangeIsTrim(z: seq<Entry>, cutoff: real) returns (k: nat)
    requires Ordered(z) && forall i | 0 <= i < |z| :: z[i].score >= 0.0
    ensures Scores(RemoveRange(z, 0.0, cutoff)) == Trim(Scores(z), cutoff)
    ensures k <= |z| && RemoveRange(z, 0.0, cutoff) == z[k..]
  {
    k := 0;
    if z != [] && z[0].score <= cutoff {
      k := RemoveRangeIsTrim(z[1..], cutoff);
      assert Scores(z)[1..] == Scores(z[1..]);
      k := k + 1;
    } else {
      assert forall i | 0 <= i < |z| :: z[0].score <= z[i].score;
      KeepAll(z, cutoff);
    }
  }

  lemma {:induction false} KeepAll(z: seq<Entry>, cutoff: real)
    requires forall i | 0 <= i < |z| :: z[i].score > cutoff
    ensures RemoveRange(z, 0.0, cutoff) == z
  {
    if z != [] { KeepAll(z[1..], cutoff); }
  }

  lemma {:induction false} DropAll(q: seq<real>, cutoff: real)
    requires forall i | 0 <= i < |q| :: q[i] <= cutoff
    ensures Trim(q, cutoff) == []
  {
    if q != [] { DropAll(q[1..], cutoff); }
  }

  /** What serial calls keep true of the key, up to time `now`. */
  ghost predicate SerialInv(s: Server, window: real, now: real) {
    && Ordered(s.zset)
    && (forall i | 0 <= i < |s.zset| :: 0.0 <= s.zset[i].score <= now)
    && (s.expiresAt.Some? ==> forall i | 0 <= i < |s.zset| :: s.zset[i].score + window <= s.expiresAt.value)
  }

  lemma ExpireAgrees(s: Server, window: real, before: real, now: real)
    requires SerialInv(s, window, before) && before <= now
    ensures SerialInv(Expire(s, now), window, now)
    ensures Trim(Scores(Expire(s, now).zset), now - window) == Trim(Scores(s.zset), now - window)
  {
    if Expire(s, now) != s {
      DropAll(Scores(s.zset), now - window);
    }
  }

  lemma SuffixKeepsInv(s: Server, k: nat, window: real, now: real)
    requires SerialInv(s, window, now) && k <= |s.zset|
    ensures var z := s.zset[k..]; SerialInv(Server(z, if z == [] then None else s.expiresAt), window, now)
  {
  }

  lemma CountAgrees(s: Server, window: real, before: real, now: real)
    requires SerialInv(s, window, before) && before <= now
    ensures SerialInv(CountPhase(s, window, now), window, now)
    ensures Scores(CountPhase(s, window, now).zset) == Trim(Scores(s.zset), now - window)
  {
    ExpireAgrees(s, window, before, now);
    var live := Expire(s, now);
    var k := RemoveRangeIsTrim(live.zset, now - window);
    SuffixKeepsInv(live, k, window, now);
    var z := live.zset[k..];
    assert CountPhase(s, window, now) == Server(z, if z == [] then None else live.expiresAt);
  }

  /** Only times that have left the window are missing from the end of the queue. */
  ghost predicate Lags(q: seq<real>, live: seq<real>, cutoff: real) {
    && |live| <= |q| && q[|q| - |live|..] == live
    && forall i | 0 <= i < |q| - |live| :: q[i] <= cutoff
  }

  lemma {:induction false} LagsTrimAlike(q: seq<real>, live: seq<real>, cutoff: real)
    requires Lags(q, live, cutoff)
    ensures Trim(q, cutoff) == Trim(live, cutoff)
  {
    if |q| > |live| {
      assert q[1..][|q| - 1 - |live|..] == live;
      LagsTrimAlike(q[1..], live, cutoff);
    } else {
      assert q == live;
    }
  }

  lemma LagsLater(q: seq<real>, live: seq<real>, before: real, cutoff: real)
    requires Lags(q, live, before) && before <= cutoff
    ensures Lags(q, live, cutoff)
  {
  }

  /** The call between count and add, if there is one, and when it began. */
  datatype Flight = Grounded | Flying(call: nat, at: real)

  function Pending(f: Flight): seq<real> {
    if f.Flying? then [f.at] else []
  }

  /** With one call at a time: the set and the pending hit are the queue, up to times that have left the window. */
  ghost predicate Tracks(s: Limiter, f: Flight, q: seq<real>, window: real) {
    && s.clock >= 0.0 && SerialInv(s.server, window, s.clock)
    && s.inFlight == (if f.Flying? then map[f.call := f.at] else map[])
    && (f.Flying? ==> 0.0 <= f.at <= s.clock && forall i | 0 <= i < |s.server.zset| :: s.server.zset[i].score <= f.at)
    && Lags(q, Scores(s.server.zset) + Pending(f), s.clock - window)
  }

  lemma TickTracks(s: Limiter, f: Flight, q: seq<real>, elapsed: Span, limit: int, window: real)
    requires Tracks(s, f, q, window)
    ensures Tracks(Step(s, Tick(elapsed), limit, window, 1), f, q, window)
  {
    var s' := Step(s, Tick(elapsed), limit, window, 1);
    LagsLater(q, Scores(s.server.zset) + Pending(f), s.clock - window, s'.clock - window);
  }

  /** The count sees what the queue holds after its own trim. */
  lemma CountSeesQueue(server: Server, q: seq<real>, window: real, before: real, now: real)
    requires SerialInv(server, window, before) && before <= now && Lags(q, Scores(server.zset), before - window)
    ensures var counted := CountPhase(server, window, now);
      SerialInv(counted, window, now) && Scores(counted.zset) == Trim(q, now - window)
  {
    CountAgrees(server, window, before, now);
    LagsLater(q, Scores(server.zset), before - window, now - window);
    LagsTrimAlike(q, Scores(server.zset), now - window);
  }

  lemma GroundedLags(s: Limiter, q: seq<real>, window: real)
    requires Tracks(s, Grounded, q, window)
    ensures Lags(q, Scores(s.server.zset), s.clock - window)
  {
    assert Scores(s.server.zset) + [] == Scores(s.server.zset);
  }

  lemma BeginTracks(s: Limiter, q: seq<real>, limit: int, window: real) returns (f: Flight)
    requires limit >= 1 && Tracks(s, Grounded, q, window)
    ensures var s' := Step(s, Begin, limit, window, 1);
      var (d, q') := Allow(q, limit, window, s.clock);
      && Tracks(s', f, q', window)
      && s'.begins == s.begins + [s.clock] && s'.decisions == s.decisions + [d]
  {
    var counted := CountPhase(s.server, window, s.clock);
    GroundedLags(s, q, window);
    CountSeesQueue(s.server, q, window, s.clock, s.clock);
    AdmitAgrees(counted, limit, window, s.clock);
    f := if |counted.zset| >= limit then Grounded else Flying(s.counter, s.clock);
    CountedTracks(s, Step(s, Begin, limit, window, 1), f, counted, window);
  }

  lemma CountedTracks(s: Limiter, s': Limiter, f: Flight, counted: Server, window: real)
    requires s'.server == counted && s'.clock == s.clock >= 0.0 && SerialInv(counted, window, s.clock)
    requires f.Flying? ==> f.at == s.clock
    requires s'.inFlight == if f.Flying? then map[f.call := f.at] else map[]
    ensures Tracks(s', f, Scores(counted.zset) + Pending(f), window)
    ensures f.Grounded? ==> Scores(counted.zset) + Pending(f) == Scores(counted.zset)
  {
    SameLags(Scores(counted.zset) + Pending(f), s.clock - window);
  }

  lemma SameLags(live: seq<real>, cutoff: real)
    ensures Lags(live, live, cutoff)
  {
  }

  lemma AdmitAgrees(counted: Server, limit: int, window: real, now: real)
    requires limit >= 1
    ensures Admit(Scores(counted.zset), limit, window, now)
         == if |counted.zset| >= limit then (Refusal(counted.zset, window, now), Scores(counted.zset))
            else (Allowed, Scores(counted.zset) + [now])
  {
  }

  lemma {:induction false} InsertAppends(z: seq<Entry>, e: Entry)
    requires forall i | 0 <= i < |z| :: z[i].score <= e.score
    ensures Insert(z, e) == z + [e]
  {
  }

  /** An expired key only held times that have left the window, so adding to nothing loses none of the others. */
  lemma AddTracks(server: Server, call: nat, at: real, q: seq<real>, window: real, now: real)
    requires window >= 0.0 && 0.0 <= at <= now && SerialInv(server, window, now)
    requires forall i | 0 <= i < |server.zset| :: server.zset[i].score <= at
    requires Lags(q, Scores(server.zset) + [at], now - window)
    ensures var added := AddPhase(server, call, at, window, now);
      SerialInv(added, window, now) && Lags(q, Scores(added.zset), now - window)
  {
    var live := Expire(server, now);
    ExpiryExceedsWindow(window);
    InsertAppends(live.zset, Entry(at, call));
    assert Scores(live.zset + [Entry(at, call)]) == Scores(live.zset) + [at];
    if live != server {
      ExpiredLags(server, at, q, window, now);
    }
  }

  lemma ExpiredLags(server: Server, at: real, q: seq<real>, window: real, now: real)
    requires SerialInv(server, window, now) && server.expiresAt.Some? && server.expiresAt.value <= now
    requires Lags(q, Scores(server.zset) + [at], now - window)
    ensures Lags(q, [at], now - window)
  {
    var live := Scores(server.zset) + [at];
    forall i | 0 <= i < |q| - 1 ensures q[i] <= now - window {
      if i >= |q| - |live| {
        assert q[|q| - |live|..][i - (|q| - |live|)] == q[i];
        assert server.zset[i - (|q| - |live|)].score == q[i];
      }
    }
    assert q[|q| - |live|..][|live| - 1] == at;
  }

  lemma FinishTracks(s: Limiter, f: Flight, q: seq<real>, call: nat, limit: int, window: real) returns (f': Flight)
    requires window >= 0.0 && Tracks(s, f, q, window)
    ensures var s' := Step(s, Finish(call), limit, window, 1);
      Tracks(s', f', q, window) && s'.begins == s.begins && s'.decisions == s.decisions
  {
    if f.Flying? && f.call == call {
      f' := Grounded;
      AddTracks(s.server, call, f.at, q, window, s.clock);
      var z := AddPhase(s.server, call, f.at, window, s.clock).zset;
      assert Scores(z) + [] == Scores(z);
      assert map[f.call := f.at] - {call} == map[];
    } else {
      f' := f;
    }
  }

  lemma StepTracks(s: Limiter, f: Flight, q: seq<real>, a: Action, limit: int, window: real)
      returns (f': Flight, q': seq<real>)
    requires limit >= 1 && window >= 0.0 && Tracks(s, f, q, window)
    ensures var s' := Step(s, a, limit, window, 1);
      && Tracks(s', f', q', window)
      && ((s'.begins == s.begins && s'.decisions == s.decisions && q' == q)
          || (s'.begins == s.begins + [s.clock]
              && s'.decisions == s.decisions + [Allow(q, limit, window, s.clock).0]
              && q' == Allow(q, limit, window, s.clock).1))
  {
    f', q' := f, q;
    match a
    case Tick(elapsed) => TickTracks(s, f, q, elapsed, limit, window);
    case Begin =>
      if f.Grounded? {
        f' := BeginTracks(s, q, limit, window);
        q' := Allow(q, limit, window, s.clock).1;
      } else {
        assert s.inFlight.Keys == {f.call};
      }
    case Finish(call) => f' := FinishTracks(s, f, q, call, limit, window);
  }

  lemma GroundedIff(s: Limiter, f: Flight, q: seq<real>, window: real)
    requires Tracks(s, f, q, window)
    ensures f.Grounded? <==> s.inFlight == map[]
  {
    if f.Flying? { assert f.call in s.inFlight; }
  }

  lemma MemoryRunSnoc(times: seq<real>, now: real, limit: int, window: real)
    ensures var (decisions, q) := MemoryRun(times, limit, window);
      MemoryRun(times + [now], limit, window)
      == (decisions + [Allow(q, limit, window, now).0], Allow(q, limit, window, now).1)
  {
    assert (times + [now])[..|times|] == times;
  }

  lemma {:induction false} RunTracks(actions: seq<Action>, limit: int, window: real) returns (f: Flight)
    requires limit >= 1 && window >= 0.0
    ensures var s := Run(actions, limit, window, 1);
      var (decisions, q) := MemoryRun(s.begins, limit, window);
      s.decisions == decisions && Tracks(s, f, q, window)
  {
    if actions == [] {
      f := Grounded;
    } else {
      var init := actions[..|actions| - 1];
      f := RunTracks(init, limit, window);
      var s := Run(init, limit, window, 1);
      var q := MemoryRun(s.begins, limit, window).1;
      MemoryRunSnoc(s.begins, s.clock, limit, window);
      var q';
      f, q' := StepTracks(s, f, q, actions[|actions| - 1], limit, window);
    }
  }

  /**
   With one call at a time, however long each takes between its count and its
   add, every decision is the one of the in-memory window on the times at which
   the calls began, Retry-After included; and between calls the sorted set and
   the queue trim alike at every later time.
   */
  lemma SerialRunAgrees(actions: seq<Action>, limit: int, window: real)
    requires limit >= 1 && window >= 0.0
    ensures var s := Run(actions, limit, window, 1);
      var (decisions, q) := MemoryRun(s.begins, limit, window);
      && s.decisions == decisions
      && (s.inFlight == map[] ==> forall later | later >= s.clock ::
            Scores(CountPhase(s.server, window, later).zset) == Trim(q, later - window))
  {
    var f := RunTracks(actions, limit, window);
    var s := Run(actions, limit, window, 1);
    var q := MemoryRun(s.begins, limit, window).1;
    if s.inFlight == map[] {
      GroundedIff(s, f, q, window);
      GroundedLags(s, q, window);
      forall later | later >= s.clock
        ensures Scores(CountPhase(s.server, window, later).zset) == Trim(q, later - window)
      {
        CountSeesQueue(s.server, q, window, s.clock, later);
      }
    }
  }

  lemma {:induction false} BelowOneRefuses(actions: seq<Action>, limit: int, window: real)
    requires limit < 1
    ensures var s := Run(actions, limit, window, 1);
      && s.server.zset == [] && s.inFlight == map[] && |s.decisions| == |s.begins|
      && forall i | 0 <= i < |s.decisions| :: s.decisions[i].Denied?
  {
    if actions != [] { BelowOneRefuses(actions[..|actions| - 1], limit, window); }
  }

  lemma {:induction false} BelowOneRaises(times: seq<real>, limit: int, window: real)
    requires limit < 1
    ensures var (decisions, q) := MemoryRun(times, limit, window);
      q == [] && |decisions| == |times| && forall i | 0 <= i < |decisions| :: decisions[i] == IndexError
  {
    if times != [] { BelowOneRaises(times[..|times| - 1], limit, window); }
  }

  /**
   One call at a time, the two limiters decide alike exactly when the limit is
   at least 1: below that the in-memory form reads the head of an empty queue
   where the Redis form refuses.
   */
  lemma SerialDecisionsAgreeIff(actions: seq<Action>, limit: int, window: real)
    requires window >= 0.0 && Run(actions, limit, window, 1).begins != []
    ensures var s := Run(actions, limit, window, 1);
      s.decisions == MemoryRun(s.begins, limit, window).0 <==> limit >= 1
  {
    var s := Run(actions, limit, window, 1);
    if limit >= 1 {
      SerialRunAgrees(actions, limit, window);
    } else {
      BelowOneRefuses(actions, limit, window);
      BelowOneRaises(s.begins, limit, window);
      assert s.decisions[0].Denied?;
      assert MemoryRun(s.begins, limit, window).0[0] == IndexError;
    }
  }

  // ------------------------------------------------------------------
  // At most n calls between count and add
  // ------------------------------------------------------------------

  ghost predicate Inv(s: Limiter, limit: int, window: real, n: nat) {
    && |s.server.zset| + |s.inFlight| <= limit + n - 1 && |s.inFlight| <= n
    && Timely(s.server, window, s.clock)
    && (forall call | call in s.inFlight :: call < s.counter && s.inFlight[call] <= s.clock)
  }

  /** No score is in the future, and every hit leaves the window before its key expires. */
  ghost predicate Timely(s: Server, window: real, now: real) {
    && (forall e | e in s.zset :: e.score <= now)
    && (s.expiresAt.Some? ==> forall e | e in s.zset :: e.score + window <= s.expiresAt.value)
  }

  lemma AddKeepsTimely(s: Server, member: nat, score: real, window: real, now: real)
    requires window >= 0.0 && score <= now && Timely(s, window, now)
    ensures Timely(AddPhase(s, member, score, window, now), window, now)
    ensures |AddPhase(s, member, score, window, now).zset| <= |s.zset| + 1
  {
    ExpiryExceedsWindow(window);
    InsertAdds(Expire(s, now).zset, Entry(score, member));
  }

  lemma BeginKeepsInv(s: Limiter, limit: int, window: real, n: nat)
    requires Inv(s, limit, window, n)
    ensures Inv(Step(s, Begin, limit, window, n), limit, window, n)
  {
    var s' := Step(s, Begin, limit, window, n);
    RemoveRangeKeeps(Expire(s.server, s.clock).zset, 0.0, s.clock - window);
    if s'.inFlight != s.inFlight {
      assert s'.inFlight.Keys == s.inFlight.Keys + {s.counter};
    }
  }

  lemma FinishKeepsInv(s: Limiter, call: nat, limit: int, window: real, n: nat)
    requires window >= 0.0 && Inv(s, limit, window, n)
    ensures Inv(Step(s, Finish(call), limit, window, n), limit, window, n)
  {
    if call in s.inFlight {
      assert (s.inFlight - {call}).Keys == s.inFlight.Keys - {call};
      AddKeepsTimely(s.server, call, s.inFlight[call], window, s.clock);
    }
  }

  lemma StepKeepsInv(s: Limiter, a: Action, limit: int, window: real, n: nat)
    requires window >= 0.0 && Inv(s, limit, window, n)
    ensures Inv(Step(s, a, limit, window, n), limit, window, n)
  {
    match a
    case Tick(_) =>
    case Begin => BeginKeepsInv(s, limit, window, n);
    case Finish(call) => FinishKeepsInv(s, call, limit, window, n);
  }

  lemma {:induction false} RunKeepsInv(actions: seq<Action>, limit: int, window: real, n: nat)
    requires limit >= 1 && window >= 0.0
    ensures Inv(Run(actions, limit, window, n), limit, window, n)
  {
    if actions != [] {
      RunKeepsInv(actions[..|actions| - 1], limit, window, n);
      StepKeepsInv(Run(actions[..|actions| - 1], limit, window, n), actions[|actions| - 1], limit, window, n);
    }
  }

  /**
   Over every interleaving, the sorted set holds at most limit + n - 1 hits, and
   expiry of the key at any later moment loses no hit still inside the window.
   */
  lemma ConcurrentBound(actions: seq<Action>, limit: int, window: real, n: nat, later: real)
    requires limit >= 1 && window >= 0.0
    ensures var s := Run(actions, limit, window, n);
      && |s.server.zset| <= limit + n - 1
      && forall e | e in s.server.zset && e.score > later - window :: e in Expire(s.server, later).zset
  {
    RunKeepsInv(actions, limit, window, n);
  }

  /** At time zero: `hits` hits stored, and the last `flying` calls between count and add. */
  ghost predicate AtStart(s: Limiter, hits: nat, flying: nat) {
    && s.clock == 0.0 && |s.server.zset| == hits && flying <= s.counter
    && (forall e | e in s.server.zset :: e.score == 0.0)
    && (s.server.expiresAt.Some? ==> s.server.expiresAt.value > 0.0)
    && |s.inFlight| == flying
    && (forall call: nat :: call in s.inFlight <==> s.counter - flying <= call < s.counter)
    && (forall call | call in s.inFlight :: s.inFlight[call] == 0.0)
  }

  lemma NothingToExpire(s: Server, window: real)
    requires window > 0.0 && forall e | e in s.zset :: e.score == 0.0
    requires s.expiresAt.Some? ==> s.expiresAt.value > 0.0
    ensures CountPhase(s, window, 0.0).zset == s.zset
    ensures CountPhase(s, window, 0.0).expiresAt.Some? ==> s.expiresAt.Some? && CountPhase(s, window, 0.0) == s
  {
    forall i | 0 <= i < |s.zset| ensures s.zset[i].score > 0.0 - window { assert s.zset[i] in s.zset; }
    KeepAll(s.zset, 0.0 - window);
  }

  lemma BeginAtStart(s: Limiter, hits: nat, flying: nat, limit: int, window: real, n: nat)
    requires AtStart(s, hits, flying) && hits < limit && flying < n && window > 0.0
    ensures AtStart(Step(s, Begin, limit, window, n), hits, flying + 1)
  {
    NothingToExpire(s.server, window);
    assert s.inFlight[s.counter := s.clock].Keys == s.inFlight.Keys + {s.counter};
  }

  lemma FinishAtStart(s: Limiter, hits: nat, flying: nat, limit: int, window: real, n: nat)
    requires AtStart(s, hits, flying) && flying > 0 && window > 0.0
    ensures AtStart(Step(s, Finish(s.counter - flying), limit, window, n), hits + 1, flying - 1)
  {
    InsertAdds(s.server.zset, Entry(0.0, s.counter - flying));
    ExpiryExceedsWindow(window);
    assert (s.inFlight - {s.counter - flying}).Keys == s.inFlight.Keys - {s.counter - flying};
  }

  lemma {:induction false} Reach(hits: nat, flying: nat, limit: int, window: real, n: nat)
      returns (actions: seq<Action>)
    requires hits < limit && flying <= n && n >= 1 && window > 0.0
    ensures AtStart(Run(actions, limit, window, n), hits, flying)
    decreases hits, flying
  {
    if hits == 0 && flying == 0 {
      actions := [];
    } else {
      var a;
      if flying > 0 {
        actions := Reach(hits, flying - 1, limit, window, n);
        BeginAtStart(Run(actions, limit, window, n), hits, flying - 1, limit, window, n);
        a := Begin;
      } else {
        actions := Reach(hits - 1, 1, limit, window, n);
        FinishAtStart(Run(actions, limit, window, n), hits - 1, 1, limit, window, n);
        a := Finish(Run(actions, limit, window, n).counter - 1);
      }
      assert (actions + [a])[..|actions|] == actions;
      actions := actions + [a];
    }
  }

  lemma {:induction false} Land(before: seq<Action>, hits: nat, flying: nat, limit: int, window: real, n: nat)
      returns (actions: seq<Action>)
    requires AtStart(Run(before, limit, window, n), hits, flying) && window > 0.0
    ensures AtStart(Run(actions, limit, window, n), hits + flying, 0)
    decreases flying
  {
    if flying == 0 {
      actions := before;
    } else {
      var s := Run(before, limit, window, n);
      FinishAtStart(s, hits, flying, limit, window, n);
      var a := Finish(s.counter - flying);
      assert (before + [a])[..|before|] == before;
      actions := Land(before + [a], hits + 1, flying - 1, limit, window, n);
    }
  }

  /** The bound cannot be improved: some interleaving really stores limit + n - 1 hits in one window. */
  lemma BoundIsReached(limit: int, window: real, n: nat) returns (actions: seq<Action>)
    requires limit >= 1 && n >= 1 && window > 0.0
    ensures |Run(actions, limit, window, n).server.zset| == limit + n - 1
  {
    actions := Reach(limit - 1, n, limit, window, n);
    actions := Land(actions, limit - 1, n, limit, window, n);
  }

  /** A stored key outlives the window by a second, less what is cut off below a millisecond; then it is gone. */
  lemma KeyLivesOneSecondMore(s: Server, member: nat, score: real, window: real, now: real, later: real)
    requires window >= 0.0
    ensures var stored := AddPhase(s, member, score, window, now);
      && (later <= now + window + 0.999 ==> Expire(stored, later) == stored)
      && (later >= now + window + 1.0 ==> Expire(stored, later) == Server([], None))
      && (Expire(stored, later) == Server([], None) <==> later >= stored.expiresAt.value)
  {
    InsertAdds(Expire(s, now).zset, Entry(score, member));
  }
}
