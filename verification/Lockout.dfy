/** The login lockout of app/modules/auth/service.py, over every serial run with a clock that does not run backwards. */
module Lockout {
  import opened Prelude
  import opened Auth
  import Sessions
  import Windows

  /** How many failures it takes to lock: a limit below one locks at the first. */
  function Tries(cfg: Config): nat {
    if cfg.maxFailed < 1 then 1 else cfg.maxFailed
  }

  ghost predicate CountersOk(s: Store, cfg: Config) {
    forall u | u in s.users :: 0 <= s.users[u].failedCount < Tries(cfg)
  }

  /** The stored counter stays below the limit. */
  lemma {:induction false} CounterStaysBelowLimit(reqs: seq<Request>, cfg: Config)
    ensures CountersOk(Run(Empty, reqs, cfg), cfg)
  {
    if reqs != [] {
      CounterStaysBelowLimit(reqs[..|reqs| - 1], cfg);
      ServeKeepsCounters(Run(Empty, reqs[..|reqs| - 1], cfg), reqs[|reqs| - 1], cfg);
    }
  }

  lemma ServeKeepsCounters(s: Store, req: Request, cfg: Config)
    requires CountersOk(s, cfg)
    ensures CountersOk(Serve(s, req, cfg), cfg)
  {
  }

  /** Requests in the order served, on one clock. */
  ghost predicate Clocked(reqs: seq<Request>) {
    forall i, j | 0 <= i < j < |reqs| :: reqs[i].at <= reqs[j].at
  }

  predicate FailsFor(s: Store, req: Request, user: Id) {
    FailsPassword(s, req.op, req.at) && req.op.who == Some(user)
  }

  /** The times at which a password check for this user failed. */
  ghost function FailureTimes(s: Store, reqs: seq<Request>, cfg: Config, user: Id): seq<real> {
    if reqs == [] then []
    else
      var init, req := reqs[..|reqs| - 1], reqs[|reqs| - 1];
      FailureTimes(s, init, cfg, user) + if FailsFor(Run(s, init, cfg), req, user) then [req.at] else []
  }

  /** A success of this user's: a login, a reset or a password change clears the counter and the lock. */
  predicate Clears(s: Store, req: Request, cfg: Config, user: Id) {
    Succeeds(s, req, cfg) && match req.op
      case Login(who, _) => who == Some(user)
      case ConfirmReset(grant, _) => s.grants[grant].user == user
      case ChangePassword(u, _, _) => u == user
      case _ => false
  }

  ghost predicate NeverCleared(s: Store, reqs: seq<Request>, cfg: Config, user: Id) {
    forall i | 0 <= i < |reqs| :: !Clears(Run(s, reqs[..i], cfg), reqs[i], cfg, user)
  }

  /** The failures since the last lock are the ones counted; that lock, if any, is still recorded. */
  ghost predicate Tracks(u: User, times: seq<real>, cfg: Config) {
    && 0 <= u.failedCount < Tries(cfg)
    && (u.failedCount < |times| ==>
          u.lockedUntil.Some? && u.lockedUntil.value >= times[|times| - 1 - u.failedCount] + cfg.lockout)
  }

  /** One more failure is at least a lockout later than the one Tries places before it. */
  lemma FailureIsSpaced(u: User, times: seq<real>, cfg: Config, at: real)
    requires Tracks(u, times, cfg) && !Locked(u, at)
    requires Windows.Sorted(times) && Windows.Spaced(times, Tries(cfg), cfg.lockout)
    requires times != [] ==> times[|times| - 1] <= at
    ensures Windows.Sorted(times + [at]) && Windows.Spaced(times + [at], Tries(cfg), cfg.lockout)
    ensures Tracks(CountFailure(u, cfg, at), times + [at], cfg)
  {
    var n, more := Tries(cfg), times + [at];
    forall i, j | 0 <= i && i + n <= j < |more| ensures more[i] + cfg.lockout <= more[j] {
      if j == |times| {
        var locked := |times| - 1 - u.failedCount;
        assert times[i] <= times[locked];
      }
    }
  }

  predicate SameLock(a: User, b: User) {
    a.failedCount == b.failedCount && a.lockedUntil == b.lockedUntil
  }

  /** Any other request that does not clear the user leaves counter and lock alone. */
  lemma OthersLeaveLock(s: Store, req: Request, cfg: Config, user: Id)
    requires user in s.users && user < s.nextId
    requires !Clears(s, req, cfg, user)
    ensures var after := Serve(s, req, cfg);
      && user in after.users && user < after.nextId
      && (if FailsFor(s, req, user) then after.users[user] == CountFailure(s.users[user], cfg, req.at)
          else SameLock(after.users[user], s.users[user]))
  {
  }

  /** The failures so far, as the user's row and the clock see them. */
  ghost predicate Paced(s: Store, user: Id, times: seq<real>, cfg: Config) {
    && user in s.users && user < s.nextId && Tracks(s.users[user], times, cfg)
    && Windows.Sorted(times) && Windows.Spaced(times, Tries(cfg), cfg.lockout)
  }

  lemma ServeKeepsPace(s: Store, req: Request, cfg: Config, user: Id, times: seq<real>)
    requires Paced(s, user, times, cfg) && !Clears(s, req, cfg, user)
    requires times != [] ==> times[|times| - 1] <= req.at
    ensures Paced(Serve(s, req, cfg), user, times + if FailsFor(s, req, user) then [req.at] else [], cfg)
  {
    OthersLeaveLock(s, req, cfg, user);
    if FailsFor(s, req, user) {
      FailureIsSpaced(s.users[user], times, cfg, req.at);
    } else {
      assert times + [] == times;
    }
  }

  lemma NeverClearedBefore(s: Store, reqs: seq<Request>, cfg: Config, user: Id)
    requires reqs != [] && NeverCleared(s, reqs, cfg, user)
    ensures NeverCleared(s, reqs[..|reqs| - 1], cfg, user)
    ensures !Clears(Run(s, reqs[..|reqs| - 1], cfg), reqs[|reqs| - 1], cfg, user)
  {
    var init := reqs[..|reqs| - 1];
    forall i | 0 <= i < |init| ensures !Clears(Run(s, init[..i], cfg), init[i], cfg, user) {
      assert init[..i] == reqs[..i];
    }
    assert !Clears(Run(s, reqs[..|init|], cfg), reqs[|init|], cfg, user);
  }

  lemma {:induction false} FailuresAreNotLater(s: Store, reqs: seq<Request>, cfg: Config, user: Id, at: real)
    requires forall i | 0 <= i < |reqs| :: reqs[i].at <= at
    ensures var times := FailureTimes(s, reqs, cfg, user); times != [] ==> times[|times| - 1] <= at
  {
    if reqs != [] { FailuresAreNotLater(s, reqs[..|reqs| - 1], cfg, user, at); }
  }

  lemma {:induction false} FailuresArePaced(s: Store, reqs: seq<Request>, cfg: Config, user: Id)
    requires user in s.users && user < s.nextId && CountersOk(s, cfg)
    requires Clocked(reqs) && NeverCleared(s, reqs, cfg, user)
    ensures Paced(Run(s, reqs, cfg), user, FailureTimes(s, reqs, cfg, user), cfg)
  {
    if reqs != [] {
      var init, req := reqs[..|reqs| - 1], reqs[|reqs| - 1];
      NeverClearedBefore(s, reqs, cfg, user);
      FailuresArePaced(s, init, cfg, user);
      FailuresAreNotLater(s, init, cfg, user, req.at);
      ServeKeepsPace(Run(s, init, cfg), req, cfg, user, FailureTimes(s, init, cfg, user));
    }
  }

  /**
   The lockout bound: from any reachable state on, as long as the user neither
   logs in nor resets or changes the password, any half-open window of the
   lockout length contains at most the configured number of failed checks.
   */
  lemma LockoutBound(earlier: seq<Request>, reqs: seq<Request>, cfg: Config, user: Id, start: real)
    requires user in Run(Empty, earlier, cfg).users
    requires Clocked(reqs) && NeverCleared(Run(Empty, earlier, cfg), reqs, cfg, user)
    ensures var failures := FailureTimes(Run(Empty, earlier, cfg), reqs, cfg, user);
      Windows.CountIn(failures, start, start + cfg.lockout) <= Tries(cfg)
  {
    var s := Run(Empty, earlier, cfg);
    CounterStaysBelowLimit(earlier, cfg);
    Sessions.RunExtends(Empty, earlier, cfg);
    FailuresArePaced(s, reqs, cfg, user);
    Windows.WindowBound(FailureTimes(s, reqs, cfg, user), Tries(cfg), cfg.lockout, start);
  }
}
