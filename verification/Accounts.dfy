/**
 When each request of app/modules/auth/service.py succeeds and what it leaves,
 with the comparisons of the service written out, and what one request makes of
 a later one.
 */
module Accounts {
  import opened Prelude
  import opened Auth
  import opened Sessions

  /** Nothing but this user, these tokens and these grants may differ. */
  ghost predicate OnlyTouches(a: Store, b: Store, users: set<Id>, tokens: set<Id>, grants: set<Id>) {
    && a.users.Keys <= b.users.Keys <= a.users.Keys + users
    && a.tokens.Keys <= b.tokens.Keys <= a.tokens.Keys + tokens
    && a.grants.Keys <= b.grants.Keys <= a.grants.Keys + grants
    && (forall u | u in a.users && u !in users :: b.users[u] == a.users[u])
    && (forall t | t in a.tokens && t !in tokens :: b.tokens[t] == a.tokens[t])
    && (forall g | g in a.grants && g !in grants :: b.grants[g] == a.grants[g])
  }

  /** Whoever is not deleted and ACTIVE. */
  predicate IsActive(s: Store, user: Id) {
    user in s.users && !s.users[user].deleted && s.users[user].status == ACTIVE
  }

  // ------------------------------------------------------------------
  // Login and lockout
  // ------------------------------------------------------------------

  lemma LoginSucceedsIff(s: Store, user: Id, password: string, at: real, cfg: Config)
    ensures !Succeeds(s, Request(Login(None, password), at), cfg)
    ensures Succeeds(s, Request(Login(Some(user), password), at), cfg)
       <==> && user in s.users && !s.users[user].deleted && s.users[user].status == ACTIVE
            && (s.users[user].lockedUntil.None? || s.users[user].lockedUntil.value <= at)
            && s.users[user].password == Some(password)
  {
  }

  /** A login starts a family of its own with one live token, and clears the failures. */
  lemma LoginLeaves(s: Store, user: Id, password: string, at: real, cfg: Config)
    requires WellFormed(s) && Succeeds(s, Request(Login(Some(user), password), at), cfg)
    ensures var after := Serve(s, Request(Login(Some(user), password), at), cfg);
      exists token: Id ::
        && token !in s.tokens && OnlyTouches(s, after, {user}, {token}, {})
        && token in after.tokens && after.tokens[token].user == user && Live(after.tokens[token])
        && after.tokens[token].expiresAt == at + cfg.refreshTtl
        && (forall t | t in s.tokens :: s.tokens[t].family != after.tokens[token].family)
        && after.users[user] == s.users[user].(failedCount := 0, lockedUntil := None)
  {
    var after := Serve(s, Request(Login(Some(user), password), at), cfg);
    var token := s.nextId + 1;
    assert token in after.tokens && after.tokens[token].family == s.nextId;
  }

  /** A wrong password against an open account is counted and changes nothing else. */
  lemma WrongPasswordLeaves(s: Store, user: Id, wrong: string, at: real, cfg: Config)
    requires IsActive(s, user) && s.users[user].password != Some(wrong)
    requires s.users[user].lockedUntil.None? || s.users[user].lockedUntil.value <= at
    ensures var after := Serve(s, Request(Login(Some(user), wrong), at), cfg);
      var u, u' := s.users[user], after.users[user];
      && after == s.(users := s.users[user := u'])
      && u' == u.(failedCount := u'.failedCount, lockedUntil := u'.lockedUntil)
      && (if u.failedCount + 1 >= cfg.maxFailed then u'.failedCount == 0 && u'.lockedUntil == Some(at + cfg.lockout)
          else u'.failedCount == u.failedCount + 1 && u'.lockedUntil == u.lockedUntil)
  {
  }

  /** Every other refused login changes nothing. */
  lemma RefusedLoginLeaves(s: Store, who: Option<Id>, password: string, at: real, cfg: Config)
    requires !Succeeds(s, Request(Login(who, password), at), cfg)
    requires who.None? || !IsActive(s, who.value)
      || (s.users[who.value].lockedUntil.Some? && s.users[who.value].lockedUntil.value > at)
    ensures Serve(s, Request(Login(who, password), at), cfg) == s
  {
  }

  /** How many wrong passwords at one moment leave the account in which state. */
  ghost function WrongLogins(s: Store, user: Id, wrong: string, at: real, cfg: Config, n: nat): Store {
    if n == 0 then s
    else Serve(WrongLogins(s, user, wrong, at, cfg, n - 1), Request(Login(Some(user), wrong), at), cfg)
  }

  lemma {:induction false} FailuresAreCounted(s: Store, user: Id, wrong: string, at: real, cfg: Config, n: nat)
    requires IsActive(s, user) && s.users[user].password != Some(wrong)
    requires s.users[user].failedCount == 0 && s.users[user].lockedUntil.None? && n < cfg.maxFailed
    ensures WrongLogins(s, user, wrong, at, cfg, n) == s.(users := s.users[user := s.users[user].(failedCount := n)])
  {
    if n == 0 {
      assert s.users[user := s.users[user].(failedCount := 0)] == s.users;
    } else {
      FailuresAreCounted(s, user, wrong, at, cfg, n - 1);
      var before := WrongLogins(s, user, wrong, at, cfg, n - 1);
      WrongPasswordLeaves(before, user, wrong, at, cfg);
      var counted := s.users[user].(failedCount := n);
      assert before.users[user := counted] == s.users[user := counted];
    }
  }

  /**
   Up to one failure short of the limit the right password still gets in; the
   next one locks, for exactly the lockout.
   */
  lemma LocksExactlyAtLimit(s: Store, user: Id, right: string, wrong: string, at: real, later: real, cfg: Config,
                            n: nat)
    requires IsActive(s, user) && s.users[user].password == Some(right) && wrong != right && at <= later
    requires s.users[user].failedCount == 0 && s.users[user].lockedUntil.None?
    requires n <= cfg.maxFailed && 1 <= cfg.maxFailed
    ensures Succeeds(WrongLogins(s, user, wrong, at, cfg, n), Request(Login(Some(user), right), later), cfg)
       <==> n < cfg.maxFailed || later >= at + cfg.lockout
  {
    if n < cfg.maxFailed {
      FailuresAreCounted(s, user, wrong, at, cfg, n);
    } else {
      FailuresAreCounted(s, user, wrong, at, cfg, n - 1);
      WrongPasswordLeaves(WrongLogins(s, user, wrong, at, cfg, n - 1), user, wrong, at, cfg);
    }
    LoginSucceedsIff(WrongLogins(s, user, wrong, at, cfg, n), user, right, later, cfg);
  }

  // ------------------------------------------------------------------
  // Refresh
  // ------------------------------------------------------------------

  lemma RefreshSucceedsIff(s: Store, token: Id, at: real, cfg: Config)
    ensures Succeeds(s, Request(Refresh(token), at), cfg)
       <==> && token in s.tokens && s.tokens[token].rotatedAt.None? && s.tokens[token].revokedAt.None?
            && at < s.tokens[token].expiresAt
            && s.tokens[token].user in s.users && !s.users[s.tokens[token].user].deleted
            && s.users[s.tokens[token].user].status == ACTIVE
  {
  }

  /** A refresh marks its token and adds one of the same session, good for another lifetime. */
  lemma RefreshLeaves(s: Store, token: Id, at: real, cfg: Config)
    requires WellFormed(s) && Succeeds(s, Request(Refresh(token), at), cfg)
    ensures var after := Serve(s, Request(Refresh(token), at), cfg);
      exists heir: Id ::
        && heir !in s.tokens && heir in after.tokens && OnlyTouches(s, after, {}, {token, heir}, {})
        && after.tokens[token] == s.tokens[token].(rotatedAt := Some(at))
        && after.tokens[heir].user == s.tokens[token].user && after.tokens[heir].family == s.tokens[token].family
        && after.tokens[heir].expiresAt == at + cfg.refreshTtl && Live(after.tokens[heir])
  {
    assert s.nextId in Serve(s, Request(Refresh(token), at), cfg).tokens;
  }

  /** An expired token that is presented is revoked for good although the request fails, and nothing else changes. */
  lemma ExpiredRefreshRevokes(s: Store, token: Id, at: real, cfg: Config, reqs: seq<Request>)
    requires WellFormed(s) && token in s.tokens && Live(s.tokens[token]) && s.tokens[token].expiresAt <= at
    ensures var served := Serve(s, Request(Refresh(token), at), cfg);
      && !Succeeds(s, Request(Refresh(token), at), cfg)
      && served == s.(tokens := s.tokens[token := s.tokens[token].(revokedAt := Some(at))])
      && token in Run(served, reqs, cfg).tokens && Run(served, reqs, cfg).tokens[token].revokedAt.Some?
  {
    ServeExtends(s, Request(Refresh(token), at), cfg);
    RunExtends(Serve(s, Request(Refresh(token), at), cfg), reqs, cfg);
  }

  /** So does one whose user is gone, with its whole family; for a user who is not ACTIVE nothing changes. */
  lemma RefreshWithoutUserLeaves(s: Store, token: Id, at: real, cfg: Config)
    requires token in s.tokens && Live(s.tokens[token]) && at < s.tokens[token].expiresAt
    requires !IsActive(s, s.tokens[token].user)
    ensures var served := Serve(s, Request(Refresh(token), at), cfg);
      var user, family := s.tokens[token].user, s.tokens[token].family;
      var gone := user !in s.users || s.users[user].deleted;
      && served == s.(tokens := served.tokens) && served.tokens.Keys == s.tokens.Keys
      && (forall t | t in s.tokens :: served.tokens[t]
            == if gone && s.tokens[t].family == family then s.tokens[t].(revokedAt := Some(at)) else s.tokens[t])
  {
  }

  lemma {:induction false} ExpiryIsKept(s: Store, reqs: seq<Request>, cfg: Config, token: Id)
    requires WellFormed(s) && token in s.tokens
    ensures token in Run(s, reqs, cfg).tokens && Run(s, reqs, cfg).tokens[token].expiresAt == s.tokens[token].expiresAt
  {
    RunExtends(s, reqs, cfg);
  }

  /** A token that a login or a refresh issues: it was not there before. */
  predicate Issues(s: Store, req: Request, cfg: Config, token: Id) {
    token !in s.tokens && token in Serve(s, req, cfg).tokens
  }

  /** A token issued at some time never succeeds a lifetime later or after that, whatever was served in between. */
  lemma TokensLapse(s: Store, req: Request, reqs: seq<Request>, cfg: Config, token: Id, at: real)
    requires WellFormed(s) && Issues(s, req, cfg, token) && at >= req.at + cfg.refreshTtl
    ensures (req.op.Login? || req.op.Refresh?) && Succeeds(s, req, cfg)
    ensures !Succeeds(Run(Serve(s, req, cfg), reqs, cfg), Request(Refresh(token), at), cfg)
  {
    if !(Succeeds(s, req, cfg) && (req.op.Login? || req.op.Refresh?)) {
      OthersKeepChains(s, req, cfg);
    }
    IssuedExpiry(s, req, cfg, token);
    ServeExtends(s, req, cfg);
    ExpiryIsKept(Serve(s, req, cfg), reqs, cfg, token);
    RefreshSucceedsIff(Run(Serve(s, req, cfg), reqs, cfg), token, at, cfg);
  }

  lemma IssuedExpiry(s: Store, req: Request, cfg: Config, token: Id)
    requires Issues(s, req, cfg, token) && (req.op.Login? || req.op.Refresh?)
    ensures var issued := Serve(s, req, cfg).tokens[token];
      issued.expiresAt == req.at + cfg.refreshTtl && Live(issued)
  {
  }

  /** Until then it does succeed if it is the next to be served and its user is still ACTIVE. */
  lemma IssuedTokenWorks(s: Store, req: Request, cfg: Config, token: Id, at: real)
    requires WellFormed(s) && Issues(s, req, cfg, token) && (req.op.Login? || req.op.Refresh?)
    ensures Succeeds(Serve(s, req, cfg), Request(Refresh(token), at), cfg) <==> at < req.at + cfg.refreshTtl
  {
    IssuedExpiry(s, req, cfg, token);
    IssuedToActive(s, req, cfg, token);
    RefreshSucceedsIff(Serve(s, req, cfg), token, at, cfg);
  }

  lemma IssuedToActive(s: Store, req: Request, cfg: Config, token: Id)
    requires Issues(s, req, cfg, token) && (req.op.Login? || req.op.Refresh?)
    ensures IsActive(Serve(s, req, cfg), Serve(s, req, cfg).tokens[token].user)
  {
  }

  // ------------------------------------------------------------------
  // Logout, password changes and resets
  // ------------------------------------------------------------------

  /** A logout always answers well and revokes the token presented, if there is one, and nothing else. */
  lemma LogoutLeaves(s: Store, token: Id, at: real, cfg: Config)
    ensures Succeeds(s, Request(Logout(token), at), cfg)
    ensures var after := Serve(s, Request(Logout(token), at), cfg);
      if token in s.tokens then after == s.(tokens := s.tokens[token := s.tokens[token].(revokedAt := Some(at))])
      else after == s
  {
  }

  lemma ChangePasswordSucceedsIff(s: Store, user: Id, current: string, new': string, at: real, cfg: Config)
    ensures Succeeds(s, Request(ChangePassword(user, current, new'), at), cfg)
       <==> user in s.users && s.users[user].password == Some(current)
  {
  }

  lemma ConfirmResetSucceedsIff(s: Store, grant: Id, password: string, at: real, cfg: Config)
    ensures Succeeds(s, Request(ConfirmReset(grant, password), at), cfg)
       <==> && grant in s.grants && s.grants[grant].consumedAt.None? && at < s.grants[grant].expiresAt
            && s.grants[grant].user in s.users && !s.users[s.grants[grant].user].deleted
  {
  }

  /** Refused, both leave everything as it was. */
  lemma RefusedPasswordLeaves(s: Store, req: Request, cfg: Config)
    requires (req.op.ChangePassword? || req.op.ConfirmReset?) && !Succeeds(s, req, cfg)
    ensures Serve(s, req, cfg) == s
  {
  }

  /**
   Either sets the password, clears the lockout and revokes the user's tokens
   that were not revoked; a reset also activates the account and consumes the
   user's grants. Nobody else's rows change.
   */
  lemma NewPasswordLeaves(s: Store, req: Request, cfg: Config, user: Id, password: string)
    requires Succeeds(s, req, cfg) && SetsPassword(s, req.op) == Some(user)
    requires match req.op
      case ConfirmReset(_, new') => new' == password
      case ChangePassword(_, _, new') => new' == password
      case _ => false
    ensures var after := Serve(s, req, cfg);
      && user in s.users && after.users == s.users[user := s.users[user].(
           password := Some(password), failedCount := 0, lockedUntil := None,
           status := if req.op.ConfirmReset? then ACTIVE else s.users[user].status)]
      && after.tokens.Keys == s.tokens.Keys && after.grants.Keys == s.grants.Keys && after.nextId == s.nextId
      && (forall t | t in s.tokens :: after.tokens[t]
            == if s.tokens[t].user == user && s.tokens[t].revokedAt.None?
               then s.tokens[t].(revokedAt := Some(req.at)) else s.tokens[t])
      && (forall g | g in s.grants :: after.grants[g]
            == if req.op.ConfirmReset? && s.grants[g].user == user && s.grants[g].consumedAt.None?
               then s.grants[g].(consumedAt := Some(req.at)) else s.grants[g])
  {
  }

  /** Afterwards exactly the new password logs in, at any time, as long as the account is live and ACTIVE. */
  lemma NewPasswordLogsIn(s: Store, req: Request, cfg: Config, user: Id, password: string, tried: string, at: real)
    requires Succeeds(s, req, cfg) && SetsPassword(s, req.op) == Some(user)
    requires match req.op
      case ConfirmReset(_, new') => new' == password
      case ChangePassword(_, _, new') => new' == password
      case _ => false
    ensures Succeeds(Serve(s, req, cfg), Request(Login(Some(user), tried), at), cfg)
       <==> tried == password && !s.users[user].deleted && (req.op.ConfirmReset? || s.users[user].status == ACTIVE)
  {
    NewPasswordLeaves(s, req, cfg, user, password);
    LoginSucceedsIff(Serve(s, req, cfg), user, tried, at, cfg);
  }

  /**
   A reset request always answers well; it adds one grant, of half an hour, for
   a live ACTIVE account and nothing else.
   */
  lemma RequestResetLeaves(s: Store, who: Option<Id>, at: real, cfg: Config)
    requires WellFormed(s)
    ensures Succeeds(s, Request(RequestReset(who), at), cfg)
    ensures var after := Serve(s, Request(RequestReset(who), at), cfg);
      if who.Some? && IsActive(s, who.value)
      then exists g: Id :: && g !in s.grants && g in after.grants && OnlyTouches(s, after, {}, {}, {g})
                           && after.grants[g] == Grant(who.value, at + 1800.0, None)
      else after == s
  {
    if who.Some? && IsActive(s, who.value) {
      assert s.nextId in Serve(s, Request(RequestReset(who), at), cfg).grants;
    }
  }

  lemma {:induction false} GrantExpiryIsKept(s: Store, reqs: seq<Request>, cfg: Config, grant: Id)
    requires WellFormed(s) && grant in s.grants
    ensures var after := Run(s, reqs, cfg);
      grant in after.grants && after.grants[grant].expiresAt == s.grants[grant].expiresAt
  {
    if reqs != [] {
      GrantExpiryIsKept(s, reqs[..|reqs| - 1], cfg, grant);
      RunExtends(s, reqs[..|reqs| - 1], cfg);
      ServeKeepsGrantExpiry(Run(s, reqs[..|reqs| - 1], cfg), reqs[|reqs| - 1], cfg, grant);
    }
  }

  lemma ServeKeepsGrantExpiry(s: Store, req: Request, cfg: Config, grant: Id)
    requires grant in s.grants && grant < s.nextId
    ensures var after := Serve(s, req, cfg);
      grant in after.grants && after.grants[grant].expiresAt == s.grants[grant].expiresAt
  {
  }

  /** A grant works right away and for half an hour; after that it never does, whatever was served in between. */
  lemma GrantLapses(s: Store, user: Id, at: real, grant: Id, reqs: seq<Request>, password: string, later: real,
                    cfg: Config)
    requires WellFormed(s) && IsActive(s, user)
    requires grant !in s.grants && grant in Serve(s, Request(RequestReset(Some(user)), at), cfg).grants
    ensures var after := Serve(s, Request(RequestReset(Some(user)), at), cfg);
      && (Succeeds(after, Request(ConfirmReset(grant, password), later), cfg) <==> later < at + 1800.0)
      && (later >= at + 1800.0 ==> !Succeeds(Run(after, reqs, cfg), Request(ConfirmReset(grant, password), later), cfg))
  {
    var after := Serve(s, Request(RequestReset(Some(user)), at), cfg);
    ConfirmResetSucceedsIff(after, grant, password, later, cfg);
    ServeExtends(s, Request(RequestReset(Some(user)), at), cfg);
    GrantExpiryIsKept(after, reqs, cfg, grant);
    ConfirmResetSucceedsIff(Run(after, reqs, cfg), grant, password, later, cfg);
  }

  // ------------------------------------------------------------------
  // Administration
  // ------------------------------------------------------------------

  /**
   An account that is suspended, disabled or deleted gets neither a login nor a
   refresh, until it is changed again.
   */
  lemma ClosedAccountIsRefused(s: Store, user: Id, op: Op, token: Id, password: string, at: real, cfg: Config)
    requires user in s.users
    requires op == DeleteUser(user) || (op.SetStatus? && op == SetStatus(user, op.status) && op.status != ACTIVE)
    ensures var closed := Serve(s, Request(op, at), cfg);
      && OnlyTouches(s, closed, {user}, {}, {})
      && !Succeeds(closed, Request(Login(Some(user), password), at), cfg)
      && (token in s.tokens && s.tokens[token].user == user ==> !Succeeds(closed, Request(Refresh(token), at), cfg))
  {
  }

  /** An account that is set ACTIVE again lets its password in, as far as its lock does. */
  lemma ReopenedAccountLogsIn(s: Store, user: Id, password: string, at: real, cfg: Config)
    requires user in s.users && !s.users[user].deleted
    ensures Succeeds(Serve(s, Request(SetStatus(user, ACTIVE), at), cfg), Request(Login(Some(user), password), at), cfg)
       <==> && s.users[user].password == Some(password)
            && (s.users[user].lockedUntil.None? || s.users[user].lockedUntil.value <= at)
  {
  }

  /** A new account touches no other; given a password it is ACTIVE, else INVITED. */
  lemma AddUserLeaves(s: Store, initial: Option<string>, at: real, cfg: Config) returns (user: Id)
    requires WellFormed(s)
    ensures var after := Serve(s, Request(AddUser(initial), at), cfg);
      && user !in s.users && user in after.users && OnlyTouches(s, after, {user}, {}, {})
      && after.users[user] == User(initial, if initial.Some? then ACTIVE else INVITED, false, 0, None)
  {
    user := s.nextId;
  }

  /** So exactly the password it was given, if any, logs in. */
  lemma AddedUserLogsIn(s: Store, initial: Option<string>, at: real, user: Id, password: string, later: real,
                        cfg: Config)
    requires WellFormed(s) && user !in s.users && user in Serve(s, Request(AddUser(initial), at), cfg).users
    ensures Succeeds(Serve(s, Request(AddUser(initial), at), cfg), Request(Login(Some(user), password), later), cfg)
       <==> initial == Some(password)
  {
    var added := AddUserLeaves(s, initial, at, cfg);
    LoginSucceedsIff(Serve(s, Request(AddUser(initial), at), cfg), user, password, later, cfg);
  }
}
