/**
 Accounts, rotating refresh tokens, reset grants and the login lockout of
 app/modules/auth/service.py. A request writes in two scopes: its own
 transaction, rolled back when it ends in an error, and bookkeeping that is
 committed independently and survives.
 */
module Auth {
  import opened Prelude

  type Id = nat

  datatype Status = INVITED | ACTIVE | SUSPENDED | DISABLED

  // Hashing is a one-to-one function of the password, so the password stands for its hash.
  datatype User = User(password: Option<string>, status: Status, deleted: bool, failedCount: int,
                       lockedUntil: Option<real>)

  // A row is found by the digest of the token presented; digests are distinct, so its id stands for it.
  datatype Token = Token(user: Id, family: Id, expiresAt: real, rotatedAt: Option<real>, revokedAt: Option<real>)

  datatype Grant = Grant(user: Id, expiresAt: real, consumedAt: Option<real>)

  datatype Store = Store(users: map<Id, User>, tokens: map<Id, Token>, grants: map<Id, Grant>, nextId: Id)

  datatype Config = Config(maxFailed: int, lockout: real, refreshTtl: real)

  const RESET_TTL := 1800.0

  datatype Error = AuthenticationError | AccountInactiveError

  datatype Op =
    | Login(who: Option<Id>, password: string)
    | Refresh(token: Id)
    | Logout(token: Id)
    | RequestReset(who: Option<Id>)
    | ConfirmReset(grant: Id, newPassword: string)
    | ChangePassword(user: Id, currentPassword: string, newPassword: string)
    | AddUser(initialPassword: Option<string>)
    | SetStatus(user: Id, status: Status)
    | DeleteUser(user: Id)

  datatype Request = Request(op: Op, at: real)

  /** What a request leaves committed at once, and what its own transaction would commit. */
  datatype Outcome = Outcome(durable: Store, result: Result<Store, Error>)

  // ------------------------------------------------------------------
  // Specification
  // ------------------------------------------------------------------

  predicate Known(s: Store, who: Option<Id>) {
    who.Some? && who.value in s.users && !s.users[who.value].deleted
  }

  predicate Locked(u: User, at: real) {
    u.lockedUntil.Some? && u.lockedUntil.value > at
  }

  /** The login that reaches the password check and fails it. */
  predicate FailsPassword(s: Store, op: Op, at: real) {
    && op.Login? && Known(s, op.who)
    && var u := s.users[op.who.value];
      !Locked(u, at) && u.status == ACTIVE && u.password != Some(op.password)
  }

  function CountFailure(u: User, cfg: Config, at: real): User {
    if u.failedCount + 1 >= cfg.maxFailed
    then u.(failedCount := 0, lockedUntil := Some(at + cfg.lockout))
    else u.(failedCount := u.failedCount + 1)
  }

  function Cleared(u: User): User {
    u.(failedCount := 0, lockedUntil := None)
  }

  function Mint(s: Store, user: Id, family: Id, cfg: Config, at: real): Store {
    s.(tokens := s.tokens[s.nextId := Token(user, family, at + cfg.refreshTtl, None, None)], nextId := s.nextId + 1)
  }

  function RevokeFamily(tokens: map<Id, Token>, family: Id, at: real): map<Id, Token> {
    map t | t in tokens :: if tokens[t].family == family then tokens[t].(revokedAt := Some(at)) else tokens[t]
  }

  function RevokeUser(tokens: map<Id, Token>, user: Id, at: real): map<Id, Token> {
    map t | t in tokens ::
      if tokens[t].user == user && tokens[t].revokedAt.None? then tokens[t].(revokedAt := Some(at)) else tokens[t]
  }

  function ConsumeAll(grants: map<Id, Grant>, user: Id, at: real): map<Id, Grant> {
    map g | g in grants ::
      if grants[g].user == user && grants[g].consumedAt.None? then grants[g].(consumedAt := Some(at)) else grants[g]
  }

  function LoginOutcome(s: Store, op: Op, cfg: Config, at: real): Outcome
    requires op.Login?
  {
    if !Known(s, op.who) then Outcome(s, Err(AuthenticationError))
    else
      var id := op.who.value;
      var u := s.users[id];
      if Locked(u, at) then Outcome(s, Err(AuthenticationError))
      else if u.status != ACTIVE then Outcome(s, Err(AccountInactiveError))
      else if u.password != Some(op.password)
      then Outcome(s.(users := s.users[id := CountFailure(u, cfg, at)]), Err(AuthenticationError))
      else
        var s' := s.(users := s.users[id := Cleared(u)], nextId := s.nextId + 1);
        Outcome(s, Ok(Mint(s', id, s.nextId, cfg, at)))
  }

  function RefreshOutcome(s: Store, token: Id, cfg: Config, at: real): Outcome {
    if token !in s.tokens then Outcome(s, Err(AuthenticationError))
    else
      var t := s.tokens[token];
      if t.revokedAt.Some? || t.rotatedAt.Some?
      then Outcome(s.(tokens := RevokeFamily(s.tokens, t.family, at)), Err(AuthenticationError))
      else if t.expiresAt <= at
      then Outcome(s.(tokens := s.tokens[token := t.(revokedAt := Some(at))]), Err(AuthenticationError))
      else if !Known(s, Some(t.user))
      then Outcome(s.(tokens := RevokeFamily(s.tokens, t.family, at)), Err(AuthenticationError))
      else if s.users[t.user].status != ACTIVE then Outcome(s, Err(AccountInactiveError))
      else Outcome(s, Ok(Mint(s.(tokens := s.tokens[token := t.(rotatedAt := Some(at))]), t.user, t.family, cfg, at)))
  }

  function LogoutOutcome(s: Store, token: Id, at: real): Outcome {
    if token !in s.tokens then Outcome(s, Ok(s))
    else Outcome(s, Ok(s.(tokens := s.tokens[token := s.tokens[token].(revokedAt := Some(at))])))
  }

  function RequestResetOutcome(s: Store, who: Option<Id>, at: real): Outcome {
    if !Known(s, who) || s.users[who.value].status != ACTIVE then Outcome(s, Ok(s))
    else
      Outcome(s, Ok(s.(grants := s.grants[s.nextId := Grant(who.value, at + RESET_TTL, None)], nextId := s.nextId + 1)))
  }

  function ConfirmResetOutcome(s: Store, grant: Id, newPassword: string, at: real): Outcome {
    if grant !in s.grants || s.grants[grant].consumedAt.Some? || s.grants[grant].expiresAt <= at
    then Outcome(s, Err(AuthenticationError))
    else
      var user := s.grants[grant].user;
      if !Known(s, Some(user)) then Outcome(s, Err(AuthenticationError))
      else
        var u := Cleared(s.users[user]).(password := Some(newPassword), status := ACTIVE);
        Outcome(s, Ok(s.(users := s.users[user := u], grants := ConsumeAll(s.grants, user, at),
                         tokens := RevokeUser(s.tokens, user, at))))
  }

  function ChangePasswordOutcome(s: Store, user: Id, currentPassword: string, newPassword: string, at: real): Outcome {
    if user !in s.users || s.users[user].password != Some(currentPassword) then Outcome(s, Err(AuthenticationError))
    else
      var u := Cleared(s.users[user]).(password := Some(newPassword));
      Outcome(s, Ok(s.(users := s.users[user := u], tokens := RevokeUser(s.tokens, user, at))))
  }

  /** The account administration of app/modules/iam/users/service.py, as far as sessions see it. */
  function AdminOutcome(s: Store, op: Op): Outcome
    requires op.AddUser? || op.SetStatus? || op.DeleteUser?
  {
    match op
    case AddUser(password) =>
      var u := User(password, if password.Some? then ACTIVE else INVITED, false, 0, None);
      Outcome(s, Ok(s.(users := s.users[s.nextId := u], nextId := s.nextId + 1)))
    case SetStatus(user, status) =>
      if user !in s.users then Outcome(s, Ok(s))
      else Outcome(s, Ok(s.(users := s.users[user := s.users[user].(status := status)])))
    case DeleteUser(user) =>
      if user !in s.users then Outcome(s, Ok(s))
      else Outcome(s, Ok(s.(users := s.users[user := s.users[user].(deleted := true)])))
  }

  function Handle(s: Store, req: Request, cfg: Config): Outcome {
    match req.op
    case Login(_, _) => LoginOutcome(s, req.op, cfg, req.at)
    case Refresh(token) => RefreshOutcome(s, token, cfg, req.at)
    case Logout(token) => LogoutOutcome(s, token, req.at)
    case RequestReset(who) => RequestResetOutcome(s, who, req.at)
    case ConfirmReset(grant, newPassword) => ConfirmResetOutcome(s, grant, newPassword, req.at)
    case ChangePassword(user, currentPassword, newPassword) =>
      ChangePasswordOutcome(s, user, currentPassword, newPassword, req.at)
    case _ => AdminOutcome(s, req.op)
  }

  predicate Succeeds(s: Store, req: Request, cfg: Config) {
    Handle(s, req, cfg).result.Ok?
  }

  /** The committed state after a request: its own writes only if it succeeds. */
  function Serve(s: Store, req: Request, cfg: Config): Store {
    var o := Handle(s, req, cfg);
    if o.result.Ok? then o.result.value else o.durable
  }

  function Run(s: Store, reqs: seq<Request>, cfg: Config): Store {
    if reqs == [] then s else Serve(Run(s, reqs[..|reqs| - 1], cfg), reqs[|reqs| - 1], cfg)
  }

  const Empty := Store(map[], map[], map[], 0)

  /** A row-by-row update half done: the rows in rest still have their old value. */
  ghost predicate Partly<T>(current: map<Id, T>, before: map<Id, T>, after: map<Id, T>, rest: set<Id>) {
    && current.Keys == before.Keys == after.Keys && rest <= current.Keys
    && (forall k | k in rest :: current[k] == before[k])
    && (forall k | k in current && k !in rest :: current[k] == after[k])
  }

  // ------------------------------------------------------------------
  // The service
  // ------------------------------------------------------------------

  class AuthService {
    var db: Store     // committed
    var work: Store   // as the request's transaction sees and changes it
    const cfg: Config

    constructor (cfg: Config)
      ensures db == work == Empty && this.cfg == cfg
    {
      this.cfg := cfg;
      db, work := Empty, Empty;
    }

    ghost predicate Did(r: Result<(), Error>, o: Outcome)
      reads this
    {
      db == o.durable && match r
        case Ok(_) => o.result == Ok(work)
        case Err(e) => o.result == Err(e)
    }

    method Login(who: Option<Id>, password: string, at: real) returns (r: Result<(), Error>)
      requires work == db
      modifies this
      ensures Did(r, LoginOutcome(old(db), Op.Login(who, password), cfg, at))
    {
      if who.None? || who.value !in work.users || work.users[who.value].deleted {
        return Err(AuthenticationError);
      }
      var user := work.users[who.value];
      if user.lockedUntil.Some? && user.lockedUntil.value > at {
        return Err(AuthenticationError);
      }
      if user.status != ACTIVE {
        return Err(AccountInactiveError);
      }
      if user.password != Some(password) {
        RegisterFailure(who.value, at);
        return Err(AuthenticationError);
      }
      work := work.(users := work.users[who.value := user.(failedCount := 0, lockedUntil := None)]);
      var family := work.nextId;
      work := work.(nextId := work.nextId + 1);
      IssueToken(who.value, family, at);
      r := Ok(());
    }

    /** _register_failure, committed on its own. */
    method RegisterFailure(user: Id, at: real)
      requires user in db.users
      modifies this`db
      ensures db == old(db).(users := old(db).users[user := CountFailure(old(db).users[user], cfg, at)])
    {
      var row := db.users[user];
      row := row.(failedCount := row.failedCount + 1);
      if row.failedCount >= cfg.maxFailed {
        row := row.(lockedUntil := Some(at + cfg.lockout), failedCount := 0);
      }
      db := db.(users := db.users[user := row]);
    }

    method IssueToken(user: Id, family: Id, at: real)
      modifies this`work
      ensures work == Mint(old(work), user, family, cfg, at)
    {
      var token := Token(user, family, at + cfg.refreshTtl, None, None);
      work := work.(tokens := work.tokens[work.nextId := token], nextId := work.nextId + 1);
    }

    method Refresh(token: Id, at: real) returns (r: Result<(), Error>)
      requires work == db
      modifies this
      ensures Did(r, RefreshOutcome(old(db), token, cfg, at))
    {
      if token !in work.tokens {
        return Err(AuthenticationError);
      }
      var stored := work.tokens[token];
      if stored.revokedAt.Some? || stored.rotatedAt.Some? {
        RevokeFamilyDurable(stored.family, at);
        return Err(AuthenticationError);
      }
      if stored.expiresAt <= at {
        db := db.(tokens := db.tokens[token := db.tokens[token].(revokedAt := Some(at))]);
        return Err(AuthenticationError);
      }
      if stored.user !in work.users || work.users[stored.user].deleted {
        RevokeFamilyDurable(stored.family, at);
        return Err(AuthenticationError);
      }
      if work.users[stored.user].status != ACTIVE {
        return Err(AccountInactiveError);
      }
      work := work.(tokens := work.tokens[token := stored.(rotatedAt := Some(at))]);
      IssueToken(stored.user, stored.family, at);
      r := Ok(());
    }

    /** _revoke_family_durable, committed on its own. */
    method RevokeFamilyDurable(family: Id, at: real)
      modifies this`db
      ensures db == old(db).(tokens := RevokeFamily(old(db).tokens, family, at))
    {
      var rows := set t | t in db.tokens && db.tokens[t].family == family;
      while rows != {}
        invariant db == old(db).(tokens := db.tokens)
        invariant Partly(db.tokens, old(db).tokens, RevokeFamily(old(db).tokens, family, at), rows)
        invariant forall t | t in rows :: old(db).tokens[t].family == family
        decreases |rows|
      {
        var t :| t in rows;
        db := db.(tokens := db.tokens[t := db.tokens[t].(revokedAt := Some(at))]);
        rows := rows - {t};
      }
    }

    method Logout(token: Id, at: real) returns (r: Result<(), Error>)
      requires work == db
      modifies this
      ensures Did(r, LogoutOutcome(old(db), token, at))
    {
      if token in work.tokens {
        work := work.(tokens := work.tokens[token := work.tokens[token].(revokedAt := Some(at))]);
      }
      r := Ok(());
    }

    method RequestReset(who: Option<Id>, at: real) returns (r: Result<(), Error>)
      requires work == db
      modifies this
      ensures Did(r, RequestResetOutcome(old(db), who, at))
    {
      if who.Some? && who.value in work.users && !work.users[who.value].deleted
         && work.users[who.value].status == ACTIVE {
        var grant := Grant(who.value, at + RESET_TTL, None);
        work := work.(grants := work.grants[work.nextId := grant], nextId := work.nextId + 1);
      }
      r := Ok(());
    }

    method ConfirmReset(grant: Id, newPassword: string, at: real) returns (r: Result<(), Error>)
      requires work == db
      modifies this
      ensures Did(r, ConfirmResetOutcome(old(db), grant, newPassword, at))
    {
      if grant !in work.grants || work.grants[grant].consumedAt.Some? || work.grants[grant].expiresAt <= at {
        return Err(AuthenticationError);
      }
      var user := work.grants[grant].user;
      if user !in work.users || work.users[user].deleted {
        return Err(AuthenticationError);
      }
      var row := work.users[user].(password := Some(newPassword), status := ACTIVE);
      row := row.(failedCount := 0, lockedUntil := None);
      work := work.(users := work.users[user := row]);
      work := work.(grants := work.grants[grant := work.grants[grant].(consumedAt := Some(at))]);
      ConsumeOthers(user, grant, at);
      assert work.grants == ConsumeAll(old(db).grants, user, at);
      RevokeAllUserSessions(user, at);
      r := Ok(());
    }

    /** Every other unconsumed grant of the user; the one presented is consumed already. */
    method ConsumeOthers(user: Id, grant: Id, at: real)
      requires grant in work.grants && work.grants[grant].consumedAt.Some?
      modifies this`work
      ensures work == old(work).(grants := ConsumeAll(old(work).grants, user, at))
    {
      var rows := set g |
        g in work.grants && work.grants[g].user == user && work.grants[g].consumedAt.None? && g != grant;
      while rows != {}
        invariant work == old(work).(grants := work.grants)
        invariant Partly(work.grants, old(work).grants, ConsumeAll(old(work).grants, user, at), rows)
        invariant forall g | g in rows :: old(work).grants[g].user == user && old(work).grants[g].consumedAt.None?
        decreases |rows|
      {
        var g :| g in rows;
        work := work.(grants := work.grants[g := work.grants[g].(consumedAt := Some(at))]);
        rows := rows - {g};
      }
    }

    method RevokeAllUserSessions(user: Id, at: real)
      modifies this`work
      ensures work == old(work).(tokens := RevokeUser(old(work).tokens, user, at))
    {
      var rows := set t | t in work.tokens && work.tokens[t].user == user && work.tokens[t].revokedAt.None?;
      while rows != {}
        invariant work == old(work).(tokens := work.tokens)
        invariant Partly(work.tokens, old(work).tokens, RevokeUser(old(work).tokens, user, at), rows)
        invariant forall t | t in rows :: old(work).tokens[t].user == user && old(work).tokens[t].revokedAt.None?
        decreases |rows|
      {
        var t :| t in rows;
        work := work.(tokens := work.tokens[t := work.tokens[t].(revokedAt := Some(at))]);
        rows := rows - {t};
      }
    }

    method ChangePassword(user: Id, currentPassword: string, newPassword: string, at: real)
        returns (r: Result<(), Error>)
      requires work == db
      modifies this
      ensures Did(r, ChangePasswordOutcome(old(db), user, currentPassword, newPassword, at))
    {
      if user !in work.users || work.users[user].password != Some(currentPassword) {
        return Err(AuthenticationError);
      }
      var row := work.users[user].(password := Some(newPassword), failedCount := 0, lockedUntil := None);
      work := work.(users := work.users[user := row]);
      RevokeAllUserSessions(user, at);
      r := Ok(());
    }

    method Administer(op: Op) returns (r: Result<(), Error>)
      requires work == db && (op.AddUser? || op.SetStatus? || op.DeleteUser?)
      modifies this
      ensures Did(r, AdminOutcome(old(db), op))
    {
      match op {
      case AddUser(password) =>
        var u := User(password, if password.Some? then ACTIVE else INVITED, false, 0, None);
        work := work.(users := work.users[work.nextId := u], nextId := work.nextId + 1);
      case SetStatus(user, status) =>
        if user in work.users {
          work := work.(users := work.users[user := work.users[user].(status := status)]);
        }
      case DeleteUser(user) =>
        if user in work.users {
          work := work.(users := work.users[user := work.users[user].(deleted := true)]);
        }
      }
      r := Ok(());
    }

    /** get_db around a request: commit on a clean exit, roll back on an error. */
    method ServeRequest(req: Request) returns (r: Result<(), Error>)
      requires work == db
      modifies this
      ensures db == work == Serve(old(db), req, cfg)
      ensures r.Ok? <==> Succeeds(old(db), req, cfg)
    {
      match req.op {
      case Login(who, password) => r := Login(who, password, req.at);
      case Refresh(token) => r := Refresh(token, req.at);
      case Logout(token) => r := Logout(token, req.at);
      case RequestReset(who) => r := RequestReset(who, req.at);
      case ConfirmReset(grant, newPassword) => r := ConfirmReset(grant, newPassword, req.at);
      case ChangePassword(user, currentPassword, newPassword) =>
        r := ChangePassword(user, currentPassword, newPassword, req.at);
      case _ => r := Administer(req.op);
      }
      if r.Ok? {
        db := work;
      } else {
        work := db;
      }
    }
  }
}
