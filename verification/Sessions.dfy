/** What the authentication service guarantees about sessions, over every serial run of requests. */
module Sessions {
  import opened Prelude
  import opened Auth

  // ------------------------------------------------------------------
  // What no request undoes
  // ------------------------------------------------------------------

  ghost predicate WellFormed(s: Store) {
    && (forall u | u in s.users :: u < s.nextId)
    && (forall g | g in s.grants :: g < s.nextId)
    && (forall t | t in s.tokens :: t < s.nextId && s.tokens[t].family < s.nextId)
  }

  /** A token keeps its owner, family and expiry; a rotation or a revocation is for good. */
  predicate Later(a: Token, b: Token) {
    && a.user == b.user && a.family == b.family && a.expiresAt == b.expiresAt
    && (a.rotatedAt.Some? ==> b.rotatedAt == a.rotatedAt)
    && (a.revokedAt.Some? ==> b.revokedAt.Some?)
  }

  ghost predicate Extends(before: Store, after: Store) {
    && before.nextId <= after.nextId
    && (forall t | t in before.tokens :: t in after.tokens && Later(before.tokens[t], after.tokens[t]))
    && (forall g | g in before.grants :: g in after.grants && after.grants[g].user == before.grants[g].user
          && (before.grants[g].consumedAt.Some? ==> after.grants[g].consumedAt.Some?))
  }

  lemma ServeExtends(s: Store, req: Request, cfg: Config)
    requires WellFormed(s)
    ensures WellFormed(Serve(s, req, cfg)) && Extends(s, Serve(s, req, cfg))
  {
    match req.op
    case Login(_, _) => LoginExtends(s, req, cfg);
    case Refresh(_) => RefreshExtends(s, req, cfg);
    case Logout(_) =>
    case RequestReset(_) =>
    case ConfirmReset(_, _) => ResetExtends(s, req, cfg);
    case ChangePassword(_, _, _) =>
    case _ => AdminExtends(s, req, cfg);
  }

  lemma LoginExtends(s: Store, req: Request, cfg: Config)
    requires WellFormed(s) && req.op.Login?
    ensures WellFormed(Serve(s, req, cfg)) && Extends(s, Serve(s, req, cfg))
  {
  }

  lemma RefreshExtends(s: Store, req: Request, cfg: Config)
    requires WellFormed(s) && req.op.Refresh?
    ensures WellFormed(Serve(s, req, cfg)) && Extends(s, Serve(s, req, cfg))
  {
    if Succeeds(s, req, cfg) {
      RotateExtends(s, req.op.token, cfg, req.at);
    } else if req.op.token in s.tokens {
      RevokeExtends(s, req.op.token, req.at);
    }
  }

  lemma RotateExtends(s: Store, token: Id, cfg: Config, at: real)
    requires WellFormed(s) && token in s.tokens && s.tokens[token].rotatedAt.None?
    ensures var t := s.tokens[token];
      var after := Mint(s.(tokens := s.tokens[token := t.(rotatedAt := Some(at))]), t.user, t.family, cfg, at);
      WellFormed(after) && Extends(s, after)
  {
  }

  lemma RevokeExtends(s: Store, token: Id, at: real)
    requires WellFormed(s) && token in s.tokens
    ensures var one := s.(tokens := s.tokens[token := s.tokens[token].(revokedAt := Some(at))]);
      WellFormed(one) && Extends(s, one)
    ensures var all := s.(tokens := RevokeFamily(s.tokens, s.tokens[token].family, at));
      WellFormed(all) && Extends(s, all)
  {
  }

  lemma ResetExtends(s: Store, req: Request, cfg: Config)
    requires WellFormed(s) && req.op.ConfirmReset?
    ensures WellFormed(Serve(s, req, cfg)) && Extends(s, Serve(s, req, cfg))
  {
  }

  lemma AdminExtends(s: Store, req: Request, cfg: Config)
    requires WellFormed(s) && (req.op.AddUser? || req.op.SetStatus? || req.op.DeleteUser?)
    ensures WellFormed(Serve(s, req, cfg)) && Extends(s, Serve(s, req, cfg))
  {
  }

  lemma {:induction false} RunExtends(s: Store, reqs: seq<Request>, cfg: Config)
    requires WellFormed(s)
    ensures WellFormed(Run(s, reqs, cfg)) && Extends(s, Run(s, reqs, cfg))
  {
    if reqs != [] {
      var before := Run(s, reqs[..|reqs| - 1], cfg);
      RunExtends(s, reqs[..|reqs| - 1], cfg);
      ServeExtends(before, reqs[|reqs| - 1], cfg);
    }
  }

  // ------------------------------------------------------------------
  // Families are rotation chains
  // ------------------------------------------------------------------

  /** The token each rotated token was exchanged for, given those of before the run. */
  ghost function Heirs(s: Store, heirs: map<Id, Id>, reqs: seq<Request>, cfg: Config): map<Id, Id> {
    if reqs == [] then heirs
    else
      var init, req := reqs[..|reqs| - 1], reqs[|reqs| - 1];
      var before := Run(s, init, cfg);
      if req.op.Refresh? && Succeeds(before, req, cfg)
      then Heirs(s, heirs, init, cfg)[req.op.token := before.nextId]
      else Heirs(s, heirs, init, cfg)
  }

  predicate Kin(s: Store, t: Id, u: Id) {
    t in s.tokens && u in s.tokens && s.tokens[t].family == s.tokens[u].family
  }

  ghost predicate Newest(s: Store, t: Id) {
    forall u: Id | Kin(s, t, u) :: u <= t
  }

  /** c is the next token of t's family after t, and of the same user. */
  ghost predicate Follows(s: Store, t: Id, c: Id) {
    && Kin(s, t, c) && s.tokens[t].user == s.tokens[c].user && t < c
    && (forall u: Id | Kin(s, t, u) :: u <= t || c <= u)
  }

  /** In issue order, each token of a family was exchanged for the next one, and the newest for none yet. */
  ghost predicate Chained(s: Store, heirs: map<Id, Id>) {
    && WellFormed(s)
    && heirs.Keys <= s.tokens.Keys
    && (forall t | t in s.tokens :: s.tokens[t].rotatedAt.Some? <==> t in heirs)
    && (forall t | t in heirs :: Follows(s, t, heirs[t]))
    && (forall t | t in s.tokens && t !in heirs :: Newest(s, t))
  }

  ghost predicate SameChains(a: Store, b: Store) {
    && a.tokens.Keys == b.tokens.Keys && a.nextId <= b.nextId
    && forall t | t in a.tokens :: a.tokens[t].family == b.tokens[t].family && a.tokens[t].user == b.tokens[t].user
         && a.tokens[t].rotatedAt == b.tokens[t].rotatedAt
  }

  lemma SameChainsKeep(a: Store, b: Store, heirs: map<Id, Id>)
    requires Chained(a, heirs) && SameChains(a, b) && WellFormed(b)
    ensures Chained(b, heirs)
  {
    forall t | t in heirs ensures Follows(b, t, heirs[t]) {
      assert Follows(a, t, heirs[t]);
      forall u: Id | Kin(b, t, u) ensures u <= t || heirs[t] <= u { assert Kin(a, t, u); }
    }
    forall t | t in b.tokens && t !in heirs ensures Newest(b, t) {
      forall u: Id | Kin(b, t, u) ensures u <= t { assert Kin(a, t, u); }
    }
  }

  /** A token minted into a family nobody used starts a chain. */
  lemma MintStartsChain(s: Store, user: Id, family: Id, cfg: Config, at: real, heirs: map<Id, Id>)
    requires Chained(s, heirs) && family < s.nextId
    requires forall t | t in s.tokens :: s.tokens[t].family != family
    ensures Chained(Mint(s, user, family, cfg, at), heirs)
  {
    var s' := Mint(s, user, family, cfg, at);
    forall t | t in heirs ensures Follows(s', t, heirs[t]) {
      assert Follows(s, t, heirs[t]);
      forall u: Id | Kin(s', t, u) ensures u <= t || heirs[t] <= u { assert Kin(s, t, u); }
    }
    forall t | t in s'.tokens && t !in heirs ensures Newest(s', t) {
      if t in s.tokens {
        assert Newest(s, t);
        forall u: Id | Kin(s', t, u) ensures u <= t { assert Kin(s, t, u); }
      }
    }
  }

  /** Rotating the newest token of a family extends its chain by one. */
  lemma RotateExtendsChain(s: Store, t: Id, cfg: Config, at: real, heirs: map<Id, Id>)
    requires Chained(s, heirs) && t in s.tokens && s.tokens[t].rotatedAt.None?
    ensures var row := s.tokens[t];
      Chained(Mint(s.(tokens := s.tokens[t := row.(rotatedAt := Some(at))]), row.user, row.family, cfg, at),
              heirs[t := s.nextId])
  {
    var row := s.tokens[t];
    var s' := Mint(s.(tokens := s.tokens[t := row.(rotatedAt := Some(at))]), row.user, row.family, cfg, at);
    var heirs' := heirs[t := s.nextId];
    assert Newest(s, t);
    forall u | u in heirs' ensures Follows(s', u, heirs'[u]) {
      if u == t {
        forall v: Id | Kin(s', t, v) ensures v <= t || s.nextId <= v { assert v == s.nextId || Kin(s, t, v); }
      } else {
        assert Follows(s, u, heirs[u]);
        forall v: Id | Kin(s', u, v) ensures v <= u || heirs[u] <= v { assert v == s.nextId || Kin(s, u, v); }
      }
    }
    forall u | u in s'.tokens && u !in heirs' ensures Newest(s', u) {
      if u in s.tokens {
        assert Newest(s, u);
        if Kin(s, t, u) { assert Kin(s, u, t); }
        forall v: Id | Kin(s', u, v) ensures v <= u { assert Kin(s, u, v); }
      }
    }
  }

  lemma ServeKeepsChains(s: Store, req: Request, cfg: Config, heirs: map<Id, Id>)
    requires Chained(s, heirs)
    ensures Chained(Serve(s, req, cfg),
                    if req.op.Refresh? && Succeeds(s, req, cfg) then heirs[req.op.token := s.nextId] else heirs)
  {
    ServeExtends(s, req, cfg);
    var after := Serve(s, req, cfg);
    if Succeeds(s, req, cfg) && req.op.Refresh? {
      RotateExtendsChain(s, req.op.token, cfg, req.at, heirs);
    } else if Succeeds(s, req, cfg) && req.op.Login? {
      var id := req.op.who.value;
      var s' := s.(users := s.users[id := Cleared(s.users[id])], nextId := s.nextId + 1);
      SameChainsKeep(s, s', heirs);
      MintStartsChain(s', id, s.nextId, cfg, req.at, heirs);
    } else {
      OthersKeepChains(s, req, cfg);
      SameChainsKeep(s, after, heirs);
    }
  }

  /** Everything but a login or refresh that succeeds issues no token and rotates none. */
  lemma OthersKeepChains(s: Store, req: Request, cfg: Config)
    requires Succeeds(s, req, cfg) ==> !req.op.Login? && !req.op.Refresh?
    ensures SameChains(s, Serve(s, req, cfg))
  {
  }

  lemma {:induction false} RunKeepsChains(s: Store, heirs: map<Id, Id>, reqs: seq<Request>, cfg: Config)
    requires Chained(s, heirs)
    ensures Chained(Run(s, reqs, cfg), Heirs(s, heirs, reqs, cfg))
  {
    if reqs != [] {
      var init := reqs[..|reqs| - 1];
      RunKeepsChains(s, heirs, init, cfg);
      ServeKeepsChains(Run(s, init, cfg), reqs[|reqs| - 1], cfg, Heirs(s, heirs, init, cfg));
    }
  }

  predicate Live(t: Token) {
    t.rotatedAt.None? && t.revokedAt.None?
  }

  /**
   In every serial run each session family is one linear rotation chain: a
   token has been exchanged exactly when it is not the family's newest, always
   for the next one issued; so a family has at most one live token.
   */
  lemma FamiliesAreChains(reqs: seq<Request>, cfg: Config, t: Id, u: Id)
    ensures var s := Run(Empty, reqs, cfg);
      var heirs := Heirs(Empty, map[], reqs, cfg);
      && (t in s.tokens ==> (s.tokens[t].rotatedAt.None? <==> Newest(s, t)))
      && (t in s.tokens && s.tokens[t].rotatedAt.Some? ==> t in heirs && Follows(s, t, heirs[t]))
      && (Kin(s, t, u) && Live(s.tokens[t]) && Live(s.tokens[u]) ==> t == u)
  {
    RunKeepsChains(Empty, map[], reqs, cfg);
    var s, heirs := Run(Empty, reqs, cfg), Heirs(Empty, map[], reqs, cfg);
    if t in heirs { assert Follows(s, t, heirs[t]); }
    if Kin(s, t, u) && Live(s.tokens[t]) && Live(s.tokens[u]) {
      assert Newest(s, t) && Newest(s, u) && Kin(s, u, t);
    }
  }

  // ------------------------------------------------------------------
  // Reuse detection and logout
  // ------------------------------------------------------------------

  ghost predicate Ended(s: Store, family: Id) {
    forall t | t in s.tokens && s.tokens[t].family == family :: !Live(s.tokens[t])
  }

  ghost predicate NoneJoins(before: Store, after: Store, family: Id) {
    forall t | t in after.tokens && after.tokens[t].family == family :: t in before.tokens
  }

  lemma NoneJoinsYet(a: Store, b: Store, c: Store, family: Id)
    requires NoneJoins(a, b, family) && NoneJoins(b, c, family) && Extends(b, c)
    ensures NoneJoins(a, c, family)
  {
    forall t | t in c.tokens && c.tokens[t].family == family ensures t in a.tokens {
      assert t in b.tokens && Later(b.tokens[t], c.tokens[t]);
    }
  }

  /** A family without a live token stays that way, and no request mints a token into it. */
  lemma ServeKeepsEnded(s: Store, req: Request, cfg: Config, family: Id)
    requires WellFormed(s) && family < s.nextId && Ended(s, family)
    ensures var after := Serve(s, req, cfg);
      Ended(after, family) && NoneJoins(s, after, family) && WellFormed(after) && Extends(s, after)
  {
    var after := Serve(s, req, cfg);
    ServeExtends(s, req, cfg);
    OnlyLiveFamiliesGrow(s, req, cfg, family);
    forall t | t in after.tokens && after.tokens[t].family == family ensures !Live(after.tokens[t]) {
      assert Later(s.tokens[t], after.tokens[t]);
    }
  }

  lemma OnlyLiveFamiliesGrow(s: Store, req: Request, cfg: Config, family: Id)
    requires family < s.nextId && Ended(s, family)
    ensures NoneJoins(s, Serve(s, req, cfg), family)
  {
    if !(Succeeds(s, req, cfg) && (req.op.Login? || req.op.Refresh?)) { OthersKeepChains(s, req, cfg); }
  }

  lemma {:induction false} RunKeepsEnded(s: Store, reqs: seq<Request>, cfg: Config, family: Id)
    requires WellFormed(s) && family < s.nextId && Ended(s, family)
    ensures var after := Run(s, reqs, cfg);
      Ended(after, family) && NoneJoins(s, after, family)
  {
    if reqs != [] {
      var init := reqs[..|reqs| - 1];
      RunKeepsEnded(s, init, cfg, family);
      RunExtends(s, init, cfg);
      ServeKeepsEnded(Run(s, init, cfg), reqs[|reqs| - 1], cfg, family);
      NoneJoinsYet(s, Run(s, init, cfg), Run(s, reqs, cfg), family);
    }
  }

  /**
   Presenting a rotated or revoked token: the request fails and is rolled back,
   yet its family has no live token left, in any continuation; nothing else
   changed, no refresh within the family succeeds and no token joins it.
   */
  lemma ReuseEndsFamily(s: Store, token: Id, at: real, reqs: seq<Request>, cfg: Config)
    requires WellFormed(s) && token in s.tokens && !Live(s.tokens[token])
    ensures var reuse := Request(Refresh(token), at);
      var family := s.tokens[token].family;
      var served := Serve(s, reuse, cfg);
      var after := Run(served, reqs, cfg);
      && !Succeeds(s, reuse, cfg)
      && served == s.(tokens := served.tokens)
      && (forall t | t in s.tokens :: if s.tokens[t].family == family
            then served.tokens[t].revokedAt.Some? else served.tokens[t] == s.tokens[t])
      && (forall t | t in after.tokens && after.tokens[t].family == family :: t in s.tokens && !Live(after.tokens[t]))
      && (forall t, later | t in after.tokens && after.tokens[t].family == family ::
            !Succeeds(after, Request(Refresh(t), later), cfg))
  {
    var family := s.tokens[token].family;
    var served := Serve(s, Request(Refresh(token), at), cfg);
    ServeExtends(s, Request(Refresh(token), at), cfg);
    RunKeepsEnded(served, reqs, cfg, family);
  }

  /**
   Logging out ends the session for good exactly when the token presented is
   the family's newest (or that one was revoked already): with an older token
   the live one is left alone.
   */
  lemma LogoutEndsFamilyIff(s: Store, heirs: map<Id, Id>, token: Id, newest: Id, at: real, reqs: seq<Request>,
                            cfg: Config)
    requires Chained(s, heirs) && Kin(s, token, newest) && s.tokens[newest].rotatedAt.None?
    ensures var family := s.tokens[token].family;
      var served := Serve(s, Request(Logout(token), at), cfg);
      && (Ended(served, family) <==> token == newest || s.tokens[newest].revokedAt.Some?)
      && (Ended(served, family) ==> Ended(Run(served, reqs, cfg), family))
  {
    var family := s.tokens[token].family;
    var served := Serve(s, Request(Logout(token), at), cfg);
    ServeExtends(s, Request(Logout(token), at), cfg);
    if token == newest || s.tokens[newest].revokedAt.Some? {
      forall t | t in served.tokens && served.tokens[t].family == family ensures !Live(served.tokens[t]) {
        if s.tokens[t].rotatedAt.None? {
          assert Newest(s, t) && Newest(s, newest) && Kin(s, t, newest) && Kin(s, newest, t);
        }
      }
    } else {
      assert Live(served.tokens[newest]);
    }
    if Ended(served, family) { RunKeepsEnded(served, reqs, cfg, family); }
  }

  // ------------------------------------------------------------------
  // Password changes and reset grants
  // ------------------------------------------------------------------

  /** The user whose password a request would set. */
  function SetsPassword(s: Store, op: Op): Option<Id> {
    match op
    case ConfirmReset(grant, _) => if grant in s.grants then Some(s.grants[grant].user) else None
    case ChangePassword(user, _, _) => Some(user)
    case _ => None
  }

  /** After a committed reset or password change no refresh token issued to the user before ever succeeds. */
  lemma NewPasswordEndsSessions(s: Store, req: Request, reqs: seq<Request>, cfg: Config, token: Id, at: real)
    requires WellFormed(s) && Succeeds(s, req, cfg)
    requires token in s.tokens && SetsPassword(s, req.op) == Some(s.tokens[token].user)
    ensures var after := Run(Serve(s, req, cfg), reqs, cfg);
      token in after.tokens && after.tokens[token].revokedAt.Some? && !Succeeds(after, Request(Refresh(token), at), cfg)
  {
    var served := Serve(s, req, cfg);
    assert served.tokens[token].revokedAt.Some?;
    ServeExtends(s, req, cfg);
    RunExtends(served, reqs, cfg);
  }

  /** A successful reset consumes its grant and every other one the user had: none of them works again. */
  lemma ResetUsesUpGrants(s: Store, grant: Id, password: string, at: real, reqs: seq<Request>, cfg: Config,
                          other: Id, password': string, at': real)
    requires WellFormed(s) && Succeeds(s, Request(ConfirmReset(grant, password), at), cfg)
    requires other in s.grants && s.grants[other].user == s.grants[grant].user
    ensures var after := Run(Serve(s, Request(ConfirmReset(grant, password), at), cfg), reqs, cfg);
      && other in after.grants && after.grants[other].consumedAt.Some?
      && !Succeeds(after, Request(ConfirmReset(other, password'), at'), cfg)
  {
    var served := Serve(s, Request(ConfirmReset(grant, password), at), cfg);
    assert served.grants[other].consumedAt.Some?;
    ServeExtends(s, Request(ConfirmReset(grant, password), at), cfg);
    RunExtends(served, reqs, cfg);
  }

  ghost predicate SucceedsAt(reqs: seq<Request>, cfg: Config, i: nat)
    requires i < |reqs|
  {
    Succeeds(Run(Empty, reqs[..i], cfg), reqs[i], cfg)
  }

  lemma {:induction false} RunSplits(s: Store, first: seq<Request>, second: seq<Request>, cfg: Config)
    ensures Run(s, first + second, cfg) == Run(Run(s, first, cfg), second, cfg)
  {
    if second == [] {
      assert first + second == first;
    } else {
      RunSplits(s, first, second[..|second| - 1], cfg);
      assert (first + second)[..|first + second| - 1] == first + second[..|second| - 1];
    }
  }

  /** In a run, a reset grant succeeds at most once. */
  lemma GrantSucceedsOnce(reqs: seq<Request>, cfg: Config, i: nat, j: nat)
    requires i < j < |reqs| && reqs[i].op.ConfirmReset? && reqs[j].op.ConfirmReset?
    requires reqs[i].op.grant == reqs[j].op.grant
    requires SucceedsAt(reqs, cfg, i)
    ensures !SucceedsAt(reqs, cfg, j)
  {
    var s := Run(Empty, reqs[..i], cfg);
    RunExtends(Empty, reqs[..i], cfg);
    var grant := reqs[i].op.grant;
    assert reqs[i] == Request(ConfirmReset(grant, reqs[i].op.newPassword), reqs[i].at);
    assert reqs[j] == Request(ConfirmReset(grant, reqs[j].op.newPassword), reqs[j].at);
    ResetUsesUpGrants(s, grant, reqs[i].op.newPassword, reqs[i].at, reqs[i + 1..j], cfg,
                      grant, reqs[j].op.newPassword, reqs[j].at);
    assert reqs[..i + 1][..i] == reqs[..i];
    assert Run(Empty, reqs[..i + 1], cfg) == Serve(s, reqs[i], cfg);
    RunSplits(Empty, reqs[..i + 1], reqs[i + 1..j], cfg);
    assert reqs[..i + 1] + reqs[i + 1..j] == reqs[..j];
  }

  // ------------------------------------------------------------------
  // A refresh served alongside other requests
  // ------------------------------------------------------------------

  /** What a refresh that passed its checks writes: the row is not locked, and its rotation mark is overwritten. */
  function RefreshWrites(s: Store, token: Id, cfg: Config, at: real): Store {
    if token !in s.tokens then s
    else
      var t := s.tokens[token];
      Mint(s.(tokens := s.tokens[token := t.(rotatedAt := Some(at))]), t.user, t.family, cfg, at)
  }

  /** The requests are served in order; a refresh that made its checks before them all writes after the first n. */
  function Overlapped(s: Store, token: Id, at: real, reqs: seq<Request>, n: nat, cfg: Config): Store
    requires n <= |reqs|
  {
    Run(RefreshWrites(Run(s, reqs[..n], cfg), token, cfg, at), reqs[n..], cfg)
  }

  /** The committed state that request i meets. */
  function Before(s: Store, token: Id, at: real, reqs: seq<Request>, n: nat, cfg: Config, i: nat): Store
    requires n <= |reqs| && i < |reqs|
  {
    if i < n then Run(s, reqs[..i], cfg) else Overlapped(s, token, at, reqs[..i], n, cfg)
  }

  lemma RefreshWritesExtends(s: Store, token: Id, cfg: Config, at: real)
    requires WellFormed(s) && token in s.tokens
    ensures var after := RefreshWrites(s, token, cfg, at);
      && WellFormed(after) && s.nextId in after.tokens && after.tokens[s.nextId].user == s.tokens[token].user
      && after.tokens[s.nextId].family == s.tokens[token].family && Live(after.tokens[s.nextId])
  {
  }

  predicate LiveKin(s: Store, token: Id, t: Id) {
    Kin(s, token, t) && Live(s.tokens[t])
  }

  ghost predicate Forked(s: Store, token: Id) {
    exists t, u | LiveKin(s, token, t) && LiveKin(s, token, u) :: t != u
  }

  /** The write mints a live token whatever happened to the family, and forks it exactly if another one is live. */
  lemma WriteForksIff(s: Store, token: Id, cfg: Config, at: real)
    requires WellFormed(s) && token in s.tokens
    ensures var after := RefreshWrites(s, token, cfg, at);
      && LiveKin(after, token, s.nextId)
      && (Forked(after, token) <==> exists t | LiveKin(s, token, t) :: t != token)
  {
    var after := RefreshWrites(s, token, cfg, at);
    if t: Id :| LiveKin(s, token, t) && t != token {
      assert LiveKin(after, token, t) && LiveKin(after, token, s.nextId) && t < s.nextId;
    }
    if Forked(after, token) {
      var t, u :| LiveKin(after, token, t) && LiveKin(after, token, u) && t != u;
      var other := if t == s.nextId then u else t;
      assert LiveKin(s, token, other) && other != token;
    }
  }

  lemma ChainHasOtherLiveIff(s: Store, heirs: map<Id, Id>, token: Id)
    requires Chained(s, heirs) && token in s.tokens
    ensures (exists t | LiveKin(s, token, t) :: t != token)
       <==> s.tokens[token].rotatedAt.Some? && !Ended(s, s.tokens[token].family)
  {
    if s.tokens[token].rotatedAt.None? {
      forall t | LiveKin(s, token, t) ensures t == token {
        assert Newest(s, token) && Newest(s, t) && Kin(s, t, token);
      }
    } else if !Ended(s, s.tokens[token].family) {
      var t :| t in s.tokens && s.tokens[t].family == s.tokens[token].family && Live(s.tokens[t]);
      assert LiveKin(s, token, t);
    }
  }

  /**
   A refresh checked at s and written after any serial requests: the token it
   mints is live in every case, and its family then has two live tokens if and
   only if those requests exchanged the same token and did not end the family.
   */
  lemma OverlappingRefreshForksIff(s: Store, heirs: map<Id, Id>, token: Id, checkedAt: real, reqs: seq<Request>,
                                   at: real, cfg: Config)
    requires Chained(s, heirs) && Succeeds(s, Request(Refresh(token), checkedAt), cfg)
    ensures var before := Run(s, reqs, cfg);
      var after := Overlapped(s, token, at, reqs, |reqs|, cfg);
      && token in before.tokens && LiveKin(after, token, before.nextId)
      && (Forked(after, token)
          <==> before.tokens[token].rotatedAt.Some? && !Ended(before, before.tokens[token].family))
  {
    var before := Run(s, reqs, cfg);
    RunExtends(s, reqs, cfg);
    RunKeepsChains(s, heirs, reqs, cfg);
    ChainHasOtherLiveIff(before, Heirs(s, heirs, reqs, cfg), token);
    WriteForksIff(before, token, cfg, at);
    assert reqs[..|reqs|] == reqs && reqs[|reqs|..] == [];
  }

  /** So two refreshes of one token whose checks both come first always fork the family. */
  lemma TwoRefreshesFork(s: Store, heirs: map<Id, Id>, token: Id, checkedAt: real, first: real, second: real,
                         cfg: Config)
    requires Chained(s, heirs)
    requires Succeeds(s, Request(Refresh(token), checkedAt), cfg) && Succeeds(s, Request(Refresh(token), first), cfg)
    ensures Forked(Overlapped(s, token, second, [Request(Refresh(token), first)], 1, cfg), token)
  {
    var reqs := [Request(Refresh(token), first)];
    assert Run(s, reqs[..0], cfg) == s;
    assert Live(Run(s, reqs, cfg).tokens[s.nextId]);
    OverlappingRefreshForksIff(s, heirs, token, checkedAt, reqs, second, cfg);
  }

  lemma MintedLasts(s: Store, token: Id, at: real, reqs: seq<Request>, n: nat, cfg: Config)
    requires WellFormed(s) && token in s.tokens && n <= |reqs|
    ensures var mid := Run(s, reqs[..n], cfg);
      var end := Overlapped(s, token, at, reqs, n, cfg);
      && WellFormed(end) && token in end.tokens && end.tokens[token].user == s.tokens[token].user
      && mid.nextId in end.tokens && end.tokens[mid.nextId].user == s.tokens[token].user
      && end.tokens[mid.nextId].family == s.tokens[token].family == end.tokens[token].family
  {
    var mid := Run(s, reqs[..n], cfg);
    RunExtends(s, reqs[..n], cfg);
    RefreshWritesExtends(mid, token, cfg, at);
    RunExtends(RefreshWrites(mid, token, cfg, at), reqs[n..], cfg);
  }

  /** Right after the write its token is live. */
  lemma WrittenLast(s: Store, token: Id, at: real, reqs: seq<Request>, cfg: Config)
    requires WellFormed(s) && token in s.tokens
    ensures var minted := Run(s, reqs[..|reqs|], cfg).nextId;
      var end := Overlapped(s, token, at, reqs, |reqs|, cfg);
      minted in end.tokens && Live(end.tokens[minted]) && end.tokens[minted].family == s.tokens[token].family
  {
    RunExtends(s, reqs[..|reqs|], cfg);
    RefreshWritesExtends(Run(s, reqs[..|reqs|], cfg), token, cfg, at);
    assert reqs[|reqs|..] == [];
  }

  lemma OverlappedOneMore(s: Store, token: Id, at: real, reqs: seq<Request>, n: nat, cfg: Config)
    requires n < |reqs|
    ensures var last := |reqs| - 1;
      Overlapped(s, token, at, reqs, n, cfg) == Serve(Before(s, token, at, reqs, n, cfg, last), reqs[last], cfg)
  {
    var last := |reqs| - 1;
    assert reqs[..last][..n] == reqs[..n] && reqs[n..][..last - n] == reqs[..last][n..];
  }

  /** The password of the token's user is reset or changed by request i. */
  ghost predicate NewPasswordAt(s: Store, token: Id, at: real, reqs: seq<Request>, n: nat, cfg: Config, i: nat)
    requires token in s.tokens && n <= |reqs| && i < |reqs|
  {
    var before := Before(s, token, at, reqs, n, cfg, i);
    Succeeds(before, reqs[i], cfg) && SetsPassword(before, reqs[i].op) == Some(s.tokens[token].user)
  }

  /**
   A refresh checked before a password is reset or changed, when both are
   done: its token is live if and only if it was written after the change.
   */
  lemma RefreshOutlivesNewPasswordIff(s: Store, token: Id, checkedAt: real, at: real, reqs: seq<Request>, n: nat,
                                      i: nat, cfg: Config)
    requires WellFormed(s) && Succeeds(s, Request(Refresh(token), checkedAt), cfg)
    requires n <= |reqs| && i < |reqs| == (if i < n then n else i + 1)
    requires NewPasswordAt(s, token, at, reqs, n, cfg, i)
    ensures var minted := Run(s, reqs[..n], cfg).nextId;
      var end := Overlapped(s, token, at, reqs, n, cfg);
      minted in end.tokens && end.tokens[minted].user == s.tokens[token].user && (Live(end.tokens[minted]) <==> i < n)
  {
    var mid := Run(s, reqs[..n], cfg);
    MintedLasts(s, token, at, reqs, n, cfg);
    if i < n {
      WrittenLast(s, token, at, reqs, cfg);
    } else {
      MintedLasts(s, token, at, reqs[..i], n, cfg);
      OverlappedOneMore(s, token, at, reqs, n, cfg);
      assert reqs[..i][..n] == reqs[..n];
      var before := Before(s, token, at, reqs, n, cfg, i);
      NewPasswordEndsSessions(before, reqs[i], [], cfg, mid.nextId, at);
    }
  }

  /** A token of the family that is no longer live is presented as request i. */
  ghost predicate ReuseAt(s: Store, token: Id, at: real, reqs: seq<Request>, n: nat, cfg: Config, i: nat)
    requires token in s.tokens && n <= |reqs| && i < |reqs|
  {
    var before := Before(s, token, at, reqs, n, cfg, i);
    && reqs[i].op.Refresh? && reqs[i].op.token in before.tokens && !Live(before.tokens[reqs[i].op.token])
    && before.tokens[reqs[i].op.token].family == s.tokens[token].family
  }

  lemma ServedReuseEnds(s: Store, req: Request, cfg: Config)
    requires WellFormed(s) && req.op.Refresh? && req.op.token in s.tokens && !Live(s.tokens[req.op.token])
    ensures Ended(Serve(s, req, cfg), s.tokens[req.op.token].family)
  {
    assert req == Request(Refresh(req.op.token), req.at);
    ReuseEndsFamily(s, req.op.token, req.at, [], cfg);
  }

  /**
   Likewise with a reuse: when both are done the family has a live token if and
   only if the refresh was written last.
   */
  lemma RefreshOutlivesReuseIff(s: Store, token: Id, checkedAt: real, at: real, reqs: seq<Request>, n: nat,
                                i: nat, cfg: Config)
    requires WellFormed(s) && Succeeds(s, Request(Refresh(token), checkedAt), cfg)
    requires n <= |reqs| && i < |reqs| == (if i < n then n else i + 1)
    requires ReuseAt(s, token, at, reqs, n, cfg, i)
    ensures Ended(Overlapped(s, token, at, reqs, n, cfg), s.tokens[token].family) <==> n <= i
  {
    if i < n {
      WrittenLast(s, token, at, reqs, cfg);
    } else {
      MintedLasts(s, token, at, reqs[..i], n, cfg);
      OverlappedOneMore(s, token, at, reqs, n, cfg);
      ServedReuseEnds(Before(s, token, at, reqs, n, cfg, i), reqs[i], cfg);
    }
  }
}
