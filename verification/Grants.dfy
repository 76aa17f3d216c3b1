/** Who may do what: the membership, school and permission-scope resolution of app/modules/iam/principal.py. */
module Grants {
  import opened Prelude

  type Id = nat

  type Code = string

  datatype Scope = OWN | ASSIGNED | SCHOOL | ORGANIZATION | PLATFORM

  /** DataScope.strength; only comparisons of it are used. */
  function Strength(s: Scope): nat {
    match s
    case OWN => 0
    case ASSIGNED => 1
    case SCHOOL => 2
    case ORGANIZATION => 3
    case PLATFORM => 4
  }

  datatype PermLink = PermLink(permission: Option<Code>, override: Option<Scope>)

  datatype Role = Role(code: Code, archived: bool, scope: Scope, permissions: seq<PermLink>)

  datatype RoleLink = RoleLink(expiresAt: Option<int>, override: Option<Scope>, role: Option<Role>)

  datatype Membership = Membership(
    organization: Id, school: Option<Id>, active: bool, start: Option<int>, end: Option<int>, isDefault: bool,
    links: seq<RoleLink>)

  datatype School = School(organization: Id, deleted: bool, open: bool)

  // ------------------------------------------------------------------
  // What is granted
  // ------------------------------------------------------------------

  predicate LinkCounts(link: RoleLink, now: int) {
    (link.expiresAt.None? || link.expiresAt.value > now) && link.role.Some? && !link.role.value.archived
  }

  function GrantScope(link: RoleLink, p: PermLink): Scope
    requires link.role.Some?
  {
    if p.override.Some? then p.override.value
    else if link.override.Some? then link.override.value
    else link.role.value.scope
  }

  /** A membership's link to an unarchived role, not expired, grants the permission at this scope. */
  predicate GrantedBy(link: RoleLink, now: int, code: Code, scope: Scope) {
    && LinkCounts(link, now)
    && exists i | 0 <= i < |link.role.value.permissions| ::
         && link.role.value.permissions[i].permission == Some(code)
         && GrantScope(link, link.role.value.permissions[i]) == scope
  }

  predicate GrantedIn(m: Membership, now: int, code: Code, scope: Scope) {
    exists i | 0 <= i < |m.links| :: GrantedBy(m.links[i], now, code, scope)
  }

  predicate Granted(ms: seq<Membership>, now: int, code: Code, scope: Scope) {
    exists i | 0 <= i < |ms| :: GrantedIn(ms[i], now, code, scope)
  }

  // ------------------------------------------------------------------
  // The fold
  // ------------------------------------------------------------------

  type Scopes = map<Code, Scope>

  function AddGrant(scopes: Scopes, code: Code, scope: Scope): Scopes {
    if code !in scopes || Strength(scope) > Strength(scopes[code]) then scopes[code := scope] else scopes
  }

  function AddLink(scopes: Scopes, link: RoleLink, n: nat): Scopes
    requires link.role.Some? && n <= |link.role.value.permissions|
  {
    if n == 0 then scopes
    else
      var before, p := AddLink(scopes, link, n - 1), link.role.value.permissions[n - 1];
      if p.permission.None? then before else AddGrant(before, p.permission.value, GrantScope(link, p))
  }

  function AddLinks(scopes: Scopes, links: seq<RoleLink>, now: int): Scopes {
    if links == [] then scopes
    else
      var before, link := AddLinks(scopes, links[..|links| - 1], now), links[|links| - 1];
      if LinkCounts(link, now) then AddLink(before, link, |link.role.value.permissions|) else before
  }

  function AddMemberships(ms: seq<Membership>, now: int): Scopes {
    if ms == [] then map[] else AddLinks(AddMemberships(ms[..|ms| - 1], now), ms[|ms| - 1].links, now)
  }

  function RoleCodes(ms: seq<Membership>, now: int): set<Code> {
    set i, j | 0 <= i < |ms| && 0 <= j < |ms[i].links| && LinkCounts(ms[i].links[j], now) ::
      ms[i].links[j].role.value.code
  }

  /** _collect_grants. */
  method CollectGrants(ms: seq<Membership>, now: int) returns (scopes: Scopes, roles: set<Code>)
    ensures scopes == AddMemberships(ms, now)
    ensures roles == RoleCodes(ms, now)
  {
    scopes, roles := map[], {};
    for i := 0 to |ms|
      invariant scopes == AddMemberships(ms[..i], now)
      invariant roles == RoleCodes(ms[..i], now)
    {
      assert ms[..i + 1][..i] == ms[..i];
      var found;
      scopes, found := CollectFrom(scopes, ms[i], now);
      RoleCodesGrow(ms, now, i);
      roles := roles + found;
    }
    assert ms[..|ms|] == ms;
  }

  function LinkCodes(m: Membership, now: int): set<Code> {
    set j | 0 <= j < |m.links| && LinkCounts(m.links[j], now) :: m.links[j].role.value.code
  }

  lemma RoleCodesGrow(ms: seq<Membership>, now: int, i: nat)
    requires i < |ms|
    ensures RoleCodes(ms[..i + 1], now) == RoleCodes(ms[..i], now) + LinkCodes(ms[i], now)
  {
    forall c | c in RoleCodes(ms[..i + 1], now) ensures c in RoleCodes(ms[..i], now) + LinkCodes(ms[i], now) {
      var k, j :|
        0 <= k <= i && 0 <= j < |ms[k].links| && LinkCounts(ms[k].links[j], now) && ms[k].links[j].role.value.code == c;
      if k < i { assert ms[..i][k] == ms[k]; }
    }
    forall c | c in RoleCodes(ms[..i], now) + LinkCodes(ms[i], now) ensures c in RoleCodes(ms[..i + 1], now) {
      if c in LinkCodes(ms[i], now) {
        assert ms[..i + 1][i] == ms[i];
      } else {
        var k, j :|
          0 <= k < i && 0 <= j < |ms[k].links| && LinkCounts(ms[k].links[j], now)
          && ms[k].links[j].role.value.code == c;
        assert ms[..i + 1][k] == ms[k];
      }
    }
  }

  method CollectFrom(before: Scopes, m: Membership, now: int) returns (scopes: Scopes, roles: set<Code>)
    ensures scopes == AddLinks(before, m.links, now)
    ensures roles == LinkCodes(m, now)
  {
    scopes, roles := before, {};
    for i := 0 to |m.links|
      invariant scopes == AddLinks(before, m.links[..i], now)
      invariant roles == set j | 0 <= j < i && LinkCounts(m.links[j], now) :: m.links[j].role.value.code
    {
      assert m.links[..i + 1][..i] == m.links[..i];
      var link := m.links[i];
      if link.expiresAt.Some? && link.expiresAt.value <= now {
        continue;
      }
      if link.role.None? || link.role.value.archived {
        continue;
      }
      var role := link.role.value;
      roles := roles + {role.code};
      var grantScope := if link.override.Some? then link.override.value else role.scope;
      ghost var start := scopes;
      for n := 0 to |role.permissions|
        invariant scopes == AddLink(start, link, n)
      {
        var p := role.permissions[n];
        if p.permission.None? {
          continue;
        }
        var scope := if p.override.Some? then p.override.value else grantScope;
        var code := p.permission.value;
        if code !in scopes || Strength(scope) > Strength(scopes[code]) {
          scopes := scopes[code := scope];
        }
      }
    }
    assert m.links[..|m.links|] == m.links;
  }

  // ------------------------------------------------------------------
  // The fold is a maximum
  // ------------------------------------------------------------------

  /** A permission is held exactly if it is granted, at the strongest scope at which it is. */
  ghost predicate IsStrongest(scopes: Scopes, grants: (Code, Scope) -> bool) {
    && (forall code | code in scopes :: grants(code, scopes[code]))
    && (forall code, scope | grants(code, scope) :: code in scopes && Strength(scope) <= Strength(scopes[code]))
  }

  lemma GrantKeepsStrongest(before: Scopes, had: (Code, Scope) -> bool, code: Code, scope: Scope)
    requires IsStrongest(before, had)
    ensures IsStrongest(AddGrant(before, code, scope), (c, s) => had(c, s) || (c == code && s == scope))
  {
    StrengthIsOrder();
  }

  lemma StrengthIsOrder()
    ensures forall a, b :: Strength(a) == Strength(b) ==> a == b
  {
  }

  lemma {:induction false} LinkIsStrongest(before: Scopes, had: (Code, Scope) -> bool, link: RoleLink, n: nat)
    requires link.role.Some? && n <= |link.role.value.permissions| && IsStrongest(before, had)
    ensures IsStrongest(AddLink(before, link, n),
                        (code, scope) => had(code, scope) || GrantedUpTo(link, n, code, scope))
  {
    var all := (code, scope) => had(code, scope) || GrantedUpTo(link, n, code, scope);
    if n == 0 {
      SameGrantsSameStrongest(before, had, all);
    } else {
      LinkIsStrongest(before, had, link, n - 1);
      var some := (code, scope) => had(code, scope) || GrantedUpTo(link, n - 1, code, scope);
      var p := link.role.value.permissions[n - 1];
      if p.permission.None? {
        SameGrantsSameStrongest(AddLink(before, link, n - 1), some, all);
      } else {
        var code, scope := p.permission.value, GrantScope(link, p);
        GrantKeepsStrongest(AddLink(before, link, n - 1), some, code, scope);
        SameGrantsSameStrongest(AddLink(before, link, n), (c, s) => some(c, s) || (c == code && s == scope), all);
      }
    }
  }

  predicate GrantedUpTo(link: RoleLink, n: nat, code: Code, scope: Scope)
    requires link.role.Some? && n <= |link.role.value.permissions|
  {
    exists i | 0 <= i < n ::
      && link.role.value.permissions[i].permission == Some(code)
      && GrantScope(link, link.role.value.permissions[i]) == scope
  }

  predicate GrantedFrom(links: seq<RoleLink>, now: int, code: Code, scope: Scope) {
    exists i | 0 <= i < |links| :: GrantedBy(links[i], now, code, scope)
  }

  lemma GrantedFromSplits(links: seq<RoleLink>, now: int, code: Code, scope: Scope)
    requires links != []
    ensures GrantedFrom(links, now, code, scope) <==>
      GrantedFrom(links[..|links| - 1], now, code, scope) || GrantedBy(links[|links| - 1], now, code, scope)
  {
    var init := links[..|links| - 1];
    if GrantedFrom(links, now, code, scope) {
      var i :| 0 <= i < |links| && GrantedBy(links[i], now, code, scope);
      if i < |init| { assert init[i] == links[i]; }
    }
    if GrantedFrom(init, now, code, scope) {
      var i :| 0 <= i < |init| && GrantedBy(init[i], now, code, scope);
      assert links[i] == init[i];
    }
  }

  lemma SameGrantsSameStrongest(scopes: Scopes, a: (Code, Scope) -> bool, b: (Code, Scope) -> bool)
    requires IsStrongest(scopes, a) && forall code, scope :: a(code, scope) <==> b(code, scope)
    ensures IsStrongest(scopes, b)
  {
  }

  lemma {:induction false} LinksAreStrongest(before: Scopes, had: (Code, Scope) -> bool, links: seq<RoleLink>, now: int)
    requires IsStrongest(before, had)
    ensures IsStrongest(AddLinks(before, links, now),
                        (code, scope) => had(code, scope) || GrantedFrom(links, now, code, scope))
  {
    var all := (code, scope) => had(code, scope) || GrantedFrom(links, now, code, scope);
    if links == [] {
      SameGrantsSameStrongest(before, had, all);
    } else {
      var init, link := links[..|links| - 1], links[|links| - 1];
      var some := (code, scope) => had(code, scope) || GrantedFrom(init, now, code, scope);
      LinksAreStrongest(before, had, init, now);
      forall code, scope ensures all(code, scope) <==> some(code, scope) || GrantedBy(link, now, code, scope) {
        GrantedFromSplits(links, now, code, scope);
      }
      if LinkCounts(link, now) {
        var n := |link.role.value.permissions|;
        LinkIsStrongest(AddLinks(before, init, now), some, link, n);
        SameGrantsSameStrongest(AddLinks(before, links, now),
                                (code, scope) => some(code, scope) || GrantedUpTo(link, n, code, scope), all);
      } else {
        SameGrantsSameStrongest(AddLinks(before, init, now), some, all);
      }
    }
  }

  lemma GrantedSplits(ms: seq<Membership>, now: int, code: Code, scope: Scope)
    requires ms != []
    ensures Granted(ms, now, code, scope) <==>
      Granted(ms[..|ms| - 1], now, code, scope) || GrantedFrom(ms[|ms| - 1].links, now, code, scope)
  {
    var init := ms[..|ms| - 1];
    assert GrantedIn(ms[|ms| - 1], now, code, scope) <==> GrantedFrom(ms[|ms| - 1].links, now, code, scope);
    if Granted(ms, now, code, scope) {
      var i :| 0 <= i < |ms| && GrantedIn(ms[i], now, code, scope);
      if i < |init| { assert init[i] == ms[i]; }
    }
    if Granted(init, now, code, scope) {
      var i :| 0 <= i < |init| && GrantedIn(init[i], now, code, scope);
      assert ms[i] == init[i];
    }
  }

  /**
   Each permission gets the maximum scope over all unexpired links to
   unarchived roles on these memberships, overrides included; a permission
   that nothing grants is not held.
   */
  lemma {:induction false} FoldIsMaximum(ms: seq<Membership>, now: int)
    ensures IsStrongest(AddMemberships(ms, now), (code, scope) => Granted(ms, now, code, scope))
  {
    if ms != [] {
      var init := ms[..|ms| - 1];
      FoldIsMaximum(init, now);
      var some := (code, scope) => Granted(init, now, code, scope);
      LinksAreStrongest(AddMemberships(init, now), some, ms[|ms| - 1].links, now);
      forall code, scope
        ensures Granted(ms, now, code, scope)
           <==> some(code, scope) || GrantedFrom(ms[|ms| - 1].links, now, code, scope)
      {
        GrantedSplits(ms, now, code, scope);
      }
      SameGrantsSameStrongest(AddMemberships(ms, now),
                              (code, scope) => some(code, scope) || GrantedFrom(ms[|ms| - 1].links, now, code, scope),
                              (code, scope) => Granted(ms, now, code, scope));
    }
  }

  /** More grants never lower a scope, and take no permission away. */
  lemma MoreGrantsNeverLower(a: seq<Membership>, b: seq<Membership>, now: int, code: Code)
    requires forall c, s | Granted(a, now, c, s) :: Granted(b, now, c, s)
    requires code in AddMemberships(a, now)
    ensures code in AddMemberships(b, now)
    ensures Strength(AddMemberships(a, now)[code]) <= Strength(AddMemberships(b, now)[code])
  {
    FoldIsMaximum(a, now);
    FoldIsMaximum(b, now);
    StrongestGrows(AddMemberships(a, now), (c, s) => Granted(a, now, c, s),
                   AddMemberships(b, now), (c, s) => Granted(b, now, c, s), code);
  }

  lemma StrongestGrows(x: Scopes, few: (Code, Scope) -> bool, y: Scopes, many: (Code, Scope) -> bool, code: Code)
    requires IsStrongest(x, few) && IsStrongest(y, many) && code in x
    requires forall c, s | few(c, s) :: many(c, s)
    ensures code in y && Strength(x[code]) <= Strength(y[code])
  {
    assert few(code, x[code]) && many(code, x[code]);
  }

  /** The result depends only on which grants there are. */
  lemma OnlyTheGrantsMatter(a: seq<Membership>, b: seq<Membership>, now: int)
    requires forall c, s :: Granted(a, now, c, s) <==> Granted(b, now, c, s)
    ensures AddMemberships(a, now) == AddMemberships(b, now)
  {
    var x, y := AddMemberships(a, now), AddMemberships(b, now);
    FoldIsMaximum(a, now);
    FoldIsMaximum(b, now);
    SameGrantsSameStrongest(y, (c, s) => Granted(b, now, c, s), (c, s) => Granted(a, now, c, s));
    StrongestIsUnique(x, y, (c, s) => Granted(a, now, c, s));
  }

  lemma StrongestIsUnique(x: Scopes, y: Scopes, grants: (Code, Scope) -> bool)
    requires IsStrongest(x, grants) && IsStrongest(y, grants)
    ensures x == y
  {
    StrengthIsOrder();
    forall code | code in x ensures code in y && x[code] == y[code] { assert grants(code, x[code]); }
    forall code | code in y ensures code in x { assert grants(code, y[code]); }
  }

  /** So it does not depend on the order of memberships, of their links or of a role's permissions. */
  lemma OrderDoesNotMatter(a: seq<Membership>, b: seq<Membership>, now: int)
    requires SameMembers(a, b)
    ensures AddMemberships(a, now) == AddMemberships(b, now)
  {
    forall c, s ensures Granted(a, now, c, s) <==> Granted(b, now, c, s) {
      if Granted(a, now, c, s) { GrantMoves(a, b, now, c, s); }
      if Granted(b, now, c, s) { GrantMoves(b, a, now, c, s); }
    }
    OnlyTheGrantsMatter(a, b, now);
  }

  /** One list has, up to the order of its parts, every element of the other. */
  ghost predicate Covered(a: seq<Membership>, b: seq<Membership>) {
    forall i | 0 <= i < |a| :: exists j :: 0 <= j < |b| && LinksCovered(a[i].links, b[j].links)
  }

  ghost predicate LinksCovered(a: seq<RoleLink>, b: seq<RoleLink>) {
    forall i | 0 <= i < |a| :: exists j :: 0 <= j < |b| && LinkCovered(a[i], b[j])
  }

  ghost predicate LinkCovered(a: RoleLink, b: RoleLink) {
    && a.expiresAt == b.expiresAt && a.override == b.override && a.role.Some? == b.role.Some?
    && (a.role.Some? ==>
          && a.role.value.archived == b.role.value.archived && a.role.value.scope == b.role.value.scope
          && forall i | 0 <= i < |a.role.value.permissions| :: a.role.value.permissions[i] in b.role.value.permissions)
  }

  ghost predicate SameMembers(a: seq<Membership>, b: seq<Membership>) {
    Covered(a, b) && Covered(b, a)
  }

  lemma LinkGrantMoves(a: RoleLink, b: RoleLink, now: int, code: Code, scope: Scope)
    requires LinkCovered(a, b) && GrantedBy(a, now, code, scope)
    ensures GrantedBy(b, now, code, scope)
  {
    var ps, qs := a.role.value.permissions, b.role.value.permissions;
    var i :| 0 <= i < |ps| && ps[i].permission == Some(code) && GrantScope(a, ps[i]) == scope;
    var j :| 0 <= j < |qs| && qs[j] == ps[i];
    assert GrantScope(b, qs[j]) == scope;
  }

  lemma MembershipGrantMoves(a: Membership, b: Membership, now: int, code: Code, scope: Scope)
    requires LinksCovered(a.links, b.links) && GrantedIn(a, now, code, scope)
    ensures GrantedIn(b, now, code, scope)
  {
    var i :| 0 <= i < |a.links| && GrantedBy(a.links[i], now, code, scope);
    var j :| 0 <= j < |b.links| && LinkCovered(a.links[i], b.links[j]);
    LinkGrantMoves(a.links[i], b.links[j], now, code, scope);
  }

  lemma GrantMoves(a: seq<Membership>, b: seq<Membership>, now: int, code: Code, scope: Scope)
    requires Covered(a, b) && Granted(a, now, code, scope)
    ensures Granted(b, now, code, scope)
  {
    var i :| 0 <= i < |a| && GrantedIn(a[i], now, code, scope);
    var j :| 0 <= j < |b| && LinksCovered(a[i].links, b[j].links);
    MembershipGrantMoves(a[i], b[j], now, code, scope);
  }

  // ------------------------------------------------------------------
  // The active school
  // ------------------------------------------------------------------

  predicate WithinDates(m: Membership, today: int) {
    (m.start.None? || m.start.value <= today) && (m.end.None? || m.end.value >= today)
  }

  function Current(ms: seq<Membership>, today: int): seq<Membership> {
    if ms == [] then []
    else
      var init, last := Current(ms[..|ms| - 1], today), ms[|ms| - 1];
      if last.active && WithinDates(last, today) then init + [last] else init
  }

  function Accessible(ms: seq<Membership>, schools: map<Id, School>, organization: Id): set<Id> {
    (set i | 0 <= i < |ms| && ms[i].school.Some? :: ms[i].school.value)
    + (if exists i | 0 <= i < |ms| :: ms[i].school.None?
       then set s | s in schools && schools[s].organization == organization && !schools[s].deleted && schools[s].open
       else {})
  }

  function DefaultSchool(ms: seq<Membership>): Option<Id> {
    if ms == [] then None
    else if ms[0].isDefault && ms[0].school.Some? then ms[0].school
    else DefaultSchool(ms[1..])
  }

  datatype Error = TenantContextError

  function SelectSchool(ms: seq<Membership>, accessible: set<Id>, requested: Option<Id>): Result<Option<Id>, Error> {
    if requested.Some? then
      if requested.value in accessible then Ok(requested) else Err(TenantContextError)
    else if DefaultSchool(ms).Some? && DefaultSchool(ms).value in accessible then Ok(DefaultSchool(ms))
    else if |accessible| == 1 then Ok(Some(TheOnly(accessible)))
    else Ok(None)
  }

  function TheOnly(s: set<Id>): (x: Id)
    requires |s| == 1
    ensures s == {x}
  {
    OnlyOne(s);
    var x :| x in s;
    assert forall y | y in s :: y == x;
    x
  }

  lemma OnlyOne(s: set<Id>)
    requires |s| == 1
    ensures s != {} && forall x, y | x in s && y in s :: x == y
  {
    forall x, y | x in s && y in s ensures x == y {
      assert |s - {x}| == 0;
      assert y !in s - {x};
    }
  }

  function Applicable(ms: seq<Membership>, school: Option<Id>): seq<Membership> {
    if ms == [] then []
    else
      var init, last := Applicable(ms[..|ms| - 1], school), ms[|ms| - 1];
      if last.school.None? || last.school == school then init + [last] else init
  }

  datatype Principal = Principal(organization: Option<Id>, school: Option<Id>, accessible: set<Id>, scopes: Scopes,
                                 roles: set<Code>)

  /** The active school is one the user can access, and the requested one if there was a request. */
  lemma ActiveSchoolIsAccessible(ms: seq<Membership>, accessible: set<Id>, requested: Option<Id>)
    ensures SelectSchool(ms, accessible, requested).Err? <==> requested.Some? && requested.value !in accessible
    ensures var r := SelectSchool(ms, accessible, requested);
      r.Ok? && r.value.Some? ==> r.value.value in accessible && (requested.Some? ==> r.value == requested)
  {
  }

  lemma {:induction false} ApplicableIff(ms: seq<Membership>, school: Option<Id>, m: Membership)
    ensures m in Applicable(ms, school) <==> m in ms && (m.school.None? || m.school == school)
  {
    if ms != [] {
      ApplicableIff(ms[..|ms| - 1], school, m);
      assert ms == ms[..|ms| - 1] + [ms[|ms| - 1]];
    }
  }

  lemma {:induction false} CurrentIff(ms: seq<Membership>, today: int, m: Membership)
    ensures m in Current(ms, today) <==> m in ms && m.active && WithinDates(m, today)
  {
    if ms != [] {
      CurrentIff(ms[..|ms| - 1], today, m);
      assert ms == ms[..|ms| - 1] + [ms[|ms| - 1]];
    }
  }

  /** Some membership in force today, of the school or of the whole organization, grants this. */
  predicate GrantedToday(all: seq<Membership>, today: int, school: Option<Id>, now: int, code: Code, scope: Scope) {
    exists m | m in all :: InForce(m, today, school) && GrantedIn(m, now, code, scope)
  }

  predicate InForce(m: Membership, today: int, school: Option<Id>) {
    m.active && WithinDates(m, today) && (m.school.None? || m.school == school)
  }

  lemma GrantedTodayIff(all: seq<Membership>, today: int, school: Option<Id>, now: int, code: Code, scope: Scope)
    ensures Granted(Applicable(Current(all, today), school), now, code, scope)
       <==> GrantedToday(all, today, school, now, code, scope)
  {
    var ms := Current(all, today);
    var applicable := Applicable(ms, school);
    if Granted(applicable, now, code, scope) {
      var i :| 0 <= i < |applicable| && GrantedIn(applicable[i], now, code, scope);
      ApplicableIff(ms, school, applicable[i]);
      CurrentIff(all, today, applicable[i]);
      assert InForce(applicable[i], today, school);
    }
    if GrantedToday(all, today, school, now, code, scope) {
      var m :| m in all && InForce(m, today, school) && GrantedIn(m, now, code, scope);
      CurrentIff(all, today, m);
      ApplicableIff(ms, school, m);
      var i :| 0 <= i < |applicable| && applicable[i] == m;
    }
  }

  lemma ResolvedIsStrongest(all: seq<Membership>, today: int, school: Option<Id>, now: int)
    ensures IsStrongest(AddMemberships(Applicable(Current(all, today), school), now),
                        (code, scope) => GrantedToday(all, today, school, now, code, scope))
  {
    var applicable := Applicable(Current(all, today), school);
    FoldIsMaximum(applicable, now);
    forall code, scope
      ensures Granted(applicable, now, code, scope) <==> GrantedToday(all, today, school, now, code, scope)
    {
      GrantedTodayIff(all, today, school, now, code, scope);
    }
    SameGrantsSameStrongest(AddMemberships(applicable, now), (code, scope) => Granted(applicable, now, code, scope),
                            (code, scope) => GrantedToday(all, today, school, now, code, scope));
  }

  lemma NothingInForce(all: seq<Membership>, today: int, now: int)
    requires Current(all, today) == []
    ensures IsStrongest(map[], (code, scope) => GrantedToday(all, today, None, now, code, scope))
  {
    ResolvedIsStrongest(all, today, None, now);
  }

  function Resolve(all: seq<Membership>, schools: map<Id, School>, requested: Option<Id>, today: int, now: int)
    : Result<Principal, Error>
  {
    var ms := Current(all, today);
    if ms == [] then Ok(Principal(None, None, {}, map[], {}))
    else
      var accessible := Accessible(ms, schools, ms[0].organization);
      var school := SelectSchool(ms, accessible, requested);
      if school.Err? then Err(school.error)
      else
        var applicable := Applicable(ms, school.value);
        Ok(Principal(Some(ms[0].organization), school.value, accessible, AddMemberships(applicable, now),
                     RoleCodes(applicable, now)))
  }

  /**
   resolve_principal for an active user who is not a platform administrator:
   refused exactly for a school the user cannot access; otherwise every
   permission is held at the strongest scope at which a membership in force,
   of the active school or of the organization, grants it.
   */
  method ResolvePrincipal(all: seq<Membership>, schools: map<Id, School>, requested: Option<Id>, today: int, now: int)
      returns (r: Result<Principal, Error>)
    ensures r == Resolve(all, schools, requested, today, now)
    ensures var ms := Current(all, today);
      r.Err? <==> ms != [] && requested.Some? && requested.value !in Accessible(ms, schools, ms[0].organization)
    ensures r.Ok? ==>
              IsStrongest(r.value.scopes, (code, scope) => GrantedToday(all, today, r.value.school, now, code, scope))
    ensures r.Ok? && r.value.school.Some? ==> r.value.school.value in r.value.accessible
    ensures r.Ok? && Current(all, today) != [] && requested.Some? ==> r.value.school == requested
    ensures r.Ok? ==> r.value.roles == RoleCodes(Applicable(Current(all, today), r.value.school), now)
    ensures r.Ok? && Current(all, today) != [] ==>
      var organization := Current(all, today)[0].organization;
      r.value.organization == Some(organization)
      && r.value.accessible == Accessible(Current(all, today), schools, organization)
  {
    var ms := Current(all, today);
    if ms == [] {
      NothingInForce(all, today, now);
      return Ok(Principal(None, None, {}, map[], {}));
    }
    var accessible := Accessible(ms, schools, ms[0].organization);
    var school := SelectSchool(ms, accessible, requested);
    if school.Err? {
      return Err(school.error);
    }
    var scopes, roles := CollectGrants(Applicable(ms, school.value), now);
    ResolvedIsStrongest(all, today, school.value, now);
    r := Ok(Principal(Some(ms[0].organization), school.value, accessible, scopes, roles));
  }

  /** Every permission held in a school comes from a membership of that school or of the whole organization. */
  lemma NoGrantFromAnotherSchool(ms: seq<Membership>, school: Option<Id>, now: int, code: Code)
    requires code in AddMemberships(Applicable(ms, school), now)
    ensures var scope := AddMemberships(Applicable(ms, school), now)[code];
      exists m | m in ms :: (m.school.None? || m.school == school) && GrantedIn(m, now, code, scope)
  {
    FoldIsMaximum(Applicable(ms, school), now);
    var scope := AddMemberships(Applicable(ms, school), now)[code];
    assert Granted(Applicable(ms, school), now, code, scope);
    var i :| 0 <= i < |Applicable(ms, school)| && GrantedIn(Applicable(ms, school)[i], now, code, scope);
    ApplicableIff(ms, school, Applicable(ms, school)[i]);
  }

  /** With the active school fixed, a further membership never lowers a scope. */
  lemma AddedMembershipNeverLowers(ms: seq<Membership>, more: seq<Membership>, school: Option<Id>, now: int, code: Code)
    requires forall m | m in ms :: m in more
    requires code in AddMemberships(Applicable(ms, school), now)
    ensures code in AddMemberships(Applicable(more, school), now)
    ensures Strength(AddMemberships(Applicable(ms, school), now)[code])
         <= Strength(AddMemberships(Applicable(more, school), now)[code])
  {
    forall c, s | Granted(Applicable(ms, school), now, c, s) ensures Granted(Applicable(more, school), now, c, s) {
      var i :| 0 <= i < |Applicable(ms, school)| && GrantedIn(Applicable(ms, school)[i], now, c, s);
      var m := Applicable(ms, school)[i];
      ApplicableIff(ms, school, m);
      ApplicableIff(more, school, m);
      var j :| 0 <= j < |Applicable(more, school)| && Applicable(more, school)[j] == m;
    }
    MoreGrantsNeverLower(Applicable(ms, school), Applicable(more, school), now, code);
  }

  lemma {:induction false} DefaultAppends(ms: seq<Membership>, m: Membership)
    ensures DefaultSchool(ms + [m]) == if DefaultSchool(ms).Some? then DefaultSchool(ms)
                                       else if m.isDefault then m.school else None
  {
    if ms == [] {
      assert [m][1..] == [];
      assert ms + [m] == [m];
    } else {
      DefaultAppends(ms[1..], m);
      assert (ms + [m])[1..] == ms[1..] + [m];
    }
  }

  lemma {:induction false} DefaultIsAccessible(ms: seq<Membership>, all: seq<Membership>, schools: map<Id, School>,
                                               organization: Id)
    requires forall m | m in ms :: m in all
    ensures DefaultSchool(ms).Some? ==> DefaultSchool(ms).value in Accessible(all, schools, organization)
  {
    if ms != [] {
      if ms[0].isDefault && ms[0].school.Some? {
        assert ms[0] in all;
        var i :| 0 <= i < |all| && all[i] == ms[0];
        assert all[i].school.value in Accessible(all, schools, organization);
      } else {
        assert forall m | m in ms[1..] :: m in ms;
        DefaultIsAccessible(ms[1..], all, schools, organization);
      }
    }
  }

  /**
   When no school is asked for, a membership added behind the others leaves the
   active school as it is exactly if there is a default already; or it brings
   the default, and for the school active so far; or it brings none and the
   accessible schools stay the same, or were not one and do not become one.
   */
  lemma AddedMembershipKeepsSchoolIff(ms: seq<Membership>, m: Membership, schools: map<Id, School>, organization: Id)
    ensures var before, after := Accessible(ms, schools, organization), Accessible(ms + [m], schools, organization);
      SelectSchool(ms + [m], after, None) == SelectSchool(ms, before, None)
      <==> if DefaultSchool(ms).Some? then true
           else if m.isDefault && m.school.Some? then SelectSchool(ms, before, None) == Ok(m.school)
           else before == after || (|before| != 1 && |after| != 1)
  {
    var before, after := Accessible(ms, schools, organization), Accessible(ms + [m], schools, organization);
    DefaultAppends(ms, m);
    DefaultIsAccessible(ms, ms, schools, organization);
    DefaultIsAccessible(ms + [m], ms + [m], schools, organization);
    AccessibleGrows(ms, m, schools, organization);
    if |before| == 1 && |after| == 1 {
      OnlyOne(after);
      assert before == {TheOnly(before)} && after == {TheOnly(after)};
      assert TheOnly(before) in after;
    }
  }

  lemma AccessibleGrows(ms: seq<Membership>, m: Membership, schools: map<Id, School>, organization: Id)
    ensures Accessible(ms, schools, organization) <= Accessible(ms + [m], schools, organization)
  {
    forall s | s in Accessible(ms, schools, organization) ensures s in Accessible(ms + [m], schools, organization) {
      if i :| 0 <= i < |ms| && ms[i].school == Some(s) {
        assert (ms + [m])[i].school == Some(s);
      } else {
        var i :| 0 <= i < |ms| && ms[i].school.None?;
        assert (ms + [m])[i].school.None?;
      }
    }
  }

  /** A school that was asked for and accessible stays the active one. */
  lemma AddedMembershipKeepsRequest(ms: seq<Membership>, m: Membership, schools: map<Id, School>, organization: Id,
                                    school: Id)
    requires school in Accessible(ms, schools, organization)
    ensures SelectSchool(ms + [m], Accessible(ms + [m], schools, organization), Some(school)) == Ok(Some(school))
  {
    AccessibleGrows(ms, m, schools, organization);
  }

  /**
   The active school does matter: someone with one school loses every grant of
   it, unless a school is requested, by joining a second without a default.
   */
  lemma SecondSchoolDropsTheActiveOne(m: Membership, n: Membership)
    requires m.school.Some? && n.school.Some? && m.school != n.school && !m.isDefault && !n.isDefault
    ensures SelectSchool([m], Accessible([m], map[], m.organization), None) == Ok(m.school)
    ensures SelectSchool([m, n], Accessible([m, n], map[], m.organization), None) == Ok(None)
    ensures Applicable([m, n], None) == []
  {
    AccessibleAre(m, n);
    assert [m, n][1..] == [n] && [m, n][..1] == [m] && [m][..0] == [];
    assert DefaultSchool([m, n]) == DefaultSchool([n]) == None;
    assert Applicable([m], None) == [];
  }

  lemma AccessibleAre(m: Membership, n: Membership)
    requires m.school.Some? && n.school.Some?
    ensures Accessible([m], map[], m.organization) == {m.school.value}
    ensures Accessible([m, n], map[], m.organization) == {m.school.value, n.school.value}
  {
    assert [m][0].school.value in Accessible([m], map[], m.organization);
    assert [m, n][0].school.value in Accessible([m, n], map[], m.organization);
    assert [m, n][1].school.value in Accessible([m, n], map[], m.organization);
  }

  // ------------------------------------------------------------------
  // Who holds what, membership by membership
  // ------------------------------------------------------------------

  /** The membership is active and today is not before its first day nor after its last. */
  predicate Holds(m: Membership, today: int) {
    m.active && !(m.start.Some? && today < m.start.value) && !(m.end.Some? && m.end.value < today)
  }

  /** The link has not expired and its role is still there. */
  predicate Works(link: RoleLink, now: int) {
    !(link.expiresAt.Some? && link.expiresAt.value <= now) && link.role.Some? && !link.role.value.archived
  }

  /** Among these memberships this one, by this link and permission, gives the permission in the school. */
  predicate Gives(all: seq<Membership>, today: int, school: Option<Id>, now: int, code: Code,
                  m: Membership, link: RoleLink, p: PermLink) {
    && m in all && Holds(m, today) && (m.school.None? || m.school == school)
    && link in m.links && Works(link, now) && p in link.role.value.permissions && p.permission == Some(code)
  }

  /** The scope it is given at: that of the permission if it has one, else that of the link, else that of the role. */
  predicate GivenAt(link: RoleLink, p: PermLink, scope: Scope) {
    match (p.override, link.override)
    case (Some(own), _) => scope == own
    case (None, Some(own)) => scope == own
    case (None, None) => link.role.Some? && scope == link.role.value.scope
  }

  /** OWN < ASSIGNED < SCHOOL < ORGANIZATION < PLATFORM. */
  predicate UpTo(a: Scope, b: Scope) {
    match b
    case OWN => a == OWN
    case ASSIGNED => a == OWN || a == ASSIGNED
    case SCHOOL => a != ORGANIZATION && a != PLATFORM
    case ORGANIZATION => a != PLATFORM
    case PLATFORM => true
  }

  lemma UpToIsStrength(a: Scope, b: Scope)
    ensures UpTo(a, b) <==> Strength(a) <= Strength(b)
  {
  }

  lemma GivenIsGranted(all: seq<Membership>, today: int, school: Option<Id>, now: int, code: Code, scope: Scope)
    ensures GrantedToday(all, today, school, now, code, scope)
       <==> exists m, link, p :: Gives(all, today, school, now, code, m, link, p) && GivenAt(link, p, scope)
  {
    if GrantedToday(all, today, school, now, code, scope) {
      var m :| m in all && InForce(m, today, school) && GrantedIn(m, now, code, scope);
      var i :| 0 <= i < |m.links| && GrantedBy(m.links[i], now, code, scope);
      var link := m.links[i];
      var j :| 0 <= j < |link.role.value.permissions| && link.role.value.permissions[j].permission == Some(code)
               && GrantScope(link, link.role.value.permissions[j]) == scope;
      assert Gives(all, today, school, now, code, m, link, link.role.value.permissions[j]);
    }
    if m, link, p :| Gives(all, today, school, now, code, m, link, p) && GivenAt(link, p, scope) {
      GivesIsGranted(all, today, school, now, code, scope, m, link, p);
    }
  }

  lemma GivesIsGranted(all: seq<Membership>, today: int, school: Option<Id>, now: int, code: Code, scope: Scope,
                       m: Membership, link: RoleLink, p: PermLink)
    requires Gives(all, today, school, now, code, m, link, p) && GivenAt(link, p, scope)
    ensures GrantedToday(all, today, school, now, code, scope)
  {
    var j :| 0 <= j < |link.role.value.permissions| && link.role.value.permissions[j] == p;
    assert GrantScope(link, link.role.value.permissions[j]) == scope;
    assert GrantedBy(link, now, code, scope);
    var i :| 0 <= i < |m.links| && m.links[i] == link;
    assert GrantedBy(m.links[i], now, code, scope);
    assert InForce(m, today, school) && GrantedIn(m, now, code, scope);
  }

  lemma ResolvedFolds(all: seq<Membership>, schools: map<Id, School>, requested: Option<Id>, today: int, now: int)
    requires Resolve(all, schools, requested, today, now).Ok?
    ensures var r := Resolve(all, schools, requested, today, now).value;
      var applicable := Applicable(Current(all, today), r.school);
      r.scopes == AddMemberships(applicable, now) && r.roles == RoleCodes(applicable, now)
  {
    if Current(all, today) == [] { assert Applicable([], None) == []; }
  }

  /**
   A resolved principal holds a permission exactly if some membership gives it
   in the active school, at a scope at which it is given and that no other one
   exceeds.
   */
  lemma HeldIff(all: seq<Membership>, schools: map<Id, School>, requested: Option<Id>, today: int, now: int, code: Code)
    requires Resolve(all, schools, requested, today, now).Ok?
    ensures var r := Resolve(all, schools, requested, today, now).value;
      && (code in r.scopes ==> exists m, link, p ::
            Gives(all, today, r.school, now, code, m, link, p) && GivenAt(link, p, r.scopes[code]))
      && (forall m, link, p, scope | Gives(all, today, r.school, now, code, m, link, p) && GivenAt(link, p, scope) ::
            code in r.scopes && UpTo(scope, r.scopes[code]))
  {
    ResolvedFolds(all, schools, requested, today, now);
    FoldHolds(all, today, Resolve(all, schools, requested, today, now).value.school, now, code);
  }

  lemma FoldHolds(all: seq<Membership>, today: int, school: Option<Id>, now: int, code: Code)
    ensures var scopes := AddMemberships(Applicable(Current(all, today), school), now);
      && (code in scopes ==> exists m, link, p ::
            Gives(all, today, school, now, code, m, link, p) && GivenAt(link, p, scopes[code]))
      && (forall m, link, p, scope | Gives(all, today, school, now, code, m, link, p) && GivenAt(link, p, scope) ::
            code in scopes && UpTo(scope, scopes[code]))
  {
    var scopes := AddMemberships(Applicable(Current(all, today), school), now);
    ResolvedIsStrongest(all, today, school, now);
    if code in scopes { GivenIsGranted(all, today, school, now, code, scopes[code]); }
    forall m, link, p, scope | Gives(all, today, school, now, code, m, link, p) && GivenAt(link, p, scope)
      ensures code in scopes && UpTo(scope, scopes[code])
    {
      GivesIsGranted(all, today, school, now, code, scope, m, link, p);
      FoldReaches(all, today, school, now, code, scope);
    }
  }

  lemma FoldReaches(all: seq<Membership>, today: int, school: Option<Id>, now: int, code: Code, scope: Scope)
    requires GrantedToday(all, today, school, now, code, scope)
    ensures var scopes := AddMemberships(Applicable(Current(all, today), school), now);
      code in scopes && UpTo(scope, scopes[code])
  {
    ResolvedIsStrongest(all, today, school, now);
    UpToIsStrength(scope, AddMemberships(Applicable(Current(all, today), school), now)[code]);
  }

  /** Every permission a membership gives is given at some scope. */
  lemma GivenSomewhere(link: RoleLink, p: PermLink)
    requires link.role.Some?
    ensures exists scope :: GivenAt(link, p, scope)
  {
    assert GivenAt(link, p, GrantScope(link, p));
  }

  /** The membership holds in the school and its link works and is to this role. */
  predicate HasRole(m: Membership, link: RoleLink, today: int, school: Option<Id>, now: int, code: Code) {
    && Holds(m, today) && (m.school.None? || m.school == school) && link in m.links && Works(link, now)
    && link.role.value.code == code
  }

  /** Its role codes are those of the working links of the memberships that hold in the active school. */
  lemma RoleHeldIff(all: seq<Membership>, schools: map<Id, School>, requested: Option<Id>, today: int, now: int,
                    code: Code)
    requires Resolve(all, schools, requested, today, now).Ok?
    ensures var r := Resolve(all, schools, requested, today, now).value;
      code in r.roles <==> exists m, link | m in all :: HasRole(m, link, today, r.school, now, code)
  {
    ResolvedFolds(all, schools, requested, today, now);
    var school := Resolve(all, schools, requested, today, now).value.school;
    if code in RoleCodes(Applicable(Current(all, today), school), now) { CodeHasRole(all, today, school, now, code); }
    if m, link :| m in all && HasRole(m, link, today, school, now, code) {
      RoleHasCode(all, today, school, now, code, m, link);
    }
  }

  lemma CodeHasRole(all: seq<Membership>, today: int, school: Option<Id>, now: int, code: Code)
    requires code in RoleCodes(Applicable(Current(all, today), school), now)
    ensures exists m, link | m in all :: HasRole(m, link, today, school, now, code)
  {
    var applicable := Applicable(Current(all, today), school);
    var i, j :| 0 <= i < |applicable| && 0 <= j < |applicable[i].links| && LinkCounts(applicable[i].links[j], now)
                && applicable[i].links[j].role.value.code == code;
    ApplicableIff(Current(all, today), school, applicable[i]);
    CurrentIff(all, today, applicable[i]);
    assert HasRole(applicable[i], applicable[i].links[j], today, school, now, code);
  }

  lemma RoleHasCode(all: seq<Membership>, today: int, school: Option<Id>, now: int, code: Code,
                    m: Membership, link: RoleLink)
    requires m in all && HasRole(m, link, today, school, now, code)
    ensures code in RoleCodes(Applicable(Current(all, today), school), now)
  {
    var applicable := Applicable(Current(all, today), school);
    CurrentIff(all, today, m);
    ApplicableIff(Current(all, today), school, m);
    var i :| 0 <= i < |applicable| && applicable[i] == m;
    var j :| 0 <= j < |m.links| && m.links[j] == link;
    assert LinkCounts(applicable[i].links[j], now);
  }

  /** The schools within reach: those of the memberships that hold, and with one of the organization its open ones. */
  lemma AccessibleIff(all: seq<Membership>, schools: map<Id, School>, requested: Option<Id>, today: int, now: int,
                      school: Id)
    requires Resolve(all, schools, requested, today, now).Ok?
    ensures var r := Resolve(all, schools, requested, today, now).value;
      && (r.organization.None? <==> forall m | m in all :: !Holds(m, today))
      && (school in r.accessible
          <==> || (exists m | m in all :: Holds(m, today) && m.school == Some(school))
               || ((exists m | m in all :: Holds(m, today) && m.school.None?) && school in schools
                   && Some(schools[school].organization) == r.organization && !schools[school].deleted
                   && schools[school].open))
  {
    var r := Resolve(all, schools, requested, today, now).value;
    var ms := Current(all, today);
    forall m ensures m in ms <==> m in all && Holds(m, today) { CurrentIff(all, today, m); }
    if ms != [] {
      assert ms[0] in ms;
      if m :| m in ms && m.school == Some(school) {
        var i :| 0 <= i < |ms| && ms[i] == m;
        assert ms[i].school.value in r.accessible;
      }
      if m :| m in ms && m.school.None? {
        var i :| 0 <= i < |ms| && ms[i] == m;
        assert ms[i].school.None?;
      }
    }
  }

  lemma {:induction false} CurrentConcat(a: seq<Membership>, b: seq<Membership>, today: int)
    ensures Current(a + b, today) == Current(a, today) + Current(b, today)
  {
    if b == [] {
      assert a + b == a;
    } else {
      CurrentConcat(a, b[..|b| - 1], today);
      assert (a + b)[..|a + b| - 1] == a + b[..|b| - 1];
    }
  }

  /** A membership not yet begun, already over or not active changes nothing: not the school, nor what is held there. */
  lemma OutOfForceChangesNothing(before: seq<Membership>, m: Membership, after: seq<Membership>,
                                 schools: map<Id, School>, requested: Option<Id>, today: int, now: int)
    requires !m.active || (m.start.Some? && m.start.value > today) || (m.end.Some? && m.end.value < today)
    ensures Resolve(before + [m] + after, schools, requested, today, now)
         == Resolve(before + after, schools, requested, today, now)
  {
    CurrentConcat(before + [m], after, today);
    CurrentConcat(before, [m], today);
    CurrentConcat(before, after, today);
    assert [m][..0] == [] && Current([m], today) == [];
    assert Current(before, today) + [] == Current(before, today);
  }

  /** What is resolved without a request, as far as the school goes. */
  lemma UnaskedSchool(all: seq<Membership>, schools: map<Id, School>, today: int, now: int)
    requires Current(all, today) != []
    ensures var ms, r := Current(all, today), Resolve(all, schools, None, today, now);
      var accessible := Accessible(ms, schools, ms[0].organization);
      && r.Ok? && r.value.organization == Some(ms[0].organization) && r.value.accessible == accessible
      && SelectSchool(ms, accessible, None) == Ok(r.value.school)
  {
  }

  /** On every day from its first to its last, both included, an active membership counts. */
  lemma CountsOnItsDays(m: Membership, schools: map<Id, School>, today: int, now: int)
    requires m.active && (m.start.None? || m.start.value <= today) && (m.end.None? || today <= m.end.value)
    ensures var r := Resolve([m], schools, None, today, now);
      && r.Ok? && r.value.organization == Some(m.organization)
      && (m.school.Some? ==> r.value.school == m.school && r.value.accessible == {m.school.value})
  {
    AloneIsCurrent(m, today);
    UnaskedSchool([m], schools, today, now);
    if m.school.Some? { OneSchool(m, schools); }
  }

  lemma AloneIsCurrent(m: Membership, today: int)
    ensures Current([m], today) == if Holds(m, today) then [m] else []
  {
    assert [m][..0] == [];
  }

  lemma OneSchool(m: Membership, schools: map<Id, School>)
    requires m.school.Some?
    ensures Accessible([m], schools, m.organization) == {m.school.value}
    ensures SelectSchool([m], {m.school.value}, None) == Ok(m.school)
  {
    assert [m][0].school.value in Accessible([m], schools, m.organization);
    assert [m][1..] == [];
  }

  /** The first membership that holds, is marked as the default and has a school. */
  predicate IsFirstDefault(all: seq<Membership>, today: int, i: nat) {
    && i < |all| && Holds(all[i], today) && all[i].isDefault && all[i].school.Some?
    && forall j | 0 <= j < i :: !(Holds(all[j], today) && all[j].isDefault && all[j].school.Some?)
  }

  lemma {:induction false} DefaultConcat(a: seq<Membership>, b: seq<Membership>)
    ensures DefaultSchool(a + b) == if DefaultSchool(a).Some? then DefaultSchool(a) else DefaultSchool(b)
  {
    if a == [] {
      assert a + b == b;
    } else {
      DefaultConcat(a[1..], b);
      assert (a + b)[1..] == a[1..] + b;
    }
  }

  lemma {:induction false} NoDefault(all: seq<Membership>, today: int)
    requires forall j | 0 <= j < |all| :: !(Holds(all[j], today) && all[j].isDefault && all[j].school.Some?)
    ensures DefaultSchool(Current(all, today)).None?
  {
    if all != [] {
      NoDefault(all[..|all| - 1], today);
      var init, last := Current(all[..|all| - 1], today), all[|all| - 1];
      if Holds(last, today) {
        DefaultConcat(init, [last]);
        assert [last][1..] == [];
      }
    }
  }

  /** Without a request the first default decides. */
  lemma FirstDefaultIsActive(all: seq<Membership>, schools: map<Id, School>, today: int, now: int, i: nat)
    requires IsFirstDefault(all, today, i)
    ensures var r := Resolve(all, schools, None, today, now); r.Ok? && r.value.school == all[i].school
  {
    var ms := Current(all, today);
    NoDefault(all[..i], today);
    CurrentConcat(all[..i], [all[i]], today);
    CurrentConcat(all[..i + 1], all[i + 1..], today);
    assert all[..i] + [all[i]] == all[..i + 1] && all[..i + 1] + all[i + 1..] == all;
    AloneIsCurrent(all[i], today);
    assert [all[i]][1..] == [];
    DefaultConcat(Current(all[..i], today), [all[i]]);
    DefaultConcat(Current(all[..i + 1], today), Current(all[i + 1..], today));
    DefaultIsAccessible(ms, ms, schools, ms[0].organization);
    UnaskedSchool(all, schools, today, now);
  }

  /** And without a default, the only school within reach if it is the only one; otherwise no school is active. */
  lemma WithoutDefaultTheOnlySchool(all: seq<Membership>, schools: map<Id, School>, today: int, now: int)
    requires forall i: nat :: !IsFirstDefault(all, today, i)
    ensures var r := Resolve(all, schools, None, today, now);
      && r.Ok?
      && (r.value.school.Some? <==> exists school :: r.value.accessible == {school})
      && (r.value.school.Some? ==> r.value.accessible == {r.value.school.value})
  {
    NoFirstDefault(all, today, |all|);
    NoDefault(all, today);
    var r := Resolve(all, schools, None, today, now);
    if school :| r.value.accessible == {school} { assert |r.value.accessible| == 1; }
  }

  lemma {:induction false} NoFirstDefault(all: seq<Membership>, today: int, n: nat)
    requires n <= |all| && forall i: nat :: !IsFirstDefault(all, today, i)
    ensures forall j | 0 <= j < n :: !(Holds(all[j], today) && all[j].isDefault && all[j].school.Some?)
  {
    if n > 0 {
      NoFirstDefault(all, today, n - 1);
      assert !IsFirstDefault(all, today, n - 1);
    }
  }
}
