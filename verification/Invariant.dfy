/** What an accepted configuration satisfies, and when accepting it again changes nothing. */
module Invariant {
  import opened Text
  import opened Grammar
  import opened Directory
  import opened Normalize
  import R = RuleSyntax

  // ----- the invariant -----

  predicate UserSettled(h: Digest, u: User, ts: seq<Tenant>) {
    UserOk(u, ts) && CanonUser(h, u) == u.(manager := Trim(u.manager))
  }

  /** Every part is valid, canonical and refers to configured tenants; managers apart. */
  predicate PartsSettled(h: Digest, c: Config) {
    && RestSettled(c)
    && (forall i | 0 <= i < |c.users| :: UserSettled(h, c.users[i], c.tenants))
    && DistinctUsers(c.users)
  }

  predicate RestSettled(c: Config) {
    && HeadSettled(c)
    && (forall i | 0 <= i < |c.tenants| :: TenantOk(c.tenants[i]) && CanonTenant(c.tenants[i], c.defaultGroupLimit) == c.tenants[i])
    && (forall i | 0 <= i < |c.apps| :: AppOk(c.apps[i], c.tenants) && CanonApp(c.apps[i]) == c.apps[i])
    && (forall i | 0 <= i < |c.consents| :: ConsentOk(c.consents[i], c.tenants) && CanonConsent(c.consents[i]) == c.consents[i])
    && c.tenants != [] && DistinctTids(c.tenants)
  }

  predicate HeadSettled(c: Config) {
    && PathSegment(c.basePath) && c.defaultGroupLimit > 0 && c.tokenExpiry > 0
    && c.graph.Some? && GraphOk(c.graph, c.basePath) && CanonGraph(c.graph) == c.graph.value
  }

  /** A manager is another user of the same tenant. */
  predicate ManagerNamed(c: Config, u: User) {
    u.manager == "" || (u.manager != u.username && HasUser(c, u.tid, u.manager))
  }

  predicate ManagersNamed(c: Config) {
    forall i | 0 <= i < |c.users| :: ManagerNamed(c, c.users[i])
  }

  predicate StaticsOk(c: Config) {
    forall i | 0 <= i < |c.users| :: StaticOk(c, c.users[i])
  }

  predicate DynamicsCurrent(c: Config) {
    forall i | 0 <= i < |c.users| :: c.users[i].dynamicGroups == Membership(c, c.users[i])
  }

  /** The whole invariant of a published configuration. */
  predicate Settled(h: Digest, c: Config) {
    PartsSettled(h, c) && ManagersNamed(c) && StaticsOk(c) && DynamicsCurrent(c)
  }

  /** Trimming a stored manager, then resolving it, gives it back. */
  predicate StableManager(c: Config, u: User) {
    var m := Trim(u.manager);
    u.manager == "" ||
    if HasUser(c, u.tid, m) then m == u.manager
    else m != "" && UserByKey(c, u.tid, m).Some? && UserByKey(c, u.tid, m).value.username == u.manager
  }

  predicate ManagersStable(c: Config) {
    forall i | 0 <= i < |c.users| :: StableManager(c, c.users[i])
  }

  /** No username has blanks around it. */
  predicate UsernamesTrimmed(us: seq<User>) {
    forall i | 0 <= i < |us| :: Trim(us[i].username) == us[i].username
  }

  // ----- lookups do not read managers or memberships -----

  function Bare(u: User): User {
    u.(manager := "", dynamicGroups := [])
  }

  function Bares(us: seq<User>): (r: seq<User>)
    ensures |r| == |us|
  {
    seq(|us|, i requires 0 <= i < |us| => Bare(us[i]))
  }

  function BareConfig(c: Config): Config {
    c.(users := Bares(c.users))
  }

  function BareOption(r: Option<User>): Option<User> {
    match r
    case None => None
    case Some(u) => Some(Bare(u))
  }

  lemma BaresTail(us: seq<User>)
    requires us != []
    ensures Bares(us)[1..] == Bares(us[1..]) && Bares(us)[0] == Bare(us[0])
  {
  }

  lemma {:induction false} FindUserBare(us: seq<User>, tid: string, username: string)
    ensures FindUser(Bares(us), tid, username) == BareOption(FindUser(us, tid, username))
  {
    if us != [] {
      BaresTail(us);
      FindUserBare(us[1..], tid, username);
    }
  }

  lemma BaresCons(u: User, us: seq<User>)
    ensures Bares([u] + us) == [Bare(u)] + Bares(us)
  {
  }

  lemma {:induction false} UsersWithBare(us: seq<User>, tid: string)
    ensures UsersWith(Bares(us), tid) == Bares(UsersWith(us, tid))
  {
    if us != [] {
      BaresTail(us);
      UsersWithBare(us[1..], tid);
      if tid == "" || us[0].tid == tid {
        BaresCons(us[0], UsersWith(us[1..], tid));
      }
    }
  }

  lemma {:induction false} FirstByOidBare(us: seq<User>, oid: string)
    ensures FirstByOid(Bares(us), oid) == BareOption(FirstByOid(us, oid))
  {
    if us != [] {
      BaresTail(us);
      FirstByOidBare(us[1..], oid);
    }
  }

  lemma {:induction false} FirstByNameBare(us: seq<User>, t: Tenant, key: string)
    ensures FirstByName(Bares(us), t, key) == BareOption(FirstByName(us, t, key))
  {
    if us != [] {
      hide Lower;
      BaresTail(us);
      assert PrincipalName(t, Bare(us[0])) == PrincipalName(t, us[0]);
      FirstByNameBare(us[1..], t, key);
    }
  }

  lemma UserByKeyBare(c: Config, tid: string, key: string)
    ensures UserByKey(BareConfig(c), tid, key) == BareOption(UserByKey(c, tid, key))
  {
    UsersWithBare(c.users, Lower(tid));
    FirstByOidBare(UsersIn(c, tid), Lower(Trim(key)));
    if TenantOf(c, tid).Some? {
      var t := TenantOf(c, tid).value;
      UsersWithBare(c.users, Lower(t.tid));
      FirstByNameBare(UsersIn(c, t.tid), t, Trim(key));
    }
  }

  lemma HasUserBare(c: Config, tid: string, username: string)
    ensures HasUser(BareConfig(c), tid, username) == HasUser(c, tid, username)
  {
    var b := BareConfig(c);
    if HasUser(c, tid, username) {
      var i :| 0 <= i < |c.users| && c.users[i].tid == tid && c.users[i].username == username;
      assert b.users[i].tid == tid && b.users[i].username == username;
    }
    if HasUser(b, tid, username) {
      var i :| 0 <= i < |b.users| && b.users[i].tid == tid && b.users[i].username == username;
      assert c.users[i].tid == tid && c.users[i].username == username;
    }
  }

  /** The user lookups agree on configurations that differ in managers and memberships only. */
  lemma SameLookups(c: Config, d: Config, tid: string, key: string)
    requires BareConfig(c) == BareConfig(d)
    ensures HasUser(c, tid, key) == HasUser(d, tid, key)
    ensures BareOption(UserByKey(c, tid, key)) == BareOption(UserByKey(d, tid, key))
    ensures BareOption(FindUser(c.users, tid, key)) == BareOption(FindUser(d.users, tid, key))
  {
    HasUserBare(c, tid, key);
    HasUserBare(d, tid, key);
    UserByKeyBare(c, tid, key);
    UserByKeyBare(d, tid, key);
    FindUserBare(c.users, tid, key);
    FindUserBare(d.users, tid, key);
  }

  lemma {:induction false} EvalSame<A>(e: Expr<A>, f: A -> bool, g: A -> bool)
    requires forall a :: f(a) == g(a)
    ensures Eval(e, f) == Eval(e, g)
  {
    match e {
      case Or(xs) =>
        forall x | x in xs
          ensures Eval(x, f) == Eval(x, g)
        {
          EvalSame(x, f, g);
        }
      case And(xs) =>
        forall x | x in xs
          ensures Eval(x, f) == Eval(x, g)
        {
          EvalSame(x, f, g);
        }
      case Not(x) => EvalSame(x, f, g);
      case Leaf(_) =>
    }
  }

  lemma SameRuleMatches(r: R.Rule, c: Config, d: Config, t: Tenant, u: User, v: User)
    requires BareConfig(c) == BareConfig(d) && Bare(u) == Bare(v) && u.manager == v.manager
    ensures RuleMatches(r, c, t, u) == RuleMatches(r, d, t, v)
  {
    hide UserByKey, Lower, BareConfig;
    match r {
      case Reports(oid) => SameLookups(c, d, Lower(u.tid), u.manager);
      case Boolean(e) =>
        forall a
          ensures Matches(a, t, u) == Matches(a, t, v)
        {
        }
        EvalSame(e, (a: R.Comparison) => Matches(a, t, u), (a: R.Comparison) => Matches(a, t, v));
    }
  }

  lemma {:induction false} SameMatching(c: Config, d: Config, t: Tenant, u: User, v: User, gs: seq<Group>)
    requires BareConfig(c) == BareConfig(d) && Bare(u) == Bare(v) && u.manager == v.manager
    ensures Matching(c, t, u, gs) == Matching(d, t, v, gs)
  {
    hide RuleMatches, BareConfig;
    if gs != [] {
      SameMatching(c, d, t, u, v, gs[1..]);
      if gs[0].rule.Some? {
        SameRuleMatches(gs[0].rule.value, c, d, t, u, v);
      }
    }
  }

  lemma SameMembership(c: Config, d: Config, u: User, v: User)
    requires BareConfig(c) == BareConfig(d) && Bare(u) == Bare(v) && u.manager == v.manager
    ensures Membership(c, u) == Membership(d, v)
    ensures StaticOk(c, u) == StaticOk(d, v)
  {
    assert TenantOf(c, u.tid) == TenantOf(d, v.tid);
    if TenantOf(c, u.tid).Some? {
      SameMatching(c, d, TenantOf(c, u.tid).value, u, v, TenantOf(c, u.tid).value.groups);
    }
    assert u.groups == v.groups && GroupsDeclared(c, u.tid) == GroupsDeclared(d, v.tid);
  }

  // ----- an accepted configuration is settled -----

  lemma UserSettledBare(h: Digest, u: User, v: User, ts: seq<Tenant>)
    requires Bare(u) == Bare(v)
    ensures UserSettled(h, u, ts) == UserSettled(h, v, ts)
  {
    hide Lower, Trim, CanonTid, CanonWids, CanonOid, HasTid, IsGuid, Bare;
    BareFields(u, v);
    BareOid(h, u, v);
    assert UserOk(u, ts) == UserOk(v, ts);
    assert CanonUser(h, v) == CanonUser(h, u).(manager := Trim(v.manager), dynamicGroups := v.dynamicGroups);
  }

  lemma BareFields(u: User, v: User)
    requires Bare(u) == Bare(v)
    ensures v == u.(manager := v.manager, dynamicGroups := v.dynamicGroups)
  {
  }

  lemma BareOid(h: Digest, u: User, v: User)
    requires v == u.(manager := v.manager, dynamicGroups := v.dynamicGroups)
    ensures CanonOid(h, u) == CanonOid(h, v)
  {
  }

  lemma RestSettledBare(c: Config, d: Config)
    requires c.(users := []) == d.(users := []) && RestSettled(c)
    ensures RestSettled(d)
  {
    hide AppOk, TenantOk, ConsentOk, HeadSettled;
    assert d.tenants == c.(users := []).tenants && d.apps == c.(users := []).apps && d.consents == c.(users := []).consents;
    assert d.defaultGroupLimit == c.(users := []).defaultGroupLimit;
    HeadSettledBare(c, d);
  }

  lemma HeadSettledBare(c: Config, d: Config)
    requires c.(users := []) == d.(users := []) && HeadSettled(c)
    ensures HeadSettled(d)
  {
    hide GraphOk, CanonGraph, PathSegment;
    var e := c.(users := []);
    assert d.basePath == e.basePath && d.graph == e.graph && d.tokenExpiry == e.tokenExpiry;
    assert d.defaultGroupLimit == e.defaultGroupLimit;
  }

  lemma PartsSettledBare(h: Digest, c: Config, d: Config)
    requires BareConfig(c) == BareConfig(d) && PartsSettled(h, c)
    ensures PartsSettled(h, d)
  {
    hide RestSettled, UserSettled;
    assert |c.users| == |BareConfig(c).users| == |d.users|;
    assert c.(users := []) == d.(users := []) by {
      assert BareConfig(c).(users := []) == BareConfig(d).(users := []);
    }
    assert c.(users := []).tenants == d.(users := []).tenants;
    forall i | 0 <= i < |d.users|
      ensures UserSettled(h, d.users[i], d.tenants)
      ensures d.users[i].tid == c.users[i].tid && d.users[i].username == c.users[i].username
    {
      assert BareConfig(c).users[i] == BareConfig(d).users[i];
      UserSettledBare(h, c.users[i], d.users[i], d.tenants);
    }
    RestSettledBare(c, d);
  }

  lemma CanonHead(h: Digest, c: Config)
    requires PartsOk(h, c)
    ensures HeadSettled(Canon(h, c))
  {
    hide TenantOk, AppOk, ConsentOk, UserOk, CanonUsers, CanonTenants, CanonGraph, GraphOk, PathSegment;
    CanonGraphStable(c.graph, CanonBasePath(c.basePath));
  }

  lemma CanonTenantsSettled(ts: seq<Tenant>, limit: int)
    requires limit > 0 && forall i | 0 <= i < |ts| :: TenantOk(ts[i])
    ensures forall i | 0 <= i < |ts| :: TenantOk(CanonTenants(ts, limit)[i])
    ensures forall i | 0 <= i < |ts| :: CanonTenant(CanonTenants(ts, limit)[i], limit) == CanonTenants(ts, limit)[i]
  {
    hide TenantOk, CanonTenant;
    forall i | 0 <= i < |ts|
      ensures TenantOk(CanonTenants(ts, limit)[i]) && CanonTenant(CanonTenants(ts, limit)[i], limit) == CanonTenants(ts, limit)[i]
    {
      CanonTenantStable(ts[i], limit);
    }
  }

  lemma CanonRest(h: Digest, c: Config)
    requires PartsOk(h, c)
    ensures RestSettled(Canon(h, c))
  {
    hide TenantOk, CanonTenant, AppOk, CanonApp, HeadSettled, GraphOk, CanonGraph, PathSegment, UserOk, CanonUser;
    var d := Canon(h, c);
    CanonHead(h, c);
    CanonTenantsSettled(c.tenants, d.defaultGroupLimit);
    forall i | 0 <= i < |c.apps|
      ensures AppOk(d.apps[i], d.tenants) && CanonApp(d.apps[i]) == d.apps[i]
    {
      CanonAppStable(c.apps[i], d.tenants);
    }
    forall i | 0 <= i < |c.consents|
      ensures ConsentOk(d.consents[i], d.tenants) && CanonConsent(d.consents[i]) == d.consents[i]
    {
      CanonTidStable(c.consents[i].tid);
    }
  }

  lemma CanonUserSettled(h: Digest, u: User, ts: seq<Tenant>)
    requires UserOk(u, ts)
    ensures UserSettled(h, CanonUser(h, u), ts)
  {
    CanonUserStable(h, u, ts);
  }

  lemma CanonSettled(h: Digest, c: Config)
    requires PartsOk(h, c)
    ensures PartsSettled(h, Canon(h, c))
  {
    hide RestSettled, UserOk, UserSettled, AppOk, TenantOk, GraphOk, CanonUser;
    var d := Canon(h, c);
    CanonRest(h, c);
    forall i | 0 <= i < |c.users|
      ensures UserSettled(h, d.users[i], d.tenants)
    {
      CanonUserSettled(h, c.users[i], d.tenants);
    }
  }

  lemma BareUnchanged(c: Config, d: Config)
    requires c.(users := []) == d.(users := []) && |c.users| == |d.users|
    requires forall i | 0 <= i < |c.users| :: Bare(c.users[i]) == Bare(d.users[i])
    ensures BareConfig(c) == BareConfig(d)
  {
    assert Bares(c.users) == Bares(d.users);
    assert BareConfig(c) == c.(users := []).(users := Bares(c.users));
    assert BareConfig(d) == d.(users := []).(users := Bares(d.users));
  }

  /** Whatever normalize accepts satisfies the whole invariant. */
  lemma AcceptedIsSettled(h: Digest, c: Config)
    requires Normalized(h, c).Some?
    ensures Settled(h, Normalized(h, c).value)
  {
    hide PartsSettled, PartsOk, Canon, ManagersNamed, StaticsOk, DynamicsCurrent, StaticOk, ManagerOk;
    var d := Canon(h, c);
    var e := WithManagers(d);
    CanonSettled(h, c);
    BareUnchanged(d, e);
    BareUnchanged(e, WithDynamic(e));
    PartsSettledBare(h, d, WithDynamic(e));
    ResolvedAreNamed(d);
    EvaluatedAreCurrent(e);
  }

  lemma ResolvedAreNamed(d: Config)
    requires ManagersOk(d)
    ensures ManagersNamed(WithDynamic(WithManagers(d)))
  {
    hide Membership, Resolved, HasUser;
    var e := WithManagers(d);
    var f := WithDynamic(e);
    BareUnchanged(d, e);
    BareUnchanged(e, f);
    forall i | 0 <= i < |f.users|
      ensures ManagerNamed(f, f.users[i])
    {
      var u, v := d.users[i], f.users[i];
      assert v.manager == Resolved(d, u) && v.tid == u.tid && v.username == u.username;
      assert ManagerOk(d, u);
      if u.manager == "" {
        NoManagerResolvesToNone(d, u);
      }
      HasUserSame(d, f, u.tid, v.manager);
    }
  }

  lemma NoManagerResolvesToNone(d: Config, u: User)
    requires u.manager == ""
    ensures Resolved(d, u) == ""
  {
  }

  lemma HasUserSame(c: Config, d: Config, tid: string, key: string)
    requires BareConfig(c) == BareConfig(d)
    ensures HasUser(c, tid, key) == HasUser(d, tid, key)
  {
    HasUserBare(c, tid, key);
    HasUserBare(d, tid, key);
  }

  lemma EvaluatedAreCurrent(e: Config)
    requires forall i | 0 <= i < |e.users| :: StaticOk(e, e.users[i])
    ensures StaticsOk(WithDynamic(e)) && DynamicsCurrent(WithDynamic(e))
  {
    hide Membership, StaticOk;
    var f := WithDynamic(e);
    BareUnchanged(e, f);
    forall i | 0 <= i < |f.users|
      ensures StaticOk(f, f.users[i]) && f.users[i].dynamicGroups == Membership(f, f.users[i])
    {
      SameMembership(e, f, e.users[i], f.users[i]);
    }
  }

  // ----- normalizing again -----

  function TrimManagers(c: Config): Config {
    c.(users := seq(|c.users|, i requires 0 <= i < |c.users| => c.users[i].(manager := Trim(c.users[i].manager))))
  }

  lemma SettledHead(c: Config)
    requires HeadSettled(c)
    ensures CanonBasePath(c.basePath) == c.basePath
  {
    SegmentIsTrimmed(c.basePath);
  }

  lemma SettledUsers(h: Digest, c: Config)
    requires forall i | 0 <= i < |c.users| :: UserSettled(h, c.users[i], c.tenants)
    ensures CanonUsers(h, c.users) == TrimManagers(c).users
    ensures forall i | 0 <= i < |c.users| :: UserOk(c.users[i], c.tenants)
    ensures DistinctUsers(c.users) ==> DistinctUsers(TrimManagers(c).users)
  {
    hide UserOk, CanonUser, Trim;
    forall i | 0 <= i < |c.users|
      ensures CanonUsers(h, c.users)[i] == TrimManagers(c).users[i]
    {
      assert UserSettled(h, c.users[i], c.tenants);
    }
  }

  lemma SettledRest(h: Digest, c: Config)
    requires RestSettled(c)
    ensures Canon(h, c) == c.(users := CanonUsers(h, c.users))
  {
    hide AppOk, CanonApp, ConsentOk, CanonConsent, GraphOk, CanonGraph, PathSegment, UserOk, CanonUser, TenantOk, CanonTenant, CanonBasePath;
    var d := Canon(h, c);
    SettledHead(c);
    assert d.tenants == c.tenants;
    assert d.apps == c.apps;
    assert d.consents == c.consents;
  }

  lemma SettledParts(h: Digest, c: Config)
    requires PartsSettled(h, c)
    ensures PartsOk(h, c) && Canon(h, c) == TrimManagers(c)
  {
    hide AppOk, CanonApp, ConsentOk, CanonConsent, GraphOk, CanonGraph, PathSegment, UserOk, CanonUsers, UserSettled, TenantOk, CanonTenant, CanonBasePath, Canon;
    SettledRest(h, c);
    SettledUsers(h, c);
    assert Canon(h, c) == TrimManagers(c);
  }

  lemma StaticOkIgnoresManager(c: Config, u: User, v: User)
    requires Bare(u) == Bare(v)
    ensures StaticOk(c, u) == StaticOk(c, v)
  {
    assert u.groups == Bare(u).groups == v.groups && u.tid == Bare(u).tid == v.tid;
  }

  /** The verdict on a configuration whose parts are settled rests on its managers and static members alone. */
  lemma NormalizedOfParts(h: Digest, c: Config)
    requires PartsSettled(h, c)
    ensures var d := TrimManagers(c);
            && (Normalized(h, c).Some? <==> ManagersOk(d) && StaticsOk(c))
            && (Normalized(h, c).Some? ==> Normalized(h, c).value == WithDynamic(WithManagers(d)))
  {
    hide PartsSettled, PartsOk, Canon, Membership, StaticOk, Resolved, HasUser, ManagersOk;
    SettledParts(h, c);
    var d := TrimManagers(c);
    var e := WithManagers(d);
    BareUnchanged(c, d);
    BareUnchanged(d, e);
    forall i | 0 <= i < |c.users|
      ensures StaticOk(e, e.users[i]) == StaticOk(c, c.users[i])
    {
      var v := c.users[i].(manager := e.users[i].manager);
      SameMembership(c, e, v, e.users[i]);
      StaticOkIgnoresManager(c, c.users[i], v);
    }
  }

  lemma StableManagerResolves(c: Config, u: User)
    requires ManagerNamed(c, u)
    ensures var d := TrimManagers(c); var v := u.(manager := Trim(u.manager));
            (StableManager(c, u) <==> Resolved(d, v) == u.manager) && (StableManager(c, u) ==> ManagerOk(d, v))
  {
    hide Lower, Trim, UserByKey, HasUser, BareConfig;
    var d := TrimManagers(c);
    TrimIdempotent(u.manager);
    TrimEmpty();
    BareUnchanged(c, d);
    SameLookups(c, d, u.tid, Trim(u.manager));
    SameLookups(c, d, u.tid, u.manager);
  }

  lemma StableManagersResolve(c: Config)
    requires ManagersNamed(c)
    ensures WithManagers(TrimManagers(c)) == c <==> ManagersStable(c)
    ensures ManagersStable(c) ==> ManagersOk(TrimManagers(c))
  {
    var d := TrimManagers(c);
    var e := WithManagers(d);
    forall i | 0 <= i < |c.users|
      ensures StableManager(c, c.users[i]) <==> e.users[i] == c.users[i]
      ensures StableManager(c, c.users[i]) ==> ManagerOk(d, d.users[i])
    {
      StableManagerResolves(c, c.users[i]);
      assert d.users[i] == c.users[i].(manager := Trim(c.users[i].manager));
      assert e.users[i] == c.users[i].(manager := e.users[i].manager);
    }
    if ManagersStable(c) {
      assert e.users == c.users;
      assert e == c;
    }
  }

  lemma WithDynamicCurrent(c: Config)
    ensures WithDynamic(c) == c <==> DynamicsCurrent(c)
  {
    if DynamicsCurrent(c) {
      assert WithDynamic(c).users == c.users;
      assert WithDynamic(c) == c;
    }
  }

  /** A configuration with settled parts, named and stable managers is accepted, and only its
      dynamic memberships are recomputed. */
  lemma Reaccepted(h: Digest, c: Config)
    requires PartsSettled(h, c) && ManagersNamed(c) && ManagersStable(c)
    ensures Normalized(h, c) == if StaticsOk(c) then Some(WithDynamic(c)) else None
  {
    hide PartsSettled, Normalized, ManagerNamed, StableManager, ManagersOk, StaticOk, WithManagers, WithDynamic;
    NormalizedOfParts(h, c);
    StableManagersResolve(c);
  }

  lemma TrimmedAreStable(c: Config)
    requires ManagersNamed(c) && UsernamesTrimmed(c.users)
    ensures ManagersStable(c)
  {
    forall i | 0 <= i < |c.users|
      ensures StableManager(c, c.users[i])
    {
      assert ManagerNamed(c, c.users[i]);
      if c.users[i].manager != "" {
        var j :| 0 <= j < |c.users| && c.users[j].tid == c.users[i].tid && c.users[j].username == c.users[i].manager;
      }
    }
  }

  lemma SettledStays(h: Digest, d: Config)
    requires Settled(h, d) && ManagersStable(d)
    ensures Normalized(h, d) == Some(d)
  {
    hide PartsSettled, Normalized, ManagersNamed, ManagersStable, StaticsOk, DynamicsCurrent, WithDynamic;
    Reaccepted(h, d);
    WithDynamicCurrent(d);
  }

  lemma StayingIsStable(h: Digest, d: Config)
    requires Settled(h, d) && Normalized(h, d) == Some(d)
    ensures ManagersStable(d)
  {
    hide PartsSettled, Normalized, StaticsOk, DynamicsCurrent, Membership, Resolved, StableManager, ManagerNamed, ManagerOk;
    NormalizedOfParts(h, d);
    var e := WithManagers(TrimManagers(d));
    forall i | 0 <= i < |d.users|
      ensures StableManager(d, d.users[i])
    {
      StableManagerResolves(d, d.users[i]);
      assert WithDynamic(e).users[i].manager == e.users[i].manager == d.users[i].manager;
    }
  }

  /** Normalize is a fixed point of its own output exactly when every stored manager survives being
      trimmed and resolved again. */
  lemma FixedPointExactly(h: Digest, c: Config)
    requires Normalized(h, c).Some?
    ensures var d := Normalized(h, c).value; Normalized(h, d) == Some(d) <==> ManagersStable(d)
  {
    hide Settled, Normalized, ManagersStable;
    var d := Normalized(h, c).value;
    AcceptedIsSettled(h, c);
    if ManagersStable(d) {
      SettledStays(h, d);
    }
    if Normalized(h, d) == Some(d) {
      StayingIsStable(h, d);
    }
  }

  /** In particular with usernames free of surrounding blanks. */
  lemma FixedPoint(h: Digest, c: Config)
    requires Normalized(h, c).Some? && UsernamesTrimmed(c.users)
    ensures var d := Normalized(h, c).value; Normalized(h, d) == Some(d)
  {
    hide PartsOk, PartsSettled, Membership, StaticOk, Resolved, HasUser, ManagerOk, ManagersStable, ManagersNamed, StaticsOk, DynamicsCurrent, Trim;
    var d := Normalized(h, c).value;
    AcceptedIsSettled(h, c);
    assert forall i | 0 <= i < |c.users| :: d.users[i].username == c.users[i].username;
    TrimmedAreStable(d);
    SettledStays(h, d);
  }
}
