/** What accepting a configuration, or an edit, does to every part of it. */
module Effects {
  import opened Text
  import opened Directory
  import opened Normalize
  import opened Invariant
  import opened Edits
  import R = RuleSyntax

  // ----- what normalization makes of each part -----

  /** An accepted account: ids canonical, a name and an object id given to whoever has none. */
  lemma AccountSays(h: Digest, u: User)
    ensures var v := CanonUser(h, u);
            && v.tid == Lower(Trim(u.tid)) && v.username == u.username && v.upn == Lower(Trim(u.upn)) && v.manager == Trim(u.manager)
            && v.name == (if u.name == "" then u.username else u.name)
            && v.oid == (if u.oid == "" then UuidV5(h, UserIds, Lower(Trim(u.tid)) + ":" + u.username) else Lower(u.oid))
            && |v.wids| == |u.wids| && (forall i | 0 <= i < |u.wids| :: v.wids[i] == Lower(Trim(u.wids[i])))
            && v.email == u.email && v.groups == u.groups && v.error == u.error && v.mfa == u.mfa
            && v.accountEnabled == u.accountEnabled && v.org == u.org && v.profile == u.profile
  {
    hide UuidV5, Lower, Trim;
  }

  /** An accepted tenant: names in claims and the configured limit where nothing else is asked for. */
  lemma TenantSays(t: Tenant, limit: int)
    ensures var v := CanonTenant(t, limit);
            && v.tid == Lower(Trim(t.tid)) && v.name == (if t.name == "" then Lower(Trim(t.tid)) else t.name)
            && v.groupClaimFormat == (if t.groupClaimFormat == "" then "name" else t.groupClaimFormat)
            && v.groupLimit == (if t.groupLimit <= 0 then limit else t.groupLimit)
            && v.domains == t.domains && v.consentRequired == t.consentRequired && |v.groups| == |t.groups|
            && (forall i | 0 <= i < |t.groups| ::
                 v.groups[i] == t.groups[i].(name := Trim(t.groups[i].name), oid := Lower(Trim(t.groups[i].oid)),
                                             membershipRule := Trim(t.groups[i].membershipRule),
                                             rule := if Trim(t.groups[i].membershipRule) == "" then None
                                                     else R.ParseRule(Trim(t.groups[i].membershipRule))))
  {
    hide Lower, Trim, R.ParseRule;
  }

  /** An accepted app and consent: ids canonical, claim mappings trimmed; nothing else changes. */
  lemma AppSays(a: App, x: Consent)
    ensures var v := CanonApp(a);
            && v.clientId == Trim(a.clientId) && v.tid == Lower(Trim(a.tid)) && v == a.(clientId := v.clientId, tid := v.tid, claims := v.claims)
            && |v.claims| == |a.claims| && (forall i | 0 <= i < |a.claims| ::
                 v.claims[i] == ClaimMapping(Trim(a.claims[i].name), Trim(a.claims[i].source)))
    ensures CanonConsent(x) == x.(tid := Lower(Trim(x.tid)))
  {
    hide Lower, Trim;
  }

  /** An accepted Graph block: on, at graph, with its defaults, page sizes in order. */
  lemma GraphSays(block: Option<GraphConfig>)
    ensures block.None? ==> CanonGraph(block) == GraphConfig(Some(true), Lower("graph"), "self", Some(true), false, 100, 999, Some(60))
    ensures block.Some? ==> var b, g := block.value, CanonGraph(block);
              && g.enabled == (if b.enabled.None? then Some(true) else b.enabled)
              && g.userInfo == (if b.userInfo.None? then Some(true) else b.userInfo) && g.appOnly == b.appOnly
              && g.overageEndpoint == (if b.overageEndpoint == "" then "self" else b.overageEndpoint)
              && g.clockSkew == Some(if b.clockSkew.Some? then b.clockSkew.value else 60)
              && g.maxPageSize == (if b.maxPageSize <= 0 then 999 else b.maxPageSize)
              && g.defaultPageSize <= g.maxPageSize
              && (b.defaultPageSize <= g.maxPageSize && b.defaultPageSize > 0 ==> g.defaultPageSize == b.defaultPageSize)
              && (b.defaultPageSize <= 0 ==> g.defaultPageSize == if g.maxPageSize < 100 then g.maxPageSize else 100)
  {
    hide Lower, TrimSlashes;
    TrimEmpty();
    NothingToTrim();
  }

  lemma NothingToTrim()
    ensures TrimSlashes("") == ""
  {
  }

  /** The whole of an accepted configuration, part by part, but for managers and memberships. */
  lemma AcceptedPartByPart(h: Digest, c: Config)
    requires Normalized(h, c).Some?
    ensures var d := Normalized(h, c).value; var limit := if c.defaultGroupLimit <= 0 then 200 else c.defaultGroupLimit;
            && d.defaultGroupLimit == limit && d.tokenExpiry == (if c.tokenExpiry <= 0 then 3600 else c.tokenExpiry)
            && d.ignoreLoginHint == c.ignoreLoginHint && d.basePath == CanonBasePath(c.basePath) && d.graph == Some(CanonGraph(c.graph))
            && |d.tenants| == |c.tenants| && (forall i | 0 <= i < |c.tenants| :: d.tenants[i] == CanonTenant(c.tenants[i], limit))
            && |d.apps| == |c.apps| && (forall i | 0 <= i < |c.apps| :: d.apps[i] == CanonApp(c.apps[i]))
            && |d.consents| == |c.consents| && (forall i | 0 <= i < |c.consents| :: d.consents[i] == CanonConsent(c.consents[i]))
            && |d.users| == |c.users| && (forall i | 0 <= i < |c.users| :: Bare(d.users[i]) == Bare(CanonUser(h, c.users[i])))
  {
    hide PartsOk, ManagersOk, StaticOk, Membership, Resolved, CanonUser, CanonTenant, CanonApp, CanonConsent, CanonGraph, CanonBasePath;
    var d := Canon(h, c);
    var e := WithManagers(d);
    forall i | 0 <= i < |c.users|
      ensures Bare(WithDynamic(e).users[i]) == Bare(CanonUser(h, c.users[i]))
    {
      assert WithDynamic(e).users[i] == e.users[i].(dynamicGroups := Membership(e, e.users[i]));
      assert e.users[i] == d.users[i].(manager := Resolved(d, d.users[i]));
    }
  }

  // ----- what is accepted -----

  /** The rules a configuration must meet, on its text as given. */
  ghost predicate GroupsPass(gs: seq<Group>) {
    && (forall g | g in gs ::
         && Trim(g.name) != "" && (Trim(g.oid) == "" || IsGuid(Lower(Trim(g.oid))))
         && (Trim(g.membershipRule) == "" || R.ParseRule(Trim(g.membershipRule)).Some?))
    && (forall i, j | 0 <= i < j < |gs| :: Trim(gs[i].name) != Trim(gs[j].name))
  }

  ghost predicate TenantsPass(ts: seq<Tenant>) {
    && ts != []
    && (forall t | t in ts :: IsGuid(Lower(Trim(t.tid))) && t.groupClaimFormat in {"", "name", "object_id"} && GroupsPass(t.groups))
    && (forall i, j | 0 <= i < j < |ts| :: Lower(Trim(ts[i].tid)) != Lower(Trim(ts[j].tid)))
  }

  ghost predicate Houses(ts: seq<Tenant>, tid: string) {
    exists t | t in ts :: Lower(Trim(t.tid)) == Lower(Trim(tid))
  }

  ghost predicate ClaimsPass(ms: seq<ClaimMapping>) {
    && (forall m | m in ms :: Trim(m.name) != "" && Trim(m.name) !in RESERVED_CLAIMS && ClaimSource(Trim(m.source)).Some?)
    && (forall i, j | 0 <= i < j < |ms| :: Trim(ms[i].name) != Trim(ms[j].name))
  }

  ghost predicate AppsPass(xs: seq<App>, ts: seq<Tenant>) {
    forall a | a in xs :: Trim(a.clientId) != "" && (Trim(a.tid) == "" || Houses(ts, a.tid)) && ClaimsPass(a.claims)
  }

  ghost predicate ConsentsPass(xs: seq<Consent>, ts: seq<Tenant>) {
    forall x | x in xs :: x.clientId != "" && Houses(ts, x.tid)
  }

  ghost predicate UserPasses(u: User, ts: seq<Tenant>) {
    && u.username != "" && Houses(ts, u.tid)
    && (u.error == "" || u.error == "interaction_required" || u.error == "access_denied" || u.error == "invalid_grant")
    && (u.mfa == "" || u.mfa == "passkey")
    && (u.oid == "" || IsGuid(Lower(u.oid))) && forall w | w in u.wids :: IsGuid(Lower(Trim(w)))
  }

  ghost predicate UsersPass(us: seq<User>, ts: seq<Tenant>) {
    && (forall u | u in us :: UserPasses(u, ts))
    && (forall i, j | 0 <= i < j < |us| :: Lower(Trim(us[i].tid)) == Lower(Trim(us[j].tid)) ==> us[i].username != us[j].username)
  }

  ghost predicate GraphPass(g: GraphConfig, basePath: string) {
    var segment := if TrimSlashes(Trim(g.basePath)) == "" then "graph" else TrimSlashes(Trim(g.basePath));
    && PathSegment(segment) && Lower(segment) !in {"_entra", "organizations", "common", basePath} && !IsGuid(Lower(segment))
    && g.overageEndpoint in {"", "self", "microsoft"} && (g.clockSkew.Some? ==> g.clockSkew.value >= 0)
  }

  /** Every manager names another account of the tenant: by username, else by object id or principal name. */
  ghost predicate ManagersPass(c: Config) {
    forall u | u in c.users && u.manager != "" ::
      if exists m | m in c.users :: m.tid == u.tid && m.username == u.manager then u.manager != u.username
      else UserByKey(c, u.tid, u.manager).Some? && UserByKey(c, u.tid, u.manager).value.username != u.username
  }

  /** Nobody is a static member of a group with a rule. */
  ghost predicate StaticsPass(us: seq<User>, ts: seq<Tenant>) {
    forall u, t, g | u in us && t in ts && g in t.groups ::
      Lower(Trim(t.tid)) == Lower(Trim(u.tid)) && Trim(g.name) in u.groups ==> Trim(g.membershipRule) == ""
  }

  lemma EachOf<T>(xs: seq<T>, p: T -> bool)
    ensures (forall i | 0 <= i < |xs| :: p(xs[i])) <==> forall x | x in xs :: p(x)
  {
  }

  lemma GroupsChecked(gs: seq<Group>)
    ensures GroupsOk(gs) <==> GroupsPass(gs)
  {
    hide IsGuid, Lower, Trim, R.ParseRule;
    var cs := CanonGroups(gs);
    assert forall i | 0 <= i < |gs| :: cs[i].name == Trim(gs[i].name);
    assert DistinctGroups(cs) <==> forall i, j | 0 <= i < j < |gs| :: Trim(gs[i].name) != Trim(gs[j].name);
    forall g: Group
      ensures GroupOk(g) <==>
                && Trim(g.name) != "" && (Trim(g.oid) == "" || IsGuid(Lower(Trim(g.oid))))
                && (Trim(g.membershipRule) == "" || R.ParseRule(Trim(g.membershipRule)).Some?)
    {
      LowerKeepsLength(Trim(g.oid));
    }
    EachOf(gs, (g: Group) => GroupOk(g));
  }

  lemma TenantsChecked(ts: seq<Tenant>, limit: int)
    ensures (ts != [] && (forall i | 0 <= i < |ts| :: TenantOk(ts[i])) && DistinctTids(CanonTenants(ts, limit))) <==> TenantsPass(ts)
  {
    hide IsGuid, Lower, Trim, GroupsOk, GroupsPass;
    var cs := CanonTenants(ts, limit);
    assert forall i | 0 <= i < |ts| :: cs[i].tid == Lower(Trim(ts[i].tid));
    assert DistinctTids(cs) <==> forall i, j | 0 <= i < j < |ts| :: Lower(Trim(ts[i].tid)) != Lower(Trim(ts[j].tid));
    forall t: Tenant
      ensures TenantOk(t) <==> IsGuid(Lower(Trim(t.tid))) && t.groupClaimFormat in {"", "name", "object_id"} && GroupsPass(t.groups)
    {
      GroupsChecked(t.groups);
    }
    EachOf(ts, (t: Tenant) => TenantOk(t));
  }

  lemma HousesTid(ts: seq<Tenant>, limit: int, tid: string)
    ensures HasTid(CanonTenants(ts, limit), CanonTid(tid)) <==> Houses(ts, tid)
  {
    hide Lower, Trim;
    var cs := CanonTenants(ts, limit);
    if k :| 0 <= k < |cs| && cs[k].tid == CanonTid(tid) {
      assert ts[k] in ts && cs[k].tid == CanonTid(ts[k].tid);
    }
    if t :| t in ts && Lower(Trim(t.tid)) == Lower(Trim(tid)) {
      var k :| 0 <= k < |ts| && ts[k] == t;
      assert cs[k].tid == CanonTid(t.tid);
    }
  }

  lemma ClaimsChecked(ms: seq<ClaimMapping>)
    ensures ClaimsOk(ms) <==> ClaimsPass(ms)
  {
    hide Trim, ClaimSource, RESERVED_CLAIMS;
    var cs := CanonClaims(ms);
    assert forall i | 0 <= i < |ms| :: cs[i].name == Trim(ms[i].name);
    assert DistinctClaims(cs) <==> forall i, j | 0 <= i < j < |ms| :: Trim(ms[i].name) != Trim(ms[j].name);
    EachOf(ms, (m: ClaimMapping) => MappingOk(m));
  }

  lemma AppsChecked(xs: seq<App>, ts: seq<Tenant>, limit: int)
    ensures (forall i | 0 <= i < |xs| :: AppOk(xs[i], CanonTenants(ts, limit))) <==> AppsPass(xs, ts)
  {
    hide Lower, Trim, ClaimsOk, ClaimsPass, HasTid, Houses;
    var cs := CanonTenants(ts, limit);
    EachOf(xs, (a: App) => AppOk(a, cs));
    forall a: App
      ensures AppOk(a, cs) <==> Trim(a.clientId) != "" && (Trim(a.tid) == "" || Houses(ts, a.tid)) && ClaimsPass(a.claims)
    {
      ClaimsChecked(a.claims);
      HousesTid(ts, limit, a.tid);
      LowerKeepsLength(Trim(a.tid));
    }
  }

  lemma ConsentsChecked(xs: seq<Consent>, ts: seq<Tenant>, limit: int)
    ensures (forall i | 0 <= i < |xs| :: ConsentOk(xs[i], CanonTenants(ts, limit))) <==> ConsentsPass(xs, ts)
  {
    hide Lower, Trim, HasTid, Houses;
    var cs := CanonTenants(ts, limit);
    EachOf(xs, (x: Consent) => ConsentOk(x, cs));
    forall x: Consent
      ensures ConsentOk(x, cs) <==> x.clientId != "" && Houses(ts, x.tid)
    {
      HousesTid(ts, limit, x.tid);
    }
  }

  lemma WidsChecked(ws: seq<string>)
    ensures (forall i | 0 <= i < |ws| :: IsGuid(CanonTid(ws[i]))) <==> forall w | w in ws :: IsGuid(Lower(Trim(w)))
  {
    hide Lower, Trim, IsGuid;
    EachOf(ws, (w: string) => IsGuid(CanonTid(w)));
  }

  lemma UserChecked(u: User, ts: seq<Tenant>, limit: int)
    ensures UserOk(u, CanonTenants(ts, limit)) <==> UserPasses(u, ts)
  {
    hide Lower, Trim, HasTid, Houses, IsGuid, CanonTenants, CanonTid;
    HousesTid(ts, limit, u.tid);
    WidsChecked(u.wids);
  }

  lemma NamesChecked(h: Digest, us: seq<User>)
    ensures DistinctUsers(CanonUsers(h, us)) <==>
              forall i, j | 0 <= i < j < |us| :: Lower(Trim(us[i].tid)) == Lower(Trim(us[j].tid)) ==> us[i].username != us[j].username
  {
    hide Lower, Trim, CanonOid, CanonWids;
    var cs := CanonUsers(h, us);
    assert forall i | 0 <= i < |us| :: cs[i].tid == Lower(Trim(us[i].tid)) && cs[i].username == us[i].username;
  }

  lemma UsersChecked(h: Digest, us: seq<User>, ts: seq<Tenant>, limit: int)
    ensures ((forall i | 0 <= i < |us| :: UserOk(us[i], CanonTenants(ts, limit))) && DistinctUsers(CanonUsers(h, us))) <==> UsersPass(us, ts)
  {
    hide UserOk, DistinctUsers, UserPasses, CanonUsers, CanonTenants;
    var cs := CanonTenants(ts, limit);
    forall u: User
      ensures UserOk(u, cs) <==> UserPasses(u, ts)
    {
      UserChecked(u, ts, limit);
    }
    NamesChecked(h, us);
    EachOf(us, (u: User) => UserOk(u, cs));
  }

  lemma ManagersChecked(h: Digest, c: Config)
    requires PartsOk(h, c)
    ensures ManagersOk(Canon(h, c)) <==> ManagersPass(Canon(h, c))
  {
    hide Lower, Trim, PartsOk, Canon, UserByKey;
    var d := Canon(h, c);
    EachOf(d.users, (u: User) => ManagerOk(d, u));
    forall u | u in d.users
      ensures ManagerOk(d, u) <==>
                (u.manager != "" ==>
                  if exists m | m in d.users :: m.tid == u.tid && m.username == u.manager then u.manager != u.username
                  else UserByKey(d, u.tid, u.manager).Some? && UserByKey(d, u.tid, u.manager).value.username != u.username)
    {
      KeyStays(h, c, u);
    }
  }

  lemma KeyStays(h: Digest, c: Config, u: User)
    requires PartsOk(h, c) && u in Canon(h, c).users
    ensures var r := UserByKey(Canon(h, c), u.tid, u.manager); r.Some? ==> r.value in Canon(h, c).users && r.value.tid == u.tid
  {
    hide Lower, Trim, IsGuid, GroupsOk, ClaimsOk, GraphOk, PathSegment, UserByKey, CanonGraph, DistinctUsers, CanonGroups;
    var d := Canon(h, c);
    var i :| 0 <= i < |d.users| && d.users[i] == u;
    var k :| 0 <= k < |d.tenants| && d.tenants[k].tid == u.tid;
    GuidIsCanonical(u.tid);
    var t := TenantOf(d, u.tid).value;
    KeyFinds(d, u.tid, u.manager, t);
  }

  lemma StaticChecked(gs: seq<Group>, names: seq<string>)
    requires DistinctGroups(gs)
    ensures (forall i | 0 <= i < |names| :: var g := GroupMeta(gs, names[i]); g.None? || !Dynamic(g.value)) <==>
              forall g | g in gs && g.name in names :: g.membershipRule == ""
  {
    if forall i | 0 <= i < |names| :: var g := GroupMeta(gs, names[i]); g.None? || !Dynamic(g.value) {
      forall g | g in gs && g.name in names
        ensures g.membershipRule == ""
      {
        var i :| 0 <= i < |names| && names[i] == g.name;
        var f := GroupMeta(gs, names[i]).value;
        var k :| 0 <= k < |gs| && gs[k] == g;
        var l :| 0 <= l < |gs| && gs[l] == f;
        assert k == l;
      }
    }
    if forall g | g in gs && g.name in names :: g.membershipRule == "" {
      forall i | 0 <= i < |names|
        ensures var g := GroupMeta(gs, names[i]); g.None? || !Dynamic(g.value)
      {
        assert names[i] in names;
      }
    }
  }

  lemma CanonMembers(gs: seq<Group>, names: seq<string>)
    ensures (forall g | g in CanonGroups(gs) && g.name in names :: g.membershipRule == "") <==>
              forall g | g in gs && Trim(g.name) in names :: Trim(g.membershipRule) == ""
  {
    hide Trim, Lower, R.ParseRule;
    var cs := CanonGroups(gs);
    assert forall i | 0 <= i < |gs| :: cs[i].name == Trim(gs[i].name) && cs[i].membershipRule == Trim(gs[i].membershipRule);
    forall g | g in gs
      ensures exists g' | g' in cs :: g'.name == Trim(g.name) && g'.membershipRule == Trim(g.membershipRule)
    {
      var i :| 0 <= i < |gs| && gs[i] == g;
      assert cs[i] in cs;
    }
    forall g' | g' in cs
      ensures exists g | g in gs :: g'.name == Trim(g.name) && g'.membershipRule == Trim(g.membershipRule)
    {
      var i :| 0 <= i < |cs| && cs[i] == g';
      assert gs[i] in gs;
    }
  }

  /** The account's one tenant decides. */
  lemma StaticOfUser(h: Digest, c: Config, i: nat)
    requires PartsOk(h, c) && i < |c.users|
    ensures var e := WithManagers(Canon(h, c));
            StaticOk(e, e.users[i]) <==>
              forall t, g | t in c.tenants && g in t.groups ::
                Lower(Trim(t.tid)) == Lower(Trim(c.users[i].tid)) && Trim(g.name) in c.users[i].groups ==> Trim(g.membershipRule) == ""
  {
    hide Lower, Trim, R.ParseRule, IsGuid, GroupOk, DistinctGroups, CanonGroups, Resolved, AppOk, ConsentOk, GraphOk, PathSegment, CanonOid, ClaimsOk;
    var d, u := Canon(h, c), c.users[i];
    var k := TenantAt(h, c, i);
    StaticChecked(CanonGroups(c.tenants[k].groups), u.groups);
    CanonMembers(c.tenants[k].groups, u.groups);
    assert WithManagers(d).users[i].groups == u.groups && WithManagers(d).users[i].tid == CanonTid(u.tid);
  }

  lemma TenantAt(h: Digest, c: Config, i: nat) returns (k: nat)
    requires PartsOk(h, c) && i < |c.users|
    ensures k < |c.tenants| && GroupsDeclared(WithManagers(Canon(h, c)), CanonTid(c.users[i].tid)) == CanonGroups(c.tenants[k].groups)
    ensures DistinctGroups(CanonGroups(c.tenants[k].groups))
    ensures forall t | t in c.tenants :: Lower(Trim(t.tid)) == Lower(Trim(c.users[i].tid)) <==> t == c.tenants[k]
  {
    hide Lower, Trim, IsGuid, GroupOk, DistinctGroups, CanonGroups, Resolved, AppOk, ConsentOk, GraphOk, PathSegment, CanonOid, ClaimsOk, CanonTenants,
         CanonApps, CanonConsents, CanonGraph, CanonUsers;
    var ds := Canon(h, c).tenants;
    var tid := CanonTid(c.users[i].tid);
    assert UserOk(c.users[i], ds);
    k := IndexOfTenant(ds, tid);
    assert ds == CanonTenants(c.tenants, if c.defaultGroupLimit <= 0 then 200 else c.defaultGroupLimit);
    OnlyTenant(c.tenants, if c.defaultGroupLimit <= 0 then 200 else c.defaultGroupLimit, k);
    LowerIdempotent(Trim(c.users[i].tid));
    assert TenantOk(c.tenants[k]);
    assert WithManagers(Canon(h, c)).tenants == ds;
  }

  lemma IndexOfTenant(ts: seq<Tenant>, tid: string) returns (k: nat)
    requires DistinctTids(ts) && HasTid(ts, tid)
    ensures k < |ts| && ts[k].tid == tid && FindTenant(ts, tid) == Some(ts[k])
  {
    k :| 0 <= k < |ts| && ts[k].tid == tid;
    var f := FindTenant(ts, tid).value;
    var j :| 0 <= j < |ts| && ts[j] == f;
    assert j == k;
  }

  lemma OnlyTenant(ts: seq<Tenant>, limit: int, k: nat)
    requires k < |ts| && DistinctTids(CanonTenants(ts, limit))
    ensures CanonTenants(ts, limit)[k].groups == CanonGroups(ts[k].groups) && CanonTenants(ts, limit)[k].tid == Lower(Trim(ts[k].tid))
    ensures forall t | t in ts :: Lower(Trim(t.tid)) == Lower(Trim(ts[k].tid)) <==> t == ts[k]
  {
    hide Lower, Trim, CanonGroups;
    var ds := CanonTenants(ts, limit);
    forall t | t in ts && Lower(Trim(t.tid)) == Lower(Trim(ts[k].tid))
      ensures t == ts[k]
    {
      var j :| 0 <= j < |ts| && ts[j] == t;
      assert ds[j].tid == ds[k].tid;
      assert j == k;
    }
  }

  lemma StaticsChecked(h: Digest, c: Config)
    requires PartsOk(h, c)
    ensures var e := WithManagers(Canon(h, c)); (forall i | 0 <= i < |e.users| :: StaticOk(e, e.users[i])) <==> StaticsPass(c.users, c.tenants)
  {
    hide Lower, Trim, PartsOk, StaticOk;
    forall i | 0 <= i < |c.users|
      ensures var e := WithManagers(Canon(h, c));
              StaticOk(e, e.users[i]) <==>
                forall t, g | t in c.tenants && g in t.groups ::
                  Lower(Trim(t.tid)) == Lower(Trim(c.users[i].tid)) && Trim(g.name) in c.users[i].groups ==> Trim(g.membershipRule) == ""
    {
      StaticOfUser(h, c, i);
    }
  }

  /** A configuration is accepted exactly when every part passes its rules, every manager names
      another account, and nobody is a static member of a dynamic group. */
  lemma AcceptedExactly(h: Digest, c: Config)
    ensures Normalized(h, c).Some? <==>
              && PathSegment(if TrimSlashes(c.basePath) == "" then "entra" else TrimSlashes(c.basePath))
              && GraphPass(if c.graph.Some? then c.graph.value else NO_GRAPH, CanonBasePath(c.basePath))
              && TenantsPass(c.tenants) && AppsPass(c.apps, c.tenants) && ConsentsPass(c.consents, c.tenants) && UsersPass(c.users, c.tenants)
              && ManagersPass(Canon(h, c)) && StaticsPass(c.users, c.tenants)
  {
    hide PathSegment, GraphPass, TenantsPass, AppsPass, ConsentsPass, UsersPass, ManagersPass, StaticsPass, Lower, Trim, IsGuid, ManagersOk,
         StaticOk, TenantOk, AppOk, ConsentOk, UserOk, DistinctTids, DistinctUsers, WithManagers, WithDynamic, GraphOk, CanonGraph;
    var limit := if c.defaultGroupLimit <= 0 then 200 else c.defaultGroupLimit;
    TenantsChecked(c.tenants, limit);
    AppsChecked(c.apps, c.tenants, limit);
    ConsentsChecked(c.consents, c.tenants, limit);
    UsersChecked(h, c.users, c.tenants, limit);
    GraphChecked(c.graph, CanonBasePath(c.basePath));
    if PartsOk(h, c) {
      ManagersChecked(h, c);
      StaticsChecked(h, c);
    }
  }

  lemma GraphChecked(block: Option<GraphConfig>, basePath: string)
    ensures GraphOk(block, basePath) <==> GraphPass(if block.Some? then block.value else NO_GRAPH, basePath)
  {
    hide PathSegment, Lower, Trim, IsGuid, TrimSlashes;
  }

  // ----- what each edit changes -----

  /** Everybody in a settled configuration is canonical already. */
  lemma SettledAccount(h: Digest, c: Config, i: nat)
    requires PartsSettled(h, c) && i < |c.users|
    ensures Bare(CanonUser(h, c.users[i])) == Bare(c.users[i])
  {
    hide RestSettled, CanonUser, UserOk;
    assert UserSettled(h, c.users[i], c.tenants);
  }

  lemma SettledTenant(h: Digest, c: Config, i: nat)
    requires PartsSettled(h, c) && i < |c.tenants|
    ensures CanonTenant(c.tenants[i], c.defaultGroupLimit) == c.tenants[i]
    ensures c.defaultGroupLimit > 0 && c.tokenExpiry > 0 && CanonBasePath(c.basePath) == c.basePath && c.graph == Some(CanonGraph(c.graph))
  {
    hide UserSettled, TenantOk, CanonTenant, AppOk, CanonApp, ConsentOk, CanonConsent, GraphOk, CanonGraph, PathSegment;
    SettledHead(c);
  }

  /** Nothing but the lists named differs, accounts compared without managers and memberships. */
  ghost predicate SameBut(c: Config, d: Config, tenants: bool, users: bool) {
    && d.basePath == c.basePath && d.defaultGroupLimit == c.defaultGroupLimit && d.tokenExpiry == c.tokenExpiry
    && d.ignoreLoginHint == c.ignoreLoginHint && d.apps == c.apps && d.consents == c.consents
    && (!tenants ==> d.tenants == c.tenants) && (!users ==> Bares(d.users) == Bares(c.users))
  }

  lemma UnchangedParts(h: Digest, c: Config, d: Config, e: Config)
    requires PartsSettled(h, c) && Normalized(h, d) == Some(e)
    requires d.basePath == c.basePath && d.defaultGroupLimit == c.defaultGroupLimit && d.tokenExpiry == c.tokenExpiry
    requires d.ignoreLoginHint == c.ignoreLoginHint && d.apps == c.apps && d.consents == c.consents
    ensures SameBut(c, e, true, true)
    ensures d.tenants == c.tenants ==> e.tenants == c.tenants
    ensures d.users == c.users ==> Bares(e.users) == Bares(c.users)
    ensures d.graph == c.graph ==> e.graph == c.graph
  {
    hide Normalized, UserSettled, TenantOk, CanonTenant, CanonUser, AppOk, CanonApp, ConsentOk, CanonConsent, GraphOk, CanonGraph, PathSegment,
         CanonBasePath, DistinctTids, DistinctUsers;
    AcceptedPartByPart(h, d);
    SettledTenant(h, c, 0);
    assert e.apps == c.apps && e.consents == c.consents;
    if d.tenants == c.tenants {
      assert e.tenants == c.tenants;
    }
    if d.users == c.users {
      forall i | 0 <= i < |c.users|
        ensures Bare(e.users[i]) == Bare(c.users[i])
      {
        SettledAccount(h, c, i);
      }
      assert Bares(e.users) == Bares(c.users);
    }
  }

  /** A created account is added at the end, and nobody else changes. */
  lemma CreateUserAdds(h: Digest, c: Config, u: User)
    requires Settled(h, c) && Accepted(h, c, CreateUser(u)).Some?
    ensures var e := Accepted(h, c, CreateUser(u)).value;
            SameBut(c, e, false, true) && e.graph == c.graph && Bares(e.users) == Bares(c.users) + [Bare(CanonUser(h, u))]
  {
    hide Normalized, PartsSettled, ManagersNamed, StaticsOk, DynamicsCurrent, CanonUser, CanonTenant;
    var d := c.(users := c.users + [u]);
    var e := Accepted(h, c, CreateUser(u)).value;
    UnchangedParts(h, c, d, e);
    AcceptedPartByPart(h, d);
    forall i | 0 <= i < |c.users|
      ensures Bare(e.users[i]) == Bare(c.users[i])
    {
      assert d.users[i] == c.users[i];
      SettledAccount(h, c, i);
    }
    assert d.users[|c.users|] == u;
    assert Bares(e.users) == Bares(c.users) + [Bare(CanonUser(h, u))];
  }

  /** A created tenant is added at the end, and nothing else changes. */
  lemma CreateTenantAdds(h: Digest, c: Config, t: Tenant)
    requires Settled(h, c) && Accepted(h, c, CreateTenant(t)).Some?
    ensures var e := Accepted(h, c, CreateTenant(t)).value;
            SameBut(c, e, true, false) && e.graph == c.graph && e.tenants == c.tenants + [CanonTenant(t, c.defaultGroupLimit)]
  {
    hide Normalized, PartsSettled, ManagersNamed, StaticsOk, DynamicsCurrent, CanonUser, CanonTenant;
    var d := c.(tenants := c.tenants + [t]);
    var e := Accepted(h, c, CreateTenant(t)).value;
    UnchangedParts(h, c, d, e);
    AcceptedPartByPart(h, d);
    LimitPositive(h, c);
    forall i | 0 <= i < |c.tenants|
      ensures e.tenants[i] == c.tenants[i]
    {
      assert d.tenants[i] == c.tenants[i];
      SettledTenant(h, c, i);
    }
    assert d.tenants[|c.tenants|] == t;
    assert e.tenants == c.tenants + [CanonTenant(t, c.defaultGroupLimit)];
  }

  lemma LimitPositive(h: Digest, c: Config)
    requires PartsSettled(h, c)
    ensures c.defaultGroupLimit > 0
  {
    hide UserSettled, TenantOk, CanonTenant, AppOk, CanonApp, ConsentOk, CanonConsent, GraphOk, CanonGraph, PathSegment;
  }

  lemma {:induction false} ReplacedAt<T>(xs: seq<T>, p: T -> bool, x: T) returns (k: nat)
    requires ReplaceFirst(xs, p, x).Some?
    ensures k < |xs| && p(xs[k]) && (forall j | 0 <= j < k :: !p(xs[j])) && ReplaceFirst(xs, p, x).value == xs[k := x]
  {
    if p(xs[0]) {
      k := 0;
    } else {
      var l := ReplacedAt(xs[1..], p, x);
      k := l + 1;
      assert xs == [xs[0]] + xs[1..];
    }
  }

  /** An updated account is replaced where it is, under its own tenant and username, and nobody else
      changes. */
  lemma UpdateUserReplaces(h: Digest, c: Config, tid: string, username: string, u: User) returns (k: nat)
    requires Settled(h, c) && Accepted(h, c, UpdateUser(tid, username, u)).Some?
    ensures k < |c.users| && c.users[k].tid == Lower(Trim(tid)) && c.users[k].username == username
    ensures u.tid == "" || Lower(Trim(u.tid)) == Lower(Trim(tid))
    ensures var e := Accepted(h, c, UpdateUser(tid, username, u)).value;
            && SameBut(c, e, false, true) && e.graph == c.graph
            && Bares(e.users) == Bares(c.users)[k := Bare(CanonUser(h, u.(tid := Lower(Trim(tid)), username := username)))]
  {
    hide Normalized, PartsSettled, ManagersNamed, StaticsOk, DynamicsCurrent, CanonUser, CanonTenant, ReplaceFirst, Lower, Trim;
    var v := u.(tid := CanonTid(tid), username := username);
    k := ReplacedAt(c.users, (x: User) => IsUser(x, CanonTid(tid), username), v);
    var d := c.(users := c.users[k := v]);
    var e := Accepted(h, c, UpdateUser(tid, username, u)).value;
    UnchangedParts(h, c, d, e);
    AcceptedPartByPart(h, d);
    forall i | 0 <= i < |c.users| && i != k
      ensures Bare(e.users[i]) == Bare(c.users[i])
    {
      assert d.users[i] == c.users[i];
      SettledAccount(h, c, i);
    }
    assert d.users[k] == v;
    assert Bares(e.users) == Bares(c.users)[k := Bare(CanonUser(h, v))];
  }

  /** An updated tenant is replaced where it is, under its own id, and nothing else changes. */
  lemma UpdateTenantReplaces(h: Digest, c: Config, tid: string, t: Tenant) returns (k: nat)
    requires Settled(h, c) && Accepted(h, c, UpdateTenant(tid, t)).Some?
    ensures k < |c.tenants| && c.tenants[k].tid == Lower(Trim(tid)) && (t.tid == "" || Lower(Trim(t.tid)) == Lower(Trim(tid)))
    ensures var e := Accepted(h, c, UpdateTenant(tid, t)).value;
            && SameBut(c, e, true, false) && e.graph == c.graph
            && e.tenants == c.tenants[k := CanonTenant(t.(tid := Lower(Trim(tid))), c.defaultGroupLimit)]
  {
    hide Normalized, PartsSettled, ManagersNamed, StaticsOk, DynamicsCurrent, CanonUser, CanonTenant, ReplaceFirst, Lower, Trim;
    var v := t.(tid := CanonTid(tid));
    k := ReplacedAt(c.tenants, (x: Tenant) => x.tid == CanonTid(tid), v);
    var d := c.(tenants := c.tenants[k := v]);
    var e := Accepted(h, c, UpdateTenant(tid, t)).value;
    UnchangedParts(h, c, d, e);
    AcceptedPartByPart(h, d);
    LimitPositive(h, c);
    forall i | 0 <= i < |c.tenants| && i != k
      ensures e.tenants[i] == c.tenants[i]
    {
      assert d.tenants[i] == c.tenants[i];
      SettledTenant(h, c, i);
    }
    assert d.tenants[k] == v;
    assert e.tenants == c.tenants[k := CanonTenant(v, c.defaultGroupLimit)];
  }

  /** Turning the Graph surface on or off changes that switch alone. */
  lemma GraphSwitchSwitches(h: Digest, c: Config, on: bool)
    requires Settled(h, c) && Accepted(h, c, SetGraphEnabled(on)).Some?
    ensures var e := Accepted(h, c, SetGraphEnabled(on)).value;
            && SameBut(c, e, false, false) && e.graph.Some? && e.graph.value.enabled == Some(on)
            && c.graph.Some? && e.graph.value == c.graph.value.(enabled := Some(on))
  {
    hide Normalized, PartsSettled, ManagersNamed, StaticsOk, DynamicsCurrent, CanonUser, CanonTenant;
    var d := c.(graph := Some(Switched(c.graph, on)));
    var e := Accepted(h, c, SetGraphEnabled(on)).value;
    UnchangedParts(h, c, d, e);
    AcceptedPartByPart(h, d);
    GraphIsCanonical(h, c);
    SwitchedCanon(c.graph, on);
  }

  lemma GraphIsCanonical(h: Digest, c: Config)
    requires PartsSettled(h, c)
    ensures c.graph.Some? && CanonGraph(c.graph) == c.graph.value
  {
    hide UserSettled, TenantOk, CanonTenant, AppOk, CanonApp, ConsentOk, CanonConsent, GraphOk, CanonGraph, PathSegment;
  }

  lemma SwitchedCanon(block: Option<GraphConfig>, on: bool)
    requires block.Some? && CanonGraph(block) == block.value
    ensures CanonGraph(Some(Switched(block, on))) == block.value.(enabled := Some(on))
  {
    hide GraphSegment, Lower;
    assert GraphSegment(Switched(block, on)) == GraphSegment(block.value) by {
      SameSegment(block.value, on);
    }
  }

  lemma SameSegment(g: GraphConfig, on: bool)
    ensures GraphSegment(g.(enabled := Some(on))) == GraphSegment(g)
  {
  }
}
