/** A configuration as the server holds it: slices over arrays, some of whose elements point to
    arrays of their own, and normalize rewriting all of them in place. */
module Snapshots {
  import opened Text
  import opened Directory
  import opened Normalize
  import opened Invariant
  import opened Passes
  import opened Edits

  function TenantValues(ts: array<TenantRec>, n: nat): (r: seq<Tenant>)
    requires n <= ts.Length
    reads ts, set i | 0 <= i < n :: ts[i].groups
    ensures |r| == n && forall i | 0 <= i < n :: TenantIs(ts[i], r[i])
  {
    if n == 0 then [] else TenantValues(ts, n - 1) + [ts[n - 1].t.(groups := ts[n - 1].groups[..])]
  }

  function AppValues(xs: array<AppRec>, n: nat): (r: seq<App>)
    requires n <= xs.Length
    reads xs, set i | 0 <= i < n :: xs[i].claims
    ensures |r| == n && forall i | 0 <= i < n :: AppIs(xs[i], r[i])
  {
    if n == 0 then [] else AppValues(xs, n - 1) + [xs[n - 1].a.(claims := xs[n - 1].claims[..])]
  }

  function UserValues(us: array<UserRec>, n: nat): (r: seq<User>)
    requires n <= us.Length
    reads us, set i | 0 <= i < n :: us[i].wids
    ensures |r| == n && forall i | 0 <= i < n :: UserIs(us[i], r[i])
  {
    if n == 0 then [] else UserValues(us, n - 1) + [us[n - 1].u.(wids := us[n - 1].wids[..])]
  }

  /** Every array and block of the snapshot was allocated since the old state. */
  twostate predicate Fresh(new s: Snapshot)
    reads s
  {
    fresh(s) && fresh(s.tenants) && fresh(s.consents) && fresh(s.apps) && fresh(s.users) && (s.graph == null || fresh(s.graph))
    && (forall a | a in s.groupArrays :: fresh(a)) && (forall a | a in s.claimArrays :: fresh(a)) && (forall a | a in s.widArrays :: fresh(a))
  }

  /** The names managers may refer to. */
  function KeysOf(c: Config): set<string> {
    set i | 0 <= i < |c.users| :: UserKey(c.users[i].tid, c.users[i].username)
  }

  /** Each tenant points to an array of the set, and to one of its own. */
  ghost predicate OwnGroups(ts: array<TenantRec>, n: nat, inner: set<array<Group>>)
    requires n <= ts.Length
    reads ts
  {
    (forall i | 0 <= i < n :: ts[i].groups in inner) && forall i, j | 0 <= i < j < n :: ts[i].groups != ts[j].groups
  }

  ghost predicate OwnClaims(xs: array<AppRec>, inner: set<array<ClaimMapping>>)
    reads xs
  {
    (forall i | 0 <= i < xs.Length :: xs[i].claims in inner) && forall i, j | 0 <= i < j < xs.Length :: xs[i].claims != xs[j].claims
  }

  ghost predicate OwnWids(us: array<UserRec>, n: nat, inner: set<array<string>>)
    requires n <= us.Length
    reads us
  {
    (forall i | 0 <= i < n :: us[i].wids in inner) && forall i, j | 0 <= i < j < n :: us[i].wids != us[j].wids
  }

  // ----- deep copies -----

  method CopyArray<T>(a: array<T>) returns (b: array<T>)
    ensures fresh(b) && b[..] == a[..]
  {
    b := new T[a.Length](i requires 0 <= i < a.Length reads a => a[i]);
    assert b[..] == a[..];
  }

  method CopyPrefix<T>(a: array<T>, n: nat) returns (b: array<T>)
    requires n <= a.Length
    ensures fresh(b) && b.Length == n && b[..] == a[..n]
  {
    b := new T[n](i requires 0 <= i < n && n <= a.Length reads a => a[i]);
    assert b[..] == a[..n];
  }

  lemma TenantValuesAre(ts: array<TenantRec>, n: nat, vals: seq<Tenant>)
    requires n <= ts.Length && |vals| == n && forall i | 0 <= i < n :: TenantIs(ts[i], vals[i])
    ensures TenantValues(ts, n) == vals
  {
    hide TenantValues;
  }

  lemma AppValuesAre(xs: array<AppRec>, vals: seq<App>)
    requires |vals| == xs.Length && forall i | 0 <= i < xs.Length :: AppIs(xs[i], vals[i])
    ensures AppValues(xs, xs.Length) == vals
  {
    hide AppValues;
  }

  lemma UserValuesAre(us: array<UserRec>, n: nat, vals: seq<User>)
    requires n <= us.Length && |vals| == n && forall i | 0 <= i < n :: UserIs(us[i], vals[i])
    ensures UserValues(us, n) == vals
  {
    hide UserValues;
  }

  lemma CopiedTenant(r: TenantRec, groups: array<Group>, v: Tenant)
    requires TenantIs(r, v) && groups[..] == r.groups[..]
    ensures TenantIs(TenantRec(r.t, groups), v)
  {
  }

  lemma CopiedApp(r: AppRec, claims: array<ClaimMapping>, v: App)
    requires AppIs(r, v) && claims[..] == r.claims[..]
    ensures AppIs(AppRec(r.a, claims), v)
  {
  }

  lemma CopiedUser(r: UserRec, wids: array<string>, v: User)
    requires UserIs(r, v) && wids[..] == r.wids[..]
    ensures UserIs(UserRec(r.u, wids), v)
  {
  }

  method CloneTenants(ts: array<TenantRec>, n: nat) returns (out: array<TenantRec>, ghost inner: set<array<Group>>)
    requires n <= ts.Length
    ensures fresh(out) && out.Length == n && (forall a | a in inner :: fresh(a))
    ensures TenantValues(out, n) == TenantValues(ts, n)
    ensures OwnGroups(out, n, inner)
  {
    hide TenantValues, TenantIs;
    ghost var vals := TenantValues(ts, n);
    inner := {};
    out := new TenantRec[n](i requires 0 <= i < n && n <= ts.Length reads ts => ts[i]);
    for i := 0 to n
      invariant fresh(out) && (forall a | a in inner :: fresh(a))
      invariant forall j | 0 <= j < n :: TenantIs(ts[j], vals[j])
      invariant forall j | i <= j < n :: out[j] == ts[j]
      invariant forall j | 0 <= j < i :: out[j].groups in inner && TenantIs(out[j], vals[j])
      invariant forall j, k | 0 <= j < k < i :: out[j].groups != out[k].groups
    {
      var groups := CopyArray(ts[i].groups);
      CopiedTenant(ts[i], groups, vals[i]);
      out[i] := TenantRec(ts[i].t, groups);
      inner := inner + {groups};
    }
    TenantValuesAre(out, n, vals);
  }

  method CloneApps(xs: array<AppRec>) returns (out: array<AppRec>, ghost inner: set<array<ClaimMapping>>)
    ensures fresh(out) && out.Length == xs.Length && (forall a | a in inner :: fresh(a))
    ensures AppValues(out, out.Length) == AppValues(xs, xs.Length)
    ensures OwnClaims(out, inner)
  {
    hide AppValues, AppIs;
    ghost var vals := AppValues(xs, xs.Length);
    inner := {};
    out := new AppRec[xs.Length](i requires 0 <= i < xs.Length reads xs => xs[i]);
    for i := 0 to xs.Length
      invariant fresh(out) && (forall a | a in inner :: fresh(a))
      invariant forall j | 0 <= j < xs.Length :: AppIs(xs[j], vals[j])
      invariant forall j | i <= j < xs.Length :: out[j] == xs[j]
      invariant forall j | 0 <= j < i :: out[j].claims in inner && AppIs(out[j], vals[j])
      invariant forall j, k | 0 <= j < k < i :: out[j].claims != out[k].claims
    {
      var claims := CopyArray(xs[i].claims);
      CopiedApp(xs[i], claims, vals[i]);
      out[i] := AppRec(xs[i].a, claims);
      inner := inner + {claims};
    }
    AppValuesAre(out, vals);
  }

  method CloneUsers(us: array<UserRec>, n: nat) returns (out: array<UserRec>, ghost inner: set<array<string>>)
    requires n <= us.Length
    ensures fresh(out) && out.Length == n && (forall a | a in inner :: fresh(a))
    ensures UserValues(out, n) == UserValues(us, n)
    ensures OwnWids(out, n, inner)
  {
    hide UserValues, UserIs;
    ghost var vals := UserValues(us, n);
    inner := {};
    out := new UserRec[n](i requires 0 <= i < n && n <= us.Length reads us => us[i]);
    for i := 0 to n
      invariant fresh(out) && (forall a | a in inner :: fresh(a))
      invariant forall j | 0 <= j < n :: UserIs(us[j], vals[j])
      invariant forall j | i <= j < n :: out[j] == us[j]
      invariant forall j | 0 <= j < i :: out[j].wids in inner && UserIs(out[j], vals[j])
      invariant forall j, k | 0 <= j < k < i :: out[j].wids != out[k].wids
    {
      var wids := CopyArray(us[i].wids);
      CopiedUser(us[i], wids, vals[i]);
      out[i] := UserRec(us[i].u, wids);
      inner := inner + {wids};
    }
    UserValuesAre(out, n, vals);
  }

  /** The Graph block, which a configuration points to. */
  class GraphCell {
    var g: GraphConfig

    constructor (g: GraphConfig)
      ensures this.g == g
    {
      this.g := g;
    }
  }

  method CloneCell(cell: GraphCell?) returns (out: GraphCell?)
    ensures (out == null) == (cell == null)
    ensures out != null ==> fresh(out) && out.g == cell.g
  {
    out := null;
    if cell != null {
      out := new GraphCell(cell.g);
    }
  }

  class Snapshot {
    var basePath: string
    var defaultGroupLimit: int
    var tokenExpiry: int
    var ignoreLoginHint: bool
    var graph: GraphCell?
    var tenants: array<TenantRec>
    var tenantCount: nat
    var consents: array<Consent>
    var consentCount: nat
    var apps: array<AppRec>
    var users: array<UserRec>
    var userCount: nat

    // the arrays the elements may point to
    ghost var groupArrays: set<array<Group>>
    ghost var claimArrays: set<array<ClaimMapping>>
    ghost var widArrays: set<array<string>>

    /** Lengths fit, and no array is shared by two elements. */
    ghost predicate Valid()
      reads this, tenants, apps, users
    {
      && tenantCount <= tenants.Length && consentCount <= consents.Length && userCount <= users.Length
      && OwnGroups(tenants, tenantCount, groupArrays) && OwnClaims(apps, claimArrays) && OwnWids(users, userCount, widArrays)
    }

    function Value(): Config
      requires Valid()
      reads this, graph, tenants, consents, apps, users, groupArrays, claimArrays, widArrays
    {
      Config(basePath, defaultGroupLimit, tokenExpiry, ignoreLoginHint, if graph == null then None else Some(graph.g),
             TenantValues(tenants, tenantCount), consents[..consentCount], AppValues(apps, apps.Length), UserValues(users, userCount))
    }

    constructor (basePath: string, defaultGroupLimit: int, tokenExpiry: int, ignoreLoginHint: bool, graph: GraphCell?,
                 tenants: array<TenantRec>, consents: array<Consent>, apps: array<AppRec>, users: array<UserRec>,
                 ghost groupArrays: set<array<Group>>, ghost claimArrays: set<array<ClaimMapping>>, ghost widArrays: set<array<string>>)
      ensures this.basePath == basePath && this.defaultGroupLimit == defaultGroupLimit && this.tokenExpiry == tokenExpiry
      ensures this.ignoreLoginHint == ignoreLoginHint && this.graph == graph
      ensures this.tenants == tenants && this.consents == consents && this.apps == apps && this.users == users
      ensures tenantCount == tenants.Length && consentCount == consents.Length && userCount == users.Length
      ensures this.groupArrays == groupArrays && this.claimArrays == claimArrays && this.widArrays == widArrays
    {
      this.basePath, this.defaultGroupLimit, this.tokenExpiry := basePath, defaultGroupLimit, tokenExpiry;
      this.ignoreLoginHint, this.graph := ignoreLoginHint, graph;
      this.tenants, this.tenantCount, this.groupArrays := tenants, tenants.Length, groupArrays;
      this.consents, this.consentCount := consents, consents.Length;
      this.apps, this.claimArrays := apps, claimArrays;
      this.users, this.userCount, this.widArrays := users, users.Length, widArrays;
    }

    static method CloneLists(c: Snapshot)
      returns (ts: array<TenantRec>, xs: array<AppRec>, us: array<UserRec>,
               ghost groups: set<array<Group>>, ghost claims: set<array<ClaimMapping>>, ghost wids: set<array<string>>)
      requires c.Valid()
      ensures fresh(ts) && fresh(xs) && fresh(us) && ts.Length == c.tenantCount && us.Length == c.userCount
      ensures (forall a | a in groups :: fresh(a)) && (forall a | a in claims :: fresh(a)) && (forall a | a in wids :: fresh(a))
      ensures OwnGroups(ts, ts.Length, groups) && OwnClaims(xs, claims) && OwnWids(us, us.Length, wids)
      ensures TenantValues(ts, ts.Length) == c.Value().tenants
      ensures AppValues(xs, xs.Length) == c.Value().apps && UserValues(us, us.Length) == c.Value().users
    {
      hide TenantValues, AppValues, UserValues, OwnGroups, OwnClaims, OwnWids;
      ts, groups := CloneTenants(c.tenants, c.tenantCount);
      xs, claims := CloneApps(c.apps);
      us, wids := CloneUsers(c.users, c.userCount);
    }

    /** A copy that shares no array with the original. */
    static method Clone(c: Snapshot) returns (d: Snapshot)
      requires c.Valid()
      ensures d.Valid() && Fresh(d) && d.Value() == c.Value()
    {
      hide TenantValues, AppValues, UserValues, OwnGroups, OwnClaims, OwnWids;
      ghost var v := c.Value();
      var ts, xs, us, groups, claims, wids := CloneLists(c);
      var cs := CopyPrefix(c.consents, c.consentCount);
      var cell := CloneCell(c.graph);
      d := new Snapshot(c.basePath, c.defaultGroupLimit, c.tokenExpiry, c.ignoreLoginHint, cell, ts, cs, xs, us, groups, claims, wids);
      assert d.consents[..d.consentCount] == v.consents;
      assert d.Value().tenants == v.tenants && d.Value().apps == v.apps && d.Value().users == v.users;
    }

    method NormalizeLimits() returns (ok: bool)
      requires Valid()
      modifies `basePath, `defaultGroupLimit, `tokenExpiry
      ensures Valid()
      ensures ok == PathSegment(CanonBasePath(old(basePath)))
      ensures ok ==> var c := old(Value()); Value() == HeadOf(c).(graph := c.graph)
    {
      hide PathSegment, CanonBasePath, CanonGraph, TenantValues, AppValues, UserValues;
      basePath := CanonBasePath(basePath);
      if !PathSegment(basePath) {
        return false;
      }
      defaultGroupLimit := if defaultGroupLimit <= 0 then 200 else defaultGroupLimit;
      tokenExpiry := if tokenExpiry <= 0 then 3600 else tokenExpiry;
      return true;
    }

    method NormalizeBlock() returns (ok: bool)
      requires Valid()
      modifies `graph, graph
      ensures Valid() && graph != null && (graph == old(graph) || fresh(graph))
      ensures ok == GraphOk(old(Value()).graph, basePath)
      ensures ok ==> var c := old(Value()); Value() == c.(graph := Some(CanonGraph(c.graph)))
    {
      hide GraphOk, CanonGraph, TenantValues, AppValues, UserValues;
      ghost var block := Value().graph;
      EmptyBlock(basePath);
      if graph == null {
        graph := new GraphCell(NO_GRAPH);
      }
      ok := NormalizeGraph(graph, basePath);
    }

    /** Fills in and validates the head and the Graph block. */
    method NormalizeHead() returns (ok: bool)
      requires Valid()
      modifies `basePath, `defaultGroupLimit, `tokenExpiry, `graph, graph
      ensures Valid() && (graph == null || graph == old(graph) || fresh(graph))
      ensures ok == HeadOk(old(Value()))
      ensures ok ==> Value() == HeadOf(old(Value()))
    {
      hide PathSegment, CanonBasePath, GraphOk, CanonGraph, Value;
      ghost var c := Value();
      HeadFields();
      ok := NormalizeLimits();
      if ok {
        HeadFields();
        ok := NormalizeBlock();
      }
    }

    lemma HeadFields()
      requires Valid()
      ensures Value().basePath == basePath
    {
    }

    static method NormalizeGraph(cell: GraphCell, basePath: string) returns (ok: bool)
      modifies cell
      ensures ok == GraphOk(Some(old(cell.g)), basePath)
      ensures ok ==> cell.g == CanonGraph(Some(old(cell.g)))
    {
      hide PathSegment, IsGuid, Trim, Lower, TrimSlashes, CanonGraph;
      var g := cell.g;
      var segment := TrimSlashes(Trim(g.basePath));
      segment := if segment == "" then "graph" else segment;
      if !PathSegment(segment) {
        return false;
      }
      var lower := Lower(segment);
      if lower == "_entra" || lower == "organizations" || lower == "common" || lower == basePath || IsGuid(lower) {
        return false;
      }
      if g.overageEndpoint != "" && g.overageEndpoint != "self" && g.overageEndpoint != "microsoft" {
        return false;
      }
      if g.clockSkew.Some? && g.clockSkew.value < 0 {
        return false;
      }
      DefaultGraph(cell, lower);
      return true;
    }

    /** Fills in what the block leaves unset. */
    static method DefaultGraph(cell: GraphCell, segment: string)
      modifies cell
      ensures segment == Lower(GraphSegment(old(cell.g))) ==> cell.g == CanonGraph(Some(old(cell.g)))
    {
      hide GraphSegment, Lower;
      var g := cell.g;
      var max := if g.maxPageSize <= 0 then 999 else g.maxPageSize;
      var def := if g.defaultPageSize <= 0 then 100 else g.defaultPageSize;
      cell.g := g.(basePath := segment, maxPageSize := max, defaultPageSize := if def > max then max else def);
      if g.enabled.None? {
        cell.g := cell.g.(enabled := Some(true));
      }
      if g.userInfo.None? {
        cell.g := cell.g.(userInfo := Some(true));
      }
      if g.overageEndpoint == "" {
        cell.g := cell.g.(overageEndpoint := "self");
      }
      if g.clockSkew.None? {
        cell.g := cell.g.(clockSkew := Some(60));
      }
    }

    /** One manager against the configuration as it stands. */
    static method ResolveManager(c: Config, keys: set<string>, u: User) returns (ok: bool, m: string)
      requires |u.tid| == 36 && forall name :: UserKey(u.tid, name) in keys <==> HasUser(c, u.tid, name)
      ensures ok == ManagerOk(c, u)
      ensures ok ==> m == Resolved(c, u)
    {
      hide UserKey, UserByKey, HasUser;
      m := u.manager;
      if m == "" {
        return true, m;
      }
      if UserKey(u.tid, m) !in keys {
        var found := UserByKey(c, u.tid, m);
        if found.Some? {
          m := found.value.username;
        }
      }
      ok := m != u.username && UserKey(u.tid, m) in keys;
    }

    /** users[i] = u: the other elements and every inner array stay. */
    method SetUser(i: nat, u: User, ghost v: User)
      requires Valid() && i < userCount && UserIs(UserRec(u, users[i].wids), v)
      modifies users
      ensures Valid()
      ensures Value() == old(Value()).(users := old(Value()).users[i := v])
    {
      hide TenantValues, AppValues, UserValues;
      ghost var us := Value().users[i := v];
      users[i] := UserRec(u, users[i].wids);
      assert forall j | 0 <= j < userCount :: UserIs(users[j], us[j]);
      assert Value().users == us;
    }

    method SetManager(i: nat, m: string)
      requires Valid() && i < userCount
      modifies users
      ensures Valid()
      ensures Value() == old(Value()).(users := old(Value()).users[i := old(Value()).users[i].(manager := m)])
    {
      hide TenantValues, AppValues, UserValues;
      assert UserIs(users[i], Value().users[i]);
      SetUser(i, users[i].u.(manager := m), Value().users[i].(manager := m));
    }

    method SetDynamicGroups(i: nat, names: seq<string>)
      requires Valid() && i < userCount
      modifies users
      ensures Valid()
      ensures Value() == old(Value()).(users := old(Value()).users[i := old(Value()).users[i].(dynamicGroups := names)])
    {
      hide TenantValues, AppValues, UserValues;
      assert UserIs(users[i], Value().users[i]);
      SetUser(i, users[i].u.(dynamicGroups := names), Value().users[i].(dynamicGroups := names));
    }

    /** One user in place, the managers before it already resolved. */
    method ResolveAt(i: nat, keys: set<string>, ghost d: Config) returns (ok: bool)
      requires Valid() && i < userCount == |d.users| && BareConfig(Value()) == BareConfig(d) && Value().users[i] == d.users[i]
      requires |d.users[i].tid| == 36 && forall name :: UserKey(d.users[i].tid, name) in keys <==> HasUser(d, d.users[i].tid, name)
      modifies users
      ensures Valid()
      ensures ok == ManagerOk(d, d.users[i])
      ensures ok ==> Value() == old(Value()).(users := old(Value()).users[i := d.users[i].(manager := Resolved(d, d.users[i]))])
    {
      hide UserKey, HasUser, Resolved, ManagerOk, BareConfig, Snapshot.Valid, Snapshot.Value;
      ValueUsers();
      var u := Value().users[i];
      ManagerSame(d, Value(), u, u);
      var good, m := ResolveManager(Value(), keys, u);
      if good {
        SetManager(i, m);
      }
      ok := good;
    }

    /** Managers resolve against all users, so they take a second pass. */
    method ResolveManagers(keys: set<string>) returns (ok: bool)
      requires Valid() && forall i | 0 <= i < |Value().users| :: |Value().users[i].tid| == 36
      requires keys == KeysOf(Value())
      modifies users
      ensures Valid()
      ensures ok == ManagersOk(old(Value()))
      ensures ok ==> Value() == WithManagers(old(Value()))
    {
      hide UserKey, KeysOf, HasUser, TenantValues, AppValues, UserValues, Resolved, ManagerOk, WithManagers, BareConfig, Snapshot.Valid, Snapshot.Value, Rewritten;
      ghost var d := Value();
      ghost var e := WithManagers(d);
      ValueUsers();
      WithManagersUsers(d);
      RewrittenEnds(d, e);
      KeysAreUsers(d, keys);
      for i := 0 to userCount
        invariant Valid()
        invariant Value() == Rewritten(d, e, i)
        invariant forall j | 0 <= j < i :: ManagerOk(d, d.users[j])
      {
        RewrittenStep(d, e, i);
        Halfway(d, i);
        ok := ResolveAt(i, keys, d);
        if !ok {
          return false;
        }
      }
      return true;
    }

    static method MatchingNames(c: Config, t: Tenant, u: User) returns (names: seq<string>)
      ensures names == Matching(c, t, u, t.groups)
    {
      hide RuleMatches, Matching;
      names := [];
      assert t.groups[0..] == t.groups;
      for j := 0 to |t.groups|
        invariant names + Matching(c, t, u, t.groups[j..]) == Matching(c, t, u, t.groups)
      {
        var g := t.groups[j];
        MatchingStep(c, t, u, j);
        if Dynamic(g) && g.rule.Some? && RuleMatches(g.rule.value, c, t, u) {
          names := names + [g.name];
        }
      }
      MatchingNone(c, t, u);
    }

    /** Rejects static members of dynamic groups and lists the dynamic groups the user matches. */
    static method EvaluateUser(c: Config, t: Tenant, u: User) returns (ok: bool, names: seq<string>)
      requires TenantOf(c, u.tid) == Some(t)
      ensures ok == StaticOk(c, u)
      ensures ok ==> names == Membership(c, u)
    {
      hide TenantOf, Matching;
      names := [];
      for i := 0 to |u.groups|
        invariant forall j | 0 <= j < i :: GroupMeta(t.groups, u.groups[j]).None? || !Dynamic(GroupMeta(t.groups, u.groups[j]).value)
      {
        var g := GroupMeta(t.groups, u.groups[i]);
        if g.Some? && Dynamic(g.value) {
          return false, names;
        }
      }
      names := MatchingNames(c, t, u);
      return true, names;
    }

    method EvaluateAt(i: nat, ghost d: Config) returns (ok: bool)
      requires Valid() && i < userCount == |d.users| && BareConfig(Value()) == BareConfig(d) && Value().users[i] == d.users[i]
      requires TenantOf(d, d.users[i].tid).Some?
      modifies users
      ensures Valid()
      ensures ok == StaticOk(d, d.users[i])
      ensures ok ==> Value() == old(Value()).(users := old(Value()).users[i := d.users[i].(dynamicGroups := Membership(d, d.users[i]))])
    {
      hide BareConfig, StaticOk, Membership, Snapshot.Valid, Snapshot.Value;
      ValueUsers();
      var c := Value();
      var u := c.users[i];
      SameMembership(c, d, u, u);
      SameTenants(c, d, u.tid);
      var names;
      ok, names := EvaluateUser(c, TenantOf(c, u.tid).value, u);
      if ok {
        SetDynamicGroups(i, names);
      }
    }

    /** Memberships depend on every attribute and on the managers, so they come last. */
    method EvaluateDynamicGroups() returns (ok: bool)
      requires Valid() && forall i | 0 <= i < |Value().users| :: TenantOf(Value(), Value().users[i].tid).Some?
      modifies users
      ensures Valid()
      ensures ok == forall i | 0 <= i < |old(Value()).users| :: StaticOk(old(Value()), old(Value()).users[i])
      ensures ok ==> Value() == WithDynamic(old(Value()))
    {
      hide TenantValues, AppValues, UserValues, BareConfig, StaticOk, WithDynamic, TenantOf, Snapshot.Valid, Snapshot.Value, Rewritten;
      ghost var d := Value();
      ghost var e := WithDynamic(d);
      ValueUsers();
      WithDynamicUsers(d);
      RewrittenEnds(d, e);
      for i := 0 to userCount
        invariant Valid()
        invariant Value() == Rewritten(d, e, i)
        invariant forall j | 0 <= j < i :: StaticOk(d, d.users[j])
      {
        RewrittenStep(d, e, i);
        Partway(d, i);
        ok := EvaluateAt(i, d);
        if !ok {
          return false;
        }
      }
      return true;
    }

    method NormalizeTenantList() returns (ok: bool, seen: set<string>)
      requires Valid()
      modifies tenants, groupArrays
      ensures Valid()
      ensures var c := old(Value()); var ts := CanonTenants(c.tenants, c.defaultGroupLimit);
              && ok == (c.tenants != [] && (forall i | 0 <= i < |c.tenants| :: TenantOk(c.tenants[i])) && DistinctTids(ts))
              && (ok ==> Value() == c.(tenants := ts) && Tids(seen, ts))
    {
      hide TenantValues, AppValues, UserValues, TenantOk, CanonTenant, Tids;
      ghost var c := Value();
      ghost var ts := CanonTenants(c.tenants, c.defaultGroupLimit);
      if tenantCount == 0 {
        return false, {};
      }
      ok, seen := NormalizeTenants(tenants, tenantCount, defaultGroupLimit, c.tenants, groupArrays);
      if ok {
        SeenTids(seen, ts);
        assert Value().tenants == ts;
      }
    }

    method NormalizeAppList(seen: set<string>) returns (ok: bool)
      requires Valid() && Tids(seen, Value().tenants)
      modifies apps, claimArrays
      ensures Valid()
      ensures var c := old(Value());
              && ok == (forall i | 0 <= i < |c.apps| :: AppOk(c.apps[i], c.tenants))
              && (ok ==> Value() == c.(apps := CanonApps(c.apps)))
    {
      hide TenantValues, AppValues, UserValues, AppOk, CanonApp, Tids;
      ghost var c := Value();
      ok := NormalizeApps(apps, seen, c.tenants, c.apps, claimArrays);
      if ok {
        assert Value().apps == CanonApps(c.apps);
      }
    }

    method NormalizeConsentList(seen: set<string>) returns (ok: bool)
      requires Valid() && Tids(seen, Value().tenants)
      modifies consents
      ensures Valid()
      ensures var c := old(Value());
              && ok == (forall i | 0 <= i < |c.consents| :: ConsentOk(c.consents[i], c.tenants))
              && (ok ==> Value() == c.(consents := CanonConsents(c.consents)))
    {
      hide TenantValues, AppValues, UserValues, ConsentOk, CanonConsent, Tids;
      ghost var c := Value();
      ok := NormalizeConsents(consents, consentCount, seen, c.tenants);
      if ok {
        assert Value().consents == CanonConsents(c.consents);
      }
    }

    method NormalizeUserList(h: Digest, seen: set<string>) returns (ok: bool, keys: set<string>)
      requires Valid() && Tids(seen, Value().tenants) && forall i | 0 <= i < |Value().tenants| :: |Value().tenants[i].tid| == 36
      modifies users, widArrays
      ensures Valid()
      ensures var c := old(Value()); var us := CanonUsers(h, c.users);
              && ok == ((forall i | 0 <= i < |c.users| :: UserOk(c.users[i], c.tenants)) && DistinctUsers(us))
              && (ok ==> Value() == c.(users := us))
      ensures ok ==> keys == KeysOf(Value())
    {
      hide TenantValues, AppValues, UserValues, UserOk, CanonUser, Tids, UserKey;
      ghost var c := Value();
      ghost var us := CanonUsers(h, c.users);
      ok, keys := NormalizeUsers(h, users, userCount, seen, c.tenants, c.users, widArrays);
      if ok {
        assert Value().users == us;
        assert forall i | 0 <= i < userCount :: UserIs(users[i], us[i]);
      }
    }

    /** Every part on its own. */
    method NormalizeParts(h: Digest) returns (ok: bool, keys: set<string>)
      requires Valid()
      modifies `basePath, `defaultGroupLimit, `tokenExpiry, `graph, graph, tenants, consents, apps, users, groupArrays, claimArrays, widArrays
      ensures Valid() && (graph == null || graph == old(graph) || fresh(graph))
      ensures ok == PartsOk(h, old(Value()))
      ensures ok ==> Value() == Canon(h, old(Value()))
      ensures ok ==> keys == KeysOf(Value())
    {
      hide KeysOf, TenantValues, AppValues, UserValues, TenantOk, CanonTenant, AppOk, CanonApp, UserOk, CanonUser, GraphOk, CanonGraph,
           PathSegment, CanonBasePath, ConsentOk, CanonConsent, Tids, Canon, PartsOk, HeadOk, CanonTenants, CanonApps, CanonConsents, CanonUsers, Value, Snapshot.Valid;
      ghost var c := Value();
      PartsInTurn(h, c);
      keys := {};
      ok := NormalizeHead();
      if !ok {
        return false, keys;
      }
      var seen;
      ok, seen := NormalizeTenantList();
      if !ok {
        return false, keys;
      }
      ok := NormalizeAppList(seen);
      if !ok {
        return false, keys;
      }
      ok := NormalizeConsentList(seen);
      if !ok {
        return false, keys;
      }
      TidLengths(HeadOf(c).tenants, HeadOf(c).defaultGroupLimit);
      ok, keys := NormalizeUserList(h, seen);
    }

    /** The startup validator and the check run on every edit, in place. */
    method Normalize(h: Digest) returns (ok: bool)
      requires Valid()
      modifies `basePath, `defaultGroupLimit, `tokenExpiry, `graph, graph, tenants, consents, apps, users, groupArrays, claimArrays, widArrays
      ensures Valid() && (graph == null || graph == old(graph) || fresh(graph))
      ensures ok == Normalized(h, old(Value())).Some?
      ensures ok ==> Value() == Normalized(h, old(Value())).value
    {
      hide Value, PartsOk, Canon, WithManagers, WithDynamic, ManagersOk, StaticOk, KeysOf, TenantOf;
      ghost var c := Value();
      var keys;
      ok, keys := NormalizeParts(h);
      if !ok {
        return;
      }
      ghost var d := Value();
      CanonTids(h, c);
      ValueUsers();
      ok := ResolveManagers(keys);
      if !ok {
        return;
      }
      ValueUsers();
      WithManagersUsers(d);
      WithManagersTenants(d);
      ok := EvaluateDynamicGroups();
    }

    lemma ValueUsers()
      requires Valid()
      ensures |Value().users| == userCount
      ensures forall i | 0 <= i < userCount :: users[i].u.tid == Value().users[i].tid
    {
      assert forall i | 0 <= i < userCount :: UserIs(users[i], Value().users[i]);
    }
  }

  /** d with the first i users already as in e. */
  ghost function Rewritten(d: Config, e: Config, i: nat): Config
    requires i <= |d.users| == |e.users|
  {
    d.(users := e.users[..i] + d.users[i..])
  }

  lemma RewrittenStep(d: Config, e: Config, i: nat)
    requires i < |d.users| == |e.users|
    ensures |Rewritten(d, e, i).users| == |d.users| && Rewritten(d, e, i).users[i] == d.users[i]
    ensures Rewritten(d, e, i).(users := Rewritten(d, e, i).users[i := e.users[i]]) == Rewritten(d, e, i + 1)
  {
    assert (e.users[..i] + d.users[i..])[i := e.users[i]] == e.users[..i + 1] + d.users[i + 1..];
  }

  lemma RewrittenEnds(d: Config, e: Config)
    requires |d.users| == |e.users| && e.(users := []) == d.(users := [])
    ensures Rewritten(d, e, 0) == d && Rewritten(d, e, |d.users|) == e
  {
    assert e.users[..|d.users|] + d.users[|d.users|..] == e.users;
    assert e.users[..0] + d.users[0..] == d.users;
  }

  lemma MatchingNone(c: Config, t: Tenant, u: User)
    ensures Matching(c, t, u, t.groups[|t.groups|..]) == []
  {
  }

  lemma MatchingStep(c: Config, t: Tenant, u: User, j: nat)
    requires j < |t.groups|
    ensures var g := t.groups[j]; var rest := Matching(c, t, u, t.groups[j + 1..]);
            Matching(c, t, u, t.groups[j..]) ==
              if Dynamic(g) && g.rule.Some? && RuleMatches(g.rule.value, c, t, u) then [g.name] + rest else rest
  {
    hide RuleMatches;
    assert t.groups[j..][0] == t.groups[j] && t.groups[j..][1..] == t.groups[j + 1..];
  }

  lemma WithManagersUsers(d: Config)
    ensures var e := WithManagers(d); |e.users| == |d.users| && e.(users := []) == d.(users := [])
    ensures forall i | 0 <= i < |d.users| :: WithManagers(d).users[i] == d.users[i].(manager := Resolved(d, d.users[i]))
  {
  }

  /** The verdict on a manager reads three fields of the user and no managers of others. */
  lemma ManagerSame(c: Config, d: Config, u: User, v: User)
    requires BareConfig(c) == BareConfig(d) && u.tid == v.tid && u.username == v.username && u.manager == v.manager
    ensures ManagerOk(c, u) == ManagerOk(d, v) && Resolved(c, u) == Resolved(d, v)
    ensures forall name {:trigger HasUser(d, u.tid, name)} :: HasUser(c, u.tid, name) == HasUser(d, u.tid, name)
  {
    hide HasUser, UserByKey;
    SameLookups(c, d, u.tid, u.manager);
    BareOptionName(UserByKey(c, u.tid, u.manager), UserByKey(d, u.tid, u.manager));
    forall name {:trigger HasUser(d, u.tid, name)}
      ensures HasUser(c, u.tid, name) == HasUser(d, u.tid, name)
    {
      HasUserSame(c, d, u.tid, name);
    }
  }

  lemma KeysAreUsers(c: Config, keys: set<string>)
    requires keys == KeysOf(c)
    requires forall i | 0 <= i < |c.users| :: |c.users[i].tid| == 36
    ensures forall tid, name {:trigger HasUser(c, tid, name)} {:trigger UserKey(tid, name)} :: |tid| == 36 ==> (UserKey(tid, name) in keys <==> HasUser(c, tid, name))
  {
    hide UserKey;
    forall tid: string, name: string | |tid| == 36
      ensures UserKey(tid, name) in keys <==> HasUser(c, tid, name)
    {
      if UserKey(tid, name) in keys {
        var i :| 0 <= i < |c.users| && UserKey(c.users[i].tid, c.users[i].username) == UserKey(tid, name);
        UserKeyInjective(c.users[i].tid, c.users[i].username, tid, name);
      }
    }
  }

  /** Part of the users resolved: lookups do not notice. */
  lemma Halfway(d: Config, i: nat)
    requires i <= |d.users|
    ensures BareConfig(Rewritten(d, WithManagers(d), i)) == BareConfig(d)
  {
    hide Resolved;
    BareUnchanged(Rewritten(d, WithManagers(d), i), d);
  }

  lemma BareOptionName(a: Option<User>, b: Option<User>)
    requires BareOption(a) == BareOption(b)
    ensures a.Some? == b.Some? && (a.Some? ==> a.value.username == b.value.username)
  {
    if a.Some? {
      assert a.value.username == Bare(a.value).username == Bare(b.value).username;
    }
  }

  lemma SameTenants(c: Config, d: Config, tid: string)
    requires BareConfig(c) == BareConfig(d)
    ensures TenantOf(c, tid) == TenantOf(d, tid)
  {
    assert c.tenants == BareConfig(c).tenants == BareConfig(d).tenants == d.tenants;
  }

  lemma WithDynamicUsers(d: Config)
    ensures var e := WithDynamic(d); |e.users| == |d.users| && e.(users := []) == d.(users := [])
    ensures forall i | 0 <= i < |d.users| :: WithDynamic(d).users[i] == d.users[i].(dynamicGroups := Membership(d, d.users[i]))
  {
  }

  /** Part of the memberships computed: lookups do not notice. */
  lemma Partway(d: Config, i: nat)
    requires i <= |d.users|
    ensures BareConfig(Rewritten(d, WithDynamic(d), i)) == BareConfig(d)
  {
    hide Membership;
    BareUnchanged(Rewritten(d, WithDynamic(d), i), d);
  }

  /** The first pass, part by part: each stage sees what the stages before it made canonical. */
  lemma PartsInTurn(h: Digest, c: Config)
    ensures
      var c1 := HeadOf(c);
      var c2 := c1.(tenants := CanonTenants(c1.tenants, c1.defaultGroupLimit));
      var c3 := c2.(apps := CanonApps(c2.apps));
      var c4 := c3.(consents := CanonConsents(c3.consents));
      var us := CanonUsers(h, c4.users);
      && Canon(h, c) == c4.(users := us)
      && (PartsOk(h, c) <==>
            && HeadOk(c)
            && c1.tenants != [] && (forall i | 0 <= i < |c1.tenants| :: TenantOk(c1.tenants[i])) && DistinctTids(c2.tenants)
            && (forall i | 0 <= i < |c2.apps| :: AppOk(c2.apps[i], c2.tenants))
            && (forall i | 0 <= i < |c3.consents| :: ConsentOk(c3.consents[i], c3.tenants))
            && (forall i | 0 <= i < |c4.users| :: UserOk(c4.users[i], c4.tenants)) && DistinctUsers(us))
  {
    hide TenantOk, CanonTenants, AppOk, CanonApps, ConsentOk, CanonConsents, UserOk, CanonUsers, GraphOk, CanonGraph, PathSegment,
         CanonBasePath, DistinctTids, DistinctUsers;
  }

  predicate HeadOk(c: Config) {
    PathSegment(CanonBasePath(c.basePath)) && GraphOk(c.graph, CanonBasePath(c.basePath))
  }

  function HeadOf(c: Config): Config {
    c.(basePath := CanonBasePath(c.basePath), defaultGroupLimit := if c.defaultGroupLimit <= 0 then 200 else c.defaultGroupLimit,
       tokenExpiry := if c.tokenExpiry <= 0 then 3600 else c.tokenExpiry, graph := Some(CanonGraph(c.graph)))
  }

  lemma TidLengths(ts: seq<Tenant>, limit: int)
    requires forall i | 0 <= i < |ts| :: TenantOk(ts[i])
    ensures forall i | 0 <= i < |ts| :: |CanonTenants(ts, limit)[i].tid| == 36
  {
    hide GroupsOk, CanonGroups, CanonTid;
  }

  lemma CanonTids(h: Digest, c: Config)
    requires PartsOk(h, c)
    ensures var d := Canon(h, c); forall i | 0 <= i < |d.users| :: |d.users[i].tid| == 36 && TenantOf(d, d.users[i].tid).Some?
  {
    hide PartsSettled, TenantOf, PartsOk, Canon;
    var d := Canon(h, c);
    CanonSettled(h, c);
    forall i | 0 <= i < |d.users|
      ensures |d.users[i].tid| == 36 && TenantOf(d, d.users[i].tid).Some?
    {
      TenantOfUser(h, d, d.users[i]);
    }
  }

  lemma WithManagersTenants(d: Config)
    ensures forall tid :: TenantOf(WithManagers(d), tid) == TenantOf(d, tid)
    ensures forall i | 0 <= i < |d.users| :: WithManagers(d).users[i].tid == d.users[i].tid
  {
    hide Resolved;
  }

  /** No Graph block stands for an empty one. */
  lemma EmptyBlock(basePath: string)
    ensures GraphOk(None, basePath) == GraphOk(Some(NO_GRAPH), basePath) && CanonGraph(None) == CanonGraph(Some(NO_GRAPH))
  {
    hide PathSegment, IsGuid, Trim, Lower, TrimSlashes;
  }
}
