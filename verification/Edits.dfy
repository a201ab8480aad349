/** The edits of the directory store, on values: what each does to a configuration, which
    ones are accepted, and what every run of them keeps. */
module Edits {
  import opened Text
  import opened Lists
  import opened Directory
  import opened Normalize
  import opened Invariant

  datatype Edit =
    | CreateTenant(t: Tenant)
    | UpdateTenant(tid: string, t: Tenant)
    | DeleteTenant(tid: string)
    | CreateUser(u: User)
    | UpdateUser(tid: string, username: string, u: User)
    | DeleteUser(tid: string, username: string)
    | SetGraphEnabled(on: bool)

  datatype Op = Mutate(edit: Edit) | Reset

  /** The first element satisfying p replaced, or None when there is none. */
  function ReplaceFirst<T>(xs: seq<T>, p: T -> bool, x: T): Option<seq<T>> {
    if xs == [] then None
    else if p(xs[0]) then Some([x] + xs[1..])
    else
      match ReplaceFirst(xs[1..], p, x)
      case None => None
      case Some(rest) => Some([xs[0]] + rest)
  }

  /** Reports of a deleted user lose their manager. */
  function Unmanaged(us: seq<User>, tid: string, username: string): (r: seq<User>)
    ensures |r| == |us|
  {
    seq(|us|, i requires 0 <= i < |us| =>
      if us[i].tid == tid && us[i].manager == username then us[i].(manager := "") else us[i])
  }

  function OtherTenant(tid: string): Tenant -> bool {
    (t: Tenant) => t.tid != tid
  }

  function Outsider(tid: string): User -> bool {
    (u: User) => u.tid != tid
  }

  function OtherConsent(tid: string): Consent -> bool {
    (cs: Consent) => cs.tid != tid
  }

  predicate IsUser(u: User, tid: string, username: string) {
    u.tid == tid && u.username == username
  }

  function OtherUser(tid: string, username: string): User -> bool {
    (u: User) => !IsUser(u, tid, username)
  }

  function WithoutTenant(c: Config, tid: string): Config {
    c.(tenants := Keep(c.tenants, OtherTenant(tid)),
       users := Keep(c.users, Outsider(tid)),
       consents := Keep(c.consents, OtherConsent(tid)))
  }

  function WithoutUser(c: Config, tid: string, username: string): Config {
    c.(users := Unmanaged(Keep(c.users, OtherUser(tid, username)), tid, username))
  }

  /** The Graph block with the surface turned on or off. */
  function Switched(block: Option<GraphConfig>, on: bool): GraphConfig {
    (if block.Some? then block.value else NO_GRAPH).(enabled := Some(on))
  }

  /** The edit itself, before validation; None when it reports an error. */
  function Edited(c: Config, e: Edit): Option<Config> {
    match e
    case CreateTenant(t) => Some(c.(tenants := c.tenants + [t]))
    case UpdateTenant(tid0, t) =>
      var tid := CanonTid(tid0);
      if t.tid != "" && CanonTid(t.tid) != tid then None
      else
        (match ReplaceFirst(c.tenants, (x: Tenant) => x.tid == tid, t.(tid := tid))
         case None => None
         case Some(ts) => Some(c.(tenants := ts)))
    case DeleteTenant(tid0) =>
      var tid := CanonTid(tid0);
      if HasTid(c.tenants, tid) then Some(WithoutTenant(c, tid)) else None
    case CreateUser(u) => Some(c.(users := c.users + [u]))
    case UpdateUser(tid0, username, u) =>
      var tid := CanonTid(tid0);
      if u.tid != "" && CanonTid(u.tid) != tid then None
      else
        (match ReplaceFirst(c.users, (x: User) => IsUser(x, tid, username), u.(tid := tid, username := username))
         case None => None
         case Some(us) => Some(c.(users := us)))
    case DeleteUser(tid0, username) =>
      var tid := CanonTid(tid0);
      if HasUser(c, tid, username) then Some(WithoutUser(c, tid, username)) else None
    case SetGraphEnabled(on) =>
      Some(c.(graph := Some(Switched(c.graph, on))))
  }

  /** The configuration the edit publishes, or None when it is refused. */
  function Accepted(h: Digest, c: Config, e: Edit): Option<Config> {
    match Edited(c, e)
    case None => None
    case Some(d) => Normalized(h, d)
  }

  /** A refused edit leaves the published configuration as it was. */
  function Next(h: Digest, seed: Config, c: Config, op: Op): Config {
    match op
    case Reset => seed
    case Mutate(e) => if Accepted(h, c, e).Some? then Accepted(h, c, e).value else c
  }

  function Run(h: Digest, seed: Config, ops: seq<Op>): Config {
    if ops == [] then seed else Next(h, seed, Run(h, seed, ops[..|ops| - 1]), ops[|ops| - 1])
  }

  // ----- what every reachable configuration satisfies -----

  /** The invariant in a reader's terms. */
  ghost predicate Published(c: Config) {
    && (forall i, j | 0 <= i < j < |c.tenants| :: c.tenants[i].tid != c.tenants[j].tid)
    && (forall i, j | 0 <= i < j < |c.users| :: !(c.users[i].tid == c.users[j].tid && c.users[i].username == c.users[j].username))
    && (forall u | u in c.users :: HasTid(c.tenants, u.tid) && IsGuid(u.oid))
    && (forall cs | cs in c.consents :: HasTid(c.tenants, cs.tid))
    && (forall a | a in c.apps :: a.tid == "" || HasTid(c.tenants, a.tid))
    && (forall u | u in c.users :: ManagerIsAnother(c, u) && MembershipExact(c, u))
    && c.graph.Some? && 1 <= c.graph.value.defaultPageSize <= c.graph.value.maxPageSize
  }

  /** A manager is a different user of the same tenant. */
  ghost predicate ManagerIsAnother(c: Config, u: User) {
    u.manager != "" ==> exists m | m in c.users :: m.tid == u.tid && m.username == u.manager && m.username != u.username
  }

  /** Dynamic memberships are the matching groups in declared order, and none is also held statically. */
  ghost predicate MembershipExact(c: Config, u: User) {
    exists t | t in c.tenants ::
      t.tid == u.tid && u.dynamicGroups == Matching(c, t, u, t.groups) &&
      forall g | g in t.groups && g.name in u.groups :: !Dynamic(g)
  }

  lemma TenantOfUser(h: Digest, c: Config, u: User)
    requires PartsSettled(h, c) && u in c.users
    ensures TenantOf(c, u.tid).Some? && TenantOf(c, u.tid).value.tid == u.tid && HasTid(c.tenants, u.tid) && Lower(u.tid) == u.tid
    ensures IsGuid(u.tid) && IsGuid(u.oid)
  {
    hide AppOk, CanonApp, ConsentOk, CanonConsent, HeadSettled, UserSettled, TenantOk, CanonTenant, DistinctUsers, DistinctTids, IsGuid, Lower;
    var i :| 0 <= i < |c.users| && c.users[i] == u;
    UserSettledIds(h, c.users[i], c.tenants);
    var j :| 0 <= j < |c.tenants| && c.tenants[j].tid == u.tid;
    TenantSettledGroups(c.tenants[j], c.defaultGroupLimit);
    GuidIsCanonical(u.tid);
  }

  lemma UserSettledIds(h: Digest, u: User, ts: seq<Tenant>)
    requires UserSettled(h, u, ts)
    ensures HasTid(ts, u.tid) && IsGuid(u.oid)
  {
    hide CanonWids, IsGuid, HasTid;
    OidStable(h, u);
    assert CanonUser(h, u).tid == u.tid && CanonUser(h, u).oid == u.oid;
  }

  lemma TenantSettledGroups(t: Tenant, limit: int)
    requires TenantOk(t) && CanonTenant(t, limit) == t
    ensures CanonGroups(t.groups) == t.groups && DistinctGroups(t.groups) && IsGuid(t.tid)
  {
    hide GroupOk, CanonGroup, Lower, Trim;
    assert CanonTenant(t, limit).groups == CanonGroups(t.groups);
    assert CanonTenant(t, limit).tid == CanonTid(t.tid);
  }

  lemma TenantGroupsSettled(c: Config, t: Tenant)
    requires RestSettled(c) && t in c.tenants
    ensures CanonGroups(t.groups) == t.groups && DistinctGroups(t.groups) && IsGuid(t.tid)
  {
    hide AppOk, ConsentOk, HeadSettled, TenantOk, CanonTenant;
    var j :| 0 <= j < |c.tenants| && c.tenants[j] == t;
    TenantSettledGroups(t, c.defaultGroupLimit);
  }

  lemma ManagerPublished(c: Config, u: User)
    requires ManagerNamed(c, u)
    ensures ManagerIsAnother(c, u)
  {
    if u.manager != "" {
      var j :| 0 <= j < |c.users| && c.users[j].tid == u.tid && c.users[j].username == u.manager;
      assert c.users[j] in c.users;
    }
  }

  lemma MembershipPublished(h: Digest, c: Config, u: User)
    requires PartsSettled(h, c) && u in c.users && StaticOk(c, u) && u.dynamicGroups == Membership(c, u)
    ensures MembershipExact(c, u)
  {
    hide RestSettled, UserSettled, Matching, CanonGroups, DistinctUsers;
    TenantOfUser(h, c, u);
    var t := TenantOf(c, u.tid).value;
    TenantGroupsSettled(c, t);
    forall g | g in t.groups && g.name in u.groups
      ensures !Dynamic(g)
    {
      var k :| 0 <= k < |u.groups| && u.groups[k] == g.name;
    }
  }

  lemma UserPublished(h: Digest, c: Config, u: User)
    requires Settled(h, c) && u in c.users
    ensures MembershipExact(c, u) && ManagerIsAnother(c, u)
  {
    hide PartsSettled, StaticOk, ManagerNamed, Membership, MembershipExact, ManagerIsAnother;
    var i :| 0 <= i < |c.users| && c.users[i] == u;
    ManagerPublished(c, u);
    MembershipPublished(h, c, u);
  }

  lemma SettledIsPublished(h: Digest, c: Config)
    requires Settled(h, c)
    ensures Published(c)
  {
    hide UserSettled, MembershipExact, ManagerIsAnother, AppOk, CanonApp, ConsentOk, CanonConsent, TenantOk, CanonTenant, HeadSettled;
    forall u | u in c.users
      ensures HasTid(c.tenants, u.tid) && IsGuid(u.oid) && MembershipExact(c, u) && ManagerIsAnother(c, u)
    {
      TenantOfUser(h, c, u);
      UserPublished(h, c, u);
    }
    forall a | a in c.apps
      ensures a.tid == "" || HasTid(c.tenants, a.tid)
    {
      var i :| 0 <= i < |c.apps| && c.apps[i] == a;
      AppConfigured(a, c.tenants);
    }
    forall cs | cs in c.consents
      ensures HasTid(c.tenants, cs.tid)
    {
      var i :| 0 <= i < |c.consents| && c.consents[i] == cs;
      ConsentConfigured(cs, c.tenants);
    }
    PageSizesSettled(c);
  }

  lemma AppConfigured(a: App, ts: seq<Tenant>)
    requires AppOk(a, ts) && CanonApp(a) == a
    ensures a.tid == "" || HasTid(ts, a.tid)
  {
    hide ClaimsOk, CanonClaims;
    assert CanonApp(a).tid == CanonTid(a.tid);
  }

  lemma ConsentConfigured(cs: Consent, ts: seq<Tenant>)
    requires ConsentOk(cs, ts) && CanonConsent(cs) == cs
    ensures HasTid(ts, cs.tid)
  {
    assert CanonConsent(cs).tid == CanonTid(cs.tid);
  }

  lemma PageSizesSettled(c: Config)
    requires HeadSettled(c)
    ensures c.graph.Some? && 1 <= c.graph.value.defaultPageSize <= c.graph.value.maxPageSize
  {
    CanonGraphStable(c.graph, c.basePath);
  }

  /** After any sequence of edits and resets, accepted or refused, the published configuration
      satisfies the whole invariant. */
  lemma {:induction false} EveryRunIsSettled(h: Digest, raw: Config, ops: seq<Op>)
    requires Normalized(h, raw).Some?
    ensures Settled(h, Run(h, Normalized(h, raw).value, ops)) && Published(Run(h, Normalized(h, raw).value, ops))
  {
    hide Normalized, Edited, Settled, Published;
    var seed := Normalized(h, raw).value;
    AcceptedIsSettled(h, raw);
    if ops != [] {
      EveryRunIsSettled(h, raw, ops[..|ops| - 1]);
      var c := Run(h, seed, ops[..|ops| - 1]);
      var op := ops[|ops| - 1];
      if op.Mutate? && Accepted(h, c, op.edit).Some? {
        AcceptedIsSettled(h, Edited(c, op.edit).value);
      }
    }
    SettledIsPublished(h, Run(h, seed, ops));
  }
}
