/** Validation and canonicalisation of a configuration: what startup and every edit run.

    A configuration is accepted when it passes the checks, and then every part is
    replaced by its canonical form; managers are resolved against all users, and
    dynamic memberships come last. */
module Normalize {
  import opened Text
  import opened Directory
  import R = RuleSyntax

  // ----- base path and Graph block -----

  function TrimSlashLeft(s: string): (r: string)
    ensures r == "" || r[0] != '/'
    ensures s == "" || s[0] != '/' ==> r == s
  {
    if s != "" && s[0] == '/' then TrimSlashLeft(s[1..]) else s
  }

  function TrimSlashRight(s: string): (r: string)
    ensures r == "" || r[|r| - 1] != '/'
    ensures |r| <= |s| && r == s[..|r|]
    ensures s == "" || s[|s| - 1] != '/' ==> r == s
  {
    if s != "" && s[|s| - 1] == '/' then TrimSlashRight(s[..|s| - 1]) else s
  }

  function TrimSlashes(s: string): string {
    TrimSlashRight(TrimSlashLeft(s))
  }

  predicate SegmentChar(c: char) {
    'a' <= c <= 'z' || 'A' <= c <= 'Z' || '0' <= c <= '9' || c == '_' || c == '-'
  }

  predicate PathSegment(s: string) {
    s != "" && forall i | 0 <= i < |s| :: SegmentChar(s[i])
  }

  lemma SegmentIsTrimmed(s: string)
    requires PathSegment(s)
    ensures Trim(s) == s && TrimSlashes(s) == s && PathSegment(Lower(s))
  {
    hide Trim, TrimSlashLeft, TrimSlashRight;
    assert SegmentChar(s[0]) && SegmentChar(s[|s| - 1]);
    TrimEnds(s);
    forall i | 0 <= i < |s|
      ensures SegmentChar(Lower(s)[i])
    {
      assert SegmentChar(s[i]);
    }
  }

  function CanonBasePath(s: string): string {
    if TrimSlashes(s) == "" then "entra" else TrimSlashes(s)
  }

  const NO_GRAPH := GraphConfig(None, "", "", None, false, 0, 0, None)

  function GraphSegment(g: GraphConfig): string {
    var b := TrimSlashes(Trim(g.basePath));
    if b == "" then "graph" else b
  }

  function CanonGraph(block: Option<GraphConfig>): GraphConfig {
    var g := if block.Some? then block.value else NO_GRAPH;
    var max := if g.maxPageSize <= 0 then 999 else g.maxPageSize;
    var def := if g.defaultPageSize <= 0 then 100 else g.defaultPageSize;
    GraphConfig(
      if g.enabled.None? then Some(true) else g.enabled, Lower(GraphSegment(g)),
      if g.overageEndpoint == "" then "self" else g.overageEndpoint,
      if g.userInfo.None? then Some(true) else g.userInfo, g.appOnly,
      if def > max then max else def, max,
      if g.clockSkew.None? then Some(60) else g.clockSkew)
  }

  predicate GraphOk(block: Option<GraphConfig>, basePath: string) {
    var g := if block.Some? then block.value else NO_GRAPH;
    var lower := Lower(GraphSegment(g));
    && PathSegment(GraphSegment(g))
    && lower != "_entra" && lower != "organizations" && lower != "common" && lower != basePath && !IsGuid(lower)
    && (g.overageEndpoint == "" || g.overageEndpoint == "self" || g.overageEndpoint == "microsoft")
    && (g.clockSkew.Some? ==> g.clockSkew.value >= 0)
  }

  lemma CanonGraphStable(block: Option<GraphConfig>, basePath: string)
    requires GraphOk(block, basePath)
    ensures GraphOk(Some(CanonGraph(block)), basePath) && CanonGraph(Some(CanonGraph(block))) == CanonGraph(block)
    ensures 1 <= CanonGraph(block).defaultPageSize <= CanonGraph(block).maxPageSize
  {
    hide PathSegment, IsGuid, Trim, TrimSlashes;
    var g := if block.Some? then block.value else NO_GRAPH;
    SegmentIsTrimmed(GraphSegment(g));
    LowerIdempotent(GraphSegment(g));
    SegmentIsTrimmed(Lower(GraphSegment(g)));
  }

  // ----- tenants and groups -----

  function CanonGroup(g: Group): Group {
    var text := Trim(g.membershipRule);
    g.(name := Trim(g.name), oid := Lower(Trim(g.oid)), membershipRule := text,
       rule := if text == "" then None else R.ParseRule(text))
  }

  predicate GroupOk(g: Group) {
    && Trim(g.name) != ""
    && (Lower(Trim(g.oid)) == "" || IsGuid(Lower(Trim(g.oid))))
    && (Trim(g.membershipRule) == "" || R.ParseRule(Trim(g.membershipRule)).Some?)
  }

  predicate DistinctGroups(gs: seq<Group>) {
    forall i, j | 0 <= i < j < |gs| :: gs[i].name != gs[j].name
  }

  function CanonGroups(gs: seq<Group>): (r: seq<Group>)
    ensures |r| == |gs|
  {
    seq(|gs|, i requires 0 <= i < |gs| => CanonGroup(gs[i]))
  }

  predicate GroupsOk(gs: seq<Group>) {
    (forall i | 0 <= i < |gs| :: GroupOk(gs[i])) && DistinctGroups(CanonGroups(gs))
  }

  function CanonTid(tid: string): string {
    Lower(Trim(tid))
  }

  function CanonTenant(t: Tenant, limit: int): Tenant {
    t.(tid := CanonTid(t.tid),
       groupClaimFormat := if t.groupClaimFormat == "" then "name" else t.groupClaimFormat,
       groupLimit := if t.groupLimit <= 0 then limit else t.groupLimit,
       name := if t.name == "" then CanonTid(t.tid) else t.name,
       groups := CanonGroups(t.groups))
  }

  predicate TenantOk(t: Tenant) {
    && IsGuid(CanonTid(t.tid))
    && (t.groupClaimFormat == "" || t.groupClaimFormat == "name" || t.groupClaimFormat == "object_id")
    && GroupsOk(t.groups)
  }

  predicate DistinctTids(ts: seq<Tenant>) {
    forall i, j | 0 <= i < j < |ts| :: ts[i].tid != ts[j].tid
  }

  function CanonTenants(ts: seq<Tenant>, limit: int): (r: seq<Tenant>)
    ensures |r| == |ts|
  {
    seq(|ts|, i requires 0 <= i < |ts| => CanonTenant(ts[i], limit))
  }

  lemma CanonGroupStable(g: Group)
    requires GroupOk(g)
    ensures GroupOk(CanonGroup(g)) && CanonGroup(CanonGroup(g)) == CanonGroup(g)
  {
    hide R.ParseRule, Lower, Trim;
    TrimIdempotent(g.name);
    TrimIdempotent(g.oid);
    TrimIdempotent(g.membershipRule);
    LowerIdempotent(Trim(g.oid));
    TrimOfLower(Trim(g.oid));
  }

  lemma CanonGroupsStable(gs: seq<Group>)
    requires GroupsOk(gs)
    ensures GroupsOk(CanonGroups(gs)) && CanonGroups(CanonGroups(gs)) == CanonGroups(gs)
  {
    forall i | 0 <= i < |gs|
      ensures GroupOk(CanonGroups(gs)[i]) && CanonGroups(CanonGroups(gs))[i] == CanonGroups(gs)[i]
    {
      CanonGroupStable(gs[i]);
    }
    assert CanonGroups(CanonGroups(gs)) == CanonGroups(gs);
  }

  lemma CanonTidStable(tid: string)
    ensures CanonTid(CanonTid(tid)) == CanonTid(tid)
  {
    hide Trim;
    TrimIdempotent(tid);
    TrimOfLower(Trim(tid));
    LowerIdempotent(Trim(tid));
  }

  lemma CanonTenantStable(t: Tenant, limit: int)
    requires TenantOk(t) && limit > 0
    ensures TenantOk(CanonTenant(t, limit)) && CanonTenant(CanonTenant(t, limit), limit) == CanonTenant(t, limit)
  {
    CanonTidStable(t.tid);
    CanonGroupsStable(t.groups);
    GuidIsCanonical(CanonTid(t.tid));
  }

  // ----- apps and consents -----

  const RESERVED_CLAIMS: set<string> := {
    "iss", "aud", "iat", "nbf", "exp", "tid", "oid", "sub", "ver", "name", "preferred_username", "uti", "nonce",
    "email", "xms_edov", "amr", "given_name", "family_name", "roles", "wids", "groups", "_claim_names", "_claim_sources",
    "scp", "azp", "appid", "idp" }

  /** The attribute a claims mapping may copy, named "user.<attribute>" in any case. */
  function ClaimSource(source: string): Option<R.Attr> {
    var s := Lower(source);
    if !HasPrefix(s, "user.") then None
    else
      match R.AttrOf(s[5..])
      case None => None
      case Some(a) => if a.DisplayName? || a.Mail? || a.UserPrincipalName? then None else Some(a)
  }

  function CanonMapping(m: ClaimMapping): ClaimMapping {
    ClaimMapping(Trim(m.name), Trim(m.source))
  }

  predicate MappingOk(m: ClaimMapping) {
    Trim(m.name) != "" && Trim(m.name) !in RESERVED_CLAIMS && ClaimSource(Trim(m.source)).Some?
  }

  function CanonClaims(ms: seq<ClaimMapping>): (r: seq<ClaimMapping>)
    ensures |r| == |ms|
  {
    seq(|ms|, i requires 0 <= i < |ms| => CanonMapping(ms[i]))
  }

  predicate DistinctClaims(ms: seq<ClaimMapping>) {
    forall i, j | 0 <= i < j < |ms| :: ms[i].name != ms[j].name
  }

  predicate ClaimsOk(ms: seq<ClaimMapping>) {
    (forall i | 0 <= i < |ms| :: MappingOk(ms[i])) && DistinctClaims(CanonClaims(ms))
  }

  function CanonApp(a: App): App {
    a.(clientId := Trim(a.clientId), tid := CanonTid(a.tid), claims := CanonClaims(a.claims))
  }

  predicate HasTid(ts: seq<Tenant>, tid: string) {
    exists i | 0 <= i < |ts| :: ts[i].tid == tid
  }

  /** ts are the tenants already canonical. */
  predicate AppOk(a: App, ts: seq<Tenant>) {
    Trim(a.clientId) != "" && (CanonTid(a.tid) == "" || HasTid(ts, CanonTid(a.tid))) && ClaimsOk(a.claims)
  }

  lemma MappingStable(m: ClaimMapping)
    ensures CanonMapping(CanonMapping(m)) == CanonMapping(m)
    ensures MappingOk(CanonMapping(m)) == MappingOk(m)
  {
    TrimIdempotent(m.name);
    TrimIdempotent(m.source);
  }

  lemma ClaimsStable(ms: seq<ClaimMapping>)
    requires ClaimsOk(ms)
    ensures ClaimsOk(CanonClaims(ms)) && CanonClaims(CanonClaims(ms)) == CanonClaims(ms)
  {
    forall i | 0 <= i < |ms|
      ensures MappingOk(CanonClaims(ms)[i]) && CanonMapping(CanonClaims(ms)[i]) == CanonClaims(ms)[i]
    {
      MappingStable(ms[i]);
    }
    assert CanonClaims(CanonClaims(ms)) == CanonClaims(ms);
  }

  lemma CanonAppStable(a: App, ts: seq<Tenant>)
    requires AppOk(a, ts)
    ensures AppOk(CanonApp(a), ts) && CanonApp(CanonApp(a)) == CanonApp(a)
  {
    hide MappingOk;
    var b := CanonApp(a);
    CanonTidStable(a.tid);
    ClaimsStable(a.claims);
    assert b.claims == CanonClaims(a.claims);
    TrimIdempotent(a.clientId);
    assert CanonApp(b).claims == b.claims;
  }

  function CanonConsent(cs: Consent): Consent {
    cs.(tid := CanonTid(cs.tid))
  }

  predicate ConsentOk(cs: Consent, ts: seq<Tenant>) {
    cs.clientId != "" && HasTid(ts, CanonTid(cs.tid))
  }

  // ----- users -----

  function CanonWids(ws: seq<string>): (r: seq<string>)
    ensures |r| == |ws|
  {
    seq(|ws|, i requires 0 <= i < |ws| => CanonTid(ws[i]))
  }

  function CanonOid(h: Digest, u: User): string {
    if u.oid == "" then UuidV5(h, UserIds, CanonTid(u.tid) + ":" + u.username) else Lower(u.oid)
  }

  function CanonUser(h: Digest, u: User): User {
    var tid := CanonTid(u.tid);
    u.(tid := tid,
       oid := CanonOid(h, u),
       name := if u.name == "" then u.username else u.name,
       upn := CanonTid(u.upn), manager := Trim(u.manager), wids := CanonWids(u.wids))
  }

  predicate UserOk(u: User, ts: seq<Tenant>) {
    && u.username != ""
    && HasTid(ts, CanonTid(u.tid))
    && (u.error == "" || u.error == "interaction_required" || u.error == "access_denied" || u.error == "invalid_grant")
    && (u.mfa == "" || u.mfa == "passkey")
    && (u.oid == "" || IsGuid(Lower(u.oid)))
    && forall i | 0 <= i < |u.wids| :: IsGuid(CanonTid(u.wids[i]))
  }

  predicate DistinctUsers(us: seq<User>) {
    forall i, j | 0 <= i < j < |us| :: !(us[i].tid == us[j].tid && us[i].username == us[j].username)
  }

  function CanonUsers(h: Digest, us: seq<User>): (r: seq<User>)
    ensures |r| == |us|
  {
    seq(|us|, i requires 0 <= i < |us| => CanonUser(h, us[i]))
  }

  lemma OidStable(h: Digest, u: User)
    requires u.oid == "" || IsGuid(Lower(u.oid))
    ensures IsGuid(CanonOid(h, u)) && Lower(CanonOid(h, u)) == CanonOid(h, u) && CanonOid(h, u) != ""
  {
    GuidIsCanonical(CanonOid(h, u));
  }

  lemma WidsStable(ws: seq<string>)
    ensures CanonWids(CanonWids(ws)) == CanonWids(ws)
  {
    forall i | 0 <= i < |ws|
      ensures CanonWids(CanonWids(ws))[i] == CanonWids(ws)[i]
    {
      CanonTidStable(ws[i]);
    }
  }

  lemma CanonUserStable(h: Digest, u: User, ts: seq<Tenant>)
    requires UserOk(u, ts)
    ensures UserOk(CanonUser(h, u), ts) && CanonUser(h, CanonUser(h, u)) == CanonUser(h, u)
    ensures IsGuid(CanonUser(h, u).oid)
  {
    hide Lower, Trim, UuidV5;
    CanonTidStable(u.tid);
    CanonTidStable(u.upn);
    TrimIdempotent(u.manager);
    OidStable(h, u);
    WidsStable(u.wids);
    assert CanonUser(h, u).wids == CanonWids(u.wids);
  }

  function CanonApps(xs: seq<App>): (r: seq<App>)
    ensures |r| == |xs|
  {
    seq(|xs|, i requires 0 <= i < |xs| => CanonApp(xs[i]))
  }

  function CanonConsents(xs: seq<Consent>): (r: seq<Consent>)
    ensures |r| == |xs|
  {
    seq(|xs|, i requires 0 <= i < |xs| => CanonConsent(xs[i]))
  }

  // ----- first pass: every part on its own -----

  function Canon(h: Digest, c: Config): Config {
    var limit := if c.defaultGroupLimit <= 0 then 200 else c.defaultGroupLimit;
    c.(basePath := CanonBasePath(c.basePath), defaultGroupLimit := limit,
       tokenExpiry := if c.tokenExpiry <= 0 then 3600 else c.tokenExpiry,
       graph := Some(CanonGraph(c.graph)),
       tenants := CanonTenants(c.tenants, limit),
       apps := CanonApps(c.apps),
       consents := CanonConsents(c.consents),
       users := CanonUsers(h, c.users))
  }

  predicate PartsOk(h: Digest, c: Config) {
    var d := Canon(h, c);
    && PathSegment(d.basePath)
    && GraphOk(c.graph, d.basePath)
    && c.tenants != []
    && (forall i | 0 <= i < |c.tenants| :: TenantOk(c.tenants[i])) && DistinctTids(d.tenants)
    && (forall i | 0 <= i < |c.apps| :: AppOk(c.apps[i], d.tenants))
    && (forall i | 0 <= i < |c.consents| :: ConsentOk(c.consents[i], d.tenants))
    && (forall i | 0 <= i < |c.users| :: UserOk(c.users[i], d.tenants)) && DistinctUsers(d.users)
  }

  // ----- second pass: managers -----

  predicate HasUser(c: Config, tid: string, username: string) {
    exists i | 0 <= i < |c.users| :: c.users[i].tid == tid && c.users[i].username == username
  }

  /** A manager named by object id or principal name becomes the username. */
  function Resolved(c: Config, u: User): string {
    if u.manager == "" || HasUser(c, u.tid, u.manager) then u.manager
    else
      match UserByKey(c, u.tid, u.manager)
      case Some(m) => m.username
      case None => u.manager
  }

  predicate ManagerOk(c: Config, u: User) {
    u.manager == "" || (Resolved(c, u) != u.username && HasUser(c, u.tid, Resolved(c, u)))
  }

  predicate ManagersOk(c: Config) {
    forall i | 0 <= i < |c.users| :: ManagerOk(c, c.users[i])
  }

  function WithManagers(c: Config): Config {
    c.(users := seq(|c.users|, i requires 0 <= i < |c.users| => c.users[i].(manager := Resolved(c, c.users[i]))))
  }

  // ----- third pass: dynamic memberships -----

  function GroupsDeclared(c: Config, tid: string): seq<Group> {
    match TenantOf(c, tid)
    case None => []
    case Some(t) => t.groups
  }

  /** No user is a static member of a dynamic group. */
  predicate StaticOk(c: Config, u: User) {
    forall i | 0 <= i < |u.groups| ::
      var g := GroupMeta(GroupsDeclared(c, u.tid), u.groups[i]); g.None? || !Dynamic(g.value)
  }

  function Membership(c: Config, u: User): seq<string> {
    match TenantOf(c, u.tid)
    case None => []
    case Some(t) => Matching(c, t, u, t.groups)
  }

  function WithDynamic(c: Config): Config {
    c.(users := seq(|c.users|, i requires 0 <= i < |c.users| => c.users[i].(dynamicGroups := Membership(c, c.users[i]))))
  }

  /** The configuration accepted for c, or None when normalize reports an error. */
  function Normalized(h: Digest, c: Config): Option<Config> {
    var d := Canon(h, c);
    if !PartsOk(h, c) || !ManagersOk(d) then None
    else
      var e := WithManagers(d);
      if exists i | 0 <= i < |e.users| :: !StaticOk(e, e.users[i]) then None
      else Some(WithDynamic(e))
  }
}
