/** The passes of normalize as they run: in place, through the arrays the configuration is
    made of, with seen-sets filled along the way. */
module Passes {
  import opened Text
  import opened Directory
  import opened Normalize
  import opened Invariant
  import R = RuleParser
  import RuleSyntax

  /** A tenant, app or user whose rewritten list lives in an array of its own; the list field of
      the value part is not used. */
  datatype TenantRec = TenantRec(t: Tenant, groups: array<Group>)
  datatype AppRec = AppRec(a: App, claims: array<ClaimMapping>)
  datatype UserRec = UserRec(u: User, wids: array<string>)

  predicate TenantIs(r: TenantRec, v: Tenant)
    reads r.groups
  {
    r.t.(groups := r.groups[..]) == v
  }

  predicate AppIs(r: AppRec, v: App)
    reads r.claims
  {
    r.a.(claims := r.claims[..]) == v
  }

  predicate UserIs(r: UserRec, v: User)
    reads r.wids
  {
    r.u.(wids := r.wids[..]) == v
  }

  // ----- groups, claims, work ids: one array each -----

  method NormalizeGroup(g: Group) returns (ok: bool, g': Group)
    ensures ok == GroupOk(g)
    ensures ok ==> g' == CanonGroup(g)
  {
    hide Trim, Lower, IsGuid, RuleSyntax.ParseRule;
    g' := g.(name := Trim(g.name));
    if g'.name == "" {
      return false, g';
    }
    g' := g'.(oid := Lower(Trim(g'.oid)));
    if g'.oid != "" && !IsGuid(g'.oid) {
      return false, g';
    }
    g' := g'.(membershipRule := Trim(g'.membershipRule), rule := None);
    if Dynamic(g') {
      var r := R.CompileRule(g'.membershipRule);
      if r.None? {
        return false, g';
      }
      g' := g'.(rule := r);
    }
    ok := true;
  }

  method NormalizeGroups(gs: array<Group>) returns (ok: bool)
    modifies gs
    ensures ok == GroupsOk(old(gs[..]))
    ensures ok ==> gs[..] == CanonGroups(old(gs[..]))
  {
    hide GroupOk, CanonGroup;
    ghost var was := gs[..];
    ghost var out := CanonGroups(was);
    var seen: set<string> := {};
    for i := 0 to gs.Length
      invariant forall j | 0 <= j < i :: GroupOk(was[j]) && gs[j] == out[j]
      invariant forall j | i <= j < gs.Length :: gs[j] == was[j]
      invariant seen == set j | 0 <= j < i :: out[j].name
      invariant forall j, k | 0 <= j < k < i :: out[j].name != out[k].name
    {
      var good, g := NormalizeGroup(gs[i]);
      if !good {
        return false;
      }
      if g.name in seen {
        ghost var j :| 0 <= j < i && out[j].name == g.name;
        assert out[j].name == out[i].name;
        return false;
      }
      seen := seen + {g.name};
      gs[i] := g;
    }
    return true;
  }

  method NormalizeClaims(ms: array<ClaimMapping>) returns (ok: bool)
    modifies ms
    ensures ok == ClaimsOk(old(ms[..]))
    ensures ok ==> ms[..] == CanonClaims(old(ms[..]))
  {
    hide Trim, ClaimSource;
    ghost var was := ms[..];
    var seen: set<string> := {};
    for i := 0 to ms.Length
      invariant forall j | 0 <= j < i :: MappingOk(was[j]) && ms[j] == CanonMapping(was[j])
      invariant forall j | i <= j < ms.Length :: ms[j] == was[j]
      invariant seen == set j | 0 <= j < i :: ms[j].name
      invariant forall j, k | 0 <= j < k < i :: ms[j].name != ms[k].name
    {
      var m := ClaimMapping(Trim(ms[i].name), Trim(ms[i].source));
      if m.name == "" || m.name in RESERVED_CLAIMS {
        assert !MappingOk(was[i]);
        return false;
      }
      if m.name in seen {
        ghost var j :| 0 <= j < i && ms[j].name == m.name;
        assert CanonClaims(was)[j].name == CanonClaims(was)[i].name;
        return false;
      }
      seen := seen + {m.name};
      if ClaimSource(m.source).None? {
        assert !MappingOk(was[i]);
        return false;
      }
      ms[i] := m;
    }
    return true;
  }

  method NormalizeWids(ws: array<string>) returns (ok: bool)
    modifies ws
    ensures ok == forall i | 0 <= i < ws.Length :: IsGuid(CanonTid(old(ws[..])[i]))
    ensures ok ==> ws[..] == CanonWids(old(ws[..]))
  {
    hide IsGuid, CanonTid;
    ghost var was := ws[..];
    for i := 0 to ws.Length
      invariant forall j | 0 <= j < i :: IsGuid(CanonTid(was[j])) && ws[j] == CanonTid(was[j])
      invariant forall j | i <= j < ws.Length :: ws[j] == was[j]
    {
      var w := CanonTid(ws[i]);
      if !IsGuid(w) {
        return false;
      }
      ws[i] := w;
    }
    return true;
  }

  // ----- tenants -----

  ghost predicate TenantsAre(ts: array<TenantRec>, n: nat, vals: seq<Tenant>)
    requires n <= ts.Length
    reads ts, set i | 0 <= i < n :: ts[i].groups
  {
    n == |vals| && (forall i | 0 <= i < n :: TenantIs(ts[i], vals[i])) &&
    forall i, j | 0 <= i < j < n :: ts[i].groups != ts[j].groups
  }

  method NormalizeTenant(r: TenantRec, limit: int, ghost val: Tenant) returns (ok: bool, r': TenantRec)
    requires TenantIs(r, val)
    modifies r.groups
    ensures ok == TenantOk(val) && r'.groups == r.groups
    ensures ok ==> TenantIs(r', CanonTenant(val, limit))
    ensures r'.t.tid == CanonTid(val.tid)
  {
    hide IsGuid, CanonTid, GroupsOk, CanonGroups;
    r' := r.(t := r.t.(tid := CanonTid(r.t.tid)));
    assert val.groups == r.groups[..] && val.tid == r.t.tid && val.groupClaimFormat == r.t.groupClaimFormat;
    if !IsGuid(r'.t.tid) {
      return false, r';
    }
    if r'.t.groupClaimFormat == "" {
      r' := r'.(t := r'.t.(groupClaimFormat := "name"));
    } else if r'.t.groupClaimFormat != "name" && r'.t.groupClaimFormat != "object_id" {
      return false, r';
    }
    if r'.t.groupLimit <= 0 {
      r' := r'.(t := r'.t.(groupLimit := limit));
    }
    if r'.t.name == "" {
      r' := r'.(t := r'.t.(name := r'.t.tid));
    }
    ok := NormalizeGroups(r.groups);
  }

  method NormalizeTenants(ts: array<TenantRec>, n: nat, limit: int, ghost vals: seq<Tenant>, ghost inner: set<array<Group>>)
    returns (ok: bool, seen: set<string>)
    requires n <= ts.Length && TenantsAre(ts, n, vals) && forall i | 0 <= i < n :: ts[i].groups in inner
    modifies ts, inner
    ensures forall i | 0 <= i < ts.Length :: ts[i].groups == old(ts[i].groups)
    ensures forall i | n <= i < ts.Length :: ts[i] == old(ts[i])
    ensures ok == ((forall i | 0 <= i < n :: TenantOk(vals[i])) && DistinctTids(CanonTenants(vals, limit)))
    ensures ok ==> TenantsAre(ts, n, CanonTenants(vals, limit))
    ensures ok ==> seen == set i | 0 <= i < n :: CanonTenants(vals, limit)[i].tid
  {
    hide TenantOk, CanonTenant, CanonTid;
    seen := {};
    ghost var out := CanonTenants(vals, limit);
    for i := 0 to n
      invariant forall j | 0 <= j < ts.Length :: ts[j].groups == old(ts[j].groups)
      invariant forall j | i <= j < ts.Length :: ts[j] == old(ts[j])
      invariant forall j | i <= j < n :: TenantIs(ts[j], vals[j])
      invariant forall j | 0 <= j < i :: TenantOk(vals[j]) && TenantIs(ts[j], out[j])
      invariant seen == set j | 0 <= j < i :: out[j].tid
      invariant forall j, k | 0 <= j < k < i :: out[j].tid != out[k].tid
    {
      var good, r := NormalizeTenant(ts[i], limit, vals[i]);
      CanonTenantTid(vals[i], limit);
      if !good {
        return false, seen;
      }
      if r.t.tid in seen {
        ghost var j :| 0 <= j < i && out[j].tid == r.t.tid;
        assert out[j].tid == out[i].tid;
        return false, seen;
      }
      seen := seen + {r.t.tid};
      ts[i] := r;
    }
    return true, seen;
  }

  lemma CanonTenantTid(v: Tenant, limit: int)
    ensures CanonTenant(v, limit).tid == CanonTid(v.tid)
  {
  }

  // ----- apps and consents -----

  ghost predicate AppsAre(xs: array<AppRec>, vals: seq<App>)
    reads xs, set i | 0 <= i < xs.Length :: xs[i].claims
  {
    xs.Length == |vals| && (forall i | 0 <= i < xs.Length :: AppIs(xs[i], vals[i])) &&
    forall i, j | 0 <= i < j < xs.Length :: xs[i].claims != xs[j].claims
  }

  /** The seen-set of tenant ids stands for the canonical tenants. */
  ghost predicate Tids(seen: set<string>, ts: seq<Tenant>) {
    forall s :: s in seen <==> HasTid(ts, s)
  }

  lemma SeenTids(seen: set<string>, ts: seq<Tenant>)
    requires seen == set i | 0 <= i < |ts| :: ts[i].tid
    ensures Tids(seen, ts)
  {
    forall s
      ensures s in seen <==> HasTid(ts, s)
    {
      if HasTid(ts, s) {
        var i :| 0 <= i < |ts| && ts[i].tid == s;
        assert ts[i].tid in seen;
      }
    }
  }

  method NormalizeApp(r: AppRec, seen: set<string>, ghost ts: seq<Tenant>, ghost val: App) returns (ok: bool, r': AppRec)
    requires AppIs(r, val) && Tids(seen, ts)
    modifies r.claims
    ensures ok == AppOk(val, ts) && r'.claims == r.claims
    ensures ok ==> AppIs(r', CanonApp(val))
  {
    hide CanonTid, Trim, ClaimsOk, CanonClaims, HasTid;
    assert val.claims == r.claims[..] && val.tid == r.a.tid && val.clientId == r.a.clientId;
    r' := r.(a := r.a.(clientId := Trim(r.a.clientId), tid := CanonTid(r.a.tid)));
    if r'.a.clientId == "" || (r'.a.tid != "" && r'.a.tid !in seen) {
      return false, r';
    }
    ok := NormalizeClaims(r.claims);
  }

  method NormalizeApps(xs: array<AppRec>, seen: set<string>, ghost ts: seq<Tenant>, ghost vals: seq<App>, ghost inner: set<array<ClaimMapping>>)
    returns (ok: bool)
    requires AppsAre(xs, vals) && Tids(seen, ts) && forall i | 0 <= i < xs.Length :: xs[i].claims in inner
    modifies xs, inner
    ensures forall i | 0 <= i < xs.Length :: xs[i].claims == old(xs[i].claims)
    ensures ok == forall i | 0 <= i < xs.Length :: AppOk(vals[i], ts)
    ensures ok ==> forall i | 0 <= i < xs.Length :: AppIs(xs[i], CanonApp(vals[i]))
  {
    hide AppOk, CanonApp, Tids;
    for i := 0 to xs.Length
      invariant forall j | 0 <= j < xs.Length :: xs[j].claims == old(xs[j].claims)
      invariant forall j | i <= j < xs.Length :: xs[j] == old(xs[j]) && AppIs(xs[j], vals[j])
      invariant forall j | 0 <= j < i :: AppOk(vals[j], ts) && AppIs(xs[j], CanonApp(vals[j]))
    {
      var good, r := NormalizeApp(xs[i], seen, ts, vals[i]);
      if !good {
        return false;
      }
      xs[i] := r;
    }
    return true;
  }

  method NormalizeConsents(xs: array<Consent>, n: nat, seen: set<string>, ghost ts: seq<Tenant>) returns (ok: bool)
    requires n <= xs.Length && Tids(seen, ts)
    modifies xs
    ensures ok == forall i | 0 <= i < n :: ConsentOk(old(xs[..])[i], ts)
    ensures ok ==> forall i | 0 <= i < n :: xs[i] == CanonConsent(old(xs[..])[i])
  {
    hide CanonTid, HasTid;
    ghost var was := xs[..];
    for i := 0 to n
      invariant forall j | i <= j < xs.Length :: xs[j] == was[j]
      invariant forall j | 0 <= j < i :: ConsentOk(was[j], ts) && xs[j] == CanonConsent(was[j])
    {
      var cs := xs[i].(tid := CanonTid(xs[i].tid));
      if cs.clientId == "" || cs.tid !in seen {
        return false;
      }
      xs[i] := cs;
    }
    return true;
  }

  // ----- users, first pass -----

  ghost predicate UsersAre(us: array<UserRec>, n: nat, vals: seq<User>)
    requires n <= us.Length
    reads us, set i | 0 <= i < n :: us[i].wids
  {
    n == |vals| && (forall i | 0 <= i < n :: UserIs(us[i], vals[i])) &&
    forall i, j | 0 <= i < j < n :: us[i].wids != us[j].wids
  }

  function UserKey(tid: string, username: string): string {
    tid + "/" + username
  }

  /** The seen-set key names one user: ids all have the same length. */
  lemma UserKeyInjective(tid: string, name: string, tid': string, name': string)
    requires |tid| == |tid'|
    ensures UserKey(tid, name) == UserKey(tid', name') <==> tid == tid' && name == name'
  {
    if UserKey(tid, name) == UserKey(tid', name') {
      assert tid == UserKey(tid, name)[..|tid|] == tid';
      assert name == UserKey(tid, name)[|tid| + 1..] == name';
    }
  }

  method NormalizeUser(h: Digest, r: UserRec, seen: set<string>, ghost ts: seq<Tenant>, ghost val: User) returns (ok: bool, r': UserRec)
    requires UserIs(r, val) && Tids(seen, ts)
    modifies r.wids
    ensures ok == UserOk(val, ts) && r'.wids == r.wids
    ensures ok ==> UserIs(r', CanonUser(h, val))
  {
    hide CanonTid, Trim, CanonWids, HasTid, Lower, IsGuid, UuidV5;
    assert val == r.u.(wids := r.wids[..]);
    assert CanonOid(h, val) == CanonOid(h, r.u);
    var u := r.u.(tid := CanonTid(r.u.tid));
    r' := r;
    if u.username == "" || u.tid !in seen {
      return false, r';
    }
    if u.error != "" && u.error != "interaction_required" && u.error != "access_denied" && u.error != "invalid_grant" {
      return false, r';
    }
    if u.mfa != "" && u.mfa != "passkey" {
      return false, r';
    }
    if r.u.oid != "" && !IsGuid(Lower(r.u.oid)) {
      return false, r';
    }
    u := u.(oid := CanonOid(h, r.u), name := if u.name == "" then u.username else u.name);
    u := u.(upn := CanonTid(u.upn), manager := Trim(u.manager));
    r' := UserRec(u, r.wids);
    ok := NormalizeWids(r.wids);
  }

  predicate SameUser(u: User, v: User) {
    u.tid == v.tid && u.username == v.username
  }

  predicate AllDistinct(us: seq<User>)
    ensures AllDistinct(us) == DistinctUsers(us)
  {
    forall j, k | 0 <= j < k < |us| :: !SameUser(us[j], us[k])
  }

  lemma KeySeen(out: seq<User>, i: nat, keys: set<string>)
    requires i < |out| && keys == set j | 0 <= j < i :: UserKey(out[j].tid, out[j].username)
    requires forall j | 0 <= j <= i :: |out[j].tid| == 36
    ensures UserKey(out[i].tid, out[i].username) in keys <==> exists j | 0 <= j < i :: SameUser(out[j], out[i])
  {
    hide UserKey;
    if UserKey(out[i].tid, out[i].username) in keys {
      var j :| 0 <= j < i && UserKey(out[j].tid, out[j].username) == UserKey(out[i].tid, out[i].username);
      UserKeyInjective(out[j].tid, out[j].username, out[i].tid, out[i].username);
    }
  }

  method NormalizeUsers(h: Digest, us: array<UserRec>, n: nat, seen: set<string>, ghost ts: seq<Tenant>, ghost vals: seq<User>,
    ghost inner: set<array<string>>) returns (ok: bool, keys: set<string>)
    requires n <= us.Length && UsersAre(us, n, vals) && Tids(seen, ts) && forall i | 0 <= i < |ts| :: |ts[i].tid| == 36
    requires forall i | 0 <= i < n :: us[i].wids in inner
    modifies us, inner
    ensures forall i | 0 <= i < us.Length :: us[i].wids == old(us[i].wids)
    ensures ok == ((forall i | 0 <= i < n :: UserOk(vals[i], ts)) && AllDistinct(CanonUsers(h, vals)))
    ensures ok ==> UsersAre(us, n, CanonUsers(h, vals))
    ensures ok ==> keys == set i | 0 <= i < n :: UserKey(CanonUsers(h, vals)[i].tid, CanonUsers(h, vals)[i].username)
  {
    hide UserOk, CanonUser, UserKey, Tids, UserIs, SameUser;
    keys := {};
    ghost var out := CanonUsers(h, vals);
    for i := 0 to n
      invariant forall j | 0 <= j < us.Length :: us[j].wids == old(us[j].wids)
      invariant forall j | i <= j < n :: us[j] == old(us[j]) && UserIs(us[j], vals[j])
      invariant forall j | 0 <= j < i :: UserOk(vals[j], ts) && UserIs(us[j], out[j]) && |out[j].tid| == 36
      invariant keys == set j | 0 <= j < i :: UserKey(out[j].tid, out[j].username)
      invariant forall j, k | 0 <= j < k < i :: !SameUser(out[j], out[k])
    {
      var good, r := NormalizeUser(h, us[i], seen, ts, vals[i]);
      if !good {
        return false, keys;
      }
      CanonUserTid(h, vals[i], ts, r);
      var key := UserKey(r.u.tid, r.u.username);
      KeySeen(out, i, keys);
      if key in keys {
        return false, keys;
      }
      keys := keys + {key};
      us[i] := r;
    }
    return true, keys;
  }

  lemma CanonUserTid(h: Digest, v: User, ts: seq<Tenant>, r: UserRec)
    requires UserOk(v, ts) && UserIs(r, CanonUser(h, v)) && forall i | 0 <= i < |ts| :: |ts[i].tid| == 36
    ensures r.u.tid == CanonUser(h, v).tid && r.u.username == CanonUser(h, v).username && |r.u.tid| == 36
  {
    hide CanonTid, CanonWids, CanonOid;
    assert CanonUser(h, v).tid == CanonTid(v.tid);
  }
}
