/** Minting and validating access tokens. */
module Tokens {
  import opened Text
  import opened Int64
  import opened Directory
  import opened Normalize
  import opened Invariant
  import opened Keys
  import opened Samples
  import E = Edits
  import M = Membership
  import C = Codes

  // ----- time -----

  const SECOND := 1_000_000_000

  /** Whole seconds since the epoch; instants are nanoseconds. */
  function Unix(ns: int): int {
    ns / SECOND
  }

  /** now.Add(time.Duration(expiry) * time.Second).Unix(): the product is 64-bit. */
  function ExpiryAt(now: int, expiry: int): int {
    Unix(now + Wrap64(expiry * SECOND))
  }

  lemma ExpiryIsExact(now: int, expiry: int)
    ensures ExpiryAt(now, expiry) == Unix(now) + expiry <==> -MAX64 - 1 <= expiry * SECOND <= MAX64
  {
    var w := Wrap64(expiry * SECOND);
    if w == expiry * SECOND {
      assert (now + expiry * SECOND) / SECOND == now / SECOND + expiry;
    } else {
      assert now == SECOND * (now / SECOND) + now % SECOND;
      assert now + w == SECOND * ((now + w) / SECOND) + (now + w) % SECOND;
    }
  }

  /** A lifetime of 2^63 nanoseconds, rounded up to seconds, ends before it starts. */
  lemma LongLifetimeWraps()
    ensures ExpiryAt(0, 9_223_372_037) == -9_223_372_037
  {
  }

  // ----- claims -----

  datatype Claim = Text(s: string) | Number(n: int) | Texts(ss: seq<string>) | Sources(endpoint: string)

  type Claims = map<string, Claim>

  const GRAPH_APP_ID := "00000003-0000-0000-c000-000000000000"

  /** sub and uti stand for the pairwise subject and the random identifier. */
  datatype TokenInput = TokenInput(
    origin: string, basePath: string, tenant: Tenant, user: User, clientId: string, nonce: string, scopes: seq<string>,
    now: int, expiry: int, mapped: map<string, string>, sub: string, uti: string, endpoint: string)

  function Issuer(origin: string, basePath: string, tid: string): string {
    origin + "/" + basePath + "/" + tid + "/v2.0"
  }

  function CoreClaims(i: TokenInput): Claims {
    map["iss" := Text(Issuer(i.origin, i.basePath, i.tenant.tid)), "aud" := Text(i.clientId),
        "iat" := Number(Unix(i.now)), "nbf" := Number(Unix(i.now)), "exp" := Number(ExpiryAt(i.now, i.expiry)),
        "tid" := Text(i.tenant.tid), "oid" := Text(i.user.oid), "sub" := Text(i.sub), "ver" := Text("2.0"),
        "name" := Text(i.user.name), "preferred_username" := Text(PreferredUsername(i.tenant, i.user)), "uti" := Text(i.uti)]
  }

  function GroupClaims(h: Digest, i: TokenInput): Claims {
    match M.GroupsClaimOf(h, i.tenant, i.user)
    case NoClaim => map[]
    case Overage => map["_claim_names" := Text("src1"), "_claim_sources" := Sources(i.endpoint)]
    case Listed(vals) => map["groups" := Texts(vals)]
  }

  function BaseClaims(h: Digest, i: TokenInput): Claims {
    CoreClaims(i) + (if i.user.email != "" && "email" in i.scopes then map["email" := Text(i.user.email)] else map[])
    + GroupClaims(h, i)
  }

  function AccessClaims(h: Digest, i: TokenInput): Claims {
    BaseClaims(h, i)["aud" := Text(GRAPH_APP_ID)]["azp" := Text(i.clientId)]["appid" := Text(i.clientId)]
  }

  function Mapping(m: map<string, string>): Claims {
    map k | k in m :: Text(m[k])
  }

  function IdClaims(h: Digest, i: TokenInput): Claims {
    BaseClaims(h, i) + (if i.nonce != "" then map["nonce" := Text(i.nonce)] else map[]) + Mapping(i.mapped)
  }

  // ----- claims mapping -----

  function MappedBy(ms: seq<ClaimMapping>, t: Tenant, u: User): map<string, string> {
    if ms == [] then map[]
    else
      var m := ms[|ms| - 1];
      var before := MappedBy(ms[..|ms| - 1], t, u);
      var a := ClaimSource(m.source);
      if a.None? || AttrValue(a.value, t, u) == "" then before else before[m.name := AttrValue(a.value, t, u)]
  }

  /** The mapped claims of an app's tokens about u; an app pinned to a tenant maps only its users. */
  function Mapped(apps: seq<App>, clientId: string, t: Tenant, u: User): map<string, string> {
    if apps == [] then map[]
    else
      var a := apps[|apps| - 1];
      var before := Mapped(apps[..|apps| - 1], clientId, t, u);
      if a.clientId != clientId || (a.tid != "" && a.tid != u.tid) then before else before + MappedBy(a.claims, t, u)
  }

  method MappedClaims(c: Config, clientId: string, t: Tenant, u: User) returns (out: map<string, string>)
    ensures out == Mapped(c.apps, clientId, t, u)
  {
    hide ClaimSource, AttrValue;
    out := map[];
    for i := 0 to |c.apps|
      invariant out == Mapped(c.apps[..i], clientId, t, u)
    {
      assert c.apps[..i + 1][..i] == c.apps[..i];
      var a := c.apps[i];
      if a.clientId != clientId || (a.tid != "" && a.tid != u.tid) {
        continue;
      }
      ghost var before := out;
      for j := 0 to |a.claims|
        invariant out == before + MappedBy(a.claims[..j], t, u)
      {
        assert a.claims[..j + 1][..j] == a.claims[..j];
        var source := ClaimSource(a.claims[j].source);
        if source.Some? && AttrValue(source.value, t, u) != "" {
          out := out[a.claims[j].name := AttrValue(source.value, t, u)];
        }
      }
      assert a.claims[..|a.claims|] == a.claims;
    }
    assert c.apps[..|c.apps|] == c.apps;
  }

  lemma {:induction false} MappedByUnreserved(ms: seq<ClaimMapping>, t: Tenant, u: User)
    requires forall i | 0 <= i < |ms| :: ms[i].name !in RESERVED_CLAIMS
    ensures forall k | k in MappedBy(ms, t, u) :: k !in RESERVED_CLAIMS
  {
    hide ClaimSource, AttrValue;
    if ms != [] {
      MappedByUnreserved(ms[..|ms| - 1], t, u);
    }
  }

  lemma {:induction false} MappedUnreserved(apps: seq<App>, clientId: string, t: Tenant, u: User)
    requires forall a | a in apps :: forall i | 0 <= i < |a.claims| :: a.claims[i].name !in RESERVED_CLAIMS
    ensures forall k | k in Mapped(apps, clientId, t, u) :: k !in RESERVED_CLAIMS
  {
    if apps != [] {
      MappedUnreserved(apps[..|apps| - 1], clientId, t, u);
      MappedByUnreserved(apps[|apps| - 1].claims, t, u);
    }
  }

  /** Validation keeps claims mappings away from the claims the server emits itself. */
  lemma AppsUnreserved(h: Digest, c: Config)
    requires PartsSettled(h, c)
    ensures forall a | a in c.apps :: forall i | 0 <= i < |a.claims| :: a.claims[i].name !in RESERVED_CLAIMS
  {
    hide HeadSettled, TenantOk, CanonTenant, UserSettled, ConsentOk, CanonConsent, DistinctTids, DistinctUsers, HasTid, ClaimSource;
    forall a | a in c.apps
      ensures forall i | 0 <= i < |a.claims| :: a.claims[i].name !in RESERVED_CLAIMS
    {
      var j :| 0 <= j < |c.apps| && c.apps[j] == a;
      assert AppOk(c.apps[j], c.tenants) && CanonApp(c.apps[j]) == c.apps[j];
      forall i | 0 <= i < |a.claims|
        ensures a.claims[i].name !in RESERVED_CLAIMS
      {
        assert MappingOk(a.claims[i]) && CanonClaims(a.claims)[i] == a.claims[i];
      }
    }
  }

  /** In a published configuration, no mapping changes a claim the server emits itself. */
  lemma MappingNeverOverrides(h: Digest, c: Config, i: TokenInput, name: string)
    requires PartsSettled(h, c) && i.mapped == Mapped(c.apps, i.clientId, i.tenant, i.user) && name in RESERVED_CLAIMS && name != "nonce"
    ensures name in IdClaims(h, i) <==> name in BaseClaims(h, i)
    ensures name in BaseClaims(h, i) ==> IdClaims(h, i)[name] == BaseClaims(h, i)[name]
  {
    hide PartsSettled, BaseClaims, Mapped;
    AppsUnreserved(h, c);
    MappedUnreserved(c.apps, i.clientId, i.tenant, i.user);
  }

  // ----- validation -----

  function ClaimText(c: Claims, name: string): string {
    if name in c && c[name].Text? then c[name].s else ""
  }

  /** A JSON number read as float64, then truncated. */
  function ClaimTime(round: int -> int, c: Claims, name: string): Option<int> {
    if name in c && c[name].Number? then Some(round(c[name].n)) else None
  }

  function ClockSkew(c: Config): int {
    if c.graph.None? || c.graph.value.clockSkew.None? then 60 else c.graph.value.clockSkew.value
  }

  datatype Caller = Delegated(tenant: Tenant, user: User) | AppOnly(tenant: Tenant, clientId: string)

  function Validate(round: int -> int, keys: seq<SigningKey>, c: Config, origin: string, now: int, t: Option<Signed<Claims>>): Option<Caller> {
    if t.None? || !Verifies(keys, t.value) then None
    else
      var claims := t.value.claims;
      var tid := Lower(ClaimText(claims, "tid"));
      var exp, nbf := ClaimTime(round, claims, "exp"), ClaimTime(round, claims, "nbf");
      if ClaimText(claims, "aud") != GRAPH_APP_ID || ClaimText(claims, "ver") != "2.0" then None
      else if tid == "" || ClaimText(claims, "iss") != Issuer(origin, c.basePath, tid) then None
      else if exp.None? || Wrap64(Unix(now) - ClockSkew(c)) >= exp.value then None
      else if nbf.Some? && nbf.value > Wrap64(Unix(now) + ClockSkew(c)) then None
      else
        var tenant := TenantOf(c, tid);
        var oid := Lower(ClaimText(claims, "oid"));
        if tenant.None? then None
        else if oid == "" then
          Some(AppOnly(tenant.value, if ClaimText(claims, "appid") != "" then ClaimText(claims, "appid") else ClaimText(claims, "azp")))
        else
          var u := UserByOid(c, tid, oid);
          if u.None? || !UserEnabled(u.value) then None else Some(Delegated(tenant.value, u.value))
  }

  method ValidateAccessToken(round: int -> int, keys: KeySet, c: Config, origin: string, now: int, bearer: Option<Signed<Claims>>)
    returns (caller: Option<Caller>)
    ensures caller == Validate(round, keys.keys, c, origin, now, bearer)
  {
    hide Issuer, ClaimText, ClaimTime, UserByOid, TenantOf, Wrap64, Verifies, Lower, ClockSkew;
    if bearer.None? {
      return None;
    }
    var ok := keys.Verify(bearer.value);
    if !ok {
      return None;
    }
    var claims := bearer.value.claims;
    if ClaimText(claims, "aud") != GRAPH_APP_ID || ClaimText(claims, "ver") != "2.0" {
      return None;
    }
    var tid := Lower(ClaimText(claims, "tid"));
    if tid == "" || ClaimText(claims, "iss") != Issuer(origin, c.basePath, tid) {
      return None;
    }
    var seconds, skew := Unix(now), ClockSkew(c);
    var exp := ClaimTime(round, claims, "exp");
    if exp.None? || Wrap64(seconds - skew) >= exp.value {
      return None;
    }
    var nbf := ClaimTime(round, claims, "nbf");
    if nbf.Some? && nbf.value > Wrap64(seconds + skew) {
      return None;
    }
    var tenant := TenantOf(c, tid);
    if tenant.None? {
      return None;
    }
    var oid := Lower(ClaimText(claims, "oid"));
    if oid == "" {
      return Some(AppOnly(tenant.value, if ClaimText(claims, "appid") != "" then ClaimText(claims, "appid") else ClaimText(claims, "azp")));
    }
    var u := UserByOid(c, tid, oid);
    if u.None? || !UserEnabled(u.value) {
      return None;
    }
    return Some(Delegated(tenant.value, u.value));
  }

  /** float64 holds every integer of magnitude up to 2^53. */
  ghost predicate Float64(round: int -> int) {
    forall n {:trigger round(n)} | -0x20_0000_0000_0000 <= n <= 0x20_0000_0000_0000 :: round(n) == n
  }

  lemma IssuerOrigin(a: string, b: string, basePath: string, tid: string)
    ensures Issuer(a, basePath, tid) == Issuer(b, basePath, tid) <==> a == b
  {
    var tail := "/" + basePath + "/" + tid + "/v2.0";
    assert Issuer(a, basePath, tid) == a + tail && Issuer(b, basePath, tid) == b + tail;
    if a + tail == b + tail {
      assert |a| == |b|;
      assert (a + tail)[..|a|] == a && (b + tail)[..|b|] == b;
    }
  }

  /** The clock moved on, the times fit the arithmetic, and the base path is the one at the mint. */
  ghost predicate Later(i: TokenInput, c: Config, now: int) {
    && 0 <= i.now <= now && 0 <= i.expiry && i.expiry * SECOND <= MAX64
    && Unix(i.now) + i.expiry <= 0x20_0000_0000_0000
    && 0 <= ClockSkew(c) && Unix(now) + ClockSkew(c) <= MAX64 && c.basePath == i.basePath
  }

  /** A delegated token minted with n keys generated is accepted with m generated exactly when the
      origin is the same, at most one rotation happened, it has not expired (skew allowed), and its
      tenant still has an enabled user with its object id. */
  lemma DelegatedTokenIsValid(h: Digest, round: int -> int, n: nat, m: nat, c: Config, i: TokenInput, origin: string, now: int)
    requires 1 <= n <= m && Float64(round) && Later(i, c, now) && IsGuid(i.tenant.tid) && IsGuid(i.user.oid)
    ensures var u := UserByOid(c, i.tenant.tid, i.user.oid);
            var caller := Validate(round, Published(m), c, origin, now, Some(SignWith(Published(n), AccessClaims(h, i))));
            && (caller.Some? <==>
                 origin == i.origin && m <= n + 1 && Unix(now) - ClockSkew(c) < Unix(i.now) + i.expiry
                 && TenantOf(c, i.tenant.tid).Some? && u.Some? && UserEnabled(u.value))
            && (caller.Some? ==> caller == Some(Delegated(TenantOf(c, i.tenant.tid).value, u.value)))
  {
    hide Issuer, ClockSkew, UserByOid, TenantOf, IsGuid, Published, Verifies, Float64, ExpiryAt, AccessClaims, Validate, UserEnabled, Unix,
         ClaimText, Lower, Trim;
    var claims := AccessClaims(h, i);
    AccessClaimsRead(h, i);
    VerifiesForOneRotation(n, m, claims);
    GuidIsCanonical(i.tenant.tid);
    GuidIsCanonical(i.user.oid);
    IssuerOrigin(i.origin, origin, i.basePath, i.tenant.tid);
    ExpiryIsExact(i.now, i.expiry);
    UnixMonotone(i.now, now);
    RoundsTo(round, Unix(i.now));
    RoundsTo(round, Unix(i.now) + i.expiry);
    DelegatedVerdict(round, Published(m), c, origin, now, SignWith(Published(n), claims));
  }

  /** Validation of a token that names a user. */
  lemma DelegatedVerdict(round: int -> int, keys: seq<SigningKey>, c: Config, origin: string, now: int, t: Signed<Claims>)
    requires ClaimText(t.claims, "aud") == GRAPH_APP_ID && ClaimText(t.claims, "ver") == "2.0"
    requires Lower(ClaimText(t.claims, "tid")) == ClaimText(t.claims, "tid") != "" && Lower(ClaimText(t.claims, "oid")) == ClaimText(t.claims, "oid") != ""
    requires "exp" in t.claims && t.claims["exp"].Number? && "nbf" in t.claims && t.claims["nbf"].Number?
    requires -MAX64 - 1 <= Unix(now) - ClockSkew(c) && Unix(now) + ClockSkew(c) <= MAX64 && 0 <= ClockSkew(c) && 0 <= Unix(now)
    requires round(t.claims["nbf"].n) <= Unix(now)
    ensures var tid := ClaimText(t.claims, "tid"); var u := UserByOid(c, tid, ClaimText(t.claims, "oid"));
            Validate(round, keys, c, origin, now, Some(t)) ==
              if Verifies(keys, t) && ClaimText(t.claims, "iss") == Issuer(origin, c.basePath, tid)
                 && Unix(now) - ClockSkew(c) < round(t.claims["exp"].n)
                 && TenantOf(c, tid).Some? && u.Some? && UserEnabled(u.value)
              then Some(Delegated(TenantOf(c, tid).value, u.value)) else None
  {
    hide Issuer, ClockSkew, UserByOid, TenantOf, Verifies, UserEnabled, Unix, Lower, ClaimText;
  }

  lemma RoundsTo(round: int -> int, n: int)
    requires Float64(round) && 0 <= n <= 0x20_0000_0000_0000
    ensures round(n) == n
  {
  }

  lemma UnixMonotone(a: int, b: int)
    requires 0 <= a <= b
    ensures 0 <= Unix(a) <= Unix(b)
  {
  }

  /** What validation reads of an access token's claims. */
  lemma AccessClaimsRead(h: Digest, i: TokenInput)
    ensures var c := AccessClaims(h, i);
            && ClaimText(c, "aud") == GRAPH_APP_ID && ClaimText(c, "ver") == "2.0" && ClaimText(c, "tid") == i.tenant.tid
            && ClaimText(c, "iss") == Issuer(i.origin, i.basePath, i.tenant.tid) && ClaimText(c, "oid") == i.user.oid
            && "exp" in c && c["exp"] == Number(ExpiryAt(i.now, i.expiry)) && "nbf" in c && c["nbf"] == Number(Unix(i.now))
  {
    hide Issuer, ExpiryAt, Unix, CoreClaims, AccessClaims;
    CoreRead(i);
    Audience(h, i);
    ReadKept(h, i, "ver");
    ReadKept(h, i, "tid");
    ReadKept(h, i, "iss");
    ReadKept(h, i, "oid");
    ReadKept(h, i, "exp");
    ReadKept(h, i, "nbf");
  }

  lemma Audience(h: Digest, i: TokenInput)
    ensures ClaimText(AccessClaims(h, i), "aud") == GRAPH_APP_ID
  {
    hide BaseClaims;
  }

  /** No optional claim hides one that validation reads. */
  lemma ReadKept(h: Digest, i: TokenInput, name: string)
    requires name in CoreClaims(i) && |name| == 3 && name != "aud" && name != "azp"
    ensures name in AccessClaims(h, i) && AccessClaims(h, i)[name] == CoreClaims(i)[name]
  {
    hide CoreClaims, GroupClaims;
    GroupNames(h, i);
  }

  lemma CoreRead(i: TokenInput)
    ensures var c := CoreClaims(i);
            && "ver" in c && "tid" in c && "oid" in c && "iss" in c && "exp" in c && "nbf" in c
            && c["ver"] == Text("2.0") && c["tid"] == Text(i.tenant.tid) && c["oid"] == Text(i.user.oid)
            && c["iss"] == Text(Issuer(i.origin, i.basePath, i.tenant.tid))
            && c["exp"] == Number(ExpiryAt(i.now, i.expiry)) && c["nbf"] == Number(Unix(i.now))
  {
    hide Issuer, ExpiryAt, Unix, PreferredUsername;
  }

  lemma GroupNames(h: Digest, i: TokenInput)
    ensures forall k | k in GroupClaims(h, i) :: k == "groups" || k == "_claim_names" || k == "_claim_sources"
  {
    hide M.GroupsClaimOf;
  }

  /** With distinct object ids, that user is any enabled user of the tenant with the token's object id. */
  lemma UserByOidExactly(c: Config, tid: string, oid: string)
    requires IsGuid(tid) && IsGuid(oid)
    requires forall u, v | u in c.users && v in c.users && u.tid == v.tid && u.oid == v.oid :: u == v
    ensures var u := UserByOid(c, tid, oid);
            (u.Some? && UserEnabled(u.value)) <==> exists v | v in c.users :: v.tid == tid && v.oid == oid && UserEnabled(v)
  {
    hide IsGuid, UserEnabled, UsersWith, FirstByOid;
    GuidIsCanonical(tid);
    GuidIsCanonical(oid);
  }

  /** An ID token for another client than the Graph application is never an access token, whoever
      signed it, wherever and whenever. */
  lemma IdTokenIsRefused(h: Digest, round: int -> int, keys: seq<SigningKey>, signers: seq<SigningKey>, mint: Config, c: Config,
                         i: TokenInput, origin: string, now: int)
    requires PartsSettled(h, mint) && i.mapped == Mapped(mint.apps, i.clientId, i.tenant, i.user)
    requires signers != [] && i.clientId != GRAPH_APP_ID
    ensures Validate(round, keys, c, origin, now, Some(SignWith(signers, IdClaims(h, i)))).None?
  {
    hide PartsSettled, Mapped, IdClaims, UserByOid, TenantOf, Issuer, Verifies;
    MappingNeverOverrides(h, mint, i, "aud");
    BaseAudience(h, i);
  }

  /** An ID token is accepted as an access token exactly when its client is the Graph application
      and an access token with its claims would be accepted: the audience check then holds, mapped
      claims notwithstanding. */
  lemma IdTokenExactly(h: Digest, round: int -> int, n: nat, m: nat, mint: Config, c: Config, i: TokenInput, origin: string, now: int)
    requires 1 <= n <= m && Float64(round) && Later(i, c, now) && IsGuid(i.tenant.tid) && IsGuid(i.user.oid)
    requires PartsSettled(h, mint) && i.mapped == Mapped(mint.apps, i.clientId, i.tenant, i.user)
    ensures var u := UserByOid(c, i.tenant.tid, i.user.oid);
            var caller := Validate(round, Published(m), c, origin, now, Some(SignWith(Published(n), IdClaims(h, i))));
            && (caller.Some? <==>
                 i.clientId == GRAPH_APP_ID
                 && origin == i.origin && m <= n + 1 && Unix(now) - ClockSkew(c) < Unix(i.now) + i.expiry
                 && TenantOf(c, i.tenant.tid).Some? && u.Some? && UserEnabled(u.value))
            && (caller.Some? ==> caller == Some(Delegated(TenantOf(c, i.tenant.tid).value, u.value)))
  {
    hide Issuer, ClockSkew, UserByOid, TenantOf, IsGuid, Published, Verifies, Float64, ExpiryAt, IdClaims, Validate, UserEnabled, Unix,
         ClaimText, Lower, Trim, PartsSettled, Mapped;
    if i.clientId != GRAPH_APP_ID {
      IdTokenIsRefused(h, round, Published(m), Published(n), mint, c, i, origin, now);
    } else {
      var claims := IdClaims(h, i);
      IdClaimsRead(h, mint, i);
      VerifiesForOneRotation(n, m, claims);
      GuidIsCanonical(i.tenant.tid);
      GuidIsCanonical(i.user.oid);
      IssuerOrigin(i.origin, origin, i.basePath, i.tenant.tid);
      ExpiryIsExact(i.now, i.expiry);
      UnixMonotone(i.now, now);
      RoundsTo(round, Unix(i.now));
      RoundsTo(round, Unix(i.now) + i.expiry);
      DelegatedVerdict(round, Published(m), c, origin, now, SignWith(Published(n), claims));
    }
  }

  /** What validation reads of an ID token's claims. */
  lemma IdClaimsRead(h: Digest, mint: Config, i: TokenInput)
    requires PartsSettled(h, mint) && i.mapped == Mapped(mint.apps, i.clientId, i.tenant, i.user)
    ensures var c := IdClaims(h, i);
            && ClaimText(c, "aud") == i.clientId && ClaimText(c, "ver") == "2.0" && ClaimText(c, "tid") == i.tenant.tid
            && ClaimText(c, "iss") == Issuer(i.origin, i.basePath, i.tenant.tid) && ClaimText(c, "oid") == i.user.oid
            && "exp" in c && c["exp"] == Number(ExpiryAt(i.now, i.expiry)) && "nbf" in c && c["nbf"] == Number(Unix(i.now))
  {
    hide Issuer, ExpiryAt, Unix, CoreClaims, IdClaims, PartsSettled, Mapped;
    CoreRead(i);
    BaseAudience(h, i);
    MappingNeverOverrides(h, mint, i, "aud");
    IdKept(h, mint, i, "ver");
    IdKept(h, mint, i, "tid");
    IdKept(h, mint, i, "iss");
    IdKept(h, mint, i, "oid");
    IdKept(h, mint, i, "exp");
    IdKept(h, mint, i, "nbf");
  }

  lemma IdKept(h: Digest, mint: Config, i: TokenInput, name: string)
    requires PartsSettled(h, mint) && i.mapped == Mapped(mint.apps, i.clientId, i.tenant, i.user)
    requires name in CoreClaims(i) && |name| == 3 && name in RESERVED_CLAIMS
    ensures name in IdClaims(h, i) && IdClaims(h, i)[name] == CoreClaims(i)[name]
  {
    hide CoreClaims, IdClaims, GroupClaims, PartsSettled, Mapped;
    GroupNames(h, i);
    MappingNeverOverrides(h, mint, i, name);
  }

  lemma BaseAudience(h: Digest, i: TokenInput)
    ensures "aud" in BaseClaims(h, i) && BaseClaims(h, i)["aud"] == Text(i.clientId)
  {
    hide M.GroupsClaimOf;
  }

  // ----- minting for a configured account -----

  /** AdminMintToken's input for an account: refused when it is missing or disabled. */
  function MintInput(c: Config, origin: string, now: int, tid: string, username: string, clientId: string, scopes: seq<string>,
                     sub: string, uti: string, endpoint: string): Option<TokenInput> {
    var u := UserNamed(c, tid, username);
    if u.None? || !UserEnabled(u.value) then None
    else
      var t := TenantOf(c, u.value.tid);
      if t.None? then None
      else
        Some(TokenInput(origin, c.basePath, t.value, u.value, clientId, "", scopes, now, c.tokenExpiry,
                        Mapped(c.apps, clientId, t.value, u.value), sub, uti, endpoint))
  }

  /** A token minted for an account of a published configuration is accepted at once, on the same
      origin, as that account: object ids distinct within a tenant, times in range. */
  lemma MintThenValidate(h: Digest, round: int -> int, n: nat, c: Config, i: TokenInput, now: int, tid: string, username: string,
                         origin: string, clientId: string, scopes: seq<string>, sub: string, uti: string, endpoint: string)
    requires 1 <= n && Float64(round) && PartsSettled(h, c)
    requires MintInput(c, origin, now, tid, username, clientId, scopes, sub, uti, endpoint) == Some(i) && Later(i, c, now)
    requires forall u, v | u in c.users && v in c.users && u.tid == v.tid && u.oid == v.oid :: u == v
    ensures Validate(round, Published(n), c, origin, now, Some(SignWith(Published(n), AccessClaims(h, i)))) == Some(Delegated(i.tenant, i.user))
    ensures UserNamed(c, tid, username) == Some(i.user) && UserEnabled(i.user)
  {
    hide PartsSettled, Float64, Validate, AccessClaims, Mapped, Published, Later, UserByOid, UserEnabled, FindUser, FindTenant;
    LaterFits(i, c, now);
    E.TenantOfUser(h, c, i.user);
    ExpiryPositive(h, c);
    UserByOidExactly(c, i.user.tid, i.user.oid);
    UserByOidFinds(c, i.user.tid, i.user.oid);
    DelegatedTokenIsValid(h, round, n, n, c, i, origin, now);
  }

  lemma LaterFits(i: TokenInput, c: Config, now: int)
    requires Later(i, c, now)
    ensures 0 <= ClockSkew(c)
  {
  }

  lemma ExpiryPositive(h: Digest, c: Config)
    requires PartsSettled(h, c)
    ensures c.tokenExpiry > 0
  {
    hide TenantOk, CanonTenant, UserSettled, AppOk, CanonApp, ConsentOk, CanonConsent, DistinctTids, DistinctUsers;
  }

  lemma UserByOidFinds(c: Config, tid: string, oid: string)
    ensures UserByOid(c, tid, oid).Some? ==>
              var u := UserByOid(c, tid, oid).value; u in c.users && u.oid == Lower(Trim(oid)) && (Lower(tid) == "" || u.tid == Lower(tid))
  {
    hide UsersWith, FirstByOid, Lower, Trim;
  }

  // ----- what a token holds, and what is checked of any token -----

  /** A claim of that name and value. */
  predicate Holds(c: Claims, name: string, value: Claim) {
    name in c && c[name] == value
  }

  /** The claims about the account, each from its own field. */
  lemma ClaimsHeld(h: Digest, i: TokenInput)
    ensures var c := BaseClaims(h, i);
            && Holds(c, "iss", Text(i.origin + "/" + i.basePath + "/" + i.tenant.tid + "/v2.0"))
            && Holds(c, "aud", Text(i.clientId))
            && Holds(c, "iat", Number(i.now / SECOND))
            && Holds(c, "nbf", Number(i.now / SECOND))
            && Holds(c, "exp", Number(ExpiryAt(i.now, i.expiry)))
            && Holds(c, "tid", Text(i.tenant.tid))
            && Holds(c, "oid", Text(i.user.oid))
            && Holds(c, "sub", Text(i.sub))
            && Holds(c, "ver", Text("2.0"))
            && Holds(c, "name", Text(i.user.name))
            && Holds(c, "preferred_username", Text(PreferredUsername(i.tenant, i.user)))
            && Holds(c, "uti", Text(i.uti))
    ensures var c := BaseClaims(h, i);
            ("email" in c <==> i.user.email != "" && "email" in i.scopes) && ("email" in c ==> Holds(c, "email", Text(i.user.email)))
  {
    hide ExpiryAt, PreferredUsername, CoreClaims, BaseClaims;
    CoreHeld(i);
    EmailHeld(h, i);
    HeldToo(h, i, "iss");
    HeldToo(h, i, "aud");
    HeldToo(h, i, "iat");
    HeldToo(h, i, "nbf");
    HeldToo(h, i, "exp");
    HeldToo(h, i, "tid");
    HeldToo(h, i, "oid");
    HeldToo(h, i, "sub");
    HeldToo(h, i, "ver");
    HeldToo(h, i, "name");
    HeldToo(h, i, "preferred_username");
    HeldToo(h, i, "uti");
  }

  lemma HeldToo(h: Digest, i: TokenInput, name: string)
    requires name in CoreClaims(i) && name != "email"
    ensures name in BaseClaims(h, i) && BaseClaims(h, i)[name] == CoreClaims(i)[name]
  {
    hide CoreClaims, GroupClaims;
    GroupNames(h, i);
    CoreHasNoGroups(i);
  }

  lemma CoreHeld(i: TokenInput)
    ensures var c := CoreClaims(i);
            && Holds(c, "iss", Text(i.origin + "/" + i.basePath + "/" + i.tenant.tid + "/v2.0"))
            && Holds(c, "aud", Text(i.clientId))
            && Holds(c, "iat", Number(i.now / SECOND))
            && Holds(c, "nbf", Number(i.now / SECOND))
            && Holds(c, "exp", Number(ExpiryAt(i.now, i.expiry)))
            && Holds(c, "tid", Text(i.tenant.tid))
            && Holds(c, "oid", Text(i.user.oid))
            && Holds(c, "sub", Text(i.sub))
            && Holds(c, "ver", Text("2.0"))
            && Holds(c, "name", Text(i.user.name))
            && Holds(c, "preferred_username", Text(PreferredUsername(i.tenant, i.user)))
            && Holds(c, "uti", Text(i.uti))
    ensures "email" !in CoreClaims(i)
  {
    hide ExpiryAt, PreferredUsername;
  }

  lemma EmailHeld(h: Digest, i: TokenInput)
    ensures var c := BaseClaims(h, i);
            ("email" in c <==> i.user.email != "" && "email" in i.scopes) && ("email" in c ==> c["email"] == Text(i.user.email))
  {
    hide CoreClaims, GroupClaims;
    GroupNames(h, i);
    CoreHeld(i);
  }

  /** An access token is for the Graph application, and names its client twice. */
  lemma AccessHeld(h: Digest, i: TokenInput)
    ensures var c := AccessClaims(h, i);
            Holds(c, "aud", Text(GRAPH_APP_ID)) && Holds(c, "azp", Text(i.clientId)) && Holds(c, "appid", Text(i.clientId))
  {
    hide BaseClaims;
  }

  /** The groups claim, or the overage markers in its place. */
  lemma GroupsHeld(h: Digest, i: TokenInput)
    ensures var c := BaseClaims(h, i); var claim := M.GroupsClaimOf(h, i.tenant, i.user);
            && ("groups" in c <==> claim.Listed?) && (claim.Listed? ==> c["groups"] == Texts(claim.vals))
            && ("_claim_names" in c <==> claim.Overage?) && ("_claim_sources" in c <==> claim.Overage?)
            && (claim.Overage? ==> c["_claim_sources"] == Sources(i.endpoint))
  {
    hide M.GroupsClaimOf, CoreClaims;
    CoreHasNoGroups(i);
  }

  lemma CoreHasNoGroups(i: TokenInput)
    ensures "groups" !in CoreClaims(i) && "_claim_names" !in CoreClaims(i) && "_claim_sources" !in CoreClaims(i)
  {
  }

  /** A token is accepted as a user's exactly when all of this holds of it, whoever minted it and
      whatever else it claims. */
  lemma AcceptedAsUser(round: int -> int, keys: seq<SigningKey>, c: Config, origin: string, now: int, t: Signed<Claims>, tenant: Tenant, user: User)
    ensures var tid, oid := Lower(ClaimText(t.claims, "tid")), Lower(ClaimText(t.claims, "oid"));
            Validate(round, keys, c, origin, now, Some(t)) == Some(Delegated(tenant, user)) <==>
              && Verifies(keys, t) && ClaimText(t.claims, "aud") == GRAPH_APP_ID && ClaimText(t.claims, "ver") == "2.0"
              && tid != "" && ClaimText(t.claims, "iss") == Issuer(origin, c.basePath, tid)
              && "exp" in t.claims && t.claims["exp"].Number? && Wrap64(Unix(now) - ClockSkew(c)) < round(t.claims["exp"].n)
              && ("nbf" in t.claims && t.claims["nbf"].Number? ==> round(t.claims["nbf"].n) <= Wrap64(Unix(now) + ClockSkew(c)))
              && TenantOf(c, tid) == Some(tenant) && oid != "" && UserByOid(c, tid, oid) == Some(user) && UserEnabled(user)
  {
    hide Issuer, ClockSkew, UserByOid, TenantOf, Verifies, UserEnabled, Unix, Lower, ClaimText, Wrap64;
  }

  /** And as an application's, when it names no user. */
  lemma AcceptedAsApp(round: int -> int, keys: seq<SigningKey>, c: Config, origin: string, now: int, t: Signed<Claims>, tenant: Tenant, id: string)
    ensures var tid := Lower(ClaimText(t.claims, "tid"));
            Validate(round, keys, c, origin, now, Some(t)) == Some(AppOnly(tenant, id)) <==>
              && Verifies(keys, t) && ClaimText(t.claims, "aud") == GRAPH_APP_ID && ClaimText(t.claims, "ver") == "2.0"
              && tid != "" && ClaimText(t.claims, "iss") == Issuer(origin, c.basePath, tid)
              && "exp" in t.claims && t.claims["exp"].Number? && Wrap64(Unix(now) - ClockSkew(c)) < round(t.claims["exp"].n)
              && ("nbf" in t.claims && t.claims["nbf"].Number? ==> round(t.claims["nbf"].n) <= Wrap64(Unix(now) + ClockSkew(c)))
              && TenantOf(c, tid) == Some(tenant) && Lower(ClaimText(t.claims, "oid")) == ""
              && id == (if ClaimText(t.claims, "appid") != "" then ClaimText(t.claims, "appid") else ClaimText(t.claims, "azp"))
  {
    hide Issuer, ClockSkew, UserByOid, TenantOf, Verifies, UserEnabled, Unix, Lower, ClaimText, Wrap64;
  }

  /** The skew allowed is the configured one, a minute where none is configured. */
  lemma SkewAllowed(c: Config)
    ensures c.graph.Some? && c.graph.value.clockSkew.Some? ==> ClockSkew(c) == c.graph.value.clockSkew.value
    ensures c.graph.None? || c.graph.value.clockSkew.None? ==> ClockSkew(c) == 60
  {
  }

  // ----- mapped claims, spelled out -----

  /** Mapping m of the app maps a set attribute of the user to the claim. */
  predicate Maps(m: ClaimMapping, name: string, t: Tenant, u: User) {
    m.name == name && ClaimSource(m.source).Some? && AttrValue(ClaimSource(m.source).value, t, u) != ""
  }

  lemma {:induction false} MappedByExactly(ms: seq<ClaimMapping>, t: Tenant, u: User, name: string)
    ensures name in MappedBy(ms, t, u) <==> exists m | m in ms :: Maps(m, name, t, u)
    ensures name in MappedBy(ms, t, u) ==>
              exists m | m in ms :: Maps(m, name, t, u) && MappedBy(ms, t, u)[name] == AttrValue(ClaimSource(m.source).value, t, u)
  {
    hide ClaimSource, AttrValue;
    if ms != [] {
      var n := |ms| - 1;
      var before := MappedBy(ms[..n], t, u);
      MappedByExactly(ms[..n], t, u, name);
      assert ms == ms[..n] + [ms[n]];
      if Maps(ms[n], name, t, u) {
        assert MappedBy(ms, t, u)[name] == AttrValue(ClaimSource(ms[n].source).value, t, u) && ms[n] in ms;
      } else if name in before {
        assert name in MappedBy(ms, t, u) && MappedBy(ms, t, u)[name] == before[name];
        var m :| m in ms[..n] && Maps(m, name, t, u) && before[name] == AttrValue(ClaimSource(m.source).value, t, u);
        assert m in ms;
      }
    }
  }

  /** A claim is mapped exactly when an app of that client id, pinned to no other tenant, maps a set
      attribute of the user to it. */
  lemma {:induction false} MappedExactly(apps: seq<App>, clientId: string, t: Tenant, u: User, name: string)
    ensures name in Mapped(apps, clientId, t, u) <==>
              exists a, m | a in apps && m in a.claims :: a.clientId == clientId && (a.tid == "" || a.tid == u.tid) && Maps(m, name, t, u)
    ensures name in Mapped(apps, clientId, t, u) ==>
              exists a, m | a in apps && m in a.claims ::
                a.clientId == clientId && (a.tid == "" || a.tid == u.tid) && Maps(m, name, t, u)
                && Mapped(apps, clientId, t, u)[name] == AttrValue(ClaimSource(m.source).value, t, u)
  {
    hide ClaimSource, AttrValue, MappedBy, Maps;
    if apps != [] {
      var n := |apps| - 1;
      MappedExactly(apps[..n], clientId, t, u, name);
      MappedByExactly(apps[n].claims, t, u, name);
      assert apps == apps[..n] + [apps[n]];
    }
  }

  // ----- an ID token that passes -----

  function SampleAccount(): User {
    Account("eve", Guid('1'), Guid('a'), "", [])
  }

  /** An ID token issued to the Graph application for the one account there is. */
  function SampleInput(): TokenInput {
    TokenInput("https://h", "entra", SampleTenant([]), SampleAccount(), GRAPH_APP_ID, "", [], 0, 3600, map[], "s", "u", "e")
  }

  lemma SampleParts(h: Digest)
    ensures PartsSettled(h, Sample([], [SampleAccount()]))
  {
    hide RestSettled, UserSettled, Guid, IsGuid, Lower, Trim, CanonGraph, Account;
    var c := Sample([], [SampleAccount()]);
    GuidStays('1');
    GuidStays('a');
    NoGroups();
    SampleSettles([], [SampleAccount()]);
    AccountSettled(h, c.tenants, "eve", Guid('1'), Guid('a'), "", []);
    assert c.users == [SampleAccount()];
  }

  lemma SampleLater()
    ensures Later(SampleInput(), Sample([], [SampleAccount()]), 0)
  {
    hide Guid, CanonGraph, Account, ClockSkew;
    SampleSkew([SampleAccount()]);
  }

  lemma SampleMapped()
    ensures SampleInput().mapped == Mapped(Sample([], [SampleAccount()]).apps, GRAPH_APP_ID, SampleTenant([]), SampleAccount())
  {
    hide Guid, CanonGraph, Account;
    assert Sample([], [SampleAccount()]).apps == [];
  }

  /** It is accepted as an access token the moment it is issued. */
  lemma GraphIdTokenPasses(h: Digest, round: int -> int)
    requires Float64(round)
    ensures var c := Sample([], [SampleAccount()]);
            && PartsSettled(h, c) && SampleInput().mapped == Mapped(c.apps, GRAPH_APP_ID, SampleTenant([]), SampleAccount())
            && Validate(round, Published(1), c, "https://h", 0, Some(SignWith(Published(1), IdClaims(h, SampleInput()))))
               == Some(Delegated(SampleTenant([]), SampleAccount()))
  {
    hide Float64, Validate, IdClaims, Published, PartsSettled, Guid, IsGuid, Lower, Trim, UserByOid, TenantOf, Sample, Account, Later, Mapped,
         UserEnabled, ClockSkew;
    GuidStays('1');
    GuidStays('a');
    SampleParts(h);
    SampleMapped();
    SampleLater();
    SampleFinds([], [SampleAccount()]);
    SampleTid([]);
    SampleAccountOid();
    SampleOid();
    SampleSkew([SampleAccount()]);
    var c := Sample([], [SampleAccount()]);
    IdTokenExactly(h, round, 1, 1, c, c, SampleInput(), "https://h", 0);
  }

  lemma SampleAccountOid()
    ensures SampleAccount().oid == Guid('a')
  {
  }

  lemma SampleOid()
    ensures var u := UserByOid(Sample([], [SampleAccount()]), Guid('1'), Guid('a')); u == Some(SampleAccount()) && UserEnabled(SampleAccount())
  {
    hide Guid, IsGuid, Lower, Trim;
    GuidStays('1');
    GuidStays('a');
    var us := [SampleAccount()];
    assert us[1..] == [] && UsersWith(us, Guid('1')) == us;
  }

  lemma SampleSkew(us: seq<User>)
    ensures ClockSkew(Sample([], us)) == 60
  {
  }
}
