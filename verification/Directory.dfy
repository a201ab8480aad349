/** The directory: configuration values, lookups and membership-rule matching. */
module Directory {
  import opened Text
  import opened Grammar
  import R = RuleSyntax

  // ----- object ids -----

  /** A SHA-1 sum: twenty bytes. */
  type Sum = s: seq<nat> | |s| == 20 && forall i | 0 <= i < 20 :: s[i] < 256 witness seq(20, _ => 0)

  datatype Namespace = UserIds | GroupIds

  /** The hash, taken as an ideal function of namespace and name. */
  type Digest = (Namespace, string) -> Sum

  function HexDigit(n: nat): (c: char)
    requires n < 16
    ensures IsHexDigit(c)
  {
    if n < 10 then ('0' as int + n) as char else ('a' as int + n - 10) as char
  }

  function Hex(bytes: seq<nat>): (r: string)
    requires forall i | 0 <= i < |bytes| :: bytes[i] < 256
    ensures |r| == 2 * |bytes| && forall i | 0 <= i < |r| :: IsHexDigit(r[i])
  {
    if bytes == [] then []
    else [HexDigit(bytes[0] / 16), HexDigit(bytes[0] % 16)] + Hex(bytes[1..])
  }

  /** The name-based UUID: sixteen hash bytes with version 5 and the RFC 9562 variant set. */
  function UuidV5(h: Digest, ns: Namespace, name: string): (r: string)
    ensures IsGuid(r) && r[14] == '5' && r[19] in "89ab"
  {
    var sum := h(ns, name);
    var u := sum[..16][6 := sum[6] % 16 + 0x50][8 := sum[8] % 64 + 0x80];
    var version, variant := Hex(u[6..8]), Hex(u[8..10]);
    assert version[0] == HexDigit(u[6] / 16) && variant[0] == HexDigit(u[8] / 16);
    assert u[6] / 16 == 5 && 8 <= u[8] / 16 < 12;
    Hex(u[..4]) + "-" + Hex(u[4..6]) + "-" + version + "-" + variant + "-" + Hex(u[10..])
  }

  /** Byte k of the hash, with version 5 and the variant in their places. */
  function UuidByte(sum: Sum, k: nat): (b: nat)
    requires k < 16
    ensures b < 256
  {
    if k == 6 then sum[6] % 16 + 0x50 else if k == 8 then sum[8] % 64 + 0x80 else sum[k]
  }

  /** The place of byte k in the text: two digits a byte, a dash after bytes 3, 5, 7 and 9. */
  function UuidPlace(k: nat): (p: nat)
    requires k < 16
    ensures p < 35
  {
    2 * k + (if k < 4 then 0 else if k < 6 then 1 else if k < 8 then 2 else if k < 10 then 3 else 4)
  }

  lemma {:induction false} HexAt(bytes: seq<nat>, k: nat)
    requires (forall i | 0 <= i < |bytes| :: bytes[i] < 256) && k < |bytes|
    ensures Hex(bytes)[2 * k] == HexDigit(bytes[k] / 16) && Hex(bytes)[2 * k + 1] == HexDigit(bytes[k] % 16)
  {
    hide HexDigit;
    if k > 0 {
      HexAt(bytes[1..], k - 1);
    }
  }

  lemma DashedAt(a: string, b: string, c: string, d: string, e: string, k: nat, i: nat)
    requires |a| == 8 && |b| == |c| == |d| == 4 && |e| == 12 && k < 16 && i < 2
    ensures var r := a + "-" + b + "-" + c + "-" + d + "-" + e;
            |r| == 36 && r[UuidPlace(k) + i] ==
              if k < 4 then a[2 * k + i] else if k < 6 then b[2 * (k - 4) + i] else if k < 8 then c[2 * (k - 6) + i]
              else if k < 10 then d[2 * (k - 8) + i] else e[2 * (k - 10) + i]
  {
  }

  lemma UuidParts(h: Digest, ns: Namespace, name: string, u: seq<nat>)
    requires u == h(ns, name)[..16][6 := h(ns, name)[6] % 16 + 0x50][8 := h(ns, name)[8] % 64 + 0x80]
    ensures forall i | 0 <= i < |u| :: u[i] < 256
    ensures UuidV5(h, ns, name) == Hex(u[..4]) + "-" + Hex(u[4..6]) + "-" + Hex(u[6..8]) + "-" + Hex(u[8..10]) + "-" + Hex(u[10..])
  {
    hide Hex;
  }

  /** A derived id spells the first sixteen bytes of the hash in order. */
  lemma UuidSpells(h: Digest, ns: Namespace, name: string, k: nat)
    requires k < 16
    ensures var r, b := UuidV5(h, ns, name), UuidByte(h(ns, name), k);
            r[UuidPlace(k)] == HexDigit(b / 16) && r[UuidPlace(k) + 1] == HexDigit(b % 16)
  {
    hide Hex, HexDigit, UuidPlace, UuidV5;
    var sum := h(ns, name);
    var u := sum[..16][6 := sum[6] % 16 + 0x50][8 := sum[8] % 64 + 0x80];
    UuidParts(h, ns, name, u);
    assert u[k] == UuidByte(sum, k);
    DashedAt(Hex(u[..4]), Hex(u[4..6]), Hex(u[6..8]), Hex(u[8..10]), Hex(u[10..]), k, 0);
    DashedAt(Hex(u[..4]), Hex(u[4..6]), Hex(u[6..8]), Hex(u[8..10]), Hex(u[10..]), k, 1);
    if k < 4 {
      HexAt(u[..4], k);
    } else if k < 6 {
      HexAt(u[4..6], k - 4);
    } else if k < 8 {
      HexAt(u[6..8], k - 6);
    } else if k < 10 {
      HexAt(u[8..10], k - 8);
    } else {
      HexAt(u[10..], k - 10);
    }
  }

  // ----- configuration -----

  datatype Group = Group(
    name: string, description: string, mailNickname: string, mail: string, oid: string,
    securityEnabled: Option<bool>, mailEnabled: Option<bool>, membershipRule: string,
    rule: Option<R.Rule>)

  datatype Tenant = Tenant(
    tid: string, name: string, domains: seq<string>, groupClaimFormat: string,
    groupLimit: int, consentRequired: bool, groups: seq<Group>)

  datatype ClaimMapping = ClaimMapping(name: string, source: string)

  datatype App = App(clientId: string, tid: string, roles: seq<string>, claims: seq<ClaimMapping>)

  datatype Consent = Consent(clientId: string, tid: string)

  /** Account fields the server only stores and shows. */
  datatype Profile = Profile(
    givenName: string, surname: string, mobilePhone: string, preferredLanguage: string,
    businessPhones: seq<string>, roles: seq<string>, amr: seq<string>, admin: bool, emailVerified: Option<bool>)

  /** The organisation attributes rules match on. */
  datatype Org = Org(
    department: string, companyName: string, employeeId: string, jobTitle: string, officeLocation: string,
    extension1: string, extension2: string, extension3: string)

  datatype User = User(
    username: string, tid: string, oid: string, name: string, email: string, groups: seq<string>,
    error: string, mfa: string, upn: string, accountEnabled: Option<bool>, wids: seq<string>, manager: string,
    org: Org, profile: Profile, dynamicGroups: seq<string>)

  datatype GraphConfig = GraphConfig(
    enabled: Option<bool>, basePath: string, overageEndpoint: string, userInfo: Option<bool>, appOnly: bool,
    defaultPageSize: int, maxPageSize: int, clockSkew: Option<int>)

  datatype Config = Config(
    basePath: string, defaultGroupLimit: int, tokenExpiry: int, ignoreLoginHint: bool, graph: Option<GraphConfig>,
    tenants: seq<Tenant>, consents: seq<Consent>, apps: seq<App>, users: seq<User>)

  const NO_ORG := Org("", "", "", "", "", "", "", "")
  const NO_PROFILE := Profile("", "", "", "", [], [], [], false, None)

  predicate Dynamic(g: Group) {
    g.membershipRule != ""
  }

  predicate UserEnabled(u: User) {
    u.accountEnabled.None? || u.accountEnabled.value
  }

  // ----- lookups -----

  function FindTenant(ts: seq<Tenant>, tid: string): (r: Option<Tenant>)
    ensures r.Some? ==> r.value in ts && r.value.tid == tid
    ensures r.None? ==> forall t | t in ts :: t.tid != tid
  {
    if ts == [] then None else if ts[0].tid == tid then Some(ts[0]) else FindTenant(ts[1..], tid)
  }

  function TenantOf(c: Config, tid: string): Option<Tenant> {
    FindTenant(c.tenants, Lower(tid))
  }

  function FindUser(us: seq<User>, tid: string, username: string): (r: Option<User>)
    ensures r.Some? ==> r.value in us && r.value.tid == tid && r.value.username == username
    ensures r.None? ==> forall u | u in us :: !(u.tid == tid && u.username == username)
  {
    if us == [] then None
    else if us[0].tid == tid && us[0].username == username then Some(us[0])
    else FindUser(us[1..], tid, username)
  }

  function UserNamed(c: Config, tid: string, username: string): Option<User> {
    FindUser(c.users, Lower(tid), username)
  }

  /** The users of a tenant, or of all tenants when tid is empty. */
  function UsersWith(us: seq<User>, tid: string): (r: seq<User>)
    ensures forall u :: u in r <==> u in us && (tid == "" || u.tid == tid)
  {
    if us == [] then []
    else (if tid == "" || us[0].tid == tid then [us[0]] else []) + UsersWith(us[1..], tid)
  }

  function UsersIn(c: Config, tid: string): seq<User> {
    UsersWith(c.users, Lower(tid))
  }

  function FirstByOid(us: seq<User>, oid: string): (r: Option<User>)
    ensures r.Some? ==> r.value in us && r.value.oid == oid
    ensures r.None? ==> forall u | u in us :: u.oid != oid
  {
    if us == [] then None else if us[0].oid == oid then Some(us[0]) else FirstByOid(us[1..], oid)
  }

  function UserByOid(c: Config, tid: string, oid: string): Option<User> {
    var o := Lower(Trim(oid));
    if o == "" then None else FirstByOid(UsersIn(c, tid), o)
  }

  function PreferredUsername(t: Tenant, u: User): string {
    if u.email != "" then u.email
    else if t.domains != [] then u.username + "@" + t.domains[0]
    else u.username
  }

  function PrincipalName(t: Tenant, u: User): string {
    if u.upn != "" then u.upn else PreferredUsername(t, u)
  }

  function FirstByName(us: seq<User>, t: Tenant, key: string): (r: Option<User>)
    ensures r.Some? ==> r.value in us && (Lower(PrincipalName(t, r.value)) == Lower(key) || r.value.username == key)
  {
    if us == [] then None
    else if Lower(PrincipalName(t, us[0])) == Lower(key) || us[0].username == key then Some(us[0])
    else FirstByName(us[1..], t, key)
  }

  /** By object id, then by principal name or username. */
  function UserByKey(c: Config, tid: string, key: string): (r: Option<User>)
    ensures r.Some? ==> r.value in c.users
  {
    match UserByOid(c, tid, key)
    case Some(u) => Some(u)
    case None =>
      if Trim(key) == "" then None
      else
        match TenantOf(c, tid)
        case None => None
        case Some(t) => FirstByName(UsersIn(c, t.tid), t, Trim(key))
  }

  /** The principal name is the configured one, else the address, else the username at the tenant's
      first domain, if it has one. */
  lemma PrincipalNames(t: Tenant, u: User)
    ensures u.upn != "" ==> PrincipalName(t, u) == u.upn
    ensures u.upn == "" && u.email != "" ==> PrincipalName(t, u) == u.email
    ensures u.upn == "" && u.email == "" && t.domains != [] ==> PrincipalName(t, u) == u.username + "@" + t.domains[0]
    ensures u.upn == "" && u.email == "" && t.domains == [] ==> PrincipalName(t, u) == u.username
  {
  }

  predicate GoesBy(t: Tenant, u: User, name: string) {
    Lower(PrincipalName(t, u)) == Lower(name) || u.username == name
  }

  /** A key finds an account of the tenant: by object id if there is one, else by principal name, in any
      case, or username; it finds one whenever there is one. */
  lemma KeyFinds(c: Config, tid: string, key: string, t: Tenant)
    requires TenantOf(c, tid) == Some(t) && Lower(tid) == tid == t.tid != ""
    ensures var r := UserByKey(c, tid, key); r.Some? ==>
              r.value in c.users && r.value.tid == tid && Trim(key) != "" && (r.value.oid == Lower(Trim(key)) || GoesBy(t, r.value, Trim(key)))
    ensures Trim(key) != "" && (exists u | u in c.users :: u.tid == tid && (u.oid == Lower(Trim(key)) || GoesBy(t, u, Trim(key)))) ==>
              UserByKey(c, tid, key).Some?
    ensures Trim(key) != "" && (exists u | u in c.users :: u.tid == tid && u.oid == Lower(Trim(key))) ==>
              UserByKey(c, tid, key).Some? && UserByKey(c, tid, key).value.oid == Lower(Trim(key))
  {
    hide PrincipalName, Trim, Lower;
    LowerKeepsLength(Trim(key));
    if u :| u in c.users && u.tid == tid && GoesBy(t, u, Trim(key)) {
      NameFinds(UsersIn(c, tid), t, Trim(key), u);
    }
  }

  lemma LowerKeepsLength(s: string)
    ensures Lower(s) == "" <==> s == ""
  {
    assert |Lower(s)| == |s|;
  }

  lemma {:induction false} NameFinds(us: seq<User>, t: Tenant, key: string, u: User)
    requires u in us && GoesBy(t, u, key)
    ensures FirstByName(us, t, key).Some?
  {
    hide PrincipalName, Lower;
    if u != us[0] {
      NameFinds(us[1..], t, key, u);
    }
  }

  function ManagerOf(c: Config, u: User): Option<User> {
    if u.manager == "" then None else UserNamed(c, u.tid, u.manager)
  }

  // ----- matching -----

  function AttrValue(a: R.Attr, t: Tenant, u: User): string {
    match a
    case Department => u.org.department
    case CompanyName => u.org.companyName
    case EmployeeId => u.org.employeeId
    case JobTitle => u.org.jobTitle
    case OfficeLocation => u.org.officeLocation
    case DisplayName => u.name
    case Mail => u.email
    case UserPrincipalName => PrincipalName(t, u)
    case Extension1 => u.org.extension1
    case Extension2 => u.org.extension2
    case Extension3 => u.org.extension3
  }

  /** One string comparison; an unset attribute is null. */
  predicate Compares(op: R.Op, got: string, value: Option<string>, values: seq<string>) {
    var lower := Lower(got);
    var operand := if value.Some? then Lower(value.value) else "";
    match op
    case Eq => if value.None? then got == "" else got != "" && lower == operand
    case Ne => !(if value.None? then got == "" else got != "" && lower == operand)
    case StartsWith => got != "" && HasPrefix(lower, operand)
    case NotStartsWith => !HasPrefix(lower, operand) || got == ""
    case Includes => got != "" && Contains(lower, operand)
    case NotIncludes => !Contains(lower, operand) || got == ""
    case In => got != "" && lower in values
    case NotIn => !(got != "" && lower in values)
  }

  predicate Matches(a: R.Comparison, t: Tenant, u: User) {
    match a
    case Enabled(eq, state) => (UserEnabled(u) == state) == eq
    case Compare(attr, op, value, values) => Compares(op, AttrValue(attr, t, u), value, values)
  }

  predicate RuleMatches(r: R.Rule, c: Config, t: Tenant, u: User) {
    match r
    case Reports(oid) => ManagerOf(c, u).Some? && ManagerOf(c, u).value.oid == oid
    case Boolean(e) => Eval(e, (a: R.Comparison) => Matches(a, t, u))
  }

  function Opposite(op: R.Op): R.Op {
    match op
    case Eq => R.Ne
    case Ne => R.Eq
    case StartsWith => R.NotStartsWith
    case NotStartsWith => R.StartsWith
    case Includes => R.NotIncludes
    case NotIncludes => R.Includes
    case In => R.NotIn
    case NotIn => R.In
  }

  /** Every operator has its exact complement; an unset attribute meets precisely the negative
      ones (and -eq null), so -ne and -notIn select users without the attribute. Case never matters. */
  lemma NullSemantics(op: R.Op, got: string, value: Option<string>, values: seq<string>)
    requires R.ComparisonOk(R.Compare(R.Department, op, value, values))
    ensures Compares(Opposite(op), got, value, values) == !Compares(op, got, value, values)
    ensures got == "" && value.None? && values == [] ==> (Compares(op, got, value, values) <==> op.Eq?)
    ensures got == "" && (value.Some? || values != []) ==>
              (Compares(op, got, value, values) <==> op.Ne? || op.NotStartsWith? || op.NotIncludes? || op.NotIn?)
    ensures Compares(op, Lower(got), value, values) == Compares(op, got, value, values)
  {
    LowerIdempotent(got);
  }

  // ----- what membership reads -----

  function GroupMeta(gs: seq<Group>, name: string): (r: Option<Group>)
    ensures r.Some? ==> r.value in gs && r.value.name == name
    ensures r.None? ==> forall g | g in gs :: g.name != name
  {
    if gs == [] then None else if gs[0].name == name then Some(gs[0]) else GroupMeta(gs[1..], name)
  }

  /** The declared dynamic groups the user's attributes match, in declared order. */
  function Matching(c: Config, t: Tenant, u: User, gs: seq<Group>): seq<string> {
    if gs == [] then []
    else
      (if Dynamic(gs[0]) && gs[0].rule.Some? && RuleMatches(gs[0].rule.value, c, t, u) then [gs[0].name] else [])
      + Matching(c, t, u, gs[1..])
  }
}
