/** Authorization codes: a store that forgets expired codes on every put and every code on its first
    redemption, and what a token can be traced back to in any run. */
module Codes {
  import opened Text
  import opened Directory
  import opened Consents
  import opened Samples

  /** redirectParses says whether the redirect URI is one a code can be added to. */
  datatype AuthRequest = AuthRequest(
    clientId: string, redirectUri: string, redirectParses: bool, scopes: seq<string>, nonce: string, challenge: string, transform: string)

  /** tid and username name the account, segment the tenant path the code was issued on. */
  datatype AuthCode = AuthCode(req: AuthRequest, tid: string, username: string, segment: string, expires: int)

  type Codes = map<string, AuthCode>

  /** Ten minutes, in nanoseconds. */
  const TTL := 600_000_000_000

  // ----- the store -----

  function Swept(codes: Codes, now: int): Codes {
    map k | k in codes && !(codes[k].expires < now) :: codes[k]
  }

  class CodeStore {
    var codes: Codes

    constructor ()
      ensures codes == map[]
    {
      codes := map[];
    }

    /** Stores a code and drops the expired ones. */
    method Put(code: string, c: AuthCode, now: int)
      modifies this
      ensures codes == Swept(old(codes), now)[code := c]
    {
      var todo := codes.Keys;
      while todo != {}
        invariant todo <= old(codes).Keys && codes.Keys <= old(codes).Keys
        invariant forall k | k in old(codes) :: k in codes <==> k in todo || !(old(codes)[k].expires < now)
        invariant forall k | k in codes :: codes[k] == old(codes)[k]
        decreases todo
      {
        var k :| k in todo;
        todo := todo - {k};
        if codes[k].expires < now {
          codes := codes - {k};
        }
      }
      codes := codes[code := c];
    }

    /** Removes and returns a code: the first redemption takes it, successful or not. */
    method Take(code: string) returns (c: Option<AuthCode>)
      modifies this
      ensures codes == old(codes) - {code}
      ensures c == if code in old(codes) then Some(old(codes)[code]) else None
    {
      c := if code in codes then Some(codes[code]) else None;
      codes := codes - {code};
    }
  }

  // ----- requests -----

  /** The S256 transform, ideal. */
  type S256 = string -> string

  /** RFC 7636, section 4.6: a challenge binds the redemption to its verifier. */
  predicate PkceOk(s256: S256, req: AuthRequest, verifier: string) {
    req.challenge == "" ||
    (verifier != "" && (if req.transform == "S256" then s256(verifier) else verifier) == req.challenge)
  }

  /** One tenant, or organizations/common. */
  datatype Scope = Scope(segment: string, tenant: Option<Tenant>)

  function ResolveScope(c: Config, segment: string): Option<Scope> {
    var seg := Lower(segment);
    if seg == "organizations" || seg == "common" then Some(Scope(seg, None))
    else
      var t := TenantOf(c, seg);
      if t.None? then None else Some(Scope(t.value.tid, t))
  }

  /** The account picked or hinted, within the scope of the request. */
  function PickedUser(c: Config, sc: Scope, tid: string, username: string): Option<User> {
    var u := UserNamed(c, tid, username);
    if u.None? || (sc.tenant.Some? && u.value.tid != sc.tenant.value.tid) then None else u
  }

  /** What one request sees: the clock, a snapshot, the consents granted. */
  datatype World = World(now: int, config: Config, consents: set<string>)

  datatype Step =
    | Authorize(w: World, segment: string, req: AuthRequest, tid: string, username: string, code: string)
    | Redeem(w: World, segment: string, code: string, clientId: string, redirectUri: string, verifier: string)

  /** Denied stands for every error answer that leaves the codes alone; Undisclosed is the one
      after a code was stored. */
  datatype Outcome =
    | Denied
    | Issued(code: string)
    | Undisclosed
    | InvalidGrant
    | ServerError
    | Granted(clientId: string, scopes: seq<string>, nonce: string, tenant: Tenant, user: User)

  /** The checks of issueCode: an injected error, then the tenant's consent. */
  function Issue(w: World, sc: Scope, req: AuthRequest, u: User): Option<AuthCode> {
    var t := TenantOf(w.config, u.tid);
    if u.error == "interaction_required" || u.error == "access_denied" || t.None? then None
    else if t.value.consentRequired && Key(req.clientId, t.value.tid) !in w.consents then None
    else Some(AuthCode(req, t.value.tid, u.username, sc.segment, w.now + TTL))
  }

  function Authorized(s: Step): Option<AuthCode>
    requires s.Authorize?
  {
    var sc := ResolveScope(s.w.config, s.segment);
    if sc.None? then None
    else
      var u := PickedUser(s.w.config, sc.value, s.tid, s.username);
      if u.None? then None else Issue(s.w, sc.value, s.req, u.value)
  }

  /** The checks on a code that was found. */
  predicate Honoured(s256: S256, c: AuthCode, s: Step, segment: string)
    requires s.Redeem?
  {
    && !(s.w.now > c.expires)
    && (segment == c.segment || segment == c.tid)
    && s.clientId == c.req.clientId && s.redirectUri == c.req.redirectUri
    && PkceOk(s256, c.req, s.verifier)
  }

  /** The account at redemption: a missing one is dereferenced. */
  function Account(c: AuthCode, config: Config): Outcome {
    var t, u := TenantOf(config, c.tid), UserNamed(config, c.tid, c.username);
    if u.None? then ServerError
    else if u.value.error == "invalid_grant" || !UserEnabled(u.value) then InvalidGrant
    else if t.None? then ServerError
    else Granted(c.req.clientId, c.req.scopes, c.req.nonce, t.value, u.value)
  }

  /** One request against the codes held; sweep says whether a put drops expired ones. */
  function Exec(s256: S256, sweep: bool, codes: Codes, s: Step): (Codes, Outcome) {
    match s
    case Authorize(w, _, _, _, _, code) =>
      var c := Authorized(s);
      if c.None? then (codes, Denied)
      else ((if sweep then Swept(codes, w.now) else codes)[code := c.value], if s.req.redirectParses then Issued(code) else Undisclosed)
    case Redeem(w, segment, code, _, _, _) =>
      var sc := ResolveScope(w.config, segment);
      if sc.None? then (codes, Denied)
      else if code !in codes || !Honoured(s256, codes[code], s, sc.value.segment) then (codes - {code}, InvalidGrant)
      else (codes - {code}, Account(codes[code], w.config))
  }

  /** The token endpoint's code grant, over the store. */
  method RedeemCode(s256: S256, store: CodeStore, s: Step) returns (o: Outcome)
    requires s.Redeem?
    modifies store
    ensures (store.codes, o) == Exec(s256, true, old(store.codes), s)
  {
    var sc := ResolveScope(s.w.config, s.segment);
    if sc.None? {
      return Denied;
    }
    var c := store.Take(s.code);
    if c.None? || s.w.now > c.value.expires {
      return InvalidGrant;
    }
    if sc.value.segment != c.value.segment && sc.value.segment != c.value.tid {
      return InvalidGrant;
    }
    if s.clientId != c.value.req.clientId {
      return InvalidGrant;
    }
    if s.redirectUri != c.value.req.redirectUri {
      return InvalidGrant;
    }
    if !PkceOk(s256, c.value.req, s.verifier) {
      return InvalidGrant;
    }
    return Account(c.value, s.w.config);
  }

  method IssueCode(s256: S256, store: CodeStore, s: Step) returns (o: Outcome)
    requires s.Authorize?
    modifies store
    ensures (store.codes, o) == Exec(s256, true, old(store.codes), s)
  {
    var c := Authorized(s);
    if c.None? {
      return Denied;
    }
    store.Put(s.code, c.value, s.w.now);
    return if s.req.redirectParses then Issued(s.code) else Undisclosed;
  }

  // ----- runs -----

  /** The codes held after a run from the empty store. */
  function CodesAfter(s256: S256, sweep: bool, steps: seq<Step>): Codes {
    if steps == [] then map[]
    else Exec(s256, sweep, CodesAfter(s256, sweep, steps[..|steps| - 1]), steps[|steps| - 1]).0
  }

  function OutcomeAt(s256: S256, sweep: bool, steps: seq<Step>, i: nat): Outcome
    requires i < |steps|
  {
    Exec(s256, sweep, CodesAfter(s256, sweep, steps[..i]), steps[i]).1
  }

  ghost predicate Monotone(steps: seq<Step>) {
    forall i, j | 0 <= i < j < |steps| :: steps[i].w.now <= steps[j].w.now
  }

  /** Random codes never repeat. */
  ghost predicate FreshCodes(steps: seq<Step>) {
    forall i, j | 0 <= i < j < |steps| && steps[i].Authorize? && steps[j].Authorize? :: steps[i].code != steps[j].code
  }

  /** The request reaches the store and takes the code. */
  predicate Takes(s: Step, code: string) {
    s.Redeem? && s.code == code && ResolveScope(s.w.config, s.segment).Some?
  }

  predicate Issues(s: Step, code: string) {
    s.Authorize? && s.code == code && Authorized(s).Some?
  }

  /** Step i issued the code and no request took it before step j. */
  predicate Outstanding(steps: seq<Step>, i: int, j: int, code: string)
    requires 0 <= i < j <= |steps|
  {
    Issues(steps[i], code) && forall m | i < m < j :: !Takes(steps[m], code)
  }

  lemma NoCodes(s256: S256, sweep: bool)
    ensures CodesAfter(s256, sweep, []) == map[]
  {
  }

  lemma CodesStep(s256: S256, sweep: bool, steps: seq<Step>, j: nat)
    requires j < |steps|
    ensures CodesAfter(s256, sweep, steps[..j + 1]) == Exec(s256, sweep, CodesAfter(s256, sweep, steps[..j]), steps[j]).0
  {
    hide Exec;
    assert steps[..j + 1][..j] == steps[..j];
  }

  /** A code held after a request was issued by it, or was held before and not taken. */
  lemma HeldAfterOne(s256: S256, sweep: bool, codes: Codes, s: Step, code: string)
    requires code in Exec(s256, sweep, codes, s).0
    ensures var held := Exec(s256, sweep, codes, s).0;
            if Issues(s, code) then Authorized(s) == Some(held[code])
            else code in codes && codes[code] == held[code] && !Takes(s, code)
  {
    hide Authorized, ResolveScope, Honoured, Account;
  }

  /** Whatever the store holds was issued and not taken since. */
  lemma {:induction false} HeldWasIssued(s256: S256, sweep: bool, steps: seq<Step>, j: nat, code: string) returns (i: nat)
    requires j <= |steps| && code in CodesAfter(s256, sweep, steps[..j])
    ensures i < j && Outstanding(steps, i, j, code) && Authorized(steps[i]) == Some(CodesAfter(s256, sweep, steps[..j])[code])
    decreases j
  {
    hide Authorized, Takes, Exec, CodesAfter;
    if j == 0 {
      assert steps[..0] == [];
      NoCodes(s256, sweep);
    } else {
      CodesStep(s256, sweep, steps, j - 1);
      HeldAfterOne(s256, sweep, CodesAfter(s256, sweep, steps[..j - 1]), steps[j - 1], code);
      if Issues(steps[j - 1], code) {
        i := j - 1;
      } else {
        i := HeldWasIssued(s256, sweep, steps, j - 1, code);
      }
    }
  }

  /** The never-forgetting store holds exactly the outstanding codes; the sweeping one, those that
      had not expired by the last put. */
  lemma {:induction false} OutstandingIsHeld(s256: S256, sweep: bool, steps: seq<Step>, i: nat, j: nat, code: string)
    requires i < j <= |steps| && Outstanding(steps, i, j, code) && FreshCodes(steps) && Monotone(steps)
    ensures code in CodesAfter(s256, sweep, steps[..j]) ==> Authorized(steps[i]) == Some(CodesAfter(s256, sweep, steps[..j])[code])
    ensures !sweep || steps[j - 1].w.now <= Authorized(steps[i]).value.expires ==> code in CodesAfter(s256, sweep, steps[..j])
    decreases j
  {
    hide Authorized, ResolveScope, Honoured, Account;
    CodesStep(s256, sweep, steps, j - 1);
    if i < j - 1 {
      OutstandingIsHeld(s256, sweep, steps, i, j - 1, code);
    }
  }

  // ----- what a token can be traced to -----

  /** Every condition a redemption at step j must meet against the issue at step i. */
  predicate Redeemable(s256: S256, steps: seq<Step>, i: int, j: int)
    requires 0 <= i < j < |steps| && steps[i].Authorize? && steps[j].Redeem?
  {
    var sc := ResolveScope(steps[j].w.config, steps[j].segment);
    var c := Authorized(steps[i]);
    && Outstanding(steps, i, j, steps[j].code) && sc.Some?
    && steps[j].w.now <= steps[i].w.now + TTL
    && (sc.value.segment == c.value.segment || sc.value.segment == c.value.tid)
    && steps[j].clientId == steps[i].req.clientId && steps[j].redirectUri == steps[i].req.redirectUri
    && PkceOk(s256, steps[i].req, steps[j].verifier)
  }

  lemma IssuedCode(s: Step)
    requires s.Authorize? && Authorized(s).Some?
    ensures var c := Authorized(s).value; c.req == s.req && c.expires == s.w.now + TTL
  {
    hide ResolveScope, PickedUser, TenantOf;
  }

  /** A redemption gets past the code checks exactly when its code is outstanding from an issue it
      matches; what happens then is up to the account. In every run with fresh codes. */
  lemma RedemptionExactly(s256: S256, steps: seq<Step>, j: nat)
    requires j < |steps| && steps[j].Redeem? && FreshCodes(steps) && Monotone(steps)
    requires ResolveScope(steps[j].w.config, steps[j].segment).Some?
    ensures forall i | 0 <= i < j && steps[i].Authorize? && Redeemable(s256, steps, i, j) ::
              OutcomeAt(s256, true, steps, j) == Account(Authorized(steps[i]).value, steps[j].w.config)
    ensures (forall i | 0 <= i < j && steps[i].Authorize? :: !Redeemable(s256, steps, i, j)) ==>
              OutcomeAt(s256, true, steps, j) == InvalidGrant
  {
    hide Authorized, ResolveScope, PkceOk, Account, CodesAfter;
    var code := steps[j].code;
    forall i | 0 <= i < j && steps[i].Authorize? && Redeemable(s256, steps, i, j)
      ensures OutcomeAt(s256, true, steps, j) == Account(Authorized(steps[i]).value, steps[j].w.config)
    {
      IssuedCode(steps[i]);
      OutstandingIsHeld(s256, true, steps, i, j, code);
    }
    if code in CodesAfter(s256, true, steps[..j]) {
      var i := HeldWasIssued(s256, true, steps, j, code);
      IssuedCode(steps[i]);
    }
  }

  /** A code issued for an account, redeemed after the account is gone. */
  function DeletedInBetween(): seq<Step> {
    var req := AuthRequest("app", "https://r", true, [], "", "", "");
    var eve := Samples.Account("eve", Guid('1'), Guid('a'), "", []);
    [Authorize(World(0, Sample([], [eve]), {}), Guid('1'), req, Guid('1'), "eve", "code"),
     Redeem(World(1, Sample([], []), {}), Guid('1'), "code", "app", "https://r", "")]
  }

  /** The redemption is answered with a server error. */
  lemma DeletedAccountFails(s256: S256)
    ensures OutcomeAt(s256, true, DeletedInBetween(), 1) == ServerError
  {
    hide Guid, ResolveScope, CodesAfter, Sample, Samples.Account;
    var steps := DeletedInBetween();
    SampleScope([Samples.Account("eve", Guid('1'), Guid('a'), "", [])]);
    SampleScope([]);
    EveIssued();
    assert Outstanding(steps, 0, 1, "code") && Redeemable(s256, steps, 0, 1);
    NobodyThere();
    RedemptionExactly(s256, steps, 1);
  }

  lemma SampleScope(us: seq<User>)
    ensures ResolveScope(Sample([], us), Guid('1')) == Some(Scope(Guid('1'), Some(SampleTenant([]))))
  {
    hide Guid, TenantOf, IsGuid, Lower, Sample, SampleTenant;
    GuidStays('1');
    SampleFinds([], us);
    SampleTid([]);
  }

  lemma EveIssued()
    ensures Authorized(DeletedInBetween()[0]) ==
              Some(AuthCode(DeletedInBetween()[0].req, Guid('1'), "eve", Guid('1'), TTL))
  {
    hide Guid, ResolveScope, TenantOf, IsGuid, Lower;
    var eve := Samples.Account("eve", Guid('1'), Guid('a'), "", []);
    GuidStays('1');
    SampleScope([eve]);
    SampleFinds([], [eve]);
    SampleTid([]);
    assert Sample([], [eve]).users == [eve];
    assert UserNamed(Sample([], [eve]), Guid('1'), "eve") == Some(eve);
  }

  lemma NobodyThere()
    ensures UserNamed(Sample([], []), Guid('1'), "eve").None?
  {
    hide Guid, Lower;
  }

  /** Every token traces back to one issue: same client and redirect, within the lifetime, on the
      issuing segment or the user's tenant, with PKCE satisfied; consent was there at the issue and
      the account is enabled at the redemption. */
  lemma TokenIsTraced(s256: S256, steps: seq<Step>, j: nat) returns (i: nat)
    requires j < |steps| && OutcomeAt(s256, true, steps, j).Granted?
    ensures steps[j].Redeem? && i < j && steps[i].Authorize? && Redeemable(s256, steps, i, j)
    ensures var o := OutcomeAt(s256, true, steps, j);
            && o.clientId == steps[i].req.clientId && o.scopes == steps[i].req.scopes && o.nonce == steps[i].req.nonce
            && UserEnabled(o.user) && o.user.error != "invalid_grant"
            && PickedAt(steps[i], o.user)
  {
    hide CodesAfter, PkceOk, TenantOf, FindUser, Lower;
    i := HeldWasIssued(s256, true, steps, j, steps[j].code);
    IssuedCode(steps[i]);
  }

  /** The account was picked, in scope, without an injected error, and its tenant's consent was given. */
  predicate PickedAt(s: Step, u: User)
    requires s.Authorize?
  {
    var c := s.w.config;
    var v := UserNamed(c, s.tid, s.username);
    v.Some? &&
    var t := TenantOf(c, v.value.tid);
    t.Some? && u.username == v.value.username && u.tid == Lower(t.value.tid)
    && v.value.error != "interaction_required" && v.value.error != "access_denied"
    && (t.value.consentRequired ==> Key(s.req.clientId, t.value.tid) in s.w.consents)
  }

  /** A code is redeemed at most once, and a failed attempt counts (RFC 6749, section 4.1.2). */
  lemma SingleUse(s256: S256, steps: seq<Step>, m: nat, j: nat)
    requires m < j < |steps| && FreshCodes(steps)
    requires steps[m].Redeem? && steps[j].Redeem? && steps[m].code == steps[j].code
    ensures !(OutcomeAt(s256, true, steps, m).Granted? && OutcomeAt(s256, true, steps, j).Granted?)
    ensures Takes(steps[m], steps[j].code) && (exists i | 0 <= i < m :: Issues(steps[i], steps[j].code)) ==>
              !OutcomeAt(s256, true, steps, j).Granted?
  {
    hide CodesAfter, ResolveScope, Authorized, Honoured, Account;
    var code := steps[j].code;
    if code in CodesAfter(s256, true, steps[..j]) {
      var i := HeldWasIssued(s256, true, steps, j, code);
      if code in CodesAfter(s256, true, steps[..m]) {
        var i' := HeldWasIssued(s256, true, steps, m, code);
      }
    }
  }

  // ----- proof of possession, account and consent, spelled out -----

  /** Everything a redemption at step j needs of the issue at step i, but the code verifier. */
  predicate MatchesIssue(steps: seq<Step>, i: int, j: int)
    requires 0 <= i < j < |steps| && steps[i].Authorize? && steps[j].Redeem?
  {
    var sc := ResolveScope(steps[j].w.config, steps[j].segment);
    && Outstanding(steps, i, j, steps[j].code) && sc.Some?
    && steps[j].w.now <= steps[i].w.now + TTL
    && (sc.value.segment == Authorized(steps[i]).value.segment || sc.value.segment == Authorized(steps[i]).value.tid)
    && steps[j].clientId == steps[i].req.clientId && steps[j].redirectUri == steps[i].req.redirectUri
  }

  /** The verifier answers the challenge, by the transform the request named. */
  predicate Answers(s256: S256, req: AuthRequest, verifier: string) {
    verifier != "" && (req.transform == "S256" ==> s256(verifier) == req.challenge) && (req.transform != "S256" ==> verifier == req.challenge)
  }

  /** A matching redemption is refused exactly when there was a challenge and the verifier does not
      answer it; without a challenge any verifier will do (RFC 7636, section 4.6). */
  lemma VerifierDecides(s256: S256, steps: seq<Step>, i: nat, j: nat)
    requires i < j < |steps| && steps[i].Authorize? && steps[j].Redeem? && FreshCodes(steps) && Monotone(steps)
    requires MatchesIssue(steps, i, j)
    ensures OutcomeAt(s256, true, steps, j) ==
              if steps[i].req.challenge != "" && !Answers(s256, steps[i].req, steps[j].verifier) then InvalidGrant
              else Account(Authorized(steps[i]).value, steps[j].w.config)
  {
    hide Authorized, ResolveScope, Account, CodesAfter;
    IssuedCode(steps[i]);
    OutstandingIsHeld(s256, true, steps, i, j, steps[j].code);
  }

  /** Whoever is granted a token has answered the challenge of the request the code was issued for. */
  lemma GrantedHasAnswered(s256: S256, steps: seq<Step>, i: nat, j: nat)
    requires i < j < |steps| && FreshCodes(steps) && OutcomeAt(s256, true, steps, j).Granted?
    requires steps[i].Authorize? && steps[i].code == steps[j].code && steps[i].req.challenge != ""
    ensures steps[j].verifier != ""
    ensures steps[i].req.transform == "S256" ==> s256(steps[j].verifier) == steps[i].req.challenge
    ensures steps[i].req.transform != "S256" ==> steps[j].verifier == steps[i].req.challenge
  {
    hide CodesAfter, OutcomeAt, ResolveScope, Authorized, PickedAt;
    var k := TokenIsTraced(s256, steps, j);
    assert k == i;
    ChallengeAnswered(s256, steps[i].req, steps[j].verifier);
  }

  lemma ChallengeAnswered(s256: S256, req: AuthRequest, verifier: string)
    requires PkceOk(s256, req, verifier) && req.challenge != ""
    ensures verifier != ""
    ensures req.transform == "S256" ==> s256(verifier) == req.challenge
    ensures req.transform != "S256" ==> verifier == req.challenge
  {
  }

  /** A code is issued exactly when the segment names a scope, the account is configured in it and
      has no error injected, and the tenant does not ask for a consent that was not given. */
  lemma IssuedExactly(s: Step)
    requires s.Authorize?
    ensures Authorized(s).Some? <==>
              exists u, t | u in s.w.config.users && t in s.w.config.tenants ::
                && PicksFrom(s, u) && t.tid == Lower(u.tid) && TenantOf(s.w.config, u.tid) == Some(t)
                && u.error != "interaction_required" && u.error != "access_denied"
                && (t.consentRequired ==> Key(s.req.clientId, t.tid) in s.w.consents)
  {
    hide Lower, FindUser, FindTenant;
    var c := s.w.config;
    if Authorized(s).Some? {
      var u := UserNamed(c, s.tid, s.username).value;
      var t := TenantOf(c, u.tid).value;
      assert PicksFrom(s, u);
    }
  }

  /** The account is the one asked for, within the tenant the segment names, if it names one. */
  predicate PicksFrom(s: Step, u: User)
    requires s.Authorize?
  {
    var c := s.w.config;
    var seg := Lower(s.segment);
    && UserNamed(c, s.tid, s.username) == Some(u)
    && (seg == "organizations" || seg == "common" || (TenantOf(c, seg).Some? && u.tid == TenantOf(c, seg).value.tid))
  }

  /** What the account decides: a token for an enabled one, an OAuth error for one that is disabled or
      told to fail, a server error for one no longer there. */
  lemma AccountDecides(c: AuthCode, config: Config, u: User, t: Tenant)
    requires UserNamed(config, c.tid, c.username) == Some(u) && TenantOf(config, c.tid) == Some(t)
    ensures Account(c, config).Granted? <==> u.accountEnabled != Some(false) && u.error != "invalid_grant"
    ensures !Account(c, config).Granted? ==> Account(c, config) == InvalidGrant
    ensures Account(c, config).Granted? ==> Account(c, config) == Granted(c.req.clientId, c.req.scopes, c.req.nonce, t, u)
  {
  }

  // ----- the sweep is invisible -----

  /** The sweeping store differs from the one that never forgets only in codes already expired. */
  ghost predicate OnlyExpiredDiffer(swept: Codes, full: Codes, now: int) {
    && (forall k | k in swept :: k in full && swept[k] == full[k])
    && (forall k | k in full && k !in swept :: full[k].expires < now)
  }

  lemma ExecKeepsDifference(s256: S256, swept: Codes, full: Codes, now: int, s: Step)
    requires OnlyExpiredDiffer(swept, full, now) && now <= s.w.now
    ensures Exec(s256, true, swept, s).1 == Exec(s256, false, full, s).1
    ensures OnlyExpiredDiffer(Exec(s256, true, swept, s).0, Exec(s256, false, full, s).0, s.w.now)
  {
    hide Authorized, ResolveScope, PkceOk, Account;
  }

  /** With a clock that does not go back, every request is answered as by a store that never forgets
      an unredeemed code, at the instant of expiry included. */
  lemma {:induction false} SweepIsInvisible(s256: S256, steps: seq<Step>, j: nat)
    requires j < |steps| && Monotone(steps)
    ensures OutcomeAt(s256, true, steps, j) == OutcomeAt(s256, false, steps, j)
  {
    hide Exec, OnlyExpiredDiffer;
    SweepDifference(s256, steps, j);
    ExecKeepsDifference(s256, CodesAfter(s256, true, steps[..j]), CodesAfter(s256, false, steps[..j]), steps[j].w.now, steps[j]);
  }

  lemma {:induction false} SweepDifference(s256: S256, steps: seq<Step>, j: nat)
    requires j < |steps| && Monotone(steps)
    ensures OnlyExpiredDiffer(CodesAfter(s256, true, steps[..j]), CodesAfter(s256, false, steps[..j]), steps[j].w.now)
  {
    hide Exec;
    if j == 0 {
      assert steps[..0] == [];
    } else {
      SweepDifference(s256, steps, j - 1);
      CodesStep(s256, true, steps, j - 1);
      CodesStep(s256, false, steps, j - 1);
      ExecKeepsDifference(s256, CodesAfter(s256, true, steps[..j - 1]), CodesAfter(s256, false, steps[..j - 1]),
                          steps[j - 1].w.now, steps[j - 1]);
    }
  }
}
