/** Exactly when a tenant can be deleted, and what its deletion changes. */
module TenantDeletion {
  import opened Text
  import opened Lists
  import opened Directory
  import opened Normalize
  import opened Invariant
  import opened Edits
  import opened Deletion
  import R = RuleSyntax

  /** No app is pinned to the tenant. */
  predicate Unpinned(c: Config, tid: string) {
    forall i | 0 <= i < |c.apps| :: c.apps[i].tid != tid
  }

  lemma HasOtherTid(ts: seq<Tenant>, gone: string, tid: string)
    ensures HasTid(Keep(ts, OtherTenant(gone)), tid) <==> HasTid(ts, tid) && tid != gone
  {
    KeepIn(ts, OtherTenant(gone));
    HasTidIn(ts, tid);
    HasTidIn(Keep(ts, OtherTenant(gone)), tid);
  }

  /** Ids are unique, so exactly one tenant goes. */
  lemma {:induction false} OneTenantGoes(ts: seq<Tenant>, tid: string)
    requires HasTid(ts, tid) && DistinctTids(ts)
    ensures |Keep(ts, OtherTenant(tid))| == |ts| - 1
  {
    if ts[0].tid == tid {
      forall t | t in ts[1..]
        ensures OtherTenant(tid)(t)
      {
        var i :| 0 <= i < |ts[1..]| && ts[1..][i] == t;
        assert ts[i + 1] == t;
      }
      KeepAll(ts[1..], OtherTenant(tid));
    } else {
      var i :| 0 <= i < |ts| && ts[i].tid == tid;
      assert ts[1..][i - 1].tid == tid;
      assert forall i, j | 0 <= i < j < |ts[1..]| :: ts[1..][i] == ts[i + 1] && ts[1..][j] == ts[j + 1];
      OneTenantGoes(ts[1..], tid);
    }
  }

  lemma UserStaysSettled(h: Digest, u: User, ts: seq<Tenant>, tid: string)
    requires UserSettled(h, u, ts) && u.tid != tid
    ensures UserSettled(h, u, Keep(ts, OtherTenant(tid)))
  {
    hide CanonWids, CanonOid;
    HasOtherTid(ts, tid, CanonTid(u.tid));
    assert CanonUser(h, u).tid == CanonTid(u.tid) == u.tid;
  }

  lemma AppStaysOk(a: App, ts: seq<Tenant>, tid: string)
    requires AppOk(a, ts) && CanonApp(a) == a && tid != ""
    ensures AppOk(a, Keep(ts, OtherTenant(tid))) <==> a.tid != tid
  {
    hide ClaimsOk, CanonClaims;
    assert CanonApp(a).tid == CanonTid(a.tid);
    HasOtherTid(ts, tid, a.tid);
  }

  lemma ConsentStaysOk(cs: Consent, ts: seq<Tenant>, tid: string)
    requires ConsentOk(cs, ts) && CanonConsent(cs) == cs && cs.tid != tid
    ensures ConsentOk(cs, Keep(ts, OtherTenant(tid)))
  {
    assert CanonConsent(cs).tid == CanonTid(cs.tid);
    HasOtherTid(ts, tid, cs.tid);
  }

  lemma WithoutTenantRest(c: Config, tid: string)
    requires RestSettled(c) && HasTid(c.tenants, tid) && tid != "" && |c.tenants| > 1 && Unpinned(c, tid)
    ensures RestSettled(WithoutTenant(c, tid))
  {
    hide HeadSettled, TenantOk, CanonTenant, AppOk, CanonApp, ConsentOk, CanonConsent;
    var d := WithoutTenant(c, tid);
    OneTenantGoes(c.tenants, tid);
    KeepDistinctTids(c.tenants, OtherTenant(tid));
    HeadKept(c, d);
    forall i | 0 <= i < |d.tenants|
      ensures TenantOk(d.tenants[i]) && CanonTenant(d.tenants[i], d.defaultGroupLimit) == d.tenants[i]
    {
      KeepIn(c.tenants, OtherTenant(tid));
      assert d.tenants[i] in d.tenants;
      var k :| 0 <= k < |c.tenants| && c.tenants[k] == d.tenants[i];
    }
    forall i | 0 <= i < |d.apps|
      ensures AppOk(d.apps[i], d.tenants) && CanonApp(d.apps[i]) == d.apps[i]
    {
      AppStaysOk(c.apps[i], c.tenants, tid);
    }
    forall i | 0 <= i < |d.consents|
      ensures ConsentOk(d.consents[i], d.tenants) && CanonConsent(d.consents[i]) == d.consents[i]
    {
      KeepIn(c.consents, OtherConsent(tid));
      assert d.consents[i] in d.consents;
      var k :| 0 <= k < |c.consents| && c.consents[k] == d.consents[i];
      ConsentStaysOk(c.consents[k], c.tenants, tid);
    }
  }

  lemma HeadKept(c: Config, d: Config)
    requires HeadSettled(c)
    requires c.basePath == d.basePath && c.defaultGroupLimit == d.defaultGroupLimit && c.tokenExpiry == d.tokenExpiry && c.graph == d.graph
    ensures HeadSettled(d)
  {
  }

  lemma WithoutTenantParts(h: Digest, c: Config, tid: string)
    requires PartsSettled(h, c) && HasTid(c.tenants, tid) && tid != "" && |c.tenants| > 1 && Unpinned(c, tid)
    ensures PartsSettled(h, WithoutTenant(c, tid))
  {
    hide RestSettled, UserSettled;
    var d := WithoutTenant(c, tid);
    WithoutTenantRest(c, tid);
    KeepIn(c.users, Outsider(tid));
    KeepDistinctUsers(c.users, Outsider(tid));
    forall i | 0 <= i < |d.users|
      ensures UserSettled(h, d.users[i], d.tenants)
    {
      assert d.users[i] in d.users;
      var k :| 0 <= k < |c.users| && c.users[k] == d.users[i];
      UserStaysSettled(h, c.users[k], c.tenants, tid);
    }
  }

  lemma {:induction false} FindKeptUser(us: seq<User>, p: User -> bool, tid: string, username: string)
    requires forall u | u in us && u.tid == tid :: p(u)
    ensures FindUser(Keep(us, p), tid, username) == FindUser(us, tid, username)
  {
    if us != [] {
      FindKeptUser(us[1..], p, tid, username);
      assert ([us[0]] + Keep(us[1..], p))[1..] == Keep(us[1..], p);
      assert [] + Keep(us[1..], p) == Keep(us[1..], p);
    }
  }

  lemma {:induction false} SameManagerSameMatching(c: Config, d: Config, t: Tenant, u: User, gs: seq<Group>)
    requires ManagerOf(c, u) == ManagerOf(d, u)
    ensures Matching(c, t, u, gs) == Matching(d, t, u, gs)
  {
    if gs != [] {
      SameManagerSameMatching(c, d, t, u, gs[1..]);
    }
  }

  /** The users of other tenants keep their managers, their groups and their memberships. */
  lemma OutsiderUnaffected(h: Digest, c: Config, tid: string, u: User)
    requires Settled(h, c) && u in c.users && u.tid != tid
    ensures var d := WithoutTenant(c, tid);
            (ManagerNamed(c, u) ==> ManagerNamed(d, u)) && (StaticOk(c, u) ==> StaticOk(d, u)) && Membership(d, u) == Membership(c, u)
  {
    hide PartsSettled, Matching, DynamicsCurrent, ManagersNamed, StaticsOk;
    var d := WithoutTenant(c, tid);
    TenantOfUser(h, c, u);
    FindKeptTenant(c.tenants, OtherTenant(tid), u.tid);
    FindKeptUser(c.users, Outsider(tid), u.tid, u.manager);
    SameManagerSameMatching(c, d, TenantOf(c, u.tid).value, u, TenantOf(c, u.tid).value.groups);
    HasUserIn(c, u.tid, u.manager);
    HasUserIn(d, u.tid, u.manager);
    KeepIn(c.users, Outsider(tid));
  }

  lemma WithoutTenantUsers(h: Digest, c: Config, tid: string)
    requires Settled(h, c)
    ensures var d := WithoutTenant(c, tid); ManagersNamed(d) && StaticsOk(d) && DynamicsCurrent(d)
    ensures UsernamesTrimmed(c.users) ==> UsernamesTrimmed(WithoutTenant(c, tid).users)
  {
    hide PartsSettled, Membership, StaticOk, ManagerNamed;
    var d := WithoutTenant(c, tid);
    KeepIn(c.users, Outsider(tid));
    forall i | 0 <= i < |d.users|
      ensures ManagerNamed(d, d.users[i]) && StaticOk(d, d.users[i]) && d.users[i].dynamicGroups == Membership(d, d.users[i])
      ensures UsernamesTrimmed(c.users) ==> Trim(d.users[i].username) == d.users[i].username
    {
      assert d.users[i] in d.users;
      var k :| 0 <= k < |c.users| && c.users[k] == d.users[i];
      OutsiderUnaffected(h, c, tid, c.users[k]);
    }
  }

  lemma LastTenantStays(h: Digest, c: Config, tid: string)
    requires HasTid(c.tenants, tid) && DistinctTids(c.tenants) && |c.tenants| == 1
    ensures Normalized(h, WithoutTenant(c, tid)).None?
  {
    OneTenantGoes(c.tenants, tid);
  }

  lemma KeptTenantsCanonical(c: Config, tid: string)
    requires RestSettled(c)
    ensures CanonTenants(Keep(c.tenants, OtherTenant(tid)), c.defaultGroupLimit) == Keep(c.tenants, OtherTenant(tid))
  {
    hide HeadSettled, TenantOk, CanonTenant, AppOk, CanonApp, ConsentOk, CanonConsent;
    var ts := Keep(c.tenants, OtherTenant(tid));
    KeepIn(c.tenants, OtherTenant(tid));
    forall k | 0 <= k < |ts|
      ensures CanonTenants(ts, c.defaultGroupLimit)[k] == ts[k]
    {
      assert ts[k] in ts;
      var j :| 0 <= j < |c.tenants| && c.tenants[j] == ts[k];
    }
  }

  lemma BadAppRefused(h: Digest, d: Config, i: nat)
    requires i < |d.apps| && !AppOk(d.apps[i], Canon(h, d).tenants)
    ensures Normalized(h, d).None?
  {
    hide AppOk, TenantOk, UserOk, ConsentOk, GraphOk, Canon;
  }

  lemma PinnedTenantStays(h: Digest, c: Config, tid: string, i: nat)
    requires RestSettled(c) && i < |c.apps| && c.apps[i].tid == tid && tid != ""
    ensures Normalized(h, WithoutTenant(c, tid)).None?
  {
    hide TenantOk, AppOk, CanonApp, ConsentOk, CanonConsent, Normalized, GraphOk, CanonGraph, CanonUsers, CanonTenants;
    var d := WithoutTenant(c, tid);
    AppStaysOk(c.apps[i], c.tenants, tid);
    KeptTenantsCanonical(c, tid);
    BadAppRefused(h, d, i);
  }

  lemma ConfiguredTid(c: Config, tid: string)
    requires RestSettled(c) && HasTid(c.tenants, tid)
    ensures tid != "" && IsGuid(tid)
  {
    hide HeadSettled, AppOk, ConsentOk, TenantOk, CanonTenant;
    HasTidIn(c.tenants, tid);
    var t :| t in c.tenants && t.tid == tid;
    TenantGroupsSettled(c, t);
  }

  lemma TenantDeletionEdits(h: Digest, c: Config, tid0: string)
    ensures var tid := CanonTid(tid0);
            Accepted(h, c, DeleteTenant(tid0)) == if HasTid(c.tenants, tid) then Normalized(h, WithoutTenant(c, tid)) else None
  {
    hide WithoutTenant, Normalized, HasTid, CanonTid;
  }

  /** A tenant that is the last one or has an app pinned to it stays. */
  lemma TenantStays(h: Digest, c: Config, tid: string)
    requires RestSettled(c) && HasTid(c.tenants, tid) && (|c.tenants| <= 1 || !Unpinned(c, tid))
    ensures Normalized(h, WithoutTenant(c, tid)).None?
  {
    hide Normalized, RestSettled, WithoutTenant;
    ConfiguredTid(c, tid);
    if !Unpinned(c, tid) {
      var i :| 0 <= i < |c.apps| && c.apps[i].tid == tid;
      PinnedTenantStays(h, c, tid, i);
    } else {
      LastTenantStays(h, c, tid);
    }
  }

  /** DeleteTenant succeeds exactly when the tenant exists, is not the last one, no app is pinned to
      it, and every manager left standing still resolves after being trimmed. */
  lemma DeleteTenantExactly(h: Digest, c: Config, tid0: string)
    requires Settled(h, c)
    ensures var tid := CanonTid(tid0); var d := WithoutTenant(c, tid);
            Accepted(h, c, DeleteTenant(tid0)) ==
              if HasTid(c.tenants, tid) && |c.tenants| > 1 && Unpinned(c, tid) && ManagersOk(TrimManagers(d))
              then Some(Reresolved(d)) else None
  {
    hide Normalized, ManagersNamed, StaticsOk, DynamicsCurrent, RestSettled, UserSettled, WithoutTenant, Unpinned, HasTid, CanonTid, ManagersOk,
         TrimManagers, Accepted;
    var tid := CanonTid(tid0);
    TenantDeletionEdits(h, c, tid0);
    if HasTid(c.tenants, tid) {
      ConfiguredTid(c, tid);
      if |c.tenants| > 1 && Unpinned(c, tid) {
        WithoutTenantParts(h, c, tid);
        WithoutTenantUsers(h, c, tid);
        NormalizedOfParts(h, WithoutTenant(c, tid));
      } else {
        TenantStays(h, c, tid);
      }
    }
  }

  /** With usernames free of surrounding blanks the managers always resolve: DeleteTenant then
      removes the tenant, its users and its seed consents, and changes nothing else. */
  lemma DeleteTenantSucceeds(h: Digest, c: Config, tid0: string)
    requires Settled(h, c) && UsernamesTrimmed(c.users)
    ensures var tid := CanonTid(tid0);
            Accepted(h, c, DeleteTenant(tid0)) ==
              if HasTid(c.tenants, tid) && |c.tenants| > 1 && Unpinned(c, tid) then Some(WithoutTenant(c, tid)) else None
  {
    hide Normalized, ManagersNamed, StaticsOk, DynamicsCurrent, RestSettled, UserSettled, WithoutTenant, Unpinned, HasTid, CanonTid, Accepted,
         UsernamesTrimmed, ManagersStable;
    var tid := CanonTid(tid0);
    var d := WithoutTenant(c, tid);
    TenantDeletionEdits(h, c, tid0);
    if HasTid(c.tenants, tid) {
      ConfiguredTid(c, tid);
      if |c.tenants| > 1 && Unpinned(c, tid) {
        WithoutTenantParts(h, c, tid);
        WithoutTenantUsers(h, c, tid);
        TrimmedAreStable(d);
        Reaccepted(h, d);
        WithDynamicCurrent(d);
      } else {
        TenantStays(h, c, tid);
      }
    }
  }

  /** Nothing left names the tenant, and everything else is left: users up to what is recomputed. */
  ghost predicate TenantGone(c: Config, d: Config, tid: string) {
    && !HasTid(d.tenants, tid)
    && (forall u | u in d.users :: u.tid != tid && exists v | v in c.users :: Bare(v) == Bare(u))
    && (forall cs | cs in d.consents :: cs.tid != tid && cs in c.consents)
    && (forall t | t in c.tenants && t.tid != tid :: t in d.tenants)
    && (forall v | v in c.users && v.tid != tid :: exists u | u in d.users :: Bare(u) == Bare(v))
    && (forall cs | cs in c.consents && cs.tid != tid :: cs in d.consents)
  }

  lemma WithoutTenantKeeps(c: Config, tid: string)
    ensures var e := WithoutTenant(c, tid);
            && !HasTid(e.tenants, tid)
            && (forall u :: u in e.users <==> u in c.users && u.tid != tid)
            && (forall cs :: cs in e.consents <==> cs in c.consents && cs.tid != tid)
            && (forall t :: t in e.tenants <==> t in c.tenants && t.tid != tid)
  {
    hide HasTid;
    HasOtherTid(c.tenants, tid, tid);
    KeepIn(c.tenants, OtherTenant(tid));
    KeepIn(c.users, Outsider(tid));
    KeepIn(c.consents, OtherConsent(tid));
  }

  lemma WithoutTenantGone(c: Config, tid: string)
    ensures TenantGone(c, Reresolved(WithoutTenant(c, tid)), tid)
  {
    hide Reresolved, BareConfig, HasTid, WithoutTenant;
    var e := WithoutTenant(c, tid);
    var d := Reresolved(e);
    WithoutTenantKeeps(c, tid);
    ReresolvedIsBare(e);
    SameHead(e, d);
    forall u | u in d.users
      ensures u.tid != tid && exists v | v in c.users :: Bare(v) == Bare(u)
    {
      var v := ReresolvedFrom(e, u);
      assert u.tid == Bare(u).tid == v.tid;
    }
    forall v | v in c.users && v.tid != tid
      ensures exists u | u in d.users :: Bare(u) == Bare(v)
    {
      var u := ReresolvedTo(e, v);
    }
  }

  lemma SameHead(e: Config, d: Config)
    requires BareConfig(d) == BareConfig(e)
    ensures d.tenants == e.tenants && d.consents == e.consents && d.apps == e.apps
  {
    assert BareConfig(d).tenants == d.tenants && BareConfig(d).consents == d.consents && BareConfig(d).apps == d.apps;
  }

  /** Every accepted deletion leaves nothing that names the tenant. */
  lemma DeleteTenantLeaves(h: Digest, c: Config, tid: string)
    requires Settled(h, c) && Accepted(h, c, DeleteTenant(tid)).Some?
    ensures TenantGone(c, Accepted(h, c, DeleteTenant(tid)).value, CanonTid(tid))
  {
    hide Settled, TenantGone, Reresolved, WithoutTenant, Accepted, CanonTid, HasTid, Unpinned, ManagersOk;
    DeleteTenantExactly(h, c, tid);
    WithoutTenantGone(c, CanonTid(tid));
  }
}
