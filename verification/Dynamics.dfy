/** Who is a member of a dynamic group, in every configuration ever published. */
module Dynamics {
  import opened Text
  import opened Grammar
  import opened Directory
  import opened Normalize
  import opened Invariant
  import opened Edits
  import opened RuleMeaning
  import R = RuleSyntax

  lemma {:induction false} MatchingHas(c: Config, t: Tenant, u: User, gs: seq<Group>, name: string)
    ensures name in Matching(c, t, u, gs) <==>
              exists g | g in gs :: g.name == name && Dynamic(g) && g.rule.Some? && RuleMatches(g.rule.value, c, t, u)
  {
    hide RuleMatches;
    if gs != [] {
      MatchingHas(c, t, u, gs[1..], name);
      assert gs == [gs[0]] + gs[1..];
    }
  }

  /** The user's tenant, and one of its dynamic groups. */
  ghost predicate Concerns(c: Config, u: User, t: Tenant, g: Group) {
    u in c.users && t in c.tenants && t.tid == u.tid && g in t.groups && g.membershipRule != ""
  }

  lemma TheTenant(h: Digest, c: Config, u: User, t: Tenant)
    requires PartsSettled(h, c) && u in c.users && t in c.tenants && t.tid == u.tid
    ensures TenantOf(c, u.tid) == Some(t) && Lower(u.tid) == u.tid
    ensures CanonGroups(t.groups) == t.groups && DistinctGroups(t.groups)
  {
    hide HeadSettled, AppOk, CanonApp, ConsentOk, CanonConsent, UserSettled, TenantOk, CanonTenant, DistinctUsers, CanonGroups, DistinctGroups;
    TenantOfUser(h, c, u);
    TenantGroupsSettled(c, t);
    var f := TenantOf(c, u.tid).value;
    var i :| 0 <= i < |c.tenants| && c.tenants[i] == t;
    var j :| 0 <= j < |c.tenants| && c.tenants[j] == f;
    assert i == j;
  }

  lemma CompiledRule(gs: seq<Group>, g: Group)
    requires CanonGroups(gs) == gs && g in gs && g.membershipRule != ""
    ensures g.rule == R.ParseRule(g.membershipRule) && Dynamic(g)
  {
    hide Lower, Trim, R.ParseRule;
    var i :| 0 <= i < |gs| && gs[i] == g;
    assert CanonGroups(gs)[i] == CanonGroup(g);
  }

  lemma DynamicExactly(h: Digest, c: Config, u: User, t: Tenant, g: Group)
    requires Settled(h, c) && Concerns(c, u, t, g)
    ensures g.rule == R.ParseRule(g.membershipRule)
    ensures g.name in u.dynamicGroups <==> g.rule.Some? && RuleMatches(g.rule.value, c, t, u)
  {
    hide PartsSettled, ManagersNamed, StaticsOk, Matching, RuleMatches, R.ParseRule, CanonGroups, TenantOf;
    TheTenant(h, c, u, t);
    CompiledRule(t.groups, g);
    MatchingHas(c, t, u, t.groups, g.name);
    var i :| 0 <= i < |c.users| && c.users[i] == u;
    assert u.dynamicGroups == Membership(c, u);
    forall g' | g' in t.groups && g'.name == g.name
      ensures g' == g
    {
      var k :| 0 <= k < |t.groups| && t.groups[k] == g;
      var l :| 0 <= l < |t.groups| && t.groups[l] == g';
      assert k == l;
    }
  }

  /** In every published configuration a user is in a dynamic group exactly when the group's rule,
      as it is written, selects the user. */
  lemma MembersAreSelected(h: Digest, raw: Config, ops: seq<Op>, u: User, t: Tenant, g: Group)
    requires Normalized(h, raw).Some? && Concerns(Run(h, Normalized(h, raw).value, ops), u, t, g)
    ensures g.name in u.dynamicGroups <==> Selects(g.membershipRule, Run(h, Normalized(h, raw).value, ops), t, u)
  {
    hide Normalized, Settled, Run, Published, RuleMatches, R.ParseRule;
    EveryRunIsSettled(h, raw, ops);
    DynamicExactly(h, Run(h, Normalized(h, raw).value, ops), u, t, g);
  }

  /** The members of a direct-reports group are exactly the accounts whose manager is the account
      with that object id. */
  lemma ReportsAreMembers(h: Digest, raw: Config, ops: seq<Op>, u: User, t: Tenant, g: Group, oid: string)
    requires Normalized(h, raw).Some? && Concerns(Run(h, Normalized(h, raw).value, ops), u, t, g) && g.rule == Some(R.Reports(oid))
    ensures var c := Run(h, Normalized(h, raw).value, ops);
            g.name in u.dynamicGroups <==>
              u.manager != "" && exists m | m in c.users :: m.tid == u.tid && m.username == u.manager && m.oid == oid
  {
    hide Normalized, Run, Published, RuleMatches, R.ParseRule, PartsSettled, ManagersNamed, StaticsOk, DynamicsCurrent;
    EveryRunIsSettled(h, raw, ops);
    var c := Run(h, Normalized(h, raw).value, ops);
    DynamicExactly(h, c, u, t, g);
    TheTenant(h, c, u, t);
    NamesDistinct(h, c);
    ReportsMatch(oid, c, t, u);
  }

  lemma NamesDistinct(h: Digest, c: Config)
    requires PartsSettled(h, c)
    ensures DistinctNames(c.users)
  {
    hide RestSettled, UserSettled;
  }

  /** The members of a group with a single comparison are decided by the account's own fields. */
  lemma ComparedAreMembers(h: Digest, raw: Config, ops: seq<Op>, u: User, t: Tenant, g: Group, a: R.Comparison)
    requires Normalized(h, raw).Some? && Concerns(Run(h, Normalized(h, raw).value, ops), u, t, g)
    requires g.rule == Some(R.Boolean(Leaf(a)))
    ensures g.name in u.dynamicGroups <==>
              match a
              case Enabled(eq, state) => ((u.accountEnabled != Some(false)) == state) == eq
              case Compare(attr, op, value, values) => Compares(op, AttrValue(attr, t, u), value, values)
  {
    hide Normalized, Settled, Run, Published, R.ParseRule, AttrValue, Compares;
    EveryRunIsSettled(h, raw, ops);
    DynamicExactly(h, Run(h, Normalized(h, raw).value, ops), u, t, g);
  }
}
