/** Group membership, read from a user, from a group and from a token claim. */
module Membership {
  import opened Text
  import opened Lists
  import opened Order
  import opened Directory
  import opened Normalize
  import opened Invariant
  import opened Edits
  import opened Samples

  // ----- names without duplicates -----

  /** The names in order, each at its first occurrence. */
  function Dedup(names: seq<string>): (r: seq<string>)
    ensures forall n :: n in r <==> n in names
    ensures forall i, j | 0 <= i < j < |r| :: r[i] != r[j]
  {
    if names == [] then []
    else
      var last := names[|names| - 1];
      assert names == names[..|names| - 1] + [last];
      var rest := Dedup(names[..|names| - 1]);
      if last in rest then rest else rest + [last]
  }

  lemma DedupNone()
    ensures Dedup([]) == []
  {
  }

  lemma DedupSnoc(names: seq<string>, n: string)
    ensures Dedup(names + [n]) == if n in names then Dedup(names) else Dedup(names) + [n]
  {
    assert (names + [n])[..|names|] == names;
  }

  /** Without the unnamed groups. */
  function Named(names: seq<string>): (r: seq<string>)
    ensures forall n :: n in r <==> n in names && n != ""
    ensures forall i, j | 0 <= i < j < |r| :: r[i] != r[j]
  {
    if names == [] then []
    else
      var last := names[|names| - 1];
      assert names == names[..|names| - 1] + [last];
      var rest := Named(names[..|names| - 1]);
      if last == "" || last in rest then rest else rest + [last]
  }

  lemma NamedSnoc(names: seq<string>, n: string)
    ensures Named(names + [n]) == if n == "" || n in Named(names) then Named(names) else Named(names) + [n]
  {
    assert (names + [n])[..|names|] == names;
  }

  /** The effective membership: static names, then dynamic ones. */
  function MemberGroups(u: User): (r: seq<string>)
    ensures forall n :: n in r <==> n in u.groups || n in u.dynamicGroups
  {
    if u.dynamicGroups == [] then u.groups else Dedup(u.groups + u.dynamicGroups)
  }

  lemma ByDedup(u: User)
    ensures MemberGroups(u) == if u.dynamicGroups == [] then u.groups else Dedup(u.groups + u.dynamicGroups)
  {
  }

  lemma PrefixNext(names: seq<string>, i: nat)
    requires i < |names|
    ensures names[..i + 1] == names[..i] + [names[i]]
    ensures forall n :: n in names[..i + 1] <==> n in names[..i] || n == names[i]
  {
  }

  method MemberNames(u: User) returns (out: seq<string>)
    ensures out == MemberGroups(u)
  {
    if u.dynamicGroups == [] {
      ByDedup(u);
      return u.groups;
    }
    hide Dedup, MemberGroups;
    ByDedup(u);
    out := [];
    DedupNone();
    var seen: set<string> := {};
    var lists := u.groups + u.dynamicGroups;
    for i := 0 to |lists|
      invariant out == Dedup(lists[..i]) && forall n :: n in seen <==> n in lists[..i]
    {
      PrefixNext(lists, i);
      DedupSnoc(lists[..i], lists[i]);
      if lists[i] !in seen {
        seen := seen + {lists[i]};
        out := out + [lists[i]];
      }
    }
    assert lists[..|lists|] == lists;
  }

  // ----- groups as the Graph surface shows them -----

  datatype DirGroup = DirGroup(
    oid: string, name: string, description: string, mailNickname: string, mail: string,
    securityEnabled: bool, mailEnabled: bool, membershipRule: string)

  function GroupObjectId(h: Digest, tid: string, name: string): (r: string)
    ensures IsGuid(r)
  {
    UuidV5(h, GroupIds, Lower(tid) + ":" + name)
  }

  function MailNickname(name: string): (r: string)
    ensures forall c | c in r :: 'a' <= c <= 'z' || '0' <= c <= '9'
  {
    if name == [] then []
    else
      var c := LowerChar(name[0]);
      (if 'a' <= c <= 'z' || '0' <= c <= '9' then [c] else []) + MailNickname(name[1..])
  }

  function Or<T>(x: Option<T>, otherwise: T): T {
    if x.Some? then x.value else otherwise
  }

  function DirGroupOf(h: Digest, t: Tenant, name: string): (g: DirGroup)
    ensures g.name == name
  {
    var oid := GroupObjectId(h, t.tid, name);
    match GroupMeta(t.groups, name)
    case None => DirGroup(oid, name, "", MailNickname(name), "", true, false, "")
    case Some(m) =>
      DirGroup(if m.oid != "" then m.oid else oid, name, m.description,
               if m.mailNickname != "" then m.mailNickname else MailNickname(name), m.mail,
               Or(m.securityEnabled, true), Or(m.mailEnabled, false), m.membershipRule)
  }

  /** A group nobody declared has an id derived from its name, is for security and not for mail. */
  lemma UndeclaredShows(h: Digest, t: Tenant, name: string)
    requires forall g | g in t.groups :: g.name != name
    ensures DirGroupOf(h, t, name) ==
              DirGroup(UuidV5(h, GroupIds, Lower(t.tid) + ":" + name), name, "", MailNickname(name), "", true, false, "")
  {
    hide UuidV5, MailNickname, Lower;
  }

  /** A declared one shows what it declares; the rest is as if it were not declared. */
  lemma DeclaredShows(h: Digest, t: Tenant, g: Group)
    requires g in t.groups && forall g' | g' in t.groups && g'.name == g.name :: g' == g
    ensures var d := DirGroupOf(h, t, g.name);
            && d.oid == (if g.oid != "" then g.oid else UuidV5(h, GroupIds, Lower(t.tid) + ":" + g.name))
            && d.name == g.name && d.description == g.description && d.mail == g.mail && d.membershipRule == g.membershipRule
            && d.mailNickname == (if g.mailNickname != "" then g.mailNickname else MailNickname(g.name))
            && d.securityEnabled == (g.securityEnabled != Some(false)) && d.mailEnabled == (g.mailEnabled == Some(true))
  {
    hide UuidV5, MailNickname, Lower;
  }

  function DirGroups(h: Digest, t: Tenant, names: seq<string>): (r: seq<DirGroup>)
    ensures |r| == |names| && forall i | 0 <= i < |r| :: r[i] == DirGroupOf(h, t, names[i])
  {
    seq(|names|, i requires 0 <= i < |names| => DirGroupOf(h, t, names[i]))
  }

  lemma DirGroupsSnoc(h: Digest, t: Tenant, names: seq<string>, n: string)
    ensures DirGroups(h, t, names + [n]) == DirGroups(h, t, names) + [DirGroupOf(h, t, n)]
  {
  }

  function Oid(g: DirGroup): string {
    g.oid
  }

  function UserOid(u: User): string {
    u.oid
  }

  /** Declared names first, then whatever the users are in. */
  function DeclaredNames(gs: seq<Group>): (r: seq<string>)
    ensures |r| == |gs| && forall i | 0 <= i < |gs| :: r[i] == gs[i].name
  {
    seq(|gs|, i requires 0 <= i < |gs| => gs[i].name)
  }

  function UsedNames(us: seq<User>): (r: seq<string>)
    ensures forall n :: n in r <==> exists u | u in us :: n in MemberGroups(u)
  {
    if us == [] then []
    else
      assert us == us[..|us| - 1] + [us[|us| - 1]];
      UsedNames(us[..|us| - 1]) + MemberGroups(us[|us| - 1])
  }

  function NamesIn(c: Config, t: Tenant): seq<string> {
    Named(DeclaredNames(t.groups) + UsedNames(UsersIn(c, t.tid)))
  }

  ghost predicate IsGroupsIn(h: Digest, c: Config, tid: string, gs: seq<DirGroup>) {
    var t := TenantOf(c, tid);
    if t.None? then gs == [] else SortOf(gs, DirGroups(h, t.value, NamesIn(c, t.value)), Oid)
  }

  ghost predicate IsGroupsOf(h: Digest, c: Config, u: User, gs: seq<DirGroup>) {
    var t := TenantOf(c, u.tid);
    if t.None? then gs == [] else SortOf(gs, DirGroups(h, t.value, Named(MemberGroups(u))), Oid)
  }

  /** The add step of GroupsIn and GroupsOf. */
  method Add(h: Digest, t: Tenant, seen: set<string>, out: seq<DirGroup>, name: string, ghost names: seq<string>)
    returns (seen': set<string>, out': seq<DirGroup>)
    requires out == DirGroups(h, t, Named(names)) && forall n :: n in seen <==> n in Named(names)
    ensures out' == DirGroups(h, t, Named(names + [name])) && forall n :: n in seen' <==> n in Named(names + [name])
  {
    hide DirGroupOf;
    seen', out' := seen, out;
    NamedSnoc(names, name);
    DirGroupsSnoc(h, t, Named(names), name);
    if name == "" || name in seen {
      return;
    }
    seen', out' := seen + {name}, out + [DirGroupOf(h, t, name)];
  }

  method GroupsIn(h: Digest, c: Config, tid: string) returns (gs: seq<DirGroup>)
    ensures IsGroupsIn(h, c, tid, gs)
  {
    hide Named, DirGroups, UsedNames, DeclaredNames, MemberGroups, TenantOf, UsersIn, SortOf;
    var found := TenantOf(c, tid);
    if found.None? {
      return [];
    }
    var t := found.value;
    var seen: set<string>, out := {}, [];
    ghost var names := [];
    NoNames(h, t);
    for i := 0 to |t.groups|
      invariant names == DeclaredNames(t.groups)[..i]
      invariant out == DirGroups(h, t, Named(names)) && forall n :: n in seen <==> n in Named(names)
    {
      seen, out := Add(h, t, seen, out, t.groups[i].name, names);
      names := names + [t.groups[i].name];
    }
    ghost var declared := DeclaredNames(t.groups);
    var us := UsersIn(c, t.tid);
    UsedNone(us);
    for i := 0 to |us|
      invariant names == declared + UsedNames(us[..i])
      invariant out == DirGroups(h, t, Named(names)) && forall n :: n in seen <==> n in Named(names)
    {
      var member := MemberNames(us[i]);
      for j := 0 to |member|
        invariant names == declared + UsedNames(us[..i]) + member[..j]
        invariant out == DirGroups(h, t, Named(names)) && forall n :: n in seen <==> n in Named(names)
      {
        seen, out := Add(h, t, seen, out, member[j], names);
        names := names + [member[j]];
      }
      UsedSnoc(us, i);
    }
    assert us[..|us|] == us;
    return SortBy(out, Oid);
  }

  lemma NoNames(h: Digest, t: Tenant)
    ensures Named([]) == [] && DirGroups(h, t, []) == []
  {
  }

  lemma UsedNone(us: seq<User>)
    ensures UsedNames(us[..0]) == []
  {
  }

  lemma UsedSnoc(us: seq<User>, i: nat)
    requires i < |us|
    ensures UsedNames(us[..i + 1]) == UsedNames(us[..i]) + MemberGroups(us[i])
  {
    assert us[..i + 1][..i] == us[..i];
  }

  method GroupsOf(h: Digest, c: Config, u: User) returns (gs: seq<DirGroup>)
    ensures IsGroupsOf(h, c, u, gs)
  {
    hide Named, DirGroups, MemberGroups, TenantOf, SortOf;
    var found := TenantOf(c, u.tid);
    if found.None? {
      return [];
    }
    var t := found.value;
    var seen: set<string>, out := {}, [];
    var member := MemberNames(u);
    NoNames(h, t);
    for j := 0 to |member|
      invariant out == DirGroups(h, t, Named(member[..j])) && forall n :: n in seen <==> n in Named(member[..j])
    {
      seen, out := Add(h, t, seen, out, member[j], member[..j]);
      assert member[..j + 1] == member[..j] + [member[j]];
    }
    assert member[..|member|] == member;
    return SortBy(out, Oid);
  }

  // ----- looking a group up -----

  predicate Answers(g: DirGroup, id: string) {
    Lower(g.oid) == Lower(id) || g.name == id
  }

  function FirstAnswering(gs: seq<DirGroup>, id: string): (r: Option<DirGroup>)
    ensures r.Some? ==> r.value in gs && Answers(r.value, id)
  {
    if gs == [] then None else if Answers(gs[0], id) then Some(gs[0]) else FirstAnswering(gs[1..], id)
  }

  /** By object id or display name, in object-id order. */
  function GroupById(gs: seq<DirGroup>, id: string): (r: Option<DirGroup>)
    ensures r.Some? ==> r.value in gs && Answers(r.value, Trim(id))
  {
    if Trim(id) == "" then None else FirstAnswering(gs, Trim(id))
  }

  lemma {:induction false} FirstAt(gs: seq<DirGroup>, id: string, k: nat)
    requires k < |gs| && Answers(gs[k], id)
    requires forall i, j | 0 <= i < j < |gs| :: gs[i] != gs[j]
    ensures FirstAnswering(gs, id) == Some(gs[k]) <==> forall j | 0 <= j < k :: !Answers(gs[j], id)
  {
    if k > 0 {
      if Answers(gs[0], id) {
        assert gs[0] != gs[k];
      } else {
        FirstAt(gs[1..], id, k - 1);
        assert forall j | 0 <= j < k - 1 :: gs[1..][j] == gs[j + 1];
        assert gs[1..][k - 1] == gs[k];
      }
    }
  }

  /** The users of a tenant in a group, ordered by object id. */
  ghost predicate IsMembersOf(c: Config, tid: string, gs: seq<DirGroup>, id: string, us: seq<User>) {
    match GroupById(gs, id)
    case None => us == []
    case Some(g) => SortOf(us, Keep(UsersIn(c, tid), (u: User) => g.name in MemberGroups(u)), UserOid)
  }

  method IsMember(u: User, name: string) returns (found: bool)
    ensures found == (name in MemberGroups(u))
  {
    hide MemberGroups;
    var member := MemberNames(u);
    for j := 0 to |member|
      invariant name !in member[..j]
    {
      if member[j] == name {
        return true;
      }
      assert member[..j + 1] == member[..j] + [member[j]];
    }
    assert member[..|member|] == member;
    return false;
  }

  method MembersOf(h: Digest, c: Config, tid: string, id: string) returns (us: seq<User>)
    ensures exists gs :: IsGroupsIn(h, c, tid, gs) && IsMembersOf(c, tid, gs, id, us)
  {
    hide GroupById, IsGroupsIn, SortOf, UsersIn, MemberGroups;
    var groups := GroupsIn(h, c, tid);
    var g := GroupById(groups, id);
    if g.None? {
      return [];
    }
    var all := UsersIn(c, tid);
    ghost var p := (u: User) => g.value.name in MemberGroups(u);
    us := [];
    for i := 0 to |all|
      invariant us == Keep(all[..i], p)
    {
      KeepStep(all, i, p);
      var member := IsMember(all[i], g.value.name);
      if member {
        us := us + [all[i]];
      }
    }
    assert all[..|all|] == all;
    us := SortBy(us, UserOid);
  }

  // ----- the three views agree -----

  /** The user is configured, in tenant t, whose id is the canonical one. */
  ghost predicate Housed(c: Config, u: User, t: Tenant) {
    u in c.users && TenantOf(c, u.tid) == Some(t) && t.tid == u.tid == Lower(u.tid)
  }

  /** Every group id, declared or derived, is a lowercase GUID. */
  ghost predicate GuidOids(h: Digest, t: Tenant) {
    forall name :: IsGuid(DirGroupOf(h, t, name).oid)
  }

  /** In every published configuration users are housed and group ids are GUIDs. */
  lemma SettledHouses(h: Digest, c: Config, u: User) returns (t: Tenant)
    requires PartsSettled(h, c) && u in c.users
    ensures Housed(c, u, t) && GuidOids(h, t)
  {
    hide HeadSettled, AppOk, ConsentOk, UserSettled, DistinctUsers, GuidOids, TenantOk, CanonTenant, DistinctTids, TenantOf;
    TenantOfUser(h, c, u);
    t := TenantOf(c, u.tid).value;
    InTenants(c, u.tid);
    var j :| 0 <= j < |c.tenants| && c.tenants[j] == t;
    TenantGuidOids(h, t, c.defaultGroupLimit);
  }

  lemma InTenants(c: Config, tid: string)
    ensures TenantOf(c, tid).Some? ==> TenantOf(c, tid).value in c.tenants
  {
  }

  lemma TenantGuidOids(h: Digest, t: Tenant, limit: int)
    requires TenantOk(t) && CanonTenant(t, limit) == t
    ensures GuidOids(h, t)
  {
    hide GroupOk, CanonGroups, DirGroupOf, DistinctGroups, IsGuid, Lower, Trim;
    forall name
      ensures IsGuid(DirGroupOf(h, t, name).oid)
    {
      DeclaredOid(h, t, name);
    }
  }

  lemma DeclaredOid(h: Digest, t: Tenant, name: string)
    requires (forall i | 0 <= i < |t.groups| :: GroupOk(t.groups[i])) && CanonGroups(t.groups) == t.groups
    ensures IsGuid(DirGroupOf(h, t, name).oid)
  {
    hide IsGuid, UuidV5, R.ParseRule;
    var m := GroupMeta(t.groups, name);
    if m.Some? && m.value.oid != "" {
      var i :| 0 <= i < |t.groups| && t.groups[i] == m.value;
      assert GroupOk(t.groups[i]) && CanonGroup(t.groups[i]) == CanonGroups(t.groups)[i];
    }
  }

  lemma HousedIn(c: Config, u: User, t: Tenant)
    requires Housed(c, u, t)
    ensures u in UsersIn(c, u.tid) && u in UsersIn(c, t.tid)
  {
  }

  lemma DirGroupsIn(h: Digest, t: Tenant, names: seq<string>, g: DirGroup)
    ensures g in DirGroups(h, t, names) <==> g.name in names && g == DirGroupOf(h, t, g.name)
  {
    hide DirGroupOf;
    var gs := DirGroups(h, t, names);
    if g.name in names && g == DirGroupOf(h, t, g.name) {
      var i :| 0 <= i < |names| && names[i] == g.name;
      assert gs[i] == g;
    }
  }

  /** A listing holds each group once: names differ. */
  lemma ListedOnce(h: Digest, t: Tenant, names: seq<string>, gs: seq<DirGroup>)
    requires SortOf(gs, DirGroups(h, t, names), Oid) && forall i, j | 0 <= i < j < |names| :: names[i] != names[j]
    ensures forall i, j | 0 <= i < j < |gs| :: gs[i] != gs[j] && gs[i].name != gs[j].name
  {
    hide DirGroupOf, Sorted;
    DistinctStay(gs, DirGroups(h, t, names), (g: DirGroup) => g.name);
  }

  /** The groups of a user are exactly the tenant's groups whose name is among the user's
      memberships: each once, in object-id order. */
  lemma GroupsOfIsSublist(h: Digest, c: Config, u: User, t: Tenant, gs: seq<DirGroup>, all: seq<DirGroup>)
    requires Housed(c, u, t) && IsGroupsOf(h, c, u, gs) && IsGroupsIn(h, c, u.tid, all)
    ensures forall g :: g in gs <==> g in all && g.name in MemberGroups(u)
    ensures Sorted(gs, Oid) && forall i, j | 0 <= i < j < |gs| :: gs[i] != gs[j] && gs[i].name != gs[j].name
    ensures Sorted(all, Oid) && forall i, j | 0 <= i < j < |all| :: all[i] != all[j] && all[i].name != all[j].name
  {
    hide MemberGroups, TenantOf, UsersIn, DirGroups, DirGroupOf;
    HousedIn(c, u, t);
    ListedOnce(h, t, Named(MemberGroups(u)), gs);
    ListedOnce(h, t, NamesIn(c, t), all);
    SortKeeps(gs, DirGroups(h, t, Named(MemberGroups(u))), Oid);
    SortKeeps(all, DirGroups(h, t, NamesIn(c, t)), Oid);
    forall g: DirGroup
      ensures g in gs <==> g in all && g.name in MemberGroups(u)
    {
      DirGroupsIn(h, t, Named(MemberGroups(u)), g);
      DirGroupsIn(h, t, NamesIn(c, t), g);
      UsedBy(c, t, u, g.name);
    }
  }

  /** What a user is in is listed, once it has a name. */
  lemma UsedBy(c: Config, t: Tenant, u: User, name: string)
    requires u in UsersIn(c, t.tid)
    ensures name in MemberGroups(u) && name != "" ==> name in NamesIn(c, t)
  {
    hide MemberGroups, UsersIn;
  }

  /** Whatever key the group was found under, its members are exactly the users whose own groups
      include it. */
  lemma MembersMatchGroups(h: Digest, c: Config, u: User, t: Tenant, all: seq<DirGroup>, id: string, us: seq<User>, gs: seq<DirGroup>)
    requires Housed(c, u, t) && IsGroupsIn(h, c, u.tid, all)
    requires IsMembersOf(c, u.tid, all, id, us) && IsGroupsOf(h, c, u, gs)
    ensures u in us <==> GroupById(all, id).Some? && GroupById(all, id).value in gs
    ensures Sorted(us, UserOid) && forall v | v in us :: v in UsersIn(c, u.tid)
  {
    hide MemberGroups, TenantOf, UsersIn, IsGroupsIn, IsGroupsOf, GroupById;
    HousedIn(c, u, t);
    GroupsOfIsSublist(h, c, u, t, gs, all);
    var g := GroupById(all, id);
    if g.Some? {
      var p := (v: User) => g.value.name in MemberGroups(v);
      KeepIn(UsersIn(c, u.tid), p);
      SortKeeps(us, Keep(UsersIn(c, u.tid), p), UserOid);
    }
  }

  /** Every group is reached by its own object id exactly when no group listed before it has the
      same id or is named like it. */
  lemma IdsReachTheirGroups(h: Digest, c: Config, t: Tenant, tid: string, all: seq<DirGroup>)
    requires TenantOf(c, tid) == Some(t) && GuidOids(h, t) && IsGroupsIn(h, c, tid, all)
    ensures (forall k | 0 <= k < |all| :: GroupById(all, all[k].oid) == Some(all[k])) <==>
            (forall j, k | 0 <= j < k < |all| :: all[j].oid != all[k].oid && all[j].name != all[k].oid)
  {
    hide TenantOf, UsersIn, GroupById, IsGroupsIn, GuidOids, Answering;
    IsListedOnce(h, c, t, tid, all);
    forall k | 0 <= k < |all|
      ensures GroupById(all, all[k].oid) == Some(all[k]) <==> forall j | 0 <= j < k :: all[j].oid != all[k].oid && all[j].name != all[k].oid
    {
      AnswersFor(h, c, t, tid, all, k);
    }
  }

  lemma IsListedOnce(h: Digest, c: Config, t: Tenant, tid: string, all: seq<DirGroup>)
    requires TenantOf(c, tid) == Some(t) && IsGroupsIn(h, c, tid, all)
    ensures forall i, j | 0 <= i < j < |all| :: all[i] != all[j]
  {
    hide TenantOf, DirGroups, Named, UsersIn;
    ListedOnce(h, t, NamesIn(c, t), all);
  }

  /** The place of the group that answers for the id of the k-th one: itself, or one listed before. */
  function Answering(all: seq<DirGroup>, k: nat): (a: nat)
    requires k < |all|
    ensures a <= k && (all[a].oid == all[k].oid || all[a].name == all[k].oid)
    ensures forall j | 0 <= j < a :: all[j].oid != all[k].oid && all[j].name != all[k].oid
  {
    AnsweringFrom(all, k, 0)
  }

  function AnsweringFrom(all: seq<DirGroup>, k: nat, from: nat): (a: nat)
    requires from <= k < |all|
    ensures from <= a <= k && (all[a].oid == all[k].oid || all[a].name == all[k].oid)
    ensures forall j | from <= j < a :: all[j].oid != all[k].oid && all[j].name != all[k].oid
    decreases k - from
  {
    if all[from].oid == all[k].oid || all[from].name == all[k].oid then from else AnsweringFrom(all, k, from + 1)
  }

  lemma AnswersFor(h: Digest, c: Config, t: Tenant, tid: string, all: seq<DirGroup>, k: nat)
    requires TenantOf(c, tid) == Some(t) && GuidOids(h, t) && IsGroupsIn(h, c, tid, all) && k < |all|
    ensures GroupById(all, all[k].oid) == Some(all[Answering(all, k)])
  {
    hide TenantOf, DirGroups, DirGroupOf, IsGuid, Named, Less, Lower, Trim, UsersIn;
    var a := Answering(all, k);
    ListedOnce(h, t, NamesIn(c, t), all);
    forall j | 0 <= j <= k
      ensures Lower(all[j].oid) == all[j].oid && Trim(all[j].oid) == all[j].oid && all[j].oid != ""
    {
      ListedIsGuid(h, c, t, tid, all, j);
    }
    assert forall j | 0 <= j <= k :: Answers(all[j], all[k].oid) <==> all[j].oid == all[k].oid || all[j].name == all[k].oid;
    FirstAt(all, all[k].oid, a);
  }

  lemma ListedIsGuid(h: Digest, c: Config, t: Tenant, tid: string, all: seq<DirGroup>, k: nat)
    requires TenantOf(c, tid) == Some(t) && GuidOids(h, t) && IsGroupsIn(h, c, tid, all) && k < |all|
    ensures Lower(all[k].oid) == all[k].oid && Trim(all[k].oid) == all[k].oid && all[k].oid != ""
  {
    hide TenantOf, DirGroups, DirGroupOf, IsGuid, Named, Less, Lower, Trim, UsersIn;
    SortKeeps(all, DirGroups(h, t, NamesIn(c, t)), Oid);
    assert all[k] in all;
    DirGroupsIn(h, t, NamesIn(c, t), all[k]);
    assert IsGuid(DirGroupOf(h, t, all[k].name).oid);
    GuidIsCanonical(all[k].oid);
  }

  /** Asked for by a group's own id, the members hold the user exactly when the user's groups hold
      the group, if and only if the group that answers for the id has the same say about the user.
      It is the group itself unless one listed before it has the id, or is named like it. */
  lemma MembersByOidExactly(h: Digest, c: Config, u: User, t: Tenant, all: seq<DirGroup>, k: nat, us: seq<User>, gs: seq<DirGroup>)
    requires Housed(c, u, t) && GuidOids(h, t) && IsGroupsIn(h, c, u.tid, all) && k < |all|
    requires IsMembersOf(c, u.tid, all, all[k].oid, us) && IsGroupsOf(h, c, u, gs)
    ensures var a := Answering(all, k);
            && ((u in us <==> all[k] in gs) <==> (all[a].name in MemberGroups(u) <==> all[k].name in MemberGroups(u)))
            && (a == k <==> forall j | 0 <= j < k :: all[j].oid != all[k].oid && all[j].name != all[k].oid)
  {
    hide MemberGroups, TenantOf, UsersIn, IsGroupsIn, IsGroupsOf, IsMembersOf, GroupById, GuidOids, Answering;
    AnswersFor(h, c, t, u.tid, all, k);
    MembersMatchGroups(h, c, u, t, all, all[k].oid, us, gs);
    GroupsOfIsSublist(h, c, u, t, gs, all);
  }

  // ----- the token claim -----

  datatype GroupsClaim = NoClaim | Overage | Listed(vals: seq<string>)

  /** addGroups: names or derived object ids, or the overage markers. */
  function GroupsClaimOf(h: Digest, t: Tenant, u: User): GroupsClaim {
    var names := MemberGroups(u);
    if names == [] then NoClaim
    else if |names| > t.groupLimit then Overage
    else Listed(seq(|names|, i requires 0 <= i < |names| =>
      if t.groupClaimFormat == "object_id" then GroupObjectId(h, t.tid, names[i]) else names[i]))
  }

  method AddGroups(h: Digest, t: Tenant, u: User) returns (claim: GroupsClaim)
    ensures claim == GroupsClaimOf(h, t, u)
    ensures claim == NoClaim <==> MemberGroups(u) == []
    ensures claim == Overage <==> MemberGroups(u) != [] && |MemberGroups(u)| > t.groupLimit
    ensures claim.Listed? && t.groupClaimFormat == "name" ==> claim.vals == MemberGroups(u)
    ensures claim.Listed? && t.groupClaimFormat == "object_id" ==>
              |claim.vals| == |MemberGroups(u)|
              && forall i | 0 <= i < |claim.vals| :: claim.vals[i] == GroupObjectId(h, t.tid, MemberGroups(u)[i])
  {
    hide MemberGroups, GroupObjectId;
    ClaimSpelledOut(h, t, u);
    var names := MemberNames(u);
    if names == [] {
      return NoClaim;
    }
    if |names| > t.groupLimit {
      return Overage;
    }
    var vals := [];
    for i := 0 to |names|
      invariant |vals| == i
      invariant forall j | 0 <= j < i :: vals[j] == if t.groupClaimFormat == "object_id" then GroupObjectId(h, t.tid, names[j]) else names[j]
    {
      vals := vals + [if t.groupClaimFormat == "object_id" then GroupObjectId(h, t.tid, names[i]) else names[i]];
    }
    return Listed(vals);
  }

  /** No groups, no claim; more than the limit, the overage markers; otherwise the names, or their
      derived ids, in the order of the memberships. */
  lemma ClaimSpelledOut(h: Digest, t: Tenant, u: User)
    ensures var claim := GroupsClaimOf(h, t, u); var names := MemberGroups(u);
            && (claim == NoClaim <==> names == []) && (claim == Overage <==> names != [] && |names| > t.groupLimit)
            && (claim.Listed? && t.groupClaimFormat == "name" ==> claim.vals == names)
            && (claim.Listed? && t.groupClaimFormat == "object_id" ==>
                  |claim.vals| == |names| && forall i | 0 <= i < |names| :: claim.vals[i] == GroupObjectId(h, t.tid, names[i]))
  {
    hide MemberGroups, GroupObjectId;
    assert "name" != "object_id";
  }

  /** getMemberObjects. */
  function MemberObjects(gs: seq<DirGroup>): (r: seq<string>)
    ensures |r| == |gs| && forall i | 0 <= i < |gs| :: r[i] == gs[i].oid
  {
    seq(|gs|, i requires 0 <= i < |gs| => gs[i].oid)
  }

  /** No two of the user's groups derive the same id, and no declared id is another's derived one. */
  ghost predicate NoCollision(h: Digest, t: Tenant, names: seq<string>) {
    forall m, n | m in names && n in names && m != n ::
      GroupObjectId(h, t.tid, m) != GroupObjectId(h, t.tid, n) && DirGroupOf(h, t, m).oid != GroupObjectId(h, t.tid, n)
  }

  /** Below the limit, the object-id claim lists the ids getMemberObjects answers exactly when
      every membership has a name and no group of the user declares an id of its own. */
  lemma ClaimMatchesMemberObjects(h: Digest, c: Config, u: User, t: Tenant, gs: seq<DirGroup>)
    requires TenantOf(c, u.tid) == Some(t) && IsGroupsOf(h, c, u, gs) && NoCollision(h, t, MemberGroups(u))
    requires t.groupClaimFormat == "object_id" && GroupsClaimOf(h, t, u).Listed?
    ensures (forall id :: id in GroupsClaimOf(h, t, u).vals <==> id in MemberObjects(gs)) <==>
            (forall n | n in MemberGroups(u) :: n != "" && DirGroupOf(h, t, n).oid == GroupObjectId(h, t.tid, n))
  {
    hide MemberGroups, TenantOf, GroupObjectId, DirGroupOf, Named;
    var names := MemberGroups(u);
    var vals, ids := GroupsClaimOf(h, t, u).vals, MemberObjects(gs);
    if forall id :: id in vals <==> id in ids {
      forall n | n in names
        ensures n != "" && DirGroupOf(h, t, n).oid == GroupObjectId(h, t.tid, n)
      {
        assert ClaimedAs(h, t, u, n) in vals;
        var m := ListedUnder(h, t, u, gs, GroupObjectId(h, t.tid, n));
      }
    }
    if forall n | n in names :: n != "" && DirGroupOf(h, t, n).oid == GroupObjectId(h, t.tid, n) {
      forall id
        ensures id in vals <==> id in ids
      {
        if id in vals {
          var k :| 0 <= k < |vals| && vals[k] == id;
          MemberListed(h, t, u, gs, names[k]);
        }
        if id in ids {
          var m := ListedUnder(h, t, u, gs, id);
          assert ClaimedAs(h, t, u, m) in vals;
        }
      }
    }
  }

  function ClaimedAs(h: Digest, t: Tenant, u: User, n: string): (id: string)
    requires n in MemberGroups(u) && t.groupClaimFormat == "object_id" && GroupsClaimOf(h, t, u).Listed?
    ensures id == GroupObjectId(h, t.tid, n) && id in GroupsClaimOf(h, t, u).vals
  {
    var names := MemberGroups(u);
    assert exists i | 0 <= i < |names| :: names[i] == n && GroupsClaimOf(h, t, u).vals[i] == GroupObjectId(h, t.tid, n);
    GroupObjectId(h, t.tid, n)
  }

  lemma ListedUnder(h: Digest, t: Tenant, u: User, gs: seq<DirGroup>, id: string) returns (m: string)
    requires SortOf(gs, DirGroups(h, t, Named(MemberGroups(u))), Oid) && id in MemberObjects(gs)
    ensures m in MemberGroups(u) && m != "" && DirGroupOf(h, t, m).oid == id
  {
    hide DirGroupOf, MemberGroups;
    var k :| 0 <= k < |gs| && gs[k].oid == id;
    SortKeeps(gs, DirGroups(h, t, Named(MemberGroups(u))), Oid);
    assert gs[k] in gs;
    DirGroupsIn(h, t, Named(MemberGroups(u)), gs[k]);
    m := gs[k].name;
  }

  lemma MemberListed(h: Digest, t: Tenant, u: User, gs: seq<DirGroup>, n: string)
    requires SortOf(gs, DirGroups(h, t, Named(MemberGroups(u))), Oid) && n in MemberGroups(u) && n != ""
    ensures DirGroupOf(h, t, n).oid in MemberObjects(gs)
  {
    hide DirGroupOf, MemberGroups;
    var g := DirGroupOf(h, t, n);
    DirGroupsIn(h, t, Named(MemberGroups(u)), g);
    SortKeeps(gs, DirGroups(h, t, Named(MemberGroups(u))), Oid);
    var k :| 0 <= k < |gs| && gs[k] == g;
    assert MemberObjects(gs)[k] == g.oid;
  }

  // ----- inputs where the views differ -----

  /** A group "g" that declares an id of its own, and its only member. */
  function OwnIdGroups(): seq<Group> {
    [SampleGroup("g", Guid('a'))]
  }

  function Member(): User {
    Account("u", Guid('1'), Guid('b'), "", ["g"])
  }

  lemma OwnIdSettles(h: Digest)
    ensures PartsSettled(h, Sample(OwnIdGroups(), [Member()]))
  {
    hide RestSettled, UserSettled, Guid, IsGuid, GroupOk, CanonGroup, Trim, SampleGroup, Account, SampleTenant;
    var gs := OwnIdGroups();
    GuidStays('a');
    GuidStays('b');
    GuidStays('1');
    TrimEnds("g");
    SampleGroupOk("g", Guid('a'));
    assert CanonGroups(gs) == gs;
    SampleSettles(gs, [Member()]);
    AccountSettled(h, Sample(gs, [Member()]).tenants, "u", Guid('1'), Guid('b'), "", ["g"]);
  }

  /** The claim lists the derived id, getMemberObjects the declared one. */
  lemma OwnIdShows(h: Digest, gs: seq<DirGroup>)
    requires IsGroupsOf(h, Sample(OwnIdGroups(), [Member()]), Member(), gs)
    ensures PartsSettled(h, Sample(OwnIdGroups(), [Member()])) && MemberObjects(gs) == [Guid('a')]
    ensures GroupsClaimOf(h, SampleTenant(OwnIdGroups()), Member()) == Listed([GroupObjectId(h, Guid('1'), "g")])
    ensures GroupObjectId(h, Guid('1'), "g") != Guid('a')
  {
    hide Guid, TenantOf, GroupObjectId, DirGroupOf, Named, Sample, Sorted, PartsSettled;
    OwnIdSettles(h);
    var t := SampleTenant(OwnIdGroups());
    SampleFinds(OwnIdGroups(), [Member()]);
    SampleTid(OwnIdGroups());
    DerivedDiffers(h, Guid('1'), "g");
    OnlyNamed("g");
    DeclaredGroup(h, t);
    SortKeeps(gs, DirGroups(h, t, ["g"]), Oid);
    assert MemberGroups(Member()) == ["g"] && Member().tid == Guid('1');
    assert gs[0] in gs && gs[0] in DirGroups(h, t, ["g"]);
    assert MemberObjects(gs) == [gs[0].oid];
  }

  lemma DeclaredGroup(h: Digest, t: Tenant)
    requires t == SampleTenant(OwnIdGroups())
    ensures DirGroupOf(h, t, "g").oid == Guid('a')
  {
    hide Guid, GroupObjectId, MailNickname;
    assert OwnIdGroups()[0].name == "g" && |Guid('a')| == 36;
  }

  lemma OnlyNamed(n: string)
    requires n != ""
    ensures Named([n]) == [n]
  {
    assert [n][..0] == [] && Named([]) == [];
  }

  lemma DerivedDiffers(h: Digest, tid: string, name: string)
    ensures GroupObjectId(h, tid, name) != Guid('a')
  {
    hide UuidV5;
    assert GroupObjectId(h, tid, name)[14] == '5' && Guid('a')[14] == 'a';
  }

  /** One group named like another's id, and listed before it. */
  function NamedLikeId(): seq<Group> {
    [SampleGroup(Guid('b'), Guid('a')), SampleGroup("g", Guid('b'))]
  }

  lemma LikeIdListed(h: Digest)
    ensures var t := SampleTenant(NamedLikeId());
            IsGroupsIn(h, Sample(NamedLikeId(), []), Guid('1'), [DirGroupOf(h, t, Guid('b')), DirGroupOf(h, t, "g")])
  {
    hide Guid, TenantOf, DirGroupOf, Less;
    var t := SampleTenant(NamedLikeId());
    SampleFinds(NamedLikeId(), []);
    LikeIdNames();
    LikeIdFields(h);
    LikeIdOrder();
    assert DirGroups(h, t, [Guid('b'), "g"]) == [DirGroupOf(h, t, Guid('b')), DirGroupOf(h, t, "g")];
  }

  /** Looked up by its own id, the second group is answered for by the first. */
  lemma NameAnswersForId(h: Digest)
    ensures var t := SampleTenant(NamedLikeId());
            var all := [DirGroupOf(h, t, Guid('b')), DirGroupOf(h, t, "g")];
            && IsGroupsIn(h, Sample(NamedLikeId(), []), Guid('1'), all)
            && all[1].oid == Guid('b') && GroupById(all, Guid('b')) == Some(all[0]) && all[0] != all[1]
  {
    hide Guid, IsGroupsIn, DirGroupOf, Sample, SampleTenant, NamedLikeId, IsGuid, Trim, Lower;
    LikeIdListed(h);
    LikeIdFields(h);
    GuidStays('b');
    LongerName(Guid('b'), "g");
  }

  lemma TwoNamed(a: string, b: string)
    requires a != "" && b != "" && a != b
    ensures Named([a, b]) == [a, b]
  {
    OnlyNamed(a);
    NamedSnoc([a], b);
    assert [a] + [b] == [a, b];
  }

  lemma LikeIdNames()
    ensures NamesIn(Sample(NamedLikeId(), []), SampleTenant(NamedLikeId())) == [Guid('b'), "g"]
  {
    hide Guid, Named, DeclaredNames, UsedNames, UsersIn, NamedLikeId;
    var gs := NamedLikeId();
    DeclaredLikeId();
    NobodyUses(Sample(gs, []), SampleTenant(gs));
    assert DeclaredNames(gs) + [] == DeclaredNames(gs);
    LongerName(Guid('b'), "g");
    TwoNamed(Guid('b'), "g");
  }

  lemma LongerName(a: string, b: string)
    requires |a| == 36 && |b| == 1
    ensures a != b && a != "" && b != ""
  {
  }

  lemma DeclaredLikeId()
    ensures DeclaredNames(NamedLikeId()) == [Guid('b'), "g"]
  {
    hide Guid;
  }

  lemma NobodyUses(c: Config, t: Tenant)
    requires c.users == []
    ensures UsedNames(UsersIn(c, t.tid)) == []
  {
  }

  lemma LikeIdFields(h: Digest)
    ensures var t := SampleTenant(NamedLikeId());
            DirGroupOf(h, t, Guid('b')).oid == Guid('a') && DirGroupOf(h, t, "g").oid == Guid('b')
  {
    hide Guid, GroupObjectId, MailNickname;
    LongerName(Guid('b'), "g");
    var gs := NamedLikeId();
    assert |Guid('a')| == 36 && gs[0].name == Guid('b') && gs[1].name == "g" && gs[1..][0] == gs[1];
  }

  lemma LikeIdOrder()
    ensures !Less(Guid('b'), Guid('a'))
  {
    assert Guid('a')[0] == 'a' && Guid('b')[0] == 'b';
  }
}
