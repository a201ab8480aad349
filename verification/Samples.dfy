/** Small concrete configurations, for inputs on which a documented property fails. */
module Samples {
  import opened Text
  import opened Directory
  import opened Normalize
  import opened Invariant

  /** The GUID written with one hexadecimal digit throughout. */
  function Guid(c: char): (r: string)
    ensures |r| == 36 && (IsHexDigit(c) ==> IsGuid(r))
  {
    seq(36, i => if i == 8 || i == 13 || i == 18 || i == 23 then '-' else c)
  }

  lemma GuidStays(c: char)
    requires IsHexDigit(c)
    ensures IsGuid(Guid(c)) && Lower(Guid(c)) == Guid(c) && Trim(Guid(c)) == Guid(c)
  {
    hide Guid, IsGuid, Lower, Trim;
    GuidIsCanonical(Guid(c));
  }

  /** One tenant that names its groups in claims by object id. */
  function SampleTenant(groups: seq<Group>): Tenant {
    Tenant(Guid('1'), "Contoso", ["contoso.example"], "object_id", 200, false, groups)
  }

  /** That tenant, the default Graph block, an hour's lifetime. */
  function Sample(groups: seq<Group>, users: seq<User>): Config {
    Config("entra", 200, 3600, false, Some(CanonGraph(None)), [SampleTenant(groups)], [], [], users)
  }

  function SampleGroup(name: string, oid: string): Group {
    Group(name, "", "", "", oid, None, None, "", None)
  }

  function Account(username: string, tid: string, oid: string, manager: string, groups: seq<string>): User {
    User(username, tid, oid, "n", "", groups, "", "", "x", None, [], manager, NO_ORG, NO_PROFILE, [])
  }

  lemma DefaultSegment()
    ensures GraphSegment(NO_GRAPH) == "graph"
  {
    hide Trim;
    TrimEmpty();
    assert TrimSlashes("") == "";
  }

  lemma GraphIsSegment()
    ensures PathSegment("graph") && PathSegment("entra")
  {
    assert SegmentChar('g') && SegmentChar('r') && SegmentChar('a') && SegmentChar('p') && SegmentChar('h');
    assert SegmentChar('e') && SegmentChar('n') && SegmentChar('t');
  }

  lemma GraphIsFree(g: string)
    requires g == Lower("graph")
    ensures g != "_entra" && g != "organizations" && g != "common" && g != "entra" && !IsGuid(g)
  {
    hide IsGuid;
    assert |g| == 5 && g[0] == 'g' && |"entra"| == 5 && "entra"[0] == 'e';
    ShortIsNoGuid(g);
  }

  lemma DefaultGraphOk()
    ensures GraphOk(None, "entra")
  {
    hide IsGuid, PathSegment, GraphSegment, Lower;
    DefaultSegment();
    GraphIsSegment();
    GraphIsFree(Lower("graph"));
  }

  lemma ShortIsNoGuid(s: string)
    requires |s| < 36
    ensures !IsGuid(s)
  {
  }

  lemma SampleHead(groups: seq<Group>, users: seq<User>)
    ensures HeadSettled(Sample(groups, users))
  {
    hide GraphOk, CanonGraph, PathSegment, SampleTenant;
    DefaultGraphOk();
    CanonGraphStable(None, "entra");
    GraphIsSegment();
  }

  lemma SampleCanon()
    ensures CanonTid(Guid('1')) == Guid('1') && IsGuid(Guid('1')) && Guid('1') != ""
  {
    hide Guid, IsGuid, Lower, Trim;
    GuidStays('1');
  }

  lemma SampleTenantOk(groups: seq<Group>)
    requires GroupsOk(groups) && CanonGroups(groups) == groups
    ensures TenantOk(SampleTenant(groups)) && CanonTenant(SampleTenant(groups), 200) == SampleTenant(groups)
  {
    hide GroupsOk, CanonGroups, Guid, CanonTid, IsGuid;
    SampleCanon();
  }

  /** The sample is what normalization leaves: valid and canonical, whoever its users are. */
  lemma SampleSettles(groups: seq<Group>, users: seq<User>)
    requires GroupsOk(groups) && CanonGroups(groups) == groups
    ensures RestSettled(Sample(groups, users)) && HasTid(Sample(groups, users).tenants, Guid('1')) && IsGuid(Guid('1'))
  {
    hide HeadSettled, TenantOk, CanonTenant, GroupsOk, CanonGroups, CanonGraph, AppOk, ConsentOk, SampleTenant, Guid;
    var c := Sample(groups, users);
    SampleHead(groups, users);
    SampleTenantOk(groups);
    assert c.tenants == [SampleTenant(groups)] && c.apps == [] && c.consents == [] && c.defaultGroupLimit == 200;
    SampleTid(groups);
    assert c.tenants[0].tid == Guid('1');
  }

  lemma SampleTid(groups: seq<Group>)
    ensures SampleTenant(groups).tid == Guid('1')
  {
  }

  lemma SampleFinds(groups: seq<Group>, users: seq<User>)
    ensures TenantOf(Sample(groups, users), Guid('1')) == Some(SampleTenant(groups))
  {
    hide Guid, IsGuid, Lower;
    SampleTid(groups);
    GuidStays('1');
  }

  lemma AccountSettled(h: Digest, ts: seq<Tenant>, username: string, tid: string, oid: string, manager: string, groups: seq<string>)
    requires username != "" && IsGuid(tid) && HasTid(ts, tid) && IsGuid(oid)
    ensures UserSettled(h, Account(username, tid, oid, manager, groups), ts)
  {
    var u := Account(username, tid, oid, manager, groups);
    GuidIsCanonical(tid);
    GuidIsCanonical(oid);
    assert Lower("x") == "x";
    assert CanonWids([]) == [];
    assert CanonUser(h, u) == u.(manager := Trim(manager));
  }

  lemma NoGroups()
    ensures GroupsOk([]) && CanonGroups([]) == []
  {
  }

  /** A declared group with a trimmed name, an id of its own and no rule is canonical. */
  lemma SampleGroupOk(name: string, oid: string)
    requires name != "" && Trim(name) == name && IsGuid(oid)
    ensures GroupOk(SampleGroup(name, oid)) && CanonGroup(SampleGroup(name, oid)) == SampleGroup(name, oid)
  {
    hide IsGuid, Lower, Trim;
    GuidIsCanonical(oid);
    TrimEmpty();
  }
}
