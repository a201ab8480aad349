/** Deletions over whole runs, and what goes wrong with blank-padded usernames. */
module Runs {
  import opened Text
  import opened Lists
  import opened Directory
  import opened Normalize
  import opened Invariant
  import opened Edits
  import opened Deletion
  import opened TenantDeletion
  import opened Samples

  /** The edit introduces no username with surrounding blanks. */
  predicate TrimmedOp(op: Op) {
    op.Mutate? && op.edit.CreateUser? ==> Trim(op.edit.u.username) == op.edit.u.username
  }

  lemma {:induction false} ReplacedMembers<T>(xs: seq<T>, p: T -> bool, x: T)
    requires ReplaceFirst(xs, p, x).Some?
    ensures exists y | y in xs :: p(y)
    ensures forall z | z in ReplaceFirst(xs, p, x).value :: z == x || z in xs
  {
    if !p(xs[0]) {
      ReplacedMembers(xs[1..], p, x);
    }
  }

  predicate AllTrimmed(us: seq<User>) {
    forall u | u in us :: Trim(u.username) == u.username
  }

  lemma NormalizedUsernames(h: Digest, c: Config)
    requires Normalized(h, c).Some? && AllTrimmed(c.users)
    ensures AllTrimmed(Normalized(h, c).value.users)
  {
    hide PartsOk, ManagerOk, StaticOk, Membership, Resolved;
    var d := Normalized(h, c).value;
    forall u | u in d.users
      ensures Trim(u.username) == u.username
    {
      var i :| 0 <= i < |d.users| && d.users[i] == u;
      assert u.username == c.users[i].username && c.users[i] in c.users;
    }
  }

  lemma UpdatedUsernames(us: seq<User>, tid: string, username: string, u: User)
    requires AllTrimmed(us) && ReplaceFirst(us, (x: User) => IsUser(x, tid, username), u).Some? && u.username == username
    ensures AllTrimmed(ReplaceFirst(us, (x: User) => IsUser(x, tid, username), u).value)
  {
    ReplacedMembers(us, (x: User) => IsUser(x, tid, username), u);
    var y :| y in us && IsUser(y, tid, username);
  }

  lemma LeftUsernames(c: Config, tid: string, username: string)
    requires AllTrimmed(c.users)
    ensures AllTrimmed(WithoutUser(c, tid, username).users)
  {
    hide WithoutUser;
    forall u | u in WithoutUser(c, tid, username).users
      ensures Trim(u.username) == u.username
    {
      var v := LeftFrom(c, tid, username, u);
      assert u.username == Bare(u).username == v.username;
    }
  }

  lemma EditedUsernames(c: Config, e: Edit)
    requires AllTrimmed(c.users) && TrimmedOp(Mutate(e)) && Edited(c, e).Some?
    ensures AllTrimmed(Edited(c, e).value.users)
  {
    hide CanonTid, WithoutUser, HasUser, HasTid, Trim;
    match e {
      case UpdateUser(tid0, username, u) =>
        UpdatedUsernames(c.users, CanonTid(tid0), username, u.(tid := CanonTid(tid0), username := username));
      case DeleteTenant(tid0) => KeepIn(c.users, Outsider(CanonTid(tid0)));
      case DeleteUser(tid0, username) => LeftUsernames(c, CanonTid(tid0), username);
      case _ =>
    }
  }

  lemma NextUsernames(h: Digest, seed: Config, c: Config, op: Op)
    requires AllTrimmed(seed.users) && AllTrimmed(c.users) && TrimmedOp(op)
    ensures AllTrimmed(Next(h, seed, c, op).users)
  {
    hide Edited, Normalized, AllTrimmed;
    if op.Mutate? && Accepted(h, c, op.edit).Some? {
      EditedUsernames(c, op.edit);
      NormalizedUsernames(h, Edited(c, op.edit).value);
    }
  }

  lemma {:induction false} RunUsernames(h: Digest, seed: Config, ops: seq<Op>)
    requires AllTrimmed(seed.users) && forall i | 0 <= i < |ops| :: TrimmedOp(ops[i])
    ensures AllTrimmed(Run(h, seed, ops).users)
  {
    hide Next, AllTrimmed, TrimmedOp;
    if ops != [] {
      RunUsernames(h, seed, ops[..|ops| - 1]);
      NextUsernames(h, seed, Run(h, seed, ops[..|ops| - 1]), ops[|ops| - 1]);
    }
  }

  /** On every reachable configuration, when no username was ever given surrounding blanks:
      DeleteUser succeeds exactly when the user exists; DeleteTenant exactly when the tenant
      exists, is not the last one and no app is pinned to it; and what is left does not name
      what was removed. */
  lemma DeletionsOnEveryRun(h: Digest, raw: Config, ops: seq<Op>, tid: string, username: string)
    requires Normalized(h, raw).Some? && AllTrimmed(raw.users) && forall i | 0 <= i < |ops| :: TrimmedOp(ops[i])
    ensures var c := Run(h, Normalized(h, raw).value, ops);
            && (Accepted(h, c, DeleteUser(tid, username)).Some? <==> HasUser(c, CanonTid(tid), username))
            && (Accepted(h, c, DeleteUser(tid, username)).Some? ==>
                  UserGone(c, Accepted(h, c, DeleteUser(tid, username)).value, CanonTid(tid), username))
            && (Accepted(h, c, DeleteTenant(tid)).Some? <==>
                  HasTid(c.tenants, CanonTid(tid)) && |c.tenants| > 1 && Unpinned(c, CanonTid(tid)))
            && (Accepted(h, c, DeleteTenant(tid)).Some? ==>
                  Accepted(h, c, DeleteTenant(tid)).value == WithoutTenant(c, CanonTid(tid)))
  {
    hide Settled, Accepted, UserGone, Normalized, Published, HasUser, HasTid;
    var c := Run(h, Normalized(h, raw).value, ops);
    EveryRunIsSettled(h, raw, ops);
    NormalizedUsernames(h, raw);
    RunUsernames(h, Normalized(h, raw).value, ops);
    assert forall i | 0 <= i < |c.users| :: c.users[i] in c.users;
    DeleteUserSucceeds(h, c, tid, username);
    if Accepted(h, c, DeleteUser(tid, username)).Some? {
      DeleteUserLeaves(h, c, tid, username);
    }
    DeleteTenantSucceeds(h, c, tid);
  }

  /** On every reachable configuration, whatever the usernames: a deletion succeeds exactly under
      those conditions and when every manager left standing still resolves after being trimmed;
      what is left does not name what was removed. */
  lemma DeletionsExactlyOnEveryRun(h: Digest, raw: Config, ops: seq<Op>, tid: string, username: string)
    requires Normalized(h, raw).Some?
    ensures var c := Run(h, Normalized(h, raw).value, ops); var t := CanonTid(tid);
            && (Accepted(h, c, DeleteUser(tid, username)).Some? <==>
                  HasUser(c, t, username) && ManagersOk(TrimManagers(WithoutUser(c, t, username))))
            && (Accepted(h, c, DeleteUser(tid, username)).Some? ==>
                  UserGone(c, Accepted(h, c, DeleteUser(tid, username)).value, t, username))
            && (Accepted(h, c, DeleteTenant(tid)).Some? <==>
                  HasTid(c.tenants, t) && |c.tenants| > 1 && Unpinned(c, t) && ManagersOk(TrimManagers(WithoutTenant(c, t))))
            && (Accepted(h, c, DeleteTenant(tid)).Some? ==> TenantGone(c, Accepted(h, c, DeleteTenant(tid)).value, t))
  {
    hide Settled, Accepted, UserGone, TenantGone, Normalized, Published, HasUser, HasTid, ManagersOk, TrimManagers, WithoutUser, WithoutTenant,
         Run, CanonTid, Reresolved, Unpinned;
    var c := Run(h, Normalized(h, raw).value, ops);
    EveryRunIsSettled(h, raw, ops);
    DeleteUserExactly(h, c, tid, username);
    DeleteTenantExactly(h, c, tid);
    if Accepted(h, c, DeleteUser(tid, username)).Some? {
      DeleteUserLeaves(h, c, tid, username);
    }
    if Accepted(h, c, DeleteTenant(tid)).Some? {
      DeleteTenantLeaves(h, c, tid);
    }
  }

  // ----- the blank-padded username -----

  /** A manager named " boss", a report, and an unrelated account. */
  function Padded(c: Config, tid: string, a: string, b: string, d: string, manager: string): Config {
    c.(users := [Account(" boss", tid, a, "", []), Account("rep", tid, b, manager, []), Account("eve", tid, d, "", [])])
  }

  lemma PaddedParts(h: Digest, c: Config, tid: string, a: string, b: string, d: string, manager: string)
    requires RestSettled(c) && IsGuid(tid) && HasTid(c.tenants, tid) && IsGuid(a) && IsGuid(b) && IsGuid(d)
    ensures PartsSettled(h, Padded(c, tid, a, b, d, manager)) && StaticsOk(Padded(c, tid, a, b, d, manager))
  {
    hide RestSettled, UserSettled;
    var p := Padded(c, tid, a, b, d, manager);
    AccountSettled(h, c.tenants, " boss", tid, a, "", []);
    AccountSettled(h, c.tenants, "rep", tid, b, manager, []);
    AccountSettled(h, c.tenants, "eve", tid, d, "", []);
    RestSettledBare(c, p);
    assert " boss"[0] == ' ' && "rep"[0] == 'r' && "eve"[0] == 'e';
  }

  lemma PaddedFields(c: Config, tid: string, a: string, b: string, d: string, manager: string)
    ensures var us := Padded(c, tid, a, b, d, manager).users;
            && |us| == 3 && us[0].username == " boss" && us[1].username == "rep" && us[2].username == "eve"
            && us[0].oid == a && us[1].oid == b && us[2].oid == d && us[2].tid == tid
            && us[0].upn == us[1].upn == us[2].upn == "x"
  {
  }

  lemma PaddedUser(c: Config, tid: string, a: string, b: string, d: string, manager: string, key: string)
    ensures HasUser(Padded(c, tid, a, b, d, manager), tid, key) <==> key == " boss" || key == "rep" || key == "eve"
  {
    var p := Padded(c, tid, a, b, d, manager);
    assert p.users[0].username == " boss" && p.users[1].username == "rep" && p.users[2].username == "eve";
  }

  lemma PaddedIn(c: Config, tid: string, a: string, b: string, d: string, manager: string)
    requires IsGuid(tid)
    ensures UsersIn(Padded(c, tid, a, b, d, manager), tid) == Padded(c, tid, a, b, d, manager).users
  {
    GuidIsCanonical(tid);
    var us := Padded(c, tid, a, b, d, manager).users;
    assert UsersWith(us[3..], tid) == [];
    assert UsersWith(us[2..], tid) == [us[2]];
    assert UsersWith(us[1..], tid) == [us[1], us[2]];
  }

  lemma PaddedTrimmed(c: Config, tid: string, a: string, b: string, d: string)
    requires IsGuid(a)
    ensures TrimManagers(Padded(c, tid, a, b, d, a)) == Padded(c, tid, a, b, d, a)
  {
    var p := Padded(c, tid, a, b, d, a);
    GuidIsCanonical(a);
    hide Trim, Lower, IsGuid;
    assert Trim("") == "";
    assert TrimManagers(p).users == p.users;
  }

  lemma PaddedResolved(c: Config, tid: string, a: string, b: string, d: string)
    requires IsGuid(tid) && IsGuid(a)
    ensures var p := Padded(c, tid, a, b, d, a); Resolved(p, p.users[1]) == " boss"
  {
    hide PrincipalName, TenantOf, Lower, Trim, HasUser, IsGuid;
    var p := Padded(c, tid, a, b, d, a);
    GuidIsCanonical(a);
    GuidLength(a);
    PaddedUser(c, tid, a, b, d, a, a);
    PaddedIn(c, tid, a, b, d, a);
    assert FirstByOid(p.users, a) == Some(p.users[0]);
  }

  lemma GuidLength(s: string)
    requires IsGuid(s)
    ensures |s| == 36 && s != " boss" && s != "rep" && s != "eve"
  {
  }

  /** The manager given by object id is accepted and stored as " boss". */
  lemma PaddedAccepted(c: Config, tid: string, a: string, b: string, d: string)
    requires IsGuid(tid) && IsGuid(a)
    ensures var p := Padded(c, tid, a, b, d, a);
            TrimManagers(p) == p && ManagersOk(p)
    ensures var p := Padded(c, tid, a, b, d, a); Resolved(p, p.users[1]) == " boss"
  {
    hide Resolved, TrimManagers, HasUser, IsGuid;
    PaddedTrimmed(c, tid, a, b, d);
    PaddedResolved(c, tid, a, b, d);
    PaddedUser(c, tid, a, b, d, a, " boss");
    assert " boss"[0] == ' ' && "rep"[0] == 'r';
  }

  /** Trimmed to "boss", the manager names nobody. */
  lemma BossUnknown(r: Config, u: User)
    requires forall v | v in r.users :: IsGuid(v.oid) && v.upn == "x" && v.username != "boss"
    requires u in r.users && u.manager == "boss"
    ensures !ManagerOk(r, u)
  {
    assert |Lower("x")| == 1 && |Lower("boss")| == 4 && |Lower(Trim("boss"))| == 4;
    HasUserIn(r, u.tid, "boss");
  }

  lemma TrimBoss()
    ensures Trim(" boss") == "boss"
  {
    assert TrimLeft(" boss"[1..]) == "boss";
  }

  /** No account of q is named "boss", and one reports to " boss". */
  ghost predicate Stuck(q: Config) {
    && (forall v | v in q.users :: IsGuid(v.oid) && v.upn == "x" && v.username != "boss")
    && exists i | 0 <= i < |q.users| :: q.users[i].manager == " boss"
  }

  lemma StuckTrimmed(q: Config)
    requires Stuck(q)
    ensures !ManagersOk(TrimManagers(q))
  {
    hide ManagerOk, IsGuid, Trim;
    var r := TrimManagers(q);
    TrimBoss();
    var i :| 0 <= i < |q.users| && q.users[i].manager == " boss";
    forall v | v in r.users
      ensures IsGuid(v.oid) && v.upn == "x" && v.username != "boss"
    {
      var j :| 0 <= j < |r.users| && r.users[j] == v;
      assert q.users[j] in q.users;
    }
    assert r.users[i] in r.users;
    BossUnknown(r, r.users[i]);
  }

  lemma StuckStays(q: Config, tid: string, username: string)
    requires Stuck(q) && username != " boss" && exists i | 0 <= i < |q.users| :: q.users[i].manager == " boss" && q.users[i].username != username
    ensures Stuck(WithoutUser(q, tid, username))
  {
    var e := WithoutUser(q, tid, username);
    var i :| 0 <= i < |q.users| && q.users[i].manager == " boss" && q.users[i].username != username;
    var u := LeftTo(q, tid, username, q.users[i]);
    var j :| 0 <= j < |e.users| && e.users[j] == u;
    forall v | v in e.users
      ensures IsGuid(v.oid) && v.upn == "x" && v.username != "boss"
    {
      var w := LeftFrom(q, tid, username, v);
      assert v.oid == Bare(v).oid == w.oid && v.upn == Bare(v).upn == w.upn && v.username == Bare(v).username == w.username;
    }
  }

  lemma PaddedStuck(c: Config, tid: string, a: string, b: string, d: string)
    requires IsGuid(tid) && IsGuid(a) && IsGuid(b) && IsGuid(d)
    ensures var q := WithDynamic(WithManagers(Padded(c, tid, a, b, d, a)));
            Stuck(q) && |q.users| == 3 && q.users[1].manager == " boss" && q.users[1].username == "rep"
            && q.users[2].username == "eve" && q.users[2].tid == tid
  {
    hide Membership, ManagerOk, Resolved, IsGuid, WithDynamic, WithManagers, Padded, TrimManagers;
    PaddedFields(c, tid, a, b, d, a);
    var p := Padded(c, tid, a, b, d, a);
    PaddedAccepted(c, tid, a, b, d);
    var q := WithDynamic(WithManagers(p));
    ResolvedUser(p, 0);
    ResolvedUser(p, 1);
    ResolvedUser(p, 2);
    NamesDiffer();
    forall v | v in q.users
      ensures IsGuid(v.oid) && v.upn == "x" && v.username != "boss"
    {
      var i :| 0 <= i < |q.users| && q.users[i] == v;
      assert i == 0 || i == 1 || i == 2;
    }
  }

  lemma NamesDiffer()
    ensures " boss" != "boss" && "rep" != "boss" && "eve" != "boss"
  {
    assert "boss"[0] == 'b' && " boss"[0] == ' ' && "rep"[0] == 'r' && "eve"[0] == 'e';
  }

  lemma ResolvedUser(c: Config, i: nat)
    requires i < |c.users|
    ensures var q := WithDynamic(WithManagers(c)); var u := c.users[i];
            |q.users| == |c.users| && q.users[i].oid == u.oid && q.users[i].upn == u.upn && q.users[i].username == u.username
            && q.users[i].tid == u.tid && q.users[i].manager == Resolved(c, u)
  {
    hide Membership, Resolved;
  }

  lemma StuckIsRefused(h: Digest, q: Config, tid: string)
    requires Settled(h, q) && Stuck(q) && IsGuid(tid)
    requires |q.users| == 3 && q.users[1].manager == " boss" && q.users[1].username == "rep"
    ensures Normalized(h, q).None? && Accepted(h, q, DeleteUser(tid, "eve")).None?
  {
    hide PartsSettled, Normalized, StaticsOk, ManagersNamed, DynamicsCurrent, ManagerOk, Stuck, IsGuid, TrimManagers, WithoutUser;
    StuckTrimmed(q);
    NormalizedOfParts(h, q);
    GuidIsCanonical(tid);
    assert " boss"[0] == ' ' && "rep"[0] == 'r' && "eve"[0] == 'e';
    StuckStays(q, tid, "eve");
    StuckTrimmed(WithoutUser(q, tid, "eve"));
    DeleteUserExactly(h, q, tid, "eve");
  }

  lemma PaddedFails(h: Digest, c: Config, tid: string, a: string, b: string, d: string)
    requires RestSettled(c) && IsGuid(tid) && HasTid(c.tenants, tid) && IsGuid(a) && IsGuid(b) && IsGuid(d)
    ensures var p := Padded(c, tid, a, b, d, a);
            && Normalized(h, p).Some?
            && HasUser(Normalized(h, p).value, tid, "eve")
            && Normalized(h, Normalized(h, p).value).None?
            && Accepted(h, Normalized(h, p).value, DeleteUser(tid, "eve")).None?
  {
    hide RestSettled, PartsSettled, Normalized, StaticsOk, Settled, Padded, ManagerOk, WithDynamic, WithManagers, TrimManagers, Stuck, IsGuid, Accepted;
    var p := Padded(c, tid, a, b, d, a);
    PaddedParts(h, c, tid, a, b, d, a);
    PaddedAccepted(c, tid, a, b, d);
    NormalizedOfParts(h, p);
    PaddedStuck(c, tid, a, b, d);
    AcceptedIsSettled(h, p);
    StuckIsRefused(h, Normalized(h, p).value, tid);
  }

  /** The accounts " boss", "rep" and "eve" in the sample tenant. */
  function PaddedSample(): Config {
    Padded(Sample([], []), Guid('1'), Guid('a'), Guid('b'), Guid('c'), Guid('a'))
  }

  /** Without the username condition normalize is not a fixed point of its own output: a
      configuration is accepted, the result is refused, and with it every later edit, such as
      deleting the unrelated account "eve". */
  lemma PaddedUsernameFails(h: Digest)
    ensures var p := PaddedSample();
            && Normalized(h, p).Some?
            && HasUser(Normalized(h, p).value, Guid('1'), "eve")
            && Normalized(h, Normalized(h, p).value).None?
            && Accepted(h, Normalized(h, p).value, DeleteUser(Guid('1'), "eve")).None?
  {
    hide RestSettled, Normalized, Padded, Accepted, Guid, Sample, IsGuid, Lower, Trim;
    NoGroups();
    SampleSettles([], []);
    GuidStays('a');
    GuidStays('b');
    GuidStays('c');
    PaddedFails(h, Sample([], []), Guid('1'), Guid('a'), Guid('b'), Guid('c'));
  }
}
