/** Exactly when a deletion succeeds, and what it leaves behind. */
module Deletion {
  import opened Text
  import opened Lists
  import opened Directory
  import opened Normalize
  import opened Invariant
  import opened Edits

  // ----- filtering -----

  lemma {:induction false} KeepDistinctUsers(us: seq<User>, p: User -> bool)
    requires DistinctUsers(us)
    ensures DistinctUsers(Keep(us, p))
  {
    if us != [] {
      KeepDistinctUsers(us[1..], p);
      KeepIn(us[1..], p);
      var rest := Keep(us[1..], p);
      forall j | 0 <= j < |rest|
        ensures !(us[0].tid == rest[j].tid && us[0].username == rest[j].username)
      {
        assert rest[j] in rest;
        var k :| 0 <= k < |us[1..]| && us[1..][k] == rest[j];
        assert us[k + 1] == rest[j];
      }
    }
  }

  lemma {:induction false} KeepDistinctTids(ts: seq<Tenant>, p: Tenant -> bool)
    requires DistinctTids(ts)
    ensures DistinctTids(Keep(ts, p))
  {
    if ts != [] {
      KeepDistinctTids(ts[1..], p);
      KeepIn(ts[1..], p);
      var rest := Keep(ts[1..], p);
      forall j | 0 <= j < |rest|
        ensures ts[0].tid != rest[j].tid
      {
        assert rest[j] in rest;
        var k :| 0 <= k < |ts[1..]| && ts[1..][k] == rest[j];
        assert ts[k + 1] == rest[j];
      }
    }
  }

  lemma {:induction false} FindKeptTenant(ts: seq<Tenant>, p: Tenant -> bool, tid: string)
    requires forall t | t in ts && t.tid == tid :: p(t)
    ensures FindTenant(Keep(ts, p), tid) == FindTenant(ts, tid)
  {
    if ts != [] {
      FindKeptTenant(ts[1..], p, tid);
      assert ([ts[0]] + Keep(ts[1..], p))[1..] == Keep(ts[1..], p);
      assert [] + Keep(ts[1..], p) == Keep(ts[1..], p);
    }
  }

  lemma HasUserIn(c: Config, tid: string, username: string)
    ensures HasUser(c, tid, username) <==> exists u | u in c.users :: u.tid == tid && u.username == username
  {
    if HasUser(c, tid, username) {
      var i :| 0 <= i < |c.users| && c.users[i].tid == tid && c.users[i].username == username;
      assert c.users[i] in c.users;
    }
  }

  lemma HasTidIn(ts: seq<Tenant>, tid: string)
    ensures HasTid(ts, tid) <==> exists t | t in ts :: t.tid == tid
  {
    if HasTid(ts, tid) {
      var i :| 0 <= i < |ts| && ts[i].tid == tid;
      assert ts[i] in ts;
    }
  }

  // ----- deleting a user -----

  /** Whoever is left was there, is not the deleted user, and at most lost a manager. */
  lemma LeftFrom(c: Config, tid: string, username: string, u: User) returns (v: User)
    requires u in WithoutUser(c, tid, username).users
    ensures v in c.users && !IsUser(v, tid, username) && Bare(u) == Bare(v)
    ensures u.manager == "" || (u == v && !(u.tid == tid && u.manager == username))
  {
    var kept := Keep(c.users, OtherUser(tid, username));
    var us := WithoutUser(c, tid, username).users;
    KeepIn(c.users, OtherUser(tid, username));
    var i :| 0 <= i < |us| && us[i] == u;
    v := kept[i];
    assert v in kept;
  }

  /** Everyone else is left. */
  lemma LeftTo(c: Config, tid: string, username: string, v: User) returns (u: User)
    requires v in c.users && !IsUser(v, tid, username)
    ensures u in WithoutUser(c, tid, username).users && Bare(u) == Bare(v)
    ensures u == if v.tid == tid && v.manager == username then v.(manager := "") else v
  {
    var kept := Keep(c.users, OtherUser(tid, username));
    var us := WithoutUser(c, tid, username).users;
    KeepIn(c.users, OtherUser(tid, username));
    assert v in kept;
    var i :| 0 <= i < |kept| && kept[i] == v;
    u := us[i];
    assert u in us;
  }

  lemma WithoutUserParts(h: Digest, c: Config, tid: string, username: string)
    requires PartsSettled(h, c)
    ensures PartsSettled(h, WithoutUser(c, tid, username))
  {
    hide RestSettled, UserSettled;
    var p := OtherUser(tid, username);
    var kept := Keep(c.users, p);
    var d := WithoutUser(c, tid, username);
    KeepIn(c.users, p);
    KeepDistinctUsers(c.users, p);
    forall i | 0 <= i < |d.users|
      ensures UserSettled(h, d.users[i], d.tenants)
    {
      assert kept[i] in kept;
      var k :| 0 <= k < |c.users| && c.users[k] == kept[i];
      UserSettledBare(h, c.users[k], d.users[i], c.tenants);
    }
    RestSettledBare(c, d);
  }

  lemma WithoutUserStatics(c: Config, tid: string, username: string)
    requires StaticsOk(c)
    ensures StaticsOk(WithoutUser(c, tid, username))
  {
    hide StaticOk;
    var p := OtherUser(tid, username);
    var kept := Keep(c.users, p);
    var d := WithoutUser(c, tid, username);
    KeepIn(c.users, p);
    forall i | 0 <= i < |d.users|
      ensures StaticOk(d, d.users[i])
    {
      assert kept[i] in kept;
      var k :| 0 <= k < |c.users| && c.users[k] == kept[i];
      SameGroupsSameStatics(c, d, c.users[k], d.users[i]);
    }
  }

  lemma SameGroupsSameStatics(c: Config, d: Config, u: User, v: User)
    requires c.tenants == d.tenants && Bare(u) == Bare(v) && StaticOk(c, u)
    ensures StaticOk(d, v)
  {
    assert u.groups == Bare(u).groups == v.groups && u.tid == Bare(u).tid == v.tid;
    assert GroupsDeclared(c, u.tid) == GroupsDeclared(d, v.tid);
  }

  lemma WithoutUserManagers(c: Config, tid: string, username: string)
    requires ManagersNamed(c)
    ensures ManagersNamed(WithoutUser(c, tid, username))
  {
    var d := WithoutUser(c, tid, username);
    forall i | 0 <= i < |d.users|
      ensures ManagerNamed(d, d.users[i])
    {
      var u := d.users[i];
      assert u in d.users;
      if u.manager != "" {
        var v := LeftFrom(c, tid, username, u);
        var k :| 0 <= k < |c.users| && c.users[k] == u;
        assert ManagerNamed(c, c.users[k]);
        HasUserIn(c, u.tid, u.manager);
        var m :| m in c.users && m.tid == u.tid && m.username == u.manager;
        var m' := LeftTo(c, tid, username, m);
        assert m'.tid == Bare(m').tid && m'.username == Bare(m').username;
        HasUserIn(d, u.tid, u.manager);
      }
    }
  }

  lemma DeletionEdits(h: Digest, c: Config, tid0: string, username: string)
    ensures var tid := CanonTid(tid0);
            Accepted(h, c, DeleteUser(tid0, username)) ==
              if HasUser(c, tid, username) then Normalized(h, WithoutUser(c, tid, username)) else None
  {
    hide WithoutUser, Normalized, HasUser, CanonTid;
  }

  lemma WithoutUserVerdict(h: Digest, c: Config, tid: string, username: string)
    requires PartsSettled(h, c) && StaticsOk(c)
    ensures Normalized(h, WithoutUser(c, tid, username)).Some? <==> ManagersOk(TrimManagers(WithoutUser(c, tid, username)))
  {
    hide PartsSettled, Normalized, StaticsOk, ManagersOk, WithoutUser, TrimManagers;
    WithoutUserParts(h, c, tid, username);
    WithoutUserStatics(c, tid, username);
    NormalizedOfParts(h, WithoutUser(c, tid, username));
  }

  /** DeleteUser succeeds exactly when the user exists and every manager left standing still
      resolves after being trimmed. */
  lemma DeleteUserExactly(h: Digest, c: Config, tid0: string, username: string)
    requires Settled(h, c)
    ensures var tid := CanonTid(tid0); var d := TrimManagers(WithoutUser(c, tid, username));
            Accepted(h, c, DeleteUser(tid0, username)).Some? <==> HasUser(c, tid, username) && ManagersOk(d)
  {
    hide PartsSettled, Normalized, StaticsOk, ManagersNamed, DynamicsCurrent, ManagersOk, WithoutUser, TrimManagers, HasUser, CanonTid, Accepted;
    DeletionEdits(h, c, tid0, username);
    WithoutUserVerdict(h, c, CanonTid(tid0), username);
  }

  /** With usernames free of surrounding blanks, DeleteUser succeeds exactly when the user exists;
      it removes that user, clears the manager of the reports, recomputes memberships and changes
      nothing else. */
  lemma DeleteUserSucceeds(h: Digest, c: Config, tid0: string, username: string)
    requires Settled(h, c) && UsernamesTrimmed(c.users)
    ensures var tid := CanonTid(tid0);
            Accepted(h, c, DeleteUser(tid0, username)) ==
              if HasUser(c, tid, username) then Some(WithDynamic(WithoutUser(c, tid, username))) else None
  {
    hide PartsSettled, Normalized, StaticsOk, ManagersNamed, DynamicsCurrent, UsernamesTrimmed, ManagersStable, WithoutUser, WithDynamic,
         HasUser, CanonTid, Accepted;
    var tid := CanonTid(tid0);
    DeletionEdits(h, c, tid0, username);
    var d := WithoutUser(c, tid, username);
    WithoutUserParts(h, c, tid, username);
    WithoutUserStatics(c, tid, username);
    WithoutUserManagers(c, tid, username);
    WithoutUserTrimmed(c, tid, username);
    TrimmedAreStable(d);
    Reaccepted(h, d);
  }

  lemma WithoutUserTrimmed(c: Config, tid: string, username: string)
    requires UsernamesTrimmed(c.users)
    ensures UsernamesTrimmed(WithoutUser(c, tid, username).users)
  {
    var d := WithoutUser(c, tid, username);
    forall i | 0 <= i < |d.users|
      ensures Trim(d.users[i].username) == d.users[i].username
    {
      var v := LeftFrom(c, tid, username, d.users[i]);
      assert d.users[i].username == Bare(d.users[i]).username == v.username;
    }
  }

  /** What is published: managers trimmed and resolved again, memberships recomputed. */
  function Reresolved(c: Config): Config {
    WithDynamic(WithManagers(TrimManagers(c)))
  }

  lemma ReresolvedIsBare(c: Config)
    ensures BareConfig(Reresolved(c)) == BareConfig(c) && |Reresolved(c).users| == |c.users|
    ensures forall i | 0 <= i < |c.users| :: Bare(Reresolved(c).users[i]) == Bare(c.users[i])
  {
    hide Resolved, Membership, Trim;
    var d := TrimManagers(c);
    var e := WithManagers(d);
    BareUnchanged(c, d);
    BareUnchanged(d, e);
    BareUnchanged(e, WithDynamic(e));
  }

  lemma ReresolvedTo(c: Config, v: User) returns (u: User)
    requires v in c.users
    ensures u in Reresolved(c).users && Bare(u) == Bare(v)
  {
    hide Reresolved;
    ReresolvedIsBare(c);
    var i :| 0 <= i < |c.users| && c.users[i] == v;
    u := Reresolved(c).users[i];
  }

  lemma ReresolvedFrom(c: Config, u: User) returns (v: User)
    requires u in Reresolved(c).users
    ensures v in c.users && Bare(u) == Bare(v)
  {
    hide Reresolved;
    ReresolvedIsBare(c);
    var i :| 0 <= i < |Reresolved(c).users| && Reresolved(c).users[i] == u;
    v := c.users[i];
  }

  lemma ExistingIsNamed(h: Digest, c: Config, tid: string, username: string)
    requires Settled(h, c) && HasUser(c, tid, username)
    ensures username != ""
  {
    var i :| 0 <= i < |c.users| && c.users[i].tid == tid && c.users[i].username == username;
    assert UserSettled(h, c.users[i], c.tenants);
  }

  /** Nobody is, and nobody's manager is, the deleted user; every other user is still there, and
      nobody else. */
  ghost predicate UserGone(c: Config, d: Config, tid: string, username: string) {
    && !HasUser(d, tid, username)
    && (forall u | u in d.users && u.tid == tid :: u.manager != username)
    && (forall v | v in c.users && !IsUser(v, tid, username) :: exists u | u in d.users :: Bare(u) == Bare(v))
    && (forall u | u in d.users :: exists v | v in c.users :: Bare(v) == Bare(u))
  }

  lemma WithoutUserGone(c: Config, tid: string, username: string)
    requires username != "" && ManagersNamed(Reresolved(WithoutUser(c, tid, username)))
    ensures UserGone(c, Reresolved(WithoutUser(c, tid, username)), tid, username)
  {
    hide Reresolved, WithoutUser;
    var e := WithoutUser(c, tid, username);
    var d := Reresolved(e);
    forall u | u in d.users
      ensures !IsUser(u, tid, username) && exists v | v in c.users :: Bare(v) == Bare(u)
    {
      var w := ReresolvedFrom(e, u);
      var v := LeftFrom(c, tid, username, w);
      assert u.tid == Bare(u).tid == v.tid && u.username == Bare(u).username == v.username;
    }
    HasUserIn(d, tid, username);
    forall u | u in d.users && u.tid == tid
      ensures u.manager != username
    {
      var i :| 0 <= i < |d.users| && d.users[i] == u;
      assert ManagerNamed(d, d.users[i]);
    }
    forall v | v in c.users && !IsUser(v, tid, username)
      ensures exists u | u in d.users :: Bare(u) == Bare(v)
    {
      var w := LeftTo(c, tid, username, v);
      var u := ReresolvedTo(e, w);
    }
  }

  /** Every accepted deletion leaves nobody who is, or reports to, the deleted user. */
  lemma DeleteUserLeaves(h: Digest, c: Config, tid: string, username: string)
    requires Settled(h, c) && Accepted(h, c, DeleteUser(tid, username)).Some?
    ensures UserGone(c, Accepted(h, c, DeleteUser(tid, username)).value, CanonTid(tid), username)
  {
    hide PartsSettled, StaticsOk, ManagersNamed, DynamicsCurrent, WithoutUser, UserGone, Normalized, HasUser, CanonTid, Accepted;
    var e := WithoutUser(c, CanonTid(tid), username);
    DeletionEdits(h, c, tid, username);
    ExistingIsNamed(h, c, CanonTid(tid), username);
    WithoutUserParts(h, c, CanonTid(tid), username);
    NormalizedOfParts(h, e);
    AcceptedIsSettled(h, e);
    WithoutUserGone(c, CanonTid(tid), username);
  }
}
