/** The in-place edits of slices: filtering over the same backing array, replacing an element,
    appending past the end. */
module Slices {
  import opened Text
  import opened Lists
  import opened Directory
  import opened Normalize
  import opened Passes
  import opened Snapshots
  import opened Edits

  /** kept := xs[:0], then append what passes: the survivors move to the front of the same array. */
  method FilterInPlace<T>(a: array<T>, n: nat, p: T -> bool) returns (k: nat)
    requires n <= a.Length
    modifies a
    ensures k <= n && a[..k] == Keep(old(a[..n]), p)
    ensures k == n <==> forall i | 0 <= i < n :: p(old(a[i]))
  {
    ghost var was := a[..n];
    k := 0;
    for i := 0 to n
      invariant k <= i
      invariant forall j | i <= j < n :: a[j] == was[j]
      invariant a[..k] == Keep(was[..i], p)
      invariant k == i <==> forall j | 0 <= j < i :: p(was[j])
    {
      KeepStep(was, i, p);
      assert was[..i + 1] == was[..i] + [was[i]];
      ghost var front := a[..k];
      if p(a[i]) {
        a[k] := a[i];
        k := k + 1;
        assert a[..k] == front + [was[i]];
      }
    }
    assert was[..n] == was;
  }

  ghost predicate TenantRecsAre(rs: seq<TenantRec>, vals: seq<Tenant>)
    reads set i | 0 <= i < |rs| :: rs[i].groups
  {
    |rs| == |vals| && forall i | 0 <= i < |rs| :: TenantIs(rs[i], vals[i])
  }

  ghost predicate UserRecsAre(rs: seq<UserRec>, vals: seq<User>)
    reads set i | 0 <= i < |rs| :: rs[i].wids
  {
    |rs| == |vals| && forall i | 0 <= i < |rs| :: UserIs(rs[i], vals[i])
  }

  lemma {:induction false} KeptTenantRecs(rs: seq<TenantRec>, vals: seq<Tenant>, p: TenantRec -> bool, q: Tenant -> bool)
    requires TenantRecsAre(rs, vals) && forall i | 0 <= i < |rs| :: p(rs[i]) == q(vals[i])
    requires forall i, j | 0 <= i < j < |rs| :: rs[i].groups != rs[j].groups
    ensures TenantRecsAre(Keep(rs, p), Keep(vals, q))
    ensures forall r | r in Keep(rs, p) :: r in rs
    ensures forall i, j | 0 <= i < j < |Keep(rs, p)| :: Keep(rs, p)[i].groups != Keep(rs, p)[j].groups
  {
    if rs != [] {
      KeptTenantRecs(rs[1..], vals[1..], p, q);
      var rest := Keep(rs[1..], p);
      forall j | 0 <= j < |rest|
        ensures rest[j] in rs && rs[0].groups != rest[j].groups
      {
        assert rest[j] in rs[1..];
        var k :| 0 <= k < |rs[1..]| && rs[1..][k] == rest[j];
        assert rs[k + 1] == rest[j];
      }
    }
  }

  lemma {:induction false} KeptUserRecs(rs: seq<UserRec>, vals: seq<User>, p: UserRec -> bool, q: User -> bool)
    requires UserRecsAre(rs, vals) && forall i | 0 <= i < |rs| :: p(rs[i]) == q(vals[i])
    requires forall i, j | 0 <= i < j < |rs| :: rs[i].wids != rs[j].wids
    ensures UserRecsAre(Keep(rs, p), Keep(vals, q))
    ensures forall r | r in Keep(rs, p) :: r in rs
    ensures forall i, j | 0 <= i < j < |Keep(rs, p)| :: Keep(rs, p)[i].wids != Keep(rs, p)[j].wids
  {
    if rs != [] {
      KeptUserRecs(rs[1..], vals[1..], p, q);
      var rest := Keep(rs[1..], p);
      forall j | 0 <= j < |rest|
        ensures rest[j] in rs && rs[0].wids != rest[j].wids
      {
        assert rest[j] in rs[1..];
        var k :| 0 <= k < |rs[1..]| && rs[1..][k] == rest[j];
        assert rs[k + 1] == rest[j];
      }
    }
  }

  // ----- edits of a fresh snapshot -----

  function TenantValue(r: TenantRec): Tenant
    reads r.groups
  {
    r.t.(groups := r.groups[..])
  }

  function UserValue(r: UserRec): User
    reads r.wids
  {
    r.u.(wids := r.wids[..])
  }

  lemma TenantListIs(ts: array<TenantRec>, n: nat, vals: seq<Tenant>)
    requires n <= ts.Length && TenantRecsAre(ts[..n], vals)
    ensures TenantValues(ts, n) == vals
  {
    hide TenantValues;
    assert forall i | 0 <= i < n :: ts[i] == ts[..n][i];
    TenantValuesAre(ts, n, vals);
  }

  lemma UserListIs(us: array<UserRec>, n: nat, vals: seq<User>)
    requires n <= us.Length && UserRecsAre(us[..n], vals)
    ensures UserValues(us, n) == vals
  {
    hide UserValues;
    assert forall i | 0 <= i < n :: us[i] == us[..n][i];
    UserValuesAre(us, n, vals);
  }

  /** The records point to distinct arrays of the snapshot. */
  ghost predicate TenantRecsFit(rs: seq<TenantRec>, inner: set<array<Group>>) {
    (forall i | 0 <= i < |rs| :: rs[i].groups in inner) && forall i, j | 0 <= i < j < |rs| :: rs[i].groups != rs[j].groups
  }

  ghost predicate UserRecsFit(rs: seq<UserRec>, inner: set<array<string>>) {
    (forall i | 0 <= i < |rs| :: rs[i].wids in inner) && forall i, j | 0 <= i < j < |rs| :: rs[i].wids != rs[j].wids
  }

  lemma FitTenants(s: Snapshot)
    requires s.tenantCount <= s.tenants.Length && s.consentCount <= s.consents.Length && s.userCount <= s.users.Length
    requires (forall i | 0 <= i < s.apps.Length :: s.apps[i].claims in s.claimArrays)
    requires (forall i, j | 0 <= i < j < s.apps.Length :: s.apps[i].claims != s.apps[j].claims)
    ensures s.Valid() <==> TenantRecsFit(s.tenants[..s.tenantCount], s.groupArrays) && UserRecsFit(s.users[..s.userCount], s.widArrays)
  {
    var ts, us := s.tenants[..s.tenantCount], s.users[..s.userCount];
    assert forall i | 0 <= i < |ts| :: ts[i] == s.tenants[i];
    assert forall i | 0 <= i < |us| :: us[i] == s.users[i];
  }

  /** Keeps the tenants with another id; reports whether one was dropped. */
  method DropTenant(s: Snapshot, tid: string) returns (found: bool)
    requires s.Valid()
    modifies s`tenantCount, s.tenants
    ensures s.Valid()
    ensures found == HasTid(old(s.Value()).tenants, tid)
    ensures s.Value() == old(s.Value()).(tenants := Keep(old(s.Value()).tenants, OtherTenant(tid)))
  {
    hide TenantValues, AppValues, UserValues, Keep, TenantIs, TenantRecsFit, UserRecsFit;
    ghost var c := s.Value();
    ghost var rs := s.tenants[..s.tenantCount];
    var p := (r: TenantRec) => r.t.tid != tid;
    FitTenants(s);
    TenantRecTids(rs, c.tenants);
    assert TenantRecsAre(rs, c.tenants);
    KeptTenantRecs(rs, c.tenants, p, OtherTenant(tid));
    KeptFit(rs, p, s.groupArrays);
    var k := FilterInPlace(s.tenants, s.tenantCount, p);
    found := k != s.tenantCount;
    s.tenantCount := k;
    FitTenants(s);
    TenantListIs(s.tenants, k, Keep(c.tenants, OtherTenant(tid)));
  }

  /** Keeps the users that pass; reports whether one was dropped. */
  method DropUsers(s: Snapshot, p: UserRec -> bool, ghost q: User -> bool) returns (found: bool)
    requires s.Valid() && forall i | 0 <= i < s.userCount :: p(s.users[i]) == q(s.Value().users[i])
    modifies s`userCount, s.users
    ensures s.Valid()
    ensures found == exists u | u in old(s.Value()).users :: !q(u)
    ensures s.Value() == old(s.Value()).(users := Keep(old(s.Value()).users, q))
  {
    hide TenantValues, AppValues, UserValues, Keep, UserIs, TenantRecsFit, UserRecsFit;
    ghost var c := s.Value();
    ghost var rs := s.users[..s.userCount];
    FitTenants(s);
    assert UserRecsAre(rs, c.users);
    KeptUserRecs(rs, c.users, p, q);
    KeptUsersFit(rs, p, s.widArrays);
    var k := FilterInPlace(s.users, s.userCount, p);
    found := k != s.userCount;
    s.userCount := k;
    FitTenants(s);
    UserListIs(s.users, k, Keep(c.users, q));
  }

  method DropConsents(s: Snapshot, tid: string)
    requires s.Valid()
    modifies s`consentCount, s.consents
    ensures s.Valid()
    ensures s.Value() == old(s.Value()).(consents := Keep(old(s.Value()).consents, OtherConsent(tid)))
  {
    hide TenantValues, AppValues, UserValues, Keep;
    var k := FilterInPlace(s.consents, s.consentCount, OtherConsent(tid));
    s.consentCount := k;
  }

  lemma KeptUsersFit(rs: seq<UserRec>, p: UserRec -> bool, inner: set<array<string>>)
    requires UserRecsFit(rs, inner)
    requires forall r | r in Keep(rs, p) :: r in rs
    requires forall i, j | 0 <= i < j < |Keep(rs, p)| :: Keep(rs, p)[i].wids != Keep(rs, p)[j].wids
    ensures UserRecsFit(Keep(rs, p), inner)
  {
    hide Keep;
    forall i | 0 <= i < |Keep(rs, p)|
      ensures Keep(rs, p)[i].wids in inner
    {
      assert Keep(rs, p)[i] in rs;
    }
  }

  lemma AppendedTenant(rs: seq<TenantRec>, vals: seq<Tenant>, t: TenantRec, inner: set<array<Group>>)
    requires TenantRecsAre(rs, vals) && TenantRecsFit(rs, inner) && t.groups !in inner
    ensures TenantRecsAre(rs + [t], vals + [TenantValue(t)]) && TenantRecsFit(rs + [t], inner + {t.groups})
  {
    assert TenantIs(t, TenantValue(t));
  }

  lemma ReplacedTenant(rs: seq<TenantRec>, vals: seq<Tenant>, i: nat, t: TenantRec, inner: set<array<Group>>)
    requires TenantRecsAre(rs, vals) && TenantRecsFit(rs, inner) && t.groups !in inner && i < |rs|
    ensures TenantRecsAre(rs[i := t], vals[i := TenantValue(t)]) && TenantRecsFit(rs[i := t], inner + {t.groups})
  {
    assert TenantIs(t, TenantValue(t));
  }

  lemma AppendedUser(rs: seq<UserRec>, vals: seq<User>, u: UserRec, inner: set<array<string>>)
    requires UserRecsAre(rs, vals) && UserRecsFit(rs, inner) && u.wids !in inner
    ensures UserRecsAre(rs + [u], vals + [UserValue(u)]) && UserRecsFit(rs + [u], inner + {u.wids})
  {
    assert UserIs(u, UserValue(u));
  }

  lemma ReplacedUser(rs: seq<UserRec>, vals: seq<User>, i: nat, u: UserRec, inner: set<array<string>>)
    requires UserRecsAre(rs, vals) && UserRecsFit(rs, inner) && u.wids !in inner && i < |rs|
    ensures UserRecsAre(rs[i := u], vals[i := UserValue(u)]) && UserRecsFit(rs[i := u], inner + {u.wids})
  {
    assert UserIs(u, UserValue(u));
  }

  // ----- appending -----

  /** append past the capacity: a new array takes over. */
  method Grow<T>(a: array<T>, n: nat, x: T) returns (b: array<T>)
    requires n <= a.Length
    ensures fresh(b) && b.Length == n + 1 && b[..] == a[..n] + [x]
  {
    b := new T[n + 1](i requires 0 <= i < n + 1 && n <= a.Length reads a => if i < n then a[i] else x);
    assert b[..] == a[..n] + [x];
  }

  method AppendTenant(s: Snapshot, t: TenantRec)
    requires s.Valid() && t.groups !in s.groupArrays
    modifies s`tenants, s`tenantCount, s`groupArrays
    ensures s.Valid() && fresh(s.tenants) && s.groupArrays == old(s.groupArrays) + {t.groups}
    ensures s.Value() == old(s.Value()).(tenants := old(s.Value()).tenants + [TenantValue(t)])
  {
    hide TenantValues, AppValues, UserValues, TenantIs, TenantRecsFit, UserRecsFit;
    ghost var c := s.Value();
    ghost var rs := s.tenants[..s.tenantCount];
    var n := s.tenantCount;
    var ts := Grow(s.tenants, n, t);
    FitTenants(s);
    assert TenantRecsAre(rs, c.tenants);
    AppendedTenant(rs, c.tenants, t, s.groupArrays);
    s.tenants, s.tenantCount, s.groupArrays := ts, n + 1, s.groupArrays + {t.groups};
    assert s.tenants[..s.tenantCount] == ts[..] == rs + [t];
    FitTenants(s);
    TenantListIs(ts, n + 1, c.tenants + [TenantValue(t)]);
  }

  method AppendUser(s: Snapshot, u: UserRec)
    requires s.Valid() && u.wids !in s.widArrays
    modifies s`users, s`userCount, s`widArrays
    ensures s.Valid() && fresh(s.users) && s.widArrays == old(s.widArrays) + {u.wids}
    ensures s.Value() == old(s.Value()).(users := old(s.Value()).users + [UserValue(u)])
  {
    hide TenantValues, AppValues, UserValues, UserIs, TenantRecsFit, UserRecsFit;
    ghost var c := s.Value();
    ghost var rs := s.users[..s.userCount];
    var n := s.userCount;
    var us := Grow(s.users, n, u);
    FitTenants(s);
    assert UserRecsAre(rs, c.users);
    AppendedUser(rs, c.users, u, s.widArrays);
    s.users, s.userCount, s.widArrays := us, n + 1, s.widArrays + {u.wids};
    assert s.users[..s.userCount] == us[..] == rs + [u];
    FitTenants(s);
    UserListIs(us, n + 1, c.users + [UserValue(u)]);
  }

  // ----- replacing -----

  lemma {:induction false} ReplaceFirstAt<T>(xs: seq<T>, i: nat, p: T -> bool, x: T)
    requires i < |xs| && p(xs[i]) && forall j | 0 <= j < i :: !p(xs[j])
    ensures ReplaceFirst(xs, p, x) == Some(xs[i := x])
  {
    if i > 0 {
      ReplaceFirstAt(xs[1..], i - 1, p, x);
      assert xs[i := x] == [xs[0]] + xs[1..][i - 1 := x];
    } else {
      assert xs[0 := x] == [x] + xs[1..];
    }
  }

  lemma {:induction false} ReplaceFirstNone<T>(xs: seq<T>, p: T -> bool, x: T)
    requires forall j | 0 <= j < |xs| :: !p(xs[j])
    ensures ReplaceFirst(xs, p, x) == None
  {
    if xs != [] {
      ReplaceFirstNone(xs[1..], p, x);
    }
  }

  method ReplaceTenant(s: Snapshot, tid: string, t: TenantRec) returns (found: bool)
    requires s.Valid() && t.groups !in s.groupArrays
    modifies s.tenants, s`groupArrays
    ensures s.Valid() && s.groupArrays <= old(s.groupArrays) + {t.groups}
    ensures found == ReplaceFirst(old(s.Value()).tenants, (x: Tenant) => x.tid == tid, TenantValue(t)).Some?
    ensures found ==> s.Value() == old(s.Value()).(tenants := ReplaceFirst(old(s.Value()).tenants, (x: Tenant) => x.tid == tid, TenantValue(t)).value)
  {
    hide TenantValues, AppValues, UserValues, TenantIs, ReplaceFirst, TenantRecsFit, UserRecsFit;
    ghost var c := s.Value();
    ghost var rs := s.tenants[..s.tenantCount];
    ghost var p := (x: Tenant) => x.tid == tid;
    FitTenants(s);
    TenantRecTids(rs, c.tenants);
    for i := 0 to s.tenantCount
      invariant forall j | 0 <= j < i :: s.tenants[j].t.tid != tid
    {
      if s.tenants[i].t.tid == tid {
        assert rs[i] == s.tenants[i];
        assert forall j | 0 <= j < i :: rs[j] == s.tenants[j];
        ReplaceFirstAt(c.tenants, i, p, TenantValue(t));
        assert TenantRecsAre(rs, c.tenants);
        ReplacedTenant(rs, c.tenants, i, t, s.groupArrays);
        s.tenants[i] := t;
        s.groupArrays := s.groupArrays + {t.groups};
        assert s.tenants[..s.tenantCount] == rs[i := t];
        FitTenants(s);
        TenantListIs(s.tenants, s.tenantCount, c.tenants[i := TenantValue(t)]);
        return true;
      }
    }
    assert forall j | 0 <= j < |rs| :: rs[j] == s.tenants[j];
    ReplaceFirstNone(c.tenants, p, TenantValue(t));
    return false;
  }

  lemma UserRecNames(rs: seq<UserRec>, vals: seq<User>)
    requires |rs| == |vals| && forall i | 0 <= i < |rs| :: UserIs(rs[i], vals[i])
    ensures forall i | 0 <= i < |rs| :: rs[i].u.tid == vals[i].tid && rs[i].u.username == vals[i].username && rs[i].u.manager == vals[i].manager
  {
  }

  method ReplaceUser(s: Snapshot, tid: string, username: string, u: UserRec) returns (found: bool)
    requires s.Valid() && u.wids !in s.widArrays
    modifies s.users, s`widArrays
    ensures s.Valid() && s.widArrays <= old(s.widArrays) + {u.wids}
    ensures found == ReplaceFirst(old(s.Value()).users, (x: User) => IsUser(x, tid, username), UserValue(u)).Some?
    ensures found ==> s.Value() == old(s.Value()).(users := ReplaceFirst(old(s.Value()).users, (x: User) => IsUser(x, tid, username), UserValue(u)).value)
  {
    hide TenantValues, AppValues, UserValues, UserIs, ReplaceFirst, TenantRecsFit, UserRecsFit;
    ghost var c := s.Value();
    ghost var rs := s.users[..s.userCount];
    ghost var p := (x: User) => IsUser(x, tid, username);
    FitTenants(s);
    UserRecNames(rs, c.users);
    for i := 0 to s.userCount
      invariant forall j | 0 <= j < i :: !(s.users[j].u.tid == tid && s.users[j].u.username == username)
    {
      if s.users[i].u.tid == tid && s.users[i].u.username == username {
        assert rs[i] == s.users[i];
        assert forall j | 0 <= j < i :: rs[j] == s.users[j];
        ReplaceFirstAt(c.users, i, p, UserValue(u));
        assert UserRecsAre(rs, c.users);
        ReplacedUser(rs, c.users, i, u, s.widArrays);
        s.users[i] := u;
        s.widArrays := s.widArrays + {u.wids};
        assert s.users[..s.userCount] == rs[i := u];
        FitTenants(s);
        UserListIs(s.users, s.userCount, c.users[i := UserValue(u)]);
        return true;
      }
    }
    assert forall j | 0 <= j < |rs| :: rs[j] == s.users[j];
    ReplaceFirstNone(c.users, p, UserValue(u));
    return false;
  }

  /** Reports of the deleted user lose their manager. */
  method ClearManagers(s: Snapshot, tid: string, username: string)
    requires s.Valid()
    modifies s.users
    ensures s.Valid()
    ensures s.Value() == old(s.Value()).(users := Unmanaged(old(s.Value()).users, tid, username))
  {
    hide TenantValues, AppValues, UserValues;
    ghost var c := s.Value();
    ghost var out := Unmanaged(c.users, tid, username);
    for i := 0 to s.userCount
      invariant forall j | 0 <= j < s.users.Length :: s.users[j].wids == old(s.users[j].wids)
      invariant forall j | i <= j < s.users.Length :: s.users[j] == old(s.users[j])
      invariant forall j | 0 <= j < i :: UserIs(s.users[j], out[j])
    {
      if s.users[i].u.tid == tid && s.users[i].u.manager == username {
        s.users[i] := UserRec(s.users[i].u.(manager := ""), s.users[i].wids);
      }
    }
    assert s.Value().users == out;
  }

  lemma TenantRecTids(rs: seq<TenantRec>, vals: seq<Tenant>)
    requires |rs| == |vals| && forall i | 0 <= i < |rs| :: TenantIs(rs[i], vals[i])
    ensures forall i | 0 <= i < |rs| :: rs[i].t.tid == vals[i].tid
  {
  }

  lemma KeptFit(rs: seq<TenantRec>, p: TenantRec -> bool, inner: set<array<Group>>)
    requires TenantRecsFit(rs, inner)
    requires forall r | r in Keep(rs, p) :: r in rs
    requires forall i, j | 0 <= i < j < |Keep(rs, p)| :: Keep(rs, p)[i].groups != Keep(rs, p)[j].groups
    ensures TenantRecsFit(Keep(rs, p), inner)
  {
    hide Keep;
    forall i | 0 <= i < |Keep(rs, p)|
      ensures Keep(rs, p)[i].groups in inner
    {
      assert Keep(rs, p)[i] in rs;
    }
  }
}
