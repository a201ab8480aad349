/** The directory store: published snapshots are never written again. Every edit works on a deep
    copy, is validated as a whole, and replaces the published snapshot only when accepted. */
module Store {
  import opened Text
  import opened Lists
  import opened Directory
  import opened Normalize
  import opened Invariant
  import opened Passes
  import opened Snapshots
  import opened Slices
  import opened Edits

  class Store {
    const h: Digest
    const seed: Snapshot
    var cur: Snapshot

    ghost predicate Valid()
      reads this, seed, seed.tenants, seed.apps, seed.users, cur, cur.tenants, cur.apps, cur.users
    {
      seed.Valid() && cur.Valid()
    }

    /** Publishes a deep copy of the startup configuration. */
    constructor (h: Digest, seed: Snapshot)
      requires seed.Valid()
      ensures Valid() && this.h == h && this.seed == seed && Fresh(cur) && cur.Value() == seed.Value()
    {
      hide Snapshot.Valid, Snapshot.Value;
      var copy := Snapshot.Clone(seed);
      this.h, this.seed, this.cur := h, seed, copy;
    }

    method Reset()
      requires Valid()
      modifies `cur
      ensures Valid() && Fresh(cur)
      ensures cur.Value() == Next(h, seed.Value(), old(cur.Value()), Op.Reset)
      ensures old(cur).Valid() && old(cur).Value() == old(cur.Value())
    {
      hide Snapshot.Valid, Snapshot.Value;
      cur := Snapshot.Clone(seed);
    }

    /** Validates the edited copy and publishes it. The snapshot published before is left alone. */
    method Commit(next: Snapshot) returns (ok: bool)
      requires Valid() && next.Valid() && Apart(next, cur) && Apart(next, seed)
      modifies `cur, next, next.graph, next.tenants, next.consents, next.apps, next.users
      modifies next.groupArrays, next.claimArrays, next.widArrays
      ensures Valid() && seed.Value() == old(seed.Value())
      ensures ok == Normalized(h, old(next.Value())).Some?
      ensures cur.Value() == if ok then Normalized(h, old(next.Value())).value else old(cur.Value())
      ensures old(cur).Valid() && old(cur).Value() == old(cur.Value())
    {
      hide Snapshot.Valid, Snapshot.Value, Normalized, Apart;
      ok := Validated(next, h, cur, seed);
      if ok {
        cur := next;
      }
    }

    method CreateTenant(t: TenantRec) returns (ok: bool)
      requires Valid() && t.groups !in cur.groupArrays && t.groups !in seed.groupArrays
      modifies `cur, t.groups
      ensures Valid() && seed.Value() == old(seed.Value())
      ensures Publishes(h, seed.Value(), old(cur.Value()), Edit.CreateTenant(old(TenantValue(t))), ok, cur.Value())
      ensures old(cur).Valid() && old(cur).Value() == old(cur.Value())
    {
      hide Snapshot.Valid, Snapshot.Value, Normalized, Edited, TenantValue, Publishes;
      ghost var c := cur.Value();
      CreatedTenant(c, TenantValue(t));
      var next := TenantAdded(cur, t);
      ok := Commit(next);
      Outcome(h, seed.Value(), c, Edit.CreateTenant(old(TenantValue(t))), ok, cur.Value());
    }

    method UpdateTenant(tid0: string, t0: TenantRec) returns (ok: bool)
      requires Valid() && t0.groups !in cur.groupArrays && t0.groups !in seed.groupArrays
      modifies `cur, t0.groups
      ensures Valid() && seed.Value() == old(seed.Value())
      ensures Publishes(h, seed.Value(), old(cur.Value()), Edit.UpdateTenant(tid0, old(TenantValue(t0))), ok, cur.Value())
      ensures old(cur).Valid() && old(cur).Value() == old(cur.Value())
    {
      hide Snapshot.Valid, Snapshot.Value, Normalized, Edited, TenantValue, Publishes, CanonTid, ReplaceFirst;
      ghost var c := cur.Value();
      ghost var v := TenantValue(t0);
      var tid := CanonTid(tid0);
      TenantRecValue(t0, tid);
      if t0.t.tid != "" && CanonTid(t0.t.tid) != tid {
        TenantUpdateOutcome(h, seed.Value(), c, tid0, v, false, c, false, c);
        return false;
      }
      var next, found := TenantReplaced(cur, tid, TenantRec(t0.t.(tid := tid), t0.groups));
      ghost var edited := next.Value();
      ok := false;
      if found {
        ok := Commit(next);
      }
      TenantUpdateOutcome(h, seed.Value(), c, tid0, v, found, edited, ok, cur.Value());
    }

    /** Drops the tenant with its users and seed consents. */
    method DeleteTenant(tid0: string) returns (ok: bool)
      requires Valid()
      modifies `cur
      ensures Valid() && seed.Value() == old(seed.Value())
      ensures Publishes(h, seed.Value(), old(cur.Value()), Edit.DeleteTenant(tid0), ok, cur.Value())
      ensures old(cur).Valid() && old(cur).Value() == old(cur.Value())
    {
      hide Snapshot.Valid, Snapshot.Value, Normalized, Edited, Publishes, CanonTid, HasTid;
      ghost var c := cur.Value();
      DeletedTenant(c, tid0);
      var next, found := TenantDropped(cur, CanonTid(tid0));
      ok := false;
      if found {
        ok := Commit(next);
      }
      Outcome(h, seed.Value(), c, Edit.DeleteTenant(tid0), ok, cur.Value());
    }

    method CreateUser(u: UserRec) returns (ok: bool)
      requires Valid() && u.wids !in cur.widArrays && u.wids !in seed.widArrays
      modifies `cur, u.wids
      ensures Valid() && seed.Value() == old(seed.Value())
      ensures Publishes(h, seed.Value(), old(cur.Value()), Edit.CreateUser(old(UserValue(u))), ok, cur.Value())
      ensures old(cur).Valid() && old(cur).Value() == old(cur.Value())
    {
      hide Snapshot.Valid, Snapshot.Value, Normalized, Edited, UserValue, Publishes;
      ghost var c := cur.Value();
      CreatedUser(c, UserValue(u));
      var next := UserAdded(cur, u);
      ok := Commit(next);
      Outcome(h, seed.Value(), c, Edit.CreateUser(old(UserValue(u))), ok, cur.Value());
    }

    method UpdateUser(tid0: string, username: string, u0: UserRec) returns (ok: bool)
      requires Valid() && u0.wids !in cur.widArrays && u0.wids !in seed.widArrays
      modifies `cur, u0.wids
      ensures Valid() && seed.Value() == old(seed.Value())
      ensures Publishes(h, seed.Value(), old(cur.Value()), Edit.UpdateUser(tid0, username, old(UserValue(u0))), ok, cur.Value())
      ensures old(cur).Valid() && old(cur).Value() == old(cur.Value())
    {
      hide Snapshot.Valid, Snapshot.Value, Normalized, Edited, UserValue, Publishes, CanonTid, ReplaceFirst;
      ghost var c := cur.Value();
      ghost var v := UserValue(u0);
      var tid := CanonTid(tid0);
      UserRecValue(u0, tid, username);
      if u0.u.tid != "" && CanonTid(u0.u.tid) != tid {
        UserUpdateOutcome(h, seed.Value(), c, tid0, username, v, false, c, false, c);
        return false;
      }
      var next, found := UserReplaced(cur, tid, username, UserRec(u0.u.(tid := tid, username := username), u0.wids));
      ghost var edited := next.Value();
      ok := false;
      if found {
        ok := Commit(next);
      }
      UserUpdateOutcome(h, seed.Value(), c, tid0, username, v, found, edited, ok, cur.Value());
    }

    method DeleteUser(tid0: string, username: string) returns (ok: bool)
      requires Valid()
      modifies `cur
      ensures Valid() && seed.Value() == old(seed.Value())
      ensures Publishes(h, seed.Value(), old(cur.Value()), Edit.DeleteUser(tid0, username), ok, cur.Value())
      ensures old(cur).Valid() && old(cur).Value() == old(cur.Value())
    {
      hide Snapshot.Valid, Snapshot.Value, Normalized, Edited, Publishes, CanonTid, HasUser, Keep, Unmanaged;
      ghost var c := cur.Value();
      DeletedUser(c, tid0, username);
      var next, found := UserDropped(cur, CanonTid(tid0), username);
      ok := false;
      if found {
        ok := Commit(next);
      }
      Outcome(h, seed.Value(), c, Edit.DeleteUser(tid0, username), ok, cur.Value());
    }

    method SetGraphEnabled(on: bool) returns (ok: bool)
      requires Valid()
      modifies `cur
      ensures Valid() && seed.Value() == old(seed.Value())
      ensures Publishes(h, seed.Value(), old(cur.Value()), Edit.SetGraphEnabled(on), ok, cur.Value())
      ensures old(cur).Valid() && old(cur).Value() == old(cur.Value())
    {
      hide Snapshot.Valid, Snapshot.Value, Normalized, Publishes, Edited, Switched;
      ghost var c := cur.Value();
      GraphEnabled(c, on);
      var next := GraphSwitched(cur, on);
      ok := Commit(next);
      Outcome(h, seed.Value(), c, Edit.SetGraphEnabled(on), ok, cur.Value());
    }
  }

  /** Normalizing a copy leaves the snapshots it is apart from alone. */
  method Validated(next: Snapshot, h: Digest, cur: Snapshot, seed: Snapshot) returns (ok: bool)
    requires next.Valid() && cur.Valid() && seed.Valid() && Apart(next, cur) && Apart(next, seed)
    modifies next, next.graph, next.tenants, next.consents, next.apps, next.users, next.groupArrays, next.claimArrays, next.widArrays
    ensures next.Valid() && ok == Normalized(h, old(next.Value())).Some?
    ensures ok ==> next.Value() == Normalized(h, old(next.Value())).value
    ensures cur.Valid() && cur.Value() == old(cur.Value()) && seed.Valid() && seed.Value() == old(seed.Value())
  {
    hide Snapshot.Valid, Snapshot.Value, Normalized;
    ok := next.Normalize(h);
  }

  /** No object normalize may write in s is reachable from t. */
  ghost predicate Apart(s: Snapshot, t: Snapshot)
    reads s, t
  {
    && s != t && (s.graph == null || s.graph != t.graph)
    && s.tenants != t.tenants && s.consents != t.consents && s.apps != t.apps && s.users != t.users
    && s.groupArrays !! t.groupArrays && s.claimArrays !! t.claimArrays && s.widArrays !! t.widArrays
  }

  /** The copy shares nothing with what existed before, apart from the two arrays the caller brought. */
  twostate predicate FreshBut(new s: Snapshot, groups: set<array<Group>>, wids: set<array<string>>)
    reads s
  {
    fresh(s) && fresh(s.tenants) && fresh(s.consents) && fresh(s.apps) && fresh(s.users) && (s.graph == null || fresh(s.graph))
    && (forall a | a in s.groupArrays && a !in groups :: fresh(a)) && (forall a | a in s.claimArrays :: fresh(a))
    && (forall a | a in s.widArrays && a !in wids :: fresh(a))
  }

  // ----- the edited copies -----

  method TenantAdded(c: Snapshot, t: TenantRec) returns (s: Snapshot)
    requires c.Valid()
    ensures s.Valid() && FreshBut(s, {t.groups}, {})
    ensures s.Value() == c.Value().(tenants := c.Value().tenants + [TenantValue(t)])
  {
    hide Snapshot.Valid, Snapshot.Value, TenantValue;
    s := Snapshot.Clone(c);
    AppendTenant(s, t);
  }

  method TenantReplaced(c: Snapshot, tid: string, t: TenantRec) returns (s: Snapshot, found: bool)
    requires c.Valid()
    ensures s.Valid() && FreshBut(s, {t.groups}, {})
    ensures var r := ReplaceFirst(c.Value().tenants, (x: Tenant) => x.tid == tid, TenantValue(t));
            found == r.Some? && (found ==> s.Value() == c.Value().(tenants := r.value))
  {
    hide Snapshot.Valid, Snapshot.Value, TenantValue, ReplaceFirst;
    s := Snapshot.Clone(c);
    found := ReplaceTenant(s, tid, t);
  }

  method TenantDropped(c: Snapshot, tid: string) returns (s: Snapshot, found: bool)
    requires c.Valid()
    ensures s.Valid() && FreshBut(s, {}, {})
    ensures found == HasTid(c.Value().tenants, tid)
    ensures found ==> s.Value() ==
                        c.Value().(tenants := Keep(c.Value().tenants, OtherTenant(tid)), users := Keep(c.Value().users, Outsider(tid)),
                                   consents := Keep(c.Value().consents, OtherConsent(tid)))
  {
    hide Snapshot.Valid, Snapshot.Value, HasTid, Keep;
    s := Snapshot.Clone(c);
    found := DropTenant(s, tid);
    if found {
      UserTids(s);
      var dropped := DropUsers(s, (r: UserRec) => r.u.tid != tid, Outsider(tid));
      DropConsents(s, tid);
    }
  }

  method UserAdded(c: Snapshot, u: UserRec) returns (s: Snapshot)
    requires c.Valid()
    ensures s.Valid() && FreshBut(s, {}, {u.wids})
    ensures s.Value() == c.Value().(users := c.Value().users + [UserValue(u)])
  {
    hide Snapshot.Valid, Snapshot.Value, UserValue;
    s := Snapshot.Clone(c);
    AppendUser(s, u);
  }

  method UserReplaced(c: Snapshot, tid: string, username: string, u: UserRec) returns (s: Snapshot, found: bool)
    requires c.Valid()
    ensures s.Valid() && FreshBut(s, {}, {u.wids})
    ensures var r := ReplaceFirst(c.Value().users, (x: User) => IsUser(x, tid, username), UserValue(u));
            found == r.Some? && (found ==> s.Value() == c.Value().(users := r.value))
  {
    hide Snapshot.Valid, Snapshot.Value, UserValue, ReplaceFirst;
    s := Snapshot.Clone(c);
    found := ReplaceUser(s, tid, username, u);
  }

  method UserDropped(c: Snapshot, tid: string, username: string) returns (s: Snapshot, found: bool)
    requires c.Valid()
    ensures s.Valid() && FreshBut(s, {}, {})
    ensures found == HasUser(c.Value(), tid, username)
    ensures found ==> s.Value() == c.Value().(users := Unmanaged(Keep(c.Value().users, OtherUser(tid, username)), tid, username))
  {
    hide Snapshot.Valid, Snapshot.Value, HasUser, Keep, Unmanaged;
    s := Snapshot.Clone(c);
    UserTids(s);
    HasUserIff(c.Value(), tid, username);
    found := DropUsers(s, (r: UserRec) => !(r.u.tid == tid && r.u.username == username), OtherUser(tid, username));
    if found {
      ClearManagers(s, tid, username);
    }
  }

  method SwitchGraph(s: Snapshot, on: bool)
    requires s.Valid()
    modifies s`graph, s.graph
    ensures s.Valid() && s.graph != null && (s.graph == old(s.graph) || fresh(s.graph))
    ensures var c := old(s.Value());
            s.Value() == c.(graph := Some(Switched(c.graph, on)))
  {
    hide TenantValues, AppValues, UserValues;
    if s.graph == null {
      s.graph := new GraphCell(NO_GRAPH);
    }
    s.graph.g := s.graph.g.(enabled := Some(on));
  }

  method GraphSwitched(c: Snapshot, on: bool) returns (s: Snapshot)
    requires c.Valid()
    ensures s.Valid() && FreshBut(s, {}, {})
    ensures var v := c.Value();
            s.Value() == v.(graph := Some(Switched(v.graph, on)))
  {
    hide Snapshot.Valid, Snapshot.Value;
    s := Snapshot.Clone(c);
    SwitchGraph(s, on);
  }

  // ----- what an edit publishes, one edit at a time -----

  /** The edit succeeds exactly when it is accepted, and what is published is the next configuration. */
  ghost predicate Publishes(h: Digest, seed: Config, before: Config, e: Edit, ok: bool, after: Config) {
    ok == Accepted(h, before, e).Some? && after == Next(h, seed, before, Mutate(e))
  }

  lemma Outcome(h: Digest, seed: Config, c: Config, e: Edit, ok: bool, after: Config)
    ensures Publishes(h, seed, c, e, ok, after) <==>
      if Edited(c, e).None? then !ok && after == c
      else ok == Normalized(h, Edited(c, e).value).Some? && after == if ok then Normalized(h, Edited(c, e).value).value else c
  {
    hide Edited, Normalized;
  }

  lemma CreatedTenant(c: Config, t: Tenant)
    ensures Edited(c, Edit.CreateTenant(t)) == Some(c.(tenants := c.tenants + [t]))
  {
  }

  lemma TenantUpdateOutcome(h: Digest, seed: Config, c: Config, tid0: string, t: Tenant, found: bool, edited: Config, ok: bool, after: Config)
    requires var tid := CanonTid(tid0); var r := ReplaceFirst(c.tenants, (x: Tenant) => x.tid == tid, t.(tid := tid));
             found == ((t.tid == "" || CanonTid(t.tid) == tid) && r.Some?) && (found ==> edited == c.(tenants := r.value))
    requires ok == (found && Normalized(h, edited).Some?) && after == if ok then Normalized(h, edited).value else c
    ensures Publishes(h, seed, c, Edit.UpdateTenant(tid0, t), ok, after)
  {
    hide CanonTid, ReplaceFirst, Normalized, Publishes;
    Outcome(h, seed, c, Edit.UpdateTenant(tid0, t), ok, after);
  }

  lemma UserUpdateOutcome(h: Digest, seed: Config, c: Config, tid0: string, username: string, u: User, found: bool, edited: Config,
                          ok: bool, after: Config)
    requires var tid := CanonTid(tid0); var v := u.(tid := tid, username := username);
             var r := ReplaceFirst(c.users, (x: User) => IsUser(x, tid, username), v);
             found == ((u.tid == "" || CanonTid(u.tid) == tid) && r.Some?) && (found ==> edited == c.(users := r.value))
    requires ok == (found && Normalized(h, edited).Some?) && after == if ok then Normalized(h, edited).value else c
    ensures Publishes(h, seed, c, Edit.UpdateUser(tid0, username, u), ok, after)
  {
    hide CanonTid, ReplaceFirst, Normalized, Publishes;
    Outcome(h, seed, c, Edit.UpdateUser(tid0, username, u), ok, after);
  }

  lemma DeletedTenant(c: Config, tid0: string)
    ensures var tid := CanonTid(tid0);
            Edited(c, Edit.DeleteTenant(tid0)) ==
              if HasTid(c.tenants, tid)
              then Some(c.(tenants := Keep(c.tenants, OtherTenant(tid)), users := Keep(c.users, Outsider(tid)),
                           consents := Keep(c.consents, OtherConsent(tid))))
              else None
  {
    hide CanonTid, HasTid, Keep;
  }

  lemma CreatedUser(c: Config, u: User)
    ensures Edited(c, Edit.CreateUser(u)) == Some(c.(users := c.users + [u]))
  {
  }

  lemma DeletedUser(c: Config, tid0: string, username: string)
    ensures var tid := CanonTid(tid0);
            Edited(c, Edit.DeleteUser(tid0, username)) ==
              if HasUser(c, tid, username)
              then Some(c.(users := Unmanaged(Keep(c.users, OtherUser(tid, username)), tid, username)))
              else None
  {
    hide CanonTid, HasUser, Keep, Unmanaged;
  }

  lemma GraphEnabled(c: Config, on: bool)
    ensures Edited(c, Edit.SetGraphEnabled(on)) ==
            Some(c.(graph := Some(Switched(c.graph, on))))
  {
  }

  lemma TenantRecValue(t: TenantRec, tid: string)
    ensures TenantValue(TenantRec(t.t.(tid := tid), t.groups)) == TenantValue(t).(tid := tid) && TenantValue(t).tid == t.t.tid
  {
  }

  lemma UserRecValue(u: UserRec, tid: string, username: string)
    ensures UserValue(UserRec(u.u.(tid := tid, username := username), u.wids)) == UserValue(u).(tid := tid, username := username)
    ensures UserValue(u).tid == u.u.tid
  {
  }

  lemma UserTids(s: Snapshot)
    requires s.Valid()
    ensures |s.Value().users| == s.userCount
    ensures forall i | 0 <= i < s.userCount :: s.users[i].u.tid == s.Value().users[i].tid && s.users[i].u.username == s.Value().users[i].username
  {
    assert forall i | 0 <= i < s.userCount :: UserIs(s.users[i], s.Value().users[i]);
  }

  lemma HasUserIff(c: Config, tid: string, username: string)
    ensures HasUser(c, tid, username) <==> exists u | u in c.users :: !OtherUser(tid, username)(u)
  {
    if HasUser(c, tid, username) {
      var i :| 0 <= i < |c.users| && c.users[i].tid == tid && c.users[i].username == username;
      assert c.users[i] in c.users;
    }
  }
}
