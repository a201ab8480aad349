/** Whole runs of the store: what was once published keeps its value for ever. */
module History {
  import opened Text
  import opened Directory
  import opened Normalize
  import opened Passes
  import opened Snapshots
  import opened Slices
  import opened Edits
  import S = Store

  method ListOf<T>(xs: seq<T>) returns (a: array<T>)
    ensures fresh(a) && a[..] == xs
  {
    a := new T[|xs|](i requires 0 <= i < |xs| => xs[i]);
  }

  /** A tenant record of the caller's own. */
  method TenantArgument(t: Tenant) returns (r: TenantRec)
    ensures fresh(r.groups) && TenantValue(r) == t
  {
    var groups := ListOf(t.groups);
    r := TenantRec(t, groups);
  }

  method UserArgument(u: User) returns (r: UserRec)
    ensures fresh(r.wids) && UserValue(r) == u
  {
    var wids := ListOf(u.wids);
    r := UserRec(u, wids);
  }

  /** One call that edits tenants, its argument built for it. */
  method ApplyToTenants(store: S.Store, e: Edit)
    requires store.Valid() && (e.CreateTenant? || e.UpdateTenant? || e.DeleteTenant?)
    modifies store`cur
    ensures store.Valid() && store.seed.Value() == old(store.seed.Value())
    ensures store.cur.Value() == Next(store.h, old(store.seed.Value()), old(store.cur.Value()), Mutate(e))
  {
    hide Snapshot.Valid, Snapshot.Value, TenantValue, UserValue, Next, Accepted;
    match e {
      case CreateTenant(t) =>
        var r := TenantArgument(t);
        var ok := store.CreateTenant(r);
      case UpdateTenant(tid, t) =>
        var r := TenantArgument(t);
        var ok := store.UpdateTenant(tid, r);
      case DeleteTenant(tid) =>
        var ok := store.DeleteTenant(tid);
    }
  }

  method ApplyToUsers(store: S.Store, e: Edit)
    requires store.Valid() && (e.CreateUser? || e.UpdateUser? || e.DeleteUser?)
    modifies store`cur
    ensures store.Valid() && store.seed.Value() == old(store.seed.Value())
    ensures store.cur.Value() == Next(store.h, old(store.seed.Value()), old(store.cur.Value()), Mutate(e))
  {
    hide Snapshot.Valid, Snapshot.Value, TenantValue, UserValue, Next, Accepted;
    match e {
      case CreateUser(u) =>
        var r := UserArgument(u);
        var ok := store.CreateUser(r);
      case UpdateUser(tid, username, u) =>
        var r := UserArgument(u);
        var ok := store.UpdateUser(tid, username, r);
      case DeleteUser(tid, username) =>
        var ok := store.DeleteUser(tid, username);
    }
  }

  method Apply(store: S.Store, op: Op)
    requires store.Valid()
    modifies store`cur
    ensures store.Valid() && store.seed.Value() == old(store.seed.Value())
    ensures store.cur.Value() == Next(store.h, old(store.seed.Value()), old(store.cur.Value()), op)
  {
    hide Snapshot.Valid, Snapshot.Value, TenantValue, UserValue, Next, Accepted;
    if op.Reset? {
      store.Reset();
    } else if op.edit.SetGraphEnabled? {
      var ok := store.SetGraphEnabled(op.edit.on);
    } else if op.edit.CreateTenant? || op.edit.UpdateTenant? || op.edit.DeleteTenant? {
      ApplyToTenants(store, op.edit);
    } else {
      ApplyToUsers(store, op.edit);
    }
  }

  /** After any run of calls, accepted or refused, each snapshot published on the way still has
      the value it was published with: that of the run on values up to there. */
  method Play(h: Digest, seed: Snapshot, ops: seq<Op>) returns (store: S.Store, ghost published: seq<Snapshot>)
    requires seed.Valid()
    ensures store.Valid() && |published| == |ops| + 1 && published[|ops|] == store.cur
    ensures forall i | 0 <= i <= |ops| :: published[i].Valid() && published[i].Value() == Run(h, old(seed.Value()), ops[..i])
  {
    hide Snapshot.Valid, Snapshot.Value, Next;
    ghost var first := seed.Value();
    store := new S.Store(h, seed);
    published := [store.cur];
    for n := 0 to |ops|
      invariant store.Valid() && store.h == h && store.seed == seed && seed.Value() == first
      invariant |published| == n + 1 && published[n] == store.cur
      invariant forall i | 0 <= i <= n :: published[i].Valid() && published[i].Value() == Run(h, first, ops[..i])
    {
      assert ops[..n + 1][..n] == ops[..n];
      Apply(store, ops[n]);
      published := published + [store.cur];
    }
  }
}
