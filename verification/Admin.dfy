/** Admin operations over two stores: the directory and the runtime consents. */
module Admin {
  import opened Text
  import opened Directory
  import opened Edits
  import opened Snapshots
  import opened Consents
  import S = Store

  class Admin {
    const store: S.Store
    const consents: ConsentStore

    constructor (store: S.Store, consents: ConsentStore)
      ensures this.store == store && this.consents == consents
    {
      this.store, this.consents := store, consents;
    }

    /** Removes a tenant, its users and its consents; a refused deletion touches neither store. */
    method DeleteTenant(tid: string) returns (ok: bool)
      requires store.Valid()
      modifies store`cur, consents
      ensures store.Valid()
      ensures S.Publishes(store.h, store.seed.Value(), old(store.cur.Value()), Edit.DeleteTenant(tid), ok, store.cur.Value())
      ensures consents.granted == if ok then WithoutSuffix(old(consents.granted), tid) else old(consents.granted)
      ensures old(store.cur).Valid() && old(store.cur).Value() == old(store.cur.Value())
    {
      hide Snapshot.Valid, Snapshot.Value, S.Publishes;
      ok := store.DeleteTenant(tid);
      if !ok {
        return;
      }
      consents.RemoveTenant(tid);
    }

    /** Tenants, users and consents as configured at startup. */
    method ResetToSeed()
      requires store.Valid()
      modifies store`cur, consents
      ensures store.Valid() && store.cur.Value() == store.seed.Value() && consents.granted == Seeded(consents.seed)
    {
      hide Snapshot.Valid, Snapshot.Value;
      store.Reset();
      consents.Reset();
    }
  }
}
