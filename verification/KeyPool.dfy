/** One signing key per issuer, from an ordered pool while it lasts: calls that interleave between
    looking the issuer up, taking a key and storing it if no other call was faster. */
module KeyPool {
  import opened Text

  /** pair stands for the key material, kid for the name it is published under. */
  datatype Key = Key(pair: nat, kid: string)

  // ----- one call at a time -----

  /** The provider between calls: the pool left, the next pair to be generated, the keys stored. */
  datatype Provider = Provider(pool: seq<nat>, unused: nat, stored: map<string, Key>)

  function TakeKey(p: Provider, issuer: string): (Key, Provider) {
    if p.pool != [] then (Key(p.pool[0], issuer), p.(pool := p.pool[1..]))
    else (Key(p.unused, issuer), p.(unused := p.unused + 1))
  }

  function CallAlone(p: Provider, issuer: string): (Key, Provider) {
    if issuer in p.stored then (p.stored[issuer], p)
    else var (key, q) := TakeKey(p, issuer); (key, q.(stored := q.stored[issuer := key]))
  }

  class KeyProvider {
    var initial: seq<nat>
    var unused: nat
    var keys: map<string, Key>

    function Value(): Provider
      reads this
    {
      Provider(initial, unused, keys)
    }

    constructor (pool: seq<nat>, unused: nat)
      ensures Value() == Provider(pool, unused, map[])
    {
      initial, this.unused, keys := pool, unused, map[];
    }

    method KeyFromPoolOrNew(issuer: string) returns (key: Key)
      modifies this
      ensures (key, Value()) == TakeKey(old(Value()), issuer)
    {
      if |initial| > 0 {
        var pooled := initial[0];
        initial := initial[1..];
        return Key(pooled, issuer);
      }
      key := Key(unused, issuer);
      unused := unused + 1;
    }

    method SigningKey(issuer: string) returns (key: Key)
      modifies this
      ensures (key, Value()) == CallAlone(old(Value()), issuer)
    {
      if issuer in keys {
        return keys[issuer];
      }
      key := KeyFromPoolOrNew(issuer);
      key := LoadOrStore(issuer, key);
    }

    method LoadOrStore(issuer: string, key: Key) returns (actual: Key)
      modifies `keys
      ensures keys == if issuer in old(keys) then old(keys) else old(keys)[issuer := key]
      ensures actual == if issuer in old(keys) then old(keys)[issuer] else key
    {
      if issuer in keys {
        return keys[issuer];
      }
      keys := keys[issuer := key];
      actual := key;
    }
  }

  function After(p: Provider, issuers: seq<string>): Provider {
    if issuers == [] then p else CallAlone(After(p, issuers[..|issuers| - 1]), issuers[|issuers| - 1]).1
  }

  /** Issuers served one after the other get the pool in its order, then fresh pairs. */
  lemma {:induction false} PoolInOrder(pool: seq<nat>, unused: nat, issuers: seq<string>, i: nat)
    requires i < |issuers| && forall j, k | 0 <= j < k < |issuers| :: issuers[j] != issuers[k]
    ensures var p := After(Provider(pool, unused, map[]), issuers);
            && issuers[i] in p.stored
            && p.stored[issuers[i]] == Key(if i < |pool| then pool[i] else unused + (i - |pool|), issuers[i])
    ensures var p := After(Provider(pool, unused, map[]), issuers);
            && (forall s | s in p.stored :: s in issuers)
            && p.pool == (if |issuers| < |pool| then pool[|issuers|..] else [])
            && p.unused == if |issuers| < |pool| then unused else unused + (|issuers| - |pool|)
  {
    var n := |issuers| - 1;
    if n > 0 {
      PoolInOrder(pool, unused, issuers[..n], if i < n then i else 0);
    } else {
      assert issuers[..0] == [];
    }
    var before := After(Provider(pool, unused, map[]), issuers[..n]);
    assert issuers[n] !in before.stored by {
      assert forall s | s in issuers[..n] :: s != issuers[n];
    }
    assert forall s | s in issuers[..n] :: s in issuers;
    assert issuers[n] in issuers;
  }

  // ----- interleaved calls -----

  datatype Call = Start(issuer: string) | Missed(issuer: string) | Holding(issuer: string, key: Key) | Done(issuer: string, key: Key)

  /** Where a pair is: a history of the run, read by no step. */
  datatype Place = InPool | HeldBy(call: nat) | Serving(issuer: string) | Discarded

  datatype State = State(provider: Provider, calls: map<nat, Call>, place: map<nat, Place>)

  datatype Event = Begin(id: nat, issuer: string) | Load(id: nat) | Take(id: nat) | Store(id: nat)

  /** Each event is atomic; one that the call is not ready for does nothing. */
  function Next(s: State, e: Event): State {
    var p := s.provider;
    if e.Begin? then
      if e.id in s.calls then s else s.(calls := s.calls[e.id := Start(e.issuer)])
    else if e.id !in s.calls then s
    else
      var call := s.calls[e.id];
      if e.Load? && call.Start? then
        s.(calls := s.calls[e.id := if call.issuer in p.stored then Done(call.issuer, p.stored[call.issuer]) else Missed(call.issuer)])
      else if e.Take? && call.Missed? then
        var (key, q) := TakeKey(p, call.issuer);
        State(q, s.calls[e.id := Holding(call.issuer, key)], s.place[key.pair := HeldBy(e.id)])
      else if e.Store? && call.Holding? then
        if call.issuer in p.stored then
          s.(calls := s.calls[e.id := Done(call.issuer, p.stored[call.issuer])], place := s.place[call.key.pair := Discarded])
        else
          State(p.(stored := p.stored[call.issuer := call.key]), s.calls[e.id := Done(call.issuer, call.key)],
                s.place[call.key.pair := Serving(call.issuer)])
      else s
  }

  function Initial(pool: seq<nat>, unused: nat): State {
    State(Provider(pool, unused, map[]), map[], map p | p in pool :: InPool)
  }

  function Run(pool: seq<nat>, unused: nat, es: seq<Event>): State {
    if es == [] then Initial(pool, unused) else Next(Run(pool, unused, es[..|es| - 1]), es[|es| - 1])
  }

  predicate PoolOk(pool: seq<nat>, unused: nat) {
    (forall i, j | 0 <= i < j < |pool| :: pool[i] != pool[j]) && forall p | p in pool :: p < unused
  }

  // ----- what every interleaving keeps -----

  /** The pool left is the tail of the initial one; pairs are accounted for. */
  ghost predicate PairsOk(pool: seq<nat>, s: State) {
    && |s.provider.pool| <= |pool| && s.provider.pool == pool[|pool| - |s.provider.pool|..]
    && (forall p | p in pool :: p in s.place)
    && (forall p | p in s.place :: p < s.provider.unused)
    && (forall p | p in s.place :: s.place[p] == InPool <==> p in s.provider.pool)
  }

  /** A pair is held by exactly the call its place names. */
  ghost predicate HeldOk(s: State) {
    && (forall id | id in s.calls && s.calls[id].Holding? ::
          var key := s.calls[id].key; key.kid == s.calls[id].issuer && key.pair in s.place && s.place[key.pair] == HeldBy(id))
    && (forall p | p in s.place && s.place[p].HeldBy? ::
          s.place[p].call in s.calls && s.calls[s.place[p].call].Holding? && s.calls[s.place[p].call].key.pair == p)
  }

  /** A pair serves exactly the issuer its place names, under that issuer's name. */
  ghost predicate StoredOk(s: State) {
    && (forall i | i in s.provider.stored ::
          var key := s.provider.stored[i]; key.kid == i && key.pair in s.place && s.place[key.pair] == Serving(i))
    && (forall p | p in s.place && s.place[p].Serving? ::
          s.place[p].issuer in s.provider.stored && s.provider.stored[s.place[p].issuer].pair == p)
  }

  /** Whatever a call returned is what is stored for its issuer. */
  ghost predicate DoneOk(s: State) {
    forall id | id in s.calls && s.calls[id].Done? ::
      s.calls[id].issuer in s.provider.stored && s.provider.stored[s.calls[id].issuer] == s.calls[id].key
  }

  ghost predicate Invariant(pool: seq<nat>, s: State) {
    PairsOk(pool, s) && HeldOk(s) && StoredOk(s) && DoneOk(s)
  }

  lemma NextKeepsPairs(pool: seq<nat>, s: State, e: Event)
    requires Invariant(pool, s) && PoolOk(pool, s.provider.unused)
    ensures PairsOk(pool, Next(s, e)) && s.provider.unused <= Next(s, e).provider.unused
  {
    var left := s.provider.pool;
    if e.Take? && e.id in s.calls && s.calls[e.id].Missed? && left != [] {
      var k := |pool| - |left|;
      assert left[1..] == pool[k + 1..] && left[0] == pool[k];
      assert left[0] !in left[1..] by {
        assert forall i | 0 <= i < |left[1..]| :: left[1..][i] == pool[k + 1 + i];
      }
      assert forall p :: p in left <==> p == left[0] || p in left[1..];
    }
  }

  lemma NextKeepsHeld(pool: seq<nat>, s: State, e: Event)
    requires Invariant(pool, s) && PoolOk(pool, s.provider.unused)
    ensures HeldOk(Next(s, e))
  {
  }

  lemma NextKeepsStored(pool: seq<nat>, s: State, e: Event)
    requires Invariant(pool, s) && PoolOk(pool, s.provider.unused)
    ensures StoredOk(Next(s, e)) && DoneOk(Next(s, e))
  {
  }

  lemma {:induction false} RunKeeps(pool: seq<nat>, unused: nat, es: seq<Event>)
    requires PoolOk(pool, unused)
    ensures Invariant(pool, Run(pool, unused, es)) && PoolOk(pool, Run(pool, unused, es).provider.unused)
  {
    hide Next, PairsOk, HeldOk, StoredOk, DoneOk;
    if es == [] {
      InitialOk(pool, unused);
    } else {
      var before := Run(pool, unused, es[..|es| - 1]);
      RunKeeps(pool, unused, es[..|es| - 1]);
      NextKeepsPairs(pool, before, es[|es| - 1]);
      NextKeepsHeld(pool, before, es[|es| - 1]);
      NextKeepsStored(pool, before, es[|es| - 1]);
    }
  }

  lemma InitialOk(pool: seq<nat>, unused: nat)
    requires PoolOk(pool, unused)
    ensures Invariant(pool, Initial(pool, unused))
  {
  }

  /** In every interleaving, no pair serves two issuers, every key stored or returned carries its
      issuer's name, and each pool pair is in exactly one place: the pool, one unfinished call, one issuer, or discarded. */
  lemma EveryInterleaving(pool: seq<nat>, unused: nat, es: seq<Event>)
    requires PoolOk(pool, unused)
    ensures var p := Run(pool, unused, es).provider;
            && (forall i, j | i in p.stored && j in p.stored && p.stored[i].pair == p.stored[j].pair :: i == j)
            && forall i | i in p.stored :: p.stored[i].kid == i
    ensures var calls := Run(pool, unused, es).calls;
            forall id | id in calls && calls[id].Done? :: calls[id].key.kid == calls[id].issuer
    ensures var s := Run(pool, unused, es);
            forall n | n in pool :: n in s.place &&
              match s.place[n] {
                case InPool => n in s.provider.pool
                case HeldBy(id) => id in s.calls && s.calls[id].Holding? && s.calls[id].key.pair == n
                case Serving(i) => i in s.provider.stored && s.provider.stored[i].pair == n
                case Discarded => true
              }
    ensures var s := Run(pool, unused, es);
            forall n | n in pool ::
              && (n in s.provider.pool ==> s.place[n] == InPool)
              && (forall id | id in s.calls && s.calls[id].Holding? && s.calls[id].key.pair == n :: s.place[n] == HeldBy(id))
              && (forall i | i in s.provider.stored && s.provider.stored[i].pair == n :: s.place[n] == Serving(i))
  {
    hide Run, PoolOk;
    RunKeeps(pool, unused, es);
  }

  lemma NextIsStable(pool: seq<nat>, s: State, e: Event, id: nat)
    requires Invariant(pool, s) && id in s.calls && s.calls[id].Done?
    ensures id in Next(s, e).calls && Next(s, e).calls[id] == s.calls[id]
    ensures forall i | i in s.provider.stored :: i in Next(s, e).provider.stored && Next(s, e).provider.stored[i] == s.provider.stored[i]
  {
  }

  /** A key once returned for an issuer is returned to every call for it, then and ever after. */
  lemma {:induction false} ReturnedKeyNeverChanges(pool: seq<nat>, unused: nat, es: seq<Event>, more: seq<Event>, id: nat, id': nat)
    requires PoolOk(pool, unused)
    requires id in Run(pool, unused, es).calls && Run(pool, unused, es).calls[id].Done?
    ensures var s, t := Run(pool, unused, es), Run(pool, unused, es + more);
            && id in t.calls && t.calls[id] == s.calls[id]
            && (id' in t.calls && t.calls[id'].Done? && t.calls[id'].issuer == s.calls[id].issuer ==> t.calls[id'].key == s.calls[id].key)
  {
    hide Next, PairsOk, HeldOk, StoredOk;
    RunKeeps(pool, unused, es + more);
    if more == [] {
      assert es + more == es;
    } else {
      var n := |more| - 1;
      assert (es + more)[..|es + more| - 1] == es + more[..n];
      ReturnedKeyNeverChanges(pool, unused, es, more[..n], id, id');
      RunKeeps(pool, unused, es + more[..n]);
      NextIsStable(pool, Run(pool, unused, es + more[..n]), more[n], id);
    }
  }

  /** A call that runs without interruption does what the sequential provider does. */
  lemma UninterruptedCall(s: State, id: nat, issuer: string)
    requires id !in s.calls
    ensures var t := Next(Next(Next(Next(s, Begin(id, issuer)), Load(id)), Take(id)), Store(id));
            && t.provider == CallAlone(s.provider, issuer).1
            && id in t.calls && t.calls[id] == Done(issuer, CallAlone(s.provider, issuer).0)
  {
  }
}
