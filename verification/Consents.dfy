/** Admin consents held in memory, and the cascade when a tenant is deleted. */
module Consents {
  import opened Text
  import opened Directory
  import opened Normalize
  import opened Samples

  function Key(clientId: string, tid: string): string {
    clientId + "|" + Lower(tid)
  }

  type Grants = map<string, Consent>

  function Seeded(seed: seq<Consent>): Grants {
    if seed == [] then map[]
    else
      var last := seed[|seed| - 1];
      Seeded(seed[..|seed| - 1])[Key(last.clientId, last.tid) := Consent(last.clientId, Lower(last.tid))]
  }

  /** What is left once every key ending in |tid is dropped. */
  function WithoutSuffix(g: Grants, tid: string): Grants {
    map k | k in g && !HasSuffix(k, "|" + Lower(tid)) :: g[k]
  }

  /** What is left of the consents once one tenant's are dropped. */
  function WithoutTid(g: Grants, tid: string): Grants {
    map k | k in g && g[k].tid != tid :: g[k]
  }

  /** Every consent is kept under its own key, for a tenant id. */
  ghost predicate GrantsOk(g: Grants) {
    forall k | k in g :: IsGuid(g[k].tid) && k == Key(g[k].clientId, g[k].tid)
  }

  ghost predicate SeedOk(seed: seq<Consent>) {
    forall i | 0 <= i < |seed| :: IsGuid(seed[i].tid)
  }

  class ConsentStore {
    const seed: seq<Consent>
    var granted: Grants

    /** Seeded for configured tenants, and every consent under its own key. */
    ghost predicate Valid()
      reads this
    {
      SeedOk(seed) && GrantsOk(granted)
    }

    constructor (seed: seq<Consent>)
      ensures this.seed == seed && granted == Seeded(seed)
      ensures SeedOk(seed) ==> Valid()
    {
      this.seed := seed;
      granted := map[];
      new;
      Reset();
      if SeedOk(seed) {
        SeededOk(seed);
      }
    }

    method Grant(clientId: string, tid: string)
      modifies this
      ensures granted == old(granted)[Key(clientId, tid) := Consent(clientId, Lower(tid))]
      ensures old(Valid()) && IsGuid(tid) ==> Valid()
    {
      if GrantsOk(granted) && IsGuid(tid) {
        GrantKeepsOk(granted, clientId, tid);
      }
      granted := granted[Key(clientId, tid) := Consent(clientId, Lower(tid))];
    }

    method Has(clientId: string, tid: string) returns (ok: bool)
      ensures ok == (Key(clientId, tid) in granted)
      ensures Valid() && IsGuid(tid) ==> (ok <==> Consent(clientId, tid) in granted.Values)
    {
      ok := Key(clientId, tid) in granted;
      if GrantsOk(granted) && IsGuid(tid) {
        HeldUnderKey(granted, clientId, tid);
      }
    }

    method Reset()
      modifies this
      ensures granted == Seeded(seed)
      ensures SeedOk(seed) ==> Valid()
    {
      granted := map[];
      for i := 0 to |seed|
        invariant granted == Seeded(seed[..i])
      {
        assert seed[..i + 1][..i] == seed[..i];
        granted := granted[Key(seed[i].clientId, seed[i].tid) := Consent(seed[i].clientId, Lower(seed[i].tid))];
      }
      assert seed[..|seed|] == seed;
      if SeedOk(seed) {
        SeededOk(seed);
      }
    }

    method Remove(clientId: string, tid: string)
      modifies this
      ensures granted == old(granted) - {Key(clientId, tid)}
      ensures old(Valid()) ==> Valid()
    {
      granted := granted - {Key(clientId, tid)};
    }

    /** Visits the keys in any order. */
    method RemoveTenant(tid: string)
      modifies this
      ensures granted == WithoutSuffix(old(granted), tid)
      ensures old(Valid()) ==> Valid()
    {
      var suffix := "|" + Lower(tid);
      var todo := granted.Keys;
      while todo != {}
        invariant todo <= granted.Keys <= old(granted.Keys)
        invariant forall k | k in granted :: granted[k] == old(granted)[k]
        invariant forall k | k in old(granted) :: k in granted <==> k in todo || !HasSuffix(k, suffix)
        decreases todo
      {
        var k :| k in todo;
        todo := todo - {k};
        if HasSuffix(k, suffix) {
          granted := granted - {k};
        }
      }
    }
  }

  lemma {:induction false} SeededOk(seed: seq<Consent>)
    requires SeedOk(seed)
    ensures GrantsOk(Seeded(seed))
  {
    if seed != [] {
      SeededOk(seed[..|seed| - 1]);
      GuidIsCanonical(seed[|seed| - 1].tid);
      LowerIdempotent(seed[|seed| - 1].tid);
    }
  }

  lemma GrantKeepsOk(g: Grants, clientId: string, tid: string)
    requires GrantsOk(g) && IsGuid(tid)
    ensures GrantsOk(g[Key(clientId, tid) := Consent(clientId, Lower(tid))])
  {
    GuidIsCanonical(tid);
  }

  /** For a tenant id, a key determines its client and tenant. */
  lemma KeyIsUnique(a: string, tid: string, b: string, other: string)
    requires IsGuid(tid) && IsGuid(other)
    ensures Key(a, tid) == Key(b, other) <==> a == b && tid == other
  {
    GuidIsCanonical(tid);
    GuidIsCanonical(other);
    var k, l := Key(a, tid), Key(b, other);
    if k == l {
      assert k[|k| - 36..] == tid && l[|l| - 36..] == other;
      assert k[..|k| - 37] == a && l[..|l| - 37] == b;
    }
  }

  lemma HeldUnderKey(g: Grants, clientId: string, tid: string)
    requires GrantsOk(g) && IsGuid(tid)
    ensures Key(clientId, tid) in g <==> Consent(clientId, tid) in g.Values
  {
    hide IsGuid, Key;
    if Key(clientId, tid) in g {
      KeyIsUnique(clientId, tid, g[Key(clientId, tid)].clientId, g[Key(clientId, tid)].tid);
    }
    if Consent(clientId, tid) in g.Values {
      var k :| k in g && g[k] == Consent(clientId, tid);
    }
  }

  // ----- runs -----

  datatype ConsentOp = Grant(clientId: string, tid: string) | Remove(clientId: string, tid: string) | RemoveTenant(tid: string) | Reset

  function NextGrants(seed: seq<Consent>, g: Grants, op: ConsentOp): Grants {
    match op
    case Grant(clientId, tid) => g[Key(clientId, tid) := Consent(clientId, Lower(tid))]
    case Remove(clientId, tid) => g - {Key(clientId, tid)}
    case RemoveTenant(tid) => WithoutSuffix(g, tid)
    case Reset => Seeded(seed)
  }

  function GrantsAfter(seed: seq<Consent>, ops: seq<ConsentOp>): Grants {
    if ops == [] then Seeded(seed) else NextGrants(seed, GrantsAfter(seed, ops[..|ops| - 1]), ops[|ops| - 1])
  }

  /** Consents are granted for configured tenants only, whose ids are GUIDs. */
  predicate GrantedToTenant(op: ConsentOp) {
    op.Grant? ==> IsGuid(op.tid)
  }

  /** After any run every consent is kept under its own key. */
  lemma {:induction false} GrantsOkOnEveryRun(seed: seq<Consent>, ops: seq<ConsentOp>)
    requires SeedOk(seed) && forall i | 0 <= i < |ops| :: GrantedToTenant(ops[i])
    ensures GrantsOk(GrantsAfter(seed, ops))
  {
    hide IsGuid, Key, SeedOk;
    SeededOk(seed);
    if ops != [] {
      var n := |ops| - 1;
      GrantsOkOnEveryRun(seed, ops[..n]);
      if ops[n].Grant? {
        assert GrantedToTenant(ops[n]);
        GrantKeepsOk(GrantsAfter(seed, ops[..n]), ops[n].clientId, ops[n].tid);
      }
    }
  }

  /** Operation n - 1, or the seed for n == 0, gives the consent, and none since takes it away. */
  ghost predicate GrantedLast(seed: seq<Consent>, ops: seq<ConsentOp>, n: nat, cs: Consent)
    requires n <= |ops|
  {
    && (if n == 0 then Seeds(seed, cs) else Gives(seed, ops[n - 1], cs))
    && forall m | n <= m < |ops| :: !TakesAway(ops[m], cs)
  }

  ghost predicate StillGranted(seed: seq<Consent>, ops: seq<ConsentOp>, cs: Consent) {
    exists n | 0 <= n <= |ops| :: GrantedLast(seed, ops, n, cs)
  }

  ghost predicate Gives(seed: seq<Consent>, op: ConsentOp, cs: Consent) {
    op == Grant(cs.clientId, cs.tid) || (op.Reset? && Seeds(seed, cs))
  }

  ghost predicate Seeds(seed: seq<Consent>, cs: Consent) {
    exists i | 0 <= i < |seed| :: seed[i] == cs
  }

  /** A removal takes the consent under its key away, a cascade every one whose key ends in the
      lowercased id; a reset takes all of them away before seeding again. */
  predicate TakesAway(op: ConsentOp, cs: Consent) {
    match op
    case Grant(_, _) => false
    case Remove(clientId, tid) => Key(clientId, tid) == Key(cs.clientId, cs.tid)
    case RemoveTenant(tid) => HasSuffix(Key(cs.clientId, cs.tid), "|" + Lower(tid))
    case Reset => true
  }

  lemma {:induction false} SeededHolds(seed: seq<Consent>, cs: Consent)
    requires SeedOk(seed) && IsGuid(cs.tid)
    ensures Key(cs.clientId, cs.tid) in Seeded(seed) <==> Seeds(seed, cs)
  {
    hide IsGuid, Key;
    if seed != [] {
      var n := |seed| - 1;
      SeededHolds(seed[..n], cs);
      assert seed == seed[..n] + [seed[n]];
      KeyIsUnique(cs.clientId, cs.tid, seed[n].clientId, seed[n].tid);
    }
  }

  /** What one operation does to one consent. */
  lemma HeldAfterOp(seed: seq<Consent>, g: Grants, op: ConsentOp, cs: Consent)
    requires SeedOk(seed) && GrantsOk(g) && GrantedToTenant(op) && IsGuid(cs.tid)
    ensures Key(cs.clientId, cs.tid) in NextGrants(seed, g, op) <==>
              Gives(seed, op, cs) || (Key(cs.clientId, cs.tid) in g && !TakesAway(op, cs))
  {
    hide IsGuid, Key, Seeds, SeedOk, HasSuffix, Lower;
    match op {
      case Grant(clientId, tid) => KeyIsUnique(cs.clientId, cs.tid, clientId, tid);
      case Remove(_, _) =>
      case RemoveTenant(_) =>
      case Reset => SeededHolds(seed, cs);
    }
  }

  /** A consent is held after a run exactly when it was granted or seeded and not taken away since. */
  lemma {:induction false} HeldExactly(seed: seq<Consent>, ops: seq<ConsentOp>, cs: Consent)
    requires SeedOk(seed) && IsGuid(cs.tid) && forall i | 0 <= i < |ops| :: GrantedToTenant(ops[i])
    ensures Key(cs.clientId, cs.tid) in GrantsAfter(seed, ops) <==> StillGranted(seed, ops, cs)
  {
    hide IsGuid, Key, Seeds, SeedOk, StillGranted, NextGrants, TakesAway, Gives;
    if ops == [] {
      SeededHolds(seed, cs);
      NothingRun(seed, cs);
    } else {
      var n := |ops| - 1;
      HeldExactly(seed, ops[..n], cs);
      GrantsOkOnEveryRun(seed, ops[..n]);
      HeldAfterOp(seed, GrantsAfter(seed, ops[..n]), ops[n], cs);
      StillGrantedStep(seed, ops, cs);
    }
  }

  lemma NothingRun(seed: seq<Consent>, cs: Consent)
    ensures StillGranted(seed, [], cs) <==> Seeds(seed, cs)
  {
    hide Seeds;
    assert GrantedLast(seed, [], 0, cs) <==> Seeds(seed, cs);
  }

  lemma StillGrantedStep(seed: seq<Consent>, ops: seq<ConsentOp>, cs: Consent)
    requires ops != []
    ensures var n := |ops| - 1;
            StillGranted(seed, ops, cs) <==> Gives(seed, ops[n], cs) || (StillGranted(seed, ops[..n], cs) && !TakesAway(ops[n], cs))
  {
    hide Seeds, TakesAway, Gives;
    var n := |ops| - 1;
    var before := ops[..n];
    forall k | 0 <= k <= n
      ensures GrantedLast(seed, ops, k, cs) <==> GrantedLast(seed, before, k, cs) && !TakesAway(ops[n], cs)
    {
      assert forall m | 0 <= m < n :: ops[m] == before[m];
    }
    assert GrantedLast(seed, ops, |ops|, cs) <==> Gives(seed, ops[n], cs);
  }

  // ----- the cascade -----

  lemma KeyEnds(clientId: string, tid: string, gone: string)
    requires IsGuid(tid) && IsGuid(gone)
    ensures HasSuffix(Key(clientId, tid), "|" + gone) <==> tid == gone
  {
    GuidIsCanonical(tid);
    var k := Key(clientId, tid);
    assert k[|k| - 37..] == "|" + tid;
    assert ("|" + tid)[1..] == tid && ("|" + gone)[1..] == gone;
  }

  lemma SuffixChar(k: string, s: string, j: nat)
    requires HasSuffix(k, s) && 1 <= j <= |s|
    ensures k[|k| - j] == s[|s| - j]
  {
    assert k[|k| - |s|..][|s| - j] == k[|k| - j];
  }

  /** A blank padded id has a blank at its end, or before the last 36 characters. */
  lemma PaddedBlank(padded: string)
    requires IsGuid(Lower(Trim(padded))) && Trim(padded) != padded
    ensures padded != "" && (IsSpace(padded[|padded| - 1]) || (|padded| > 36 && IsSpace(padded[|padded| - 37])))
  {
    var left := TrimLeft(padded);
    TrimLeftDrops(padded);
    TrimRightDrops(left);
    if !IsSpace(padded[|padded| - 1]) {
      assert left != "" ==> left[|left| - 1] == padded[|padded| - 1];
      assert Trim(padded) == left && |left| == 36;
    }
  }

  /** A padded id is a suffix of no key: the key ends in the 36 characters of an id after a bar. */
  lemma PaddedSuffix(clientId: string, tid: string, padded: string)
    requires IsGuid(tid) && IsGuid(Lower(Trim(padded))) && Trim(padded) != padded
    ensures !HasSuffix(Key(clientId, tid), "|" + Lower(padded))
  {
    hide HasSuffix, Trim, IsGuid;
    GuidIsCanonical(tid);
    PaddedBlank(padded);
    GuidEnds(tid);
    var k, s := Key(clientId, tid), "|" + Lower(padded);
    assert k == clientId + "|" + tid && k[|k| - 1] == tid[35] && k[|k| - 37] == '|';
    assert s[|s| - 1] == LowerChar(padded[|padded| - 1]);
    assert |padded| > 36 ==> s[|s| - 37] == LowerChar(padded[|padded| - 37]);
    if HasSuffix(k, s) {
      if |padded| > 36 {
        SuffixChar(k, s, 37);
      }
      SuffixChar(k, s, 1);
    }
  }

  lemma GuidEnds(tid: string)
    requires IsGuid(tid)
    ensures |tid| == 36 && !IsSpace(tid[35])
  {
    assert IsHexDigit(tid[35]);
  }

  /** After a tenant is deleted, its runtime consents and no others are gone exactly when the id was
      given without surrounding blanks, or the tenant had none: the store trims the id, the consent
      cascade does not. */
  lemma CascadeExactly(g: Grants, tid: string)
    requires GrantsOk(g) && IsGuid(CanonTid(tid))
    ensures WithoutSuffix(g, tid) == WithoutTid(g, CanonTid(tid)) <==>
            Trim(tid) == tid || forall k | k in g :: g[k].tid != CanonTid(tid)
  {
    hide Key, HasSuffix, IsGuid, Trim, Lower;
    if Trim(tid) == tid {
      forall k | k in g
        ensures HasSuffix(k, "|" + Lower(tid)) <==> g[k].tid == CanonTid(tid)
      {
        KeyEnds(g[k].clientId, g[k].tid, CanonTid(tid));
      }
    } else {
      forall k | k in g
        ensures !HasSuffix(k, "|" + Lower(tid))
      {
        PaddedSuffix(g[k].clientId, g[k].tid, tid);
      }
      assert WithoutSuffix(g, tid) == g;
      if k :| k in g && g[k].tid == CanonTid(tid) {
        assert k in g && k !in WithoutTid(g, CanonTid(tid));
      } else {
        assert WithoutTid(g, CanonTid(tid)) == g;
      }
    }
  }

  /** The same after any run. */
  lemma CascadeOnEveryRun(seed: seq<Consent>, ops: seq<ConsentOp>, tid: string)
    requires SeedOk(seed) && (forall i | 0 <= i < |ops| :: GrantedToTenant(ops[i])) && IsGuid(CanonTid(tid))
    ensures var g := GrantsAfter(seed, ops);
            WithoutSuffix(g, tid) == WithoutTid(g, CanonTid(tid)) <==>
              Trim(tid) == tid || forall k | k in g :: g[k].tid != CanonTid(tid)
  {
    hide GrantsAfter, WithoutSuffix, WithoutTid, GrantsOk, CanonTid, IsGuid, Trim;
    GrantsOkOnEveryRun(seed, ops);
    CascadeExactly(GrantsAfter(seed, ops), tid);
  }

  /** The id given with a blank before it: the store would delete the tenant, its consent stays. */
  lemma PaddedCascadeFails()
    ensures var g: Grants := map[Key("app", Guid('1')) := Consent("app", Guid('1'))]; var tid := " " + Guid('1');
            && GrantsOk(g) && CanonTid(tid) == Guid('1') && WithoutSuffix(g, tid) == g && WithoutTid(g, CanonTid(tid)) == map[]
  {
    hide Guid, Key, IsGuid, Lower, Trim;
    var one := Guid('1');
    var g: Grants := map[Key("app", one) := Consent("app", one)];
    GuidStays('1');
    GuidStarts();
    TrimsBlank(one);
    PaddedSuffix("app", one, " " + one);
  }

  lemma GuidStarts()
    ensures Guid('1')[0] == '1'
  {
  }

  lemma TrimsBlank(s: string)
    requires s != "" && Trim(s) == s && !IsSpace(s[0])
    ensures Trim(" " + s) == s && Trim(" " + s) != " " + s
  {
    hide TrimRight;
    TrimLeftDrops(s);
    assert (" " + s)[0] == ' ' && (" " + s)[1..] == s;
    assert TrimLeft(" " + s) == TrimLeft(s) == s;
  }
}
