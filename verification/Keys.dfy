/** The signing keys: the newest signs, the one before stays published. */
module Keys {
  import opened Text

  /** id stands for the key pair, kid for its published name. */
  datatype SigningKey = SigningKey(kid: string, id: nat)

  /** The n-th key generated. */
  function Key(n: nat): SigningKey {
    SigningKey("entra-" + Itoa(n), n)
  }

  /** What is published once n keys have been generated: the last two, oldest first. */
  function Published(n: nat): (ks: seq<SigningKey>)
    requires n >= 1
    ensures ks != [] && ks[|ks| - 1] == Key(n)
  {
    if n == 1 then [Key(1)] else [Key(n - 1), Key(n)]
  }

  /** A signed token: an ideal signature shows which key made it, and only that key can. */
  datatype Signed<C> = Signed(kid: string, signer: nat, claims: C)

  function ByKid(ks: seq<SigningKey>, kid: string): (r: Option<SigningKey>)
    ensures r.Some? ==> r.value in ks && r.value.kid == kid
    ensures r.None? ==> forall k | k in ks :: k.kid != kid
  {
    if ks == [] then None else if ks[0].kid == kid then Some(ks[0]) else ByKid(ks[1..], kid)
  }

  predicate Verifies<C>(ks: seq<SigningKey>, t: Signed<C>) {
    var k := ByKid(ks, t.kid);
    k.Some? && k.value.id == t.signer
  }

  function SignWith<C>(ks: seq<SigningKey>, claims: C): Signed<C>
    requires ks != []
  {
    Signed(ks[|ks| - 1].kid, ks[|ks| - 1].id, claims)
  }

  class KeySet {
    var keys: seq<SigningKey>
    var counter: nat

    ghost predicate Valid()
      reads this
    {
      counter >= 1 && keys == Published(counter)
    }

    constructor ()
      ensures Valid() && counter == 1
    {
      keys, counter := [], 0;
      new;
      var kid := Add();
    }

    /** Appends a key and drops all but the last two. */
    method Add() returns (kid: string)
      requires Valid() || (keys == [] && counter == 0)
      modifies this
      ensures Valid() && counter == old(counter) + 1 && kid == Key(counter).kid
    {
      counter := counter + 1;
      var key := SigningKey("entra-" + Itoa(counter), counter);
      keys := keys + [key];
      if |keys| > 2 {
        keys := keys[|keys| - 2..];
      }
      return key.kid;
    }

    method Rotate() returns (kid: string)
      requires Valid()
      modifies this
      ensures Valid() && counter == old(counter) + 1 && kid == Key(counter).kid
    {
      kid := Add();
    }

    method PublishedKids() returns (kids: seq<string>)
      requires Valid()
      ensures kids == if counter == 1 then [Key(1).kid] else [Key(counter - 1).kid, Key(counter).kid]
    {
      hide Key;
      kids := [];
      for i := 0 to |keys|
        invariant |kids| == i && forall j | 0 <= j < i :: kids[j] == keys[j].kid
      {
        kids := kids + [keys[i].kid];
      }
    }

    method FindKid(kid: string) returns (r: Option<SigningKey>)
      ensures r == ByKid(keys, kid)
    {
      for i := 0 to |keys|
        invariant ByKid(keys, kid) == ByKid(keys[i..], kid)
      {
        if keys[i].kid == kid {
          return Some(keys[i]);
        }
      }
      return None;
    }

    method Verify<C>(t: Signed<C>) returns (ok: bool)
      ensures ok == Verifies(keys, t)
    {
      var k := FindKid(t.kid);
      ok := k.Some? && k.value.id == t.signer;
    }
  }

  lemma KidsDiffer(m: nat, n: nat)
    ensures Key(m).kid == Key(n).kid <==> m == n
  {
    hide Digits;
    DigitsInjective(m, n);
    assert ("entra-" + Itoa(m))[6..] == Itoa(m) && ("entra-" + Itoa(n))[6..] == Itoa(n);
  }

  /** A token verifies exactly while its key is the newest or the one before. */
  lemma VerifiesForOneRotation<C>(n: nat, later: nat, claims: C)
    requires 1 <= n <= later
    ensures Verifies(Published(later), SignWith(Published(n), claims)) <==> later <= n + 1
  {
    hide Key;
    KidsDiffer(n, later);
    KidIs(n);
    KidIs(later);
    if later > 1 {
      KidsDiffer(n, later - 1);
      KidIs(later - 1);
    }
  }

  lemma KidIs(n: nat)
    ensures Key(n).id == n
  {
  }

  /** Whatever verifies was signed by a published key under its own name. */
  lemma OnlyPublishedKeysVerify<C>(later: nat, t: Signed<C>)
    requires later >= 1 && Verifies(Published(later), t)
    ensures t.kid == Key(t.signer).kid && (t.signer == later || t.signer == later - 1)
  {
    hide Itoa;
  }
}
