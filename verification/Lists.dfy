/** Filtering lists. */
module Lists {
  /** The elements satisfying p, in order. */
  function Keep<T>(xs: seq<T>, p: T -> bool): seq<T> {
    if xs == [] then [] else (if p(xs[0]) then [xs[0]] else []) + Keep(xs[1..], p)
  }

  lemma {:induction false} KeepIn<T>(xs: seq<T>, p: T -> bool)
    ensures forall x :: x in Keep(xs, p) <==> x in xs && p(x)
  {
    if xs != [] {
      KeepIn(xs[1..], p);
    }
  }

  lemma KeepStep<T>(xs: seq<T>, i: nat, p: T -> bool)
    requires i < |xs|
    ensures Keep(xs[..i + 1], p) == Keep(xs[..i], p) + if p(xs[i]) then [xs[i]] else []
    decreases |xs|
  {
    if i == 0 {
      assert xs[..1] == [xs[0]] && xs[..1][1..] == [] && xs[..0] == [];
    } else {
      KeepStep(xs[1..], i - 1, p);
      assert xs[..i + 1][1..] == xs[1..][..i] && xs[..i][1..] == xs[1..][..i - 1];
    }
  }

  lemma {:induction false} KeepAll<T>(xs: seq<T>, p: T -> bool)
    requires forall x | x in xs :: p(x)
    ensures Keep(xs, p) == xs
  {
    if xs != [] {
      KeepAll(xs[1..], p);
      assert [xs[0]] + xs[1..] == xs;
    }
  }

  lemma {:induction false} KeepSame<T>(xs: seq<T>, p: T -> bool, q: T -> bool)
    requires forall x | x in xs :: p(x) == q(x)
    ensures Keep(xs, p) == Keep(xs, q)
  {
    if xs != [] {
      KeepSame(xs[1..], p, q);
    }
  }

  lemma {:induction false} KeepIsShorter<T>(xs: seq<T>, p: T -> bool)
    ensures |Keep(xs, p)| <= |xs|
  {
    if xs != [] {
      KeepIsShorter(xs[1..], p);
    }
  }

  /** Every kept element as often as it was there. */
  lemma {:induction false} KeepCounts<T>(xs: seq<T>, p: T -> bool, x: T)
    ensures multiset(Keep(xs, p))[x] == if p(x) then multiset(xs)[x] else 0
  {
    if xs != [] {
      KeepCounts(xs[1..], p, x);
      assert xs == [xs[0]] + xs[1..];
    }
  }
}
