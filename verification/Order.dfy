/** Sorting by a string key: what every list the Graph surface answers with satisfies. */
module Order {
  /** Byte-wise string order (ASCII). */
  predicate Less(a: string, b: string) {
    b != [] && (a == [] || a[0] < b[0] || (a[0] == b[0] && Less(a[1..], b[1..])))
  }

  /** A proper prefix, or less at the first place that differs. */
  lemma {:induction false} LessMeans(a: string, b: string)
    ensures Less(a, b) <==> exists k :: 0 <= k <= |a| && k < |b| && a[..k] == b[..k] && (k == |a| || a[k] < b[k])
  {
    if a != [] && b != [] && a[0] == b[0] {
      LessMeans(a[1..], b[1..]);
      forall k | 0 < k <= |a| && k < |b|
        ensures a[..k] == b[..k] <==> a[1..][..k - 1] == b[1..][..k - 1]
      {
        assert a[..k] == [a[0]] + a[1..][..k - 1] && b[..k] == [b[0]] + b[1..][..k - 1];
      }
      if k :| 0 <= k <= |a[1..]| && k < |b[1..]| && a[1..][..k] == b[1..][..k] && (k == |a[1..]| || a[1..][k] < b[1..][k]) {
        assert a[..k + 1] == b[..k + 1];
      }
    } else if b != [] && (a == [] || a[0] < b[0]) {
      assert a[..0] == b[..0];
    } else if a != [] && b != [] {
      assert forall k | 0 < k <= |a| && k < |b| :: a[..k][0] != b[..k][0];
    }
  }

  lemma {:induction false} LessTotal(a: string, b: string)
    ensures Less(a, b) || Less(b, a) || a == b
    ensures !(Less(a, b) && Less(b, a))
    ensures !Less(a, a)
  {
    if a != [] {
      LessTotal(a[1..], a[1..]);
      if b != [] {
        LessTotal(a[1..], b[1..]);
        assert a == [a[0]] + a[1..] && b == [b[0]] + b[1..];
      }
    }
  }

  lemma {:induction false} LessTransitive(a: string, b: string, c: string)
    requires !Less(b, a) && !Less(c, b)
    ensures !Less(c, a)
  {
    if a != [] && b != [] && c != [] && a[0] == b[0] == c[0] {
      LessTransitive(a[1..], b[1..], c[1..]);
    }
  }

  ghost predicate Sorted<T>(s: seq<T>, key: T -> string) {
    forall i, j | 0 <= i < j < |s| :: !Less(key(s[j]), key(s[i]))
  }

  /** out holds the elements of s, ordered by key; elements with equal keys come in any order. */
  ghost predicate SortOf<T>(out: seq<T>, s: seq<T>, key: T -> string) {
    multiset(out) == multiset(s) && Sorted(out, key)
  }

  lemma SortKeeps<T>(out: seq<T>, s: seq<T>, key: T -> string)
    requires SortOf(out, s, key)
    ensures |out| == |s| && forall x :: x in out <==> x in s
  {
    assert |multiset(out)| == |out| && |multiset(s)| == |s|;
    forall x
      ensures x in out <==> x in s
    {
      assert (x in multiset(out)) == (x in multiset(s));
    }
  }

  ghost predicate DistinctKeys<T>(s: seq<T>, key: T -> string) {
    forall i, j | 0 <= i < j < |s| :: key(s[i]) != key(s[j])
  }

  lemma CountedTwice<T>(s: seq<T>, i: nat, j: nat)
    requires i < j < |s|
    ensures s[i] == s[j] ==> multiset(s)[s[i]] >= 2
  {
    assert s == s[..j] + s[j..] && s[i] in s[..j] && s[j] in s[j..];
    assert multiset(s)[s[i]] == multiset(s[..j])[s[i]] + multiset(s[j..])[s[i]];
  }

  lemma {:induction false} CountedOnce<T>(s: seq<T>, x: T, key: T -> string)
    requires DistinctKeys(s, key)
    ensures multiset(s)[x] <= 1
  {
    if s != [] {
      assert forall i | 0 <= i < |s[1..]| :: s[1..][i] == s[i + 1];
      CountedOnce(s[1..], x, key);
      assert s == [s[0]] + s[1..] && s[0] !in s[1..];
    }
  }

  /** Reordering keeps keys distinct. */
  lemma DistinctStay<T>(out: seq<T>, s: seq<T>, key: T -> string)
    requires multiset(out) == multiset(s) && DistinctKeys(s, key)
    ensures DistinctKeys(out, key)
  {
    forall i, j | 0 <= i < j < |out|
      ensures key(out[i]) != key(out[j])
    {
      assert out[i] in multiset(out) && out[j] in multiset(out);
      assert out[i] in s && out[j] in s;
      CountedTwice(out, i, j);
      CountedOnce(s, out[i], key);
    }
  }

  lemma TailSorted<T>(s: seq<T>, key: T -> string)
    requires s != [] && Sorted(s, key) && DistinctKeys(s, key)
    ensures s == [s[0]] + s[1..] && Sorted(s[1..], key) && DistinctKeys(s[1..], key)
  {
    assert forall i | 0 <= i < |s[1..]| :: s[1..][i] == s[i + 1];
  }

  lemma SameFirst<T>(a: seq<T>, b: seq<T>, key: T -> string)
    requires Sorted(a, key) && Sorted(b, key) && DistinctKeys(a, key) && DistinctKeys(b, key)
    requires a != [] && |a| == |b| && forall x :: x in a <==> x in b
    ensures a[0] == b[0]
  {
    hide Less;
    assert a[0] in b && b[0] in a;
    var i :| 0 <= i < |b| && b[i] == a[0];
    var j :| 0 <= j < |a| && a[j] == b[0];
    LessTotal(key(a[0]), key(b[0]));
  }

  /** With distinct keys there is one sorted order only. */
  lemma {:induction false} SortIsUnique<T>(a: seq<T>, b: seq<T>, key: T -> string)
    requires Sorted(a, key) && Sorted(b, key) && multiset(a) == multiset(b)
    requires DistinctKeys(a, key) && DistinctKeys(b, key)
    ensures a == b
  {
    hide Less;
    SortKeeps(a, b, key);
    if a != [] {
      SameFirst(a, b, key);
      TailSorted(a, key);
      TailSorted(b, key);
      assert multiset(a[1..]) == multiset(a) - multiset{a[0]} && multiset(b[1..]) == multiset(b) - multiset{a[0]};
      SortIsUnique(a[1..], b[1..], key);
    }
  }

  function Insert<T>(x: T, s: seq<T>, key: T -> string): (r: seq<T>)
    ensures multiset(r) == multiset(s) + multiset{x}
    ensures Sorted(s, key) ==> Sorted(r, key)
  {
    if s == [] then [x]
    else
      assert s == [s[0]] + s[1..];
      if Less(key(s[0]), key(x)) then
        var rest := Insert(x, s[1..], key);
        InsertedAfter(s[0], x, s[1..], rest, key);
        [s[0]] + rest
      else
        InsertedBefore(x, s, key);
        [x] + s
  }

  lemma InsertedAfter<T>(y: T, x: T, s: seq<T>, rest: seq<T>, key: T -> string)
    requires Less(key(y), key(x)) && multiset(rest) == multiset(s) + multiset{x} && (Sorted(s, key) ==> Sorted(rest, key))
    ensures Sorted([y] + s, key) ==> Sorted([y] + rest, key)
  {
    if Sorted([y] + s, key) {
      forall j | 0 <= j < |s|
        ensures !Less(key(s[j]), key(y))
      {
        assert ([y] + s)[0] == y && ([y] + s)[j + 1] == s[j];
      }
      assert forall i, j | 0 <= i < j < |s| :: s[i] == ([y] + s)[i + 1] && s[j] == ([y] + s)[j + 1];
      LessTotal(key(y), key(x));
      forall j | 0 <= j < |rest|
        ensures !Less(key(rest[j]), key(y))
      {
        assert rest[j] in multiset(rest);
        if rest[j] != x {
          assert rest[j] in s;
          var k :| 0 <= k < |s| && s[k] == rest[j];
        }
      }
    }
  }

  lemma InsertedBefore<T>(x: T, s: seq<T>, key: T -> string)
    requires s != [] && !Less(key(s[0]), key(x))
    ensures Sorted(s, key) ==> Sorted([x] + s, key)
  {
    if Sorted(s, key) {
      forall j | 0 <= j < |s|
        ensures !Less(key(s[j]), key(x))
      {
        if j > 0 {
          LessTransitive(key(x), key(s[0]), key(s[j]));
        }
      }
    }
  }

  function SortBy<T>(s: seq<T>, key: T -> string): (r: seq<T>)
    ensures SortOf(r, s, key)
  {
    if s == [] then []
    else
      assert s == [s[0]] + s[1..];
      Insert(s[0], SortBy(s[1..], key), key)
  }
}
