/** URL query strings: parsing, value escaping, and the continuation link that leaves keys as they are. */
module Query {
  import opened Text
  import opened Order

  /** Parameters with their values in order. */
  type Params = map<string, seq<string>>

  /** Strings are bytes. */
  predicate Bytes(s: string) {
    forall i | 0 <= i < |s| :: s[i] < 256 as char
  }

  predicate Unreserved(c: char) {
    'a' <= c <= 'z' || 'A' <= c <= 'Z' || '0' <= c <= '9' || c == '-' || c == '_' || c == '.' || c == '~'
  }

  function UpperHex(n: nat): (c: char)
    requires n < 16
    ensures Unreserved(c)
  {
    if n < 10 then ('0' as int + n) as char else ('A' as int + n - 10) as char
  }

  function HexValue(c: char): Option<nat> {
    if '0' <= c <= '9' then Some(c as int - '0' as int)
    else if 'a' <= c <= 'f' then Some(c as int - 'a' as int + 10)
    else if 'A' <= c <= 'F' then Some(c as int - 'A' as int + 10)
    else None
  }

  /** url.QueryEscape. */
  function Escape(s: string): (r: string)
    requires Bytes(s)
    ensures forall c | c in r :: Unreserved(c) || c == '+' || c == '%'
  {
    if s == [] then []
    else
      var c := s[0];
      (if Unreserved(c) then [c] else if c == ' ' then "+" else ['%', UpperHex(c as int / 16), UpperHex(c as int % 16)])
      + Escape(s[1..])
  }

  function Prepend(c: char, r: Option<string>): Option<string> {
    if r.Some? then Some([c] + r.value) else None
  }

  /** url.QueryUnescape. */
  function Unescape(s: string): (r: Option<string>)
    ensures r.Some? ==> |r.value| <= |s| && (s != [] && s[0] == '%' ==> |r.value| < |s|)
  {
    if s == [] then Some("")
    else if s[0] == '%' then
      if |s| < 3 || HexValue(s[1]).None? || HexValue(s[2]).None? || HexValue(s[1]).value > 15 || HexValue(s[2]).value > 15 then None
      else Prepend((16 * HexValue(s[1]).value + HexValue(s[2]).value) as char, Unescape(s[3..]))
    else Prepend(if s[0] == '+' then ' ' else s[0], Unescape(s[1..]))
  }

  lemma UnescapeNothing()
    ensures Unescape("") == Some("")
  {
  }

  lemma HexRoundTrip(n: nat)
    requires n < 16
    ensures HexValue(UpperHex(n)) == Some(n)
  {
  }

  lemma {:induction false} UnescapeEscape(s: string)
    requires Bytes(s)
    ensures Unescape(Escape(s)) == Some(s)
  {
    hide Unescape, UpperHex, Unreserved;
    UnescapeNothing();
    if s != [] {
      UnescapeEscape(s[1..]);
      UnescapeOne(s[0], Escape(s[1..]));
      assert [s[0]] + s[1..] == s;
    }
  }

  lemma UnescapeOne(c: char, rest: string)
    requires c < 256 as char
    ensures Unescape((if Unreserved(c) then [c] else if c == ' ' then "+" else ['%', UpperHex(c as int / 16), UpperHex(c as int % 16)]) + rest)
            == Prepend(c, Unescape(rest))
  {
    hide UpperHex, HexValue;
    if Unreserved(c) {
      assert ([c] + rest)[1..] == rest;
    } else if c == ' ' {
      assert ("+" + rest)[1..] == rest;
    } else {
      HexRoundTrip(c as int / 16);
      HexRoundTrip(c as int % 16);
      assert (['%', UpperHex(c as int / 16), UpperHex(c as int % 16)] + rest)[3..] == rest;
    }
  }

  /** strings.Cut. */
  function Cut(s: string, sep: char): (r: (string, string))
    ensures sep !in r.0 && |r.0| <= |s| && r.0 == s[..|r.0|] && (sep !in s ==> r == (s, ""))
  {
    if s == [] then ("", "")
    else if s[0] == sep then ("", s[1..])
    else
      var r := Cut(s[1..], sep);
      assert s[..|r.0| + 1] == [s[0]] + s[1..][..|r.0|] && [s[0]] + s[1..] == s;
      ([s[0]] + r.0, r.1)
  }

  lemma CutStep(s: string, sep: char)
    requires s != []
    ensures Cut(s, sep) == if s[0] == sep then ("", s[1..]) else ([s[0]] + Cut(s[1..], sep).0, Cut(s[1..], sep).1)
  {
  }

  lemma {:induction false} CutAt(a: string, b: string, sep: char)
    requires sep !in a
    ensures Cut(a + [sep] + b, sep) == (a, b)
  {
    hide Cut;
    var s := a + [sep] + b;
    CutStep(s, sep);
    if a == [] {
      assert s[0] == sep && s[1..] == b;
    } else {
      CutAt(a[1..], b, sep);
      assert s[0] == a[0] && s[1..] == a[1..] + [sep] + b;
      assert [a[0]] + a[1..] == a;
    }
  }

  function Added(q: Params, k: string, v: string): Params {
    q[k := (if k in q then q[k] else []) + [v]]
  }

  /** One name=value pair; malformed ones are dropped. */
  function ParsePair(q: Params, p: string): Params {
    var cut := Cut(p, '=');
    var k, v := Unescape(cut.0), Unescape(cut.1);
    if p == "" || ';' in p || k.None? || v.None? then q else Added(q, k.value, v.value)
  }

  function ParsePairs(ps: seq<string>): Params {
    if ps == [] then map[] else ParsePair(ParsePairs(ps[..|ps| - 1]), ps[|ps| - 1])
  }

  /** url.ParseQuery, errors ignored. */
  function ParseQuery(s: string): Params {
    ParsePairs(Split(s, '&'))
  }

  /** The query of a URL: what follows the first question mark, without the fragment. */
  function QueryOf(url: string): Params {
    ParseQuery(Cut(Cut(url, '#').0, '?').1)
  }

  /** url.PathUnescape. */
  function PathUnescape(s: string): Option<string> {
    if s == [] then Some("")
    else if s[0] == '%' then
      if |s| < 3 || HexValue(s[1]).None? || HexValue(s[2]).None? then None
      else Prepend((16 * HexValue(s[1]).value + HexValue(s[2]).value) as char, PathUnescape(s[3..]))
    else Prepend(s[0], PathUnescape(s[1..]))
  }

  /** What a URL asks for: the decoded path, the origin in front of it, and the parameters. */
  datatype Target = Target(path: string, query: Params)

  predicate Control(c: char) {
    c < ' ' || c == 0x7f as char
  }

  /** url.Parse: control characters and bad escapes in the path are refused. */
  function Requested(url: string): Option<Target> {
    var read := Cut(url, '#').0;
    var path := PathUnescape(Cut(read, '?').0);
    if (exists c | c in read :: Control(c)) || path.None? then None else Some(Target(path.value, QueryOf(url)))
  }

  // ----- the continuation link -----

  function PartsOf(k: string, vs: seq<string>): seq<string>
    requires forall v | v in vs :: Bytes(v)
  {
    if vs == [] then [] else PartsOf(k, vs[..|vs| - 1]) + [k + "=" + Escape(vs[|vs| - 1])]
  }

  predicate AllBytes(q: Params) {
    forall k | k in q :: q[k] != [] && forall v | v in q[k] :: Bytes(v)
  }

  function Parts(keys: seq<string>, q: Params): seq<string>
    requires AllBytes(q) && forall k | k in keys :: k in q
  {
    if keys == [] then []
    else
      assert keys[|keys| - 1] in keys;
      Parts(keys[..|keys| - 1], q) + PartsOf(keys[|keys| - 1], q[keys[|keys| - 1]])
  }

  /** The other parameters' names, sorted. */
  ghost predicate OtherKeys(keys: seq<string>, q: Params) {
    && (forall k :: k in keys <==> k in q && k != "$skiptoken")
    && (forall i, j | 0 <= i < j < |keys| :: keys[i] != keys[j])
    && Sorted(keys, (k: string) => k)
  }

  function Link(base: string, keys: seq<string>, q: Params, skip: int): string
    requires AllBytes(q) && forall k | k in keys :: k in q
  {
    base + "?" + Join(Parts(keys, q) + ["$skiptoken=" + Itoa(skip)], '&')
  }

  method OtherNames(q: Params) returns (keys: seq<string>)
    ensures OtherKeys(keys, q)
  {
    var names := [];
    var todo := q.Keys;
    while todo != {}
      invariant todo <= q.Keys
      invariant forall k :: k in names <==> k in q.Keys - todo && k != "$skiptoken"
      invariant forall i, j | 0 <= i < j < |names| :: names[i] != names[j]
      decreases todo
    {
      var k :| k in todo;
      todo := todo - {k};
      if k != "$skiptoken" {
        assert forall i | 0 <= i < |names| :: names[i] in names;
        names := names + [k];
      }
    }
    keys := SortBy(names, (k: string) => k);
    SortedNames(keys, names);
  }

  method ValueParts(k: string, vs: seq<string>) returns (parts: seq<string>)
    requires forall v | v in vs :: Bytes(v)
    ensures parts == PartsOf(k, vs)
  {
    hide Bytes, Escape;
    parts := [];
    for j := 0 to |vs|
      invariant parts == PartsOf(k, vs[..j])
    {
      assert vs[..j + 1][..j] == vs[..j];
      parts := parts + [k + "=" + Escape(vs[j])];
    }
    assert vs[..|vs|] == vs;
  }

  method NextLink(base: string, q: Params, skip: int) returns (link: string)
    requires AllBytes(q)
    ensures exists keys :: OtherKeys(keys, q) && link == Link(base, keys, q, skip)
  {
    hide PartsOf, Sorted, Itoa, Join;
    var names := OtherNames(q);
    var parts := [];
    for i := 0 to |names|
      invariant parts == Parts(names[..i], q)
    {
      assert names[i] in names && names[..i + 1][..i] == names[..i];
      var more := ValueParts(names[i], q[names[i]]);
      parts := parts + more;
    }
    assert names[..|names|] == names;
    parts := parts + ["$skiptoken=" + Itoa(skip)];
    link := base + "?" + Join(parts, '&');
  }

  lemma SortedNames(out: seq<string>, names: seq<string>)
    requires SortOf(out, names, (k: string) => k) && forall i, j | 0 <= i < j < |names| :: names[i] != names[j]
    ensures (forall k :: k in out <==> k in names) && forall i, j | 0 <= i < j < |out| :: out[i] != out[j]
  {
    SortKeeps(out, names, (k: string) => k);
    DistinctStay(out, names, (k: string) => k);
  }

  // ----- following the link -----

  /** A name the link can carry unescaped. */
  predicate PlainKey(k: string) {
    forall c | c in k :: c != '&' && c != '=' && c != '%' && c != '+' && c != ';' && c != '#'
  }

  /** The same parameters with the continuation offset advanced. */
  function Follow(q: Params, skip: int): Params {
    q["$skiptoken" := [Itoa(skip)]]
  }

  lemma {:induction false} UnescapePlain(s: string)
    requires '%' !in s && '+' !in s
    ensures Unescape(s) == Some(s)
  {
    if s != [] {
      UnescapePlain(s[1..]);
      assert [s[0]] + s[1..] == s;
    }
  }

  lemma PairAdds(q: Params, k: string, v: string)
    requires PlainKey(k) && Bytes(v)
    ensures ParsePair(q, k + "=" + Escape(v)) == Added(q, k, v)
    ensures '&' !in k + "=" + Escape(v)
  {
    hide Escape, Unescape, Cut, Bytes;
    CutAt(k, Escape(v), '=');
    UnescapePlain(k);
    UnescapeEscape(v);
    assert k + "=" + Escape(v) == k + ['='] + Escape(v);
  }

  lemma PairsSnoc(ps: seq<string>, p: string)
    ensures ParsePairs(ps + [p]) == ParsePair(ParsePairs(ps), p)
  {
    hide ParsePair;
    assert (ps + [p])[..|ps|] == ps;
  }

  lemma AddedSnoc(q: Params, k: string, vs: seq<string>, v: string)
    requires k !in q
    ensures vs != [] ==> Added(q[k := vs], k, v) == q[k := vs + [v]]
    ensures vs == [] ==> Added(q, k, v) == q[k := vs + [v]]
  {
  }

  lemma {:induction false} PairsOfKey(q: Params, ps: seq<string>, k: string, vs: seq<string>)
    requires PlainKey(k) && (forall v | v in vs :: Bytes(v)) && ParsePairs(ps) == q && k !in q
    ensures ParsePairs(ps + PartsOf(k, vs)) == if vs == [] then q else q[k := vs]
    ensures forall p | p in PartsOf(k, vs) :: '&' !in p
  {
    hide ParsePair, ParsePairs, Escape, Added, PlainKey, Bytes;
    if vs == [] {
      assert ps + PartsOf(k, vs) == ps;
    } else {
      var n := |vs| - 1;
      var before := vs[..n];
      assert vs == before + [vs[n]];
      PairsOfKey(q, ps, k, before);
      var part := k + "=" + Escape(vs[n]);
      assert ps + PartsOf(k, vs) == ps + PartsOf(k, before) + [part];
      PairsSnoc(ps + PartsOf(k, before), part);
      AddedSnoc(q, k, before, vs[n]);
      PairAdds(if before == [] then q else q[k := before], k, vs[n]);
    }
  }

  function Restrict(q: Params, keys: seq<string>): Params
    requires forall k | k in keys :: k in q
  {
    map k | k in keys :: q[k]
  }

  lemma {:induction false} PairsOfKeys(q: Params, keys: seq<string>)
    requires AllBytes(q) && forall k | k in keys :: k in q && PlainKey(k)
    requires forall i, j | 0 <= i < j < |keys| :: keys[i] != keys[j]
    ensures ParsePairs(Parts(keys, q)) == Restrict(q, keys)
    ensures forall p | p in Parts(keys, q) :: '&' !in p
  {
    hide ParsePairs, PlainKey, PartsOf, Bytes;
    if keys == [] {
      NoPairs();
      assert Restrict(q, keys) == map[];
    } else {
      var n := |keys| - 1;
      assert keys == keys[..n] + [keys[n]];
      PairsOfKeys(q, keys[..n]);
      PairsOfKey(Restrict(q, keys[..n]), Parts(keys[..n], q), keys[n], q[keys[n]]);
      assert Restrict(q, keys) == Restrict(q, keys[..n])[keys[n] := q[keys[n]]];
    }
  }

  lemma NoPairs()
    ensures ParsePairs([]) == map[]
  {
  }

  lemma {:induction false} EscapeDigits(s: string)
    requires AllDigits(s)
    ensures Bytes(s) && Escape(s) == s
  {
    if s != [] {
      EscapeDigits(s[1..]);
      assert [s[0]] + s[1..] == s;
    }
  }

  lemma SkipPair(q: Params, skip: nat)
    ensures ParsePair(q, "$skiptoken=" + Itoa(skip)) == Added(q, "$skiptoken", Itoa(skip))
    ensures '&' !in "$skiptoken=" + Itoa(skip) && '#' !in "$skiptoken=" + Itoa(skip)
  {
    hide ParsePair, Added, Bytes, Escape, Digits;
    EscapeDigits(Itoa(skip));
    PairAdds(q, "$skiptoken", Itoa(skip));
    assert "$skiptoken" + "=" == "$skiptoken=";
  }

  /** Its pairs give the parameters back, with the offset advanced, as long as every name is plain. */
  lemma PairsOfLink(keys: seq<string>, q: Params, skip: nat)
    requires AllBytes(q) && OtherKeys(keys, q) && forall k | k in q :: PlainKey(k)
    ensures var all := Parts(keys, q) + ["$skiptoken=" + Itoa(skip)];
            ParsePairs(all) == Follow(q, skip) && forall p | p in all :: '&' !in p
  {
    hide ParsePair, ParsePairs, Parts, PlainKey, Bytes, Itoa, Sorted;
    PairsOfKeys(q, keys);
    SkipPair(Restrict(q, keys), skip);
    PairsSnoc(Parts(keys, q), "$skiptoken=" + Itoa(skip));
    assert "$skiptoken" !in Restrict(q, keys) && [] + [Itoa(skip)] == [Itoa(skip)];
    assert Added(Restrict(q, keys), "$skiptoken", Itoa(skip)) == Follow(q, skip);
  }

  /** Following the link asks for the same parameters with the offset advanced, as long as every
      name is plain. */
  lemma LinkKeepsParameters(base: string, keys: seq<string>, q: Params, skip: nat)
    requires AllBytes(q) && OtherKeys(keys, q) && '?' !in base && '#' !in base && forall k | k in q :: PlainKey(k)
    ensures QueryOf(Link(base, keys, q, skip)) == Follow(q, skip)
  {
    hide ParsePairs, Parts, PlainKey, Bytes, Itoa, Sorted, Join, QueryOf, Follow;
    var all := Parts(keys, q) + ["$skiptoken=" + Itoa(skip)];
    PairsOfLink(keys, q, skip);
    SplitJoin(all, '&');
    forall k | k in keys
      ensures '#' !in k
    {
      PlainHasNo(k);
    }
    LinkHas(keys, q, skip, '#');
    UncutLink(base, Join(all, '&'));
  }

  lemma {:induction false} CutFirst(a: string, b: string, sep: char)
    ensures Cut(a + b, sep).0 == if sep in a then Cut(a, sep).0 else a + Cut(b, sep).0
  {
    hide Cut;
    if a == [] {
      assert a + b == b && a + Cut(b, sep).0 == Cut(b, sep).0;
    } else {
      CutFirst(a[1..], b, sep);
      assert (a + b)[0] == a[0] && (a + b)[1..] == a[1..] + b && a == [a[0]] + a[1..];
      CutStep(a + b, sep);
      CutStep(a, sep);
    }
  }

  lemma NoCut(s: string, sep: char)
    requires sep !in s
    ensures Cut(s, sep) == (s, "")
  {
  }

  lemma ReadToFragment(base: string, query: string)
    requires '#' !in base
    ensures Cut(base + ['?'] + query, '#').0 == base + ['?'] + Cut(query, '#').0
  {
    hide Cut;
    CutFirst(base + ['?'], query, '#');
  }

  /** What is read of a link whose path is plain. */
  lemma LinkRead(base: string, query: string)
    requires '?' !in base && '#' !in base
    ensures Cut(Cut(base + "?" + query, '#').0, '?') == (base, Cut(query, '#').0)
    ensures QueryOf(base + "?" + query) == ParseQuery(Cut(query, '#').0)
  {
    hide Cut, ParseQuery;
    assert base + "?" + query == base + ['?'] + query;
    ReadToFragment(base, query);
    CutAt(base, Cut(query, '#').0, '?');
  }

  lemma UncutLink(base: string, query: string)
    requires '?' !in base && '#' !in base && '#' !in query
    ensures QueryOf(base + "?" + query) == ParseQuery(query)
  {
    hide Cut, ParseQuery;
    LinkRead(base, query);
    NoCut(query, '#');
  }

  /** A character that neither escaping nor the link's own punctuation puts into a part. */
  predicate Strange(c: char) {
    !Unreserved(c) && c != '+' && c != '%' && c != '=' && c != '&' && c != '$'
  }

  lemma {:induction false} PartsOfAvoid(k: string, vs: seq<string>, c: char)
    requires Strange(c) && c !in k && forall v | v in vs :: Bytes(v)
    ensures forall p | p in PartsOf(k, vs) :: c !in p
  {
    if vs != [] {
      PartsOfAvoid(k, vs[..|vs| - 1], c);
    }
  }

  lemma {:induction false} PartsAvoid(keys: seq<string>, q: Params, c: char)
    requires Strange(c) && AllBytes(q) && forall k | k in keys :: k in q && c !in k
    ensures forall p | p in Parts(keys, q) :: c !in p
  {
    hide Bytes, PartsOf;
    if keys != [] {
      var n := |keys| - 1;
      assert keys == keys[..n] + [keys[n]];
      PartsAvoid(keys[..n], q, c);
      PartsOfAvoid(keys[n], q[keys[n]], c);
    }
  }

  lemma {:induction false} JoinHas(ps: seq<string>, c: char)
    requires ps != [] && c != '&'
    ensures c in Join(ps, '&') <==> exists p | p in ps :: c in p
  {
    if |ps| == 1 {
      assert ps[0] in ps;
    } else {
      JoinHas(ps[1..], c);
      assert ps == [ps[0]] + ps[1..];
    }
  }

  /** The query of a link holds a strange character exactly when some name does. */
  lemma LinkHas(keys: seq<string>, q: Params, skip: nat, c: char)
    requires Strange(c) && AllBytes(q) && forall k | k in keys :: k in q
    ensures c in Join(Parts(keys, q) + ["$skiptoken=" + Itoa(skip)], '&') <==> exists k | k in keys :: c in k
  {
    hide Itoa, Bytes, PartsOf, Parts, Join, Strange;
    var parts := Parts(keys, q) + ["$skiptoken=" + Itoa(skip)];
    SkipAvoids(skip, c);
    JoinHas(parts, c);
    if k :| k in keys && c in k {
      NameInPart(keys, q, k, c);
    } else {
      PartsAvoid(keys, q, c);
    }
  }

  lemma SkipAvoids(skip: nat, c: char)
    requires Strange(c)
    ensures c != '&' && c !in "$skiptoken=" + Itoa(skip)
  {
    hide Digits;
    assert AllDigits(Itoa(skip));
  }

  lemma {:induction false} NameInPart(keys: seq<string>, q: Params, k: string, c: char)
    requires AllBytes(q) && (forall n | n in keys :: n in q) && k in keys && c in k
    ensures exists p | p in Parts(keys, q) :: c in p
  {
    hide Bytes, Escape;
    var n := |keys| - 1;
    assert keys == keys[..n] + [keys[n]];
    if k == keys[n] {
      var vs := q[k];
      var last := k + "=" + Escape(vs[|vs| - 1]);
      assert PartsOf(k, vs) == PartsOf(k, vs[..|vs| - 1]) + [last];
      assert last in Parts(keys, q) && c in last;
    } else {
      NameInPart(keys[..n], q, k, c);
    }
  }

  // ----- which names survive -----

  /** Decoding that loses no length met no escape: it only turned plus signs into blanks. */
  lemma {:induction false} SameLength(s: string, r: string)
    requires Unescape(s) == Some(r) && |r| == |s|
    ensures forall c | c in r :: c != '%' && c != '+' && (c == ' ' || c in s)
  {
    if s != [] {
      SameLength(s[1..], r[1..]);
      assert r == [r[0]] + r[1..] && s == [s[0]] + s[1..];
    }
  }

  lemma {:induction false} KeyComesFromPair(ps: seq<string>, k: string) returns (p: string)
    requires k in ParsePairs(ps)
    ensures p in ps && ';' !in p && Unescape(Cut(p, '=').0) == Some(k)
  {
    hide Unescape, Cut;
    var n := |ps| - 1;
    if k in ParsePairs(ps[..n]) {
      p := KeyComesFromPair(ps[..n], k);
    } else {
      p := ps[n];
    }
  }

  lemma {:induction false} PiecesAreShort(s: string, p: string)
    requires p in Split(s, '&')
    ensures |p| <= |s|
  {
    if s != [] && s[0] == '&' {
      if p != "" {
        PiecesAreShort(s[1..], p);
      }
    } else if s != [] {
      var r := Split(s[1..], '&');
      if p in r[1..] {
        PiecesAreShort(s[1..], p);
      } else {
        PiecesAreShort(s[1..], r[0]);
      }
    }
  }

  /** The names in a query that starts with k= are no longer than k, and only a first pair named
      k itself is as long. */
  lemma {:induction false} NamesAreShort(k: string, b: string, p: string)
    requires '&' !in b && p in Split(k + "=" + b, '&') && |Cut(p, '=').0| >= |k|
    ensures Cut(p, '=').0 == k && '&' !in k && p == k + "=" + b
    decreases |k|
  {
    hide Cut, Split;
    var s := k + "=" + b;
    if '&' in k {
      var x, y := Cut(k, '&').0, Cut(k, '&').1;
      CutRejoin(k, '&');
      assert s == x + ['&'] + (y + "=" + b);
      SplitWord(x, y + "=" + b, '&');
      if p != x {
        NamesAreShort(y, b, p);
      }
    } else {
      SplitWord(s, "", '&');
      assert p == k + ['='] + b;
      FirstCut(k, b, '=');
    }
  }

  lemma {:induction false} CutRejoin(s: string, sep: char)
    requires sep in s
    ensures s == Cut(s, sep).0 + [sep] + Cut(s, sep).1
  {
    if s[0] != sep {
      CutRejoin(s[1..], sep);
      var c := Cut(s[1..], sep);
      assert s == [s[0]] + (c.0 + [sep] + c.1) == ([s[0]] + c.0) + [sep] + c.1;
    } else {
      assert s == [] + [sep] + s[1..];
    }
  }

  lemma {:induction false} FirstCut(k: string, b: string, sep: char)
    ensures |Cut(k + [sep] + b, sep).0| >= |k| ==> Cut(k + [sep] + b, sep).0 == k
  {
    hide Cut;
    if sep in k {
      ShorterCut(k, [sep] + b, sep);
      assert k + ([sep] + b) == k + [sep] + b;
    } else {
      CutAt(k, b, sep);
    }
  }

  lemma {:induction false} ShorterCut(k: string, b: string, sep: char)
    requires sep in k
    ensures |Cut(k + b, sep).0| < |k|
  {
    if k[0] != sep {
      assert (k + b)[1..] == k[1..] + b;
      ShorterCut(k[1..], b, sep);
    }
  }

  lemma PlainHasNo(k: string)
    requires PlainKey(k)
    ensures '#' !in k && '&' !in k && '=' !in k
  {
  }

  /** What a part of the link can be read as: a plain name, or one shorter than its own, which
      is not plain. */
  lemma PieceOfPart(k: string, b: string, p: string, r: string)
    requires '&' !in b && '#' !in b && p in Split(Cut(k + "=" + b, '#').0, '&')
    requires ';' !in p && Unescape(Cut(p, '=').0) == Some(r)
    ensures PlainKey(r) || (|r| < |k| && !PlainKey(k))
  {
    hide Unescape, Cut, Split, PlainKey;
    if '#' in k {
      CutShort(k, b);
      PiecesAreShort(Cut(k + "=" + b, '#').0, p);
    } else {
      NoCut(k + "=" + b, '#');
      PieceUncut(k, b, p, r);
    }
  }

  lemma CutShort(k: string, b: string)
    requires '#' in k
    ensures |Cut(k + "=" + b, '#').0| < |k| && !PlainKey(k)
  {
    hide Cut;
    ShorterCut(k, "=" + b, '#');
    assert k + ("=" + b) == k + "=" + b;
  }

  lemma PieceUncut(k: string, b: string, p: string, r: string)
    requires '&' !in b && '#' !in k && p in Split(k + "=" + b, '&')
    requires ';' !in p && Unescape(Cut(p, '=').0) == Some(r)
    ensures PlainKey(r) || (|r| < |k| && !PlainKey(k))
  {
    hide Unescape, Cut, Split, PlainKey;
    if |Cut(p, '=').0| >= |k| {
      NamesAreShort(k, b, p);
      UnshortenedIsPlain(k, b, r);
    } else if PlainKey(k) {
      PlainHasNo(k);
      assert k + "=" + b == k + ['='] + b;
      SplitWord(k + "=" + b, "", '&');
      CutAt(k, b, '=');
    }
  }

  lemma UnshortenedIsPlain(k: string, b: string, r: string)
    requires Unescape(k) == Some(r) && '&' !in k && '#' !in k && '=' !in k && ';' !in k
    ensures PlainKey(r) || (|r| < |k| && !PlainKey(k))
  {
    hide Unescape;
    if |r| == |k| {
      SameLength(k, r);
    } else if PlainKey(k) {
      UnescapePlain(k);
    }
  }

  lemma {:induction false} PartNamed(k: string, vs: seq<string>, part: string) returns (v: string)
    requires (forall v | v in vs :: Bytes(v)) && part in PartsOf(k, vs)
    ensures Bytes(v) && part == k + "=" + Escape(v)
  {
    hide Bytes, Escape;
    var n := |vs| - 1;
    if part in PartsOf(k, vs[..n]) {
      v := PartNamed(k, vs[..n], part);
    } else {
      v := vs[n];
    }
  }

  lemma {:induction false} PartOfKey(keys: seq<string>, q: Params, part: string) returns (k: string, v: string)
    requires AllBytes(q) && (forall k | k in keys :: k in q) && part in Parts(keys, q)
    ensures k in keys && Bytes(v) && part == k + "=" + Escape(v)
  {
    hide Bytes, Escape, PartsOf;
    var n := |keys| - 1;
    assert keys[n] in keys;
    if part in Parts(keys[..n], q) {
      k, v := PartOfKey(keys[..n], q, part);
    } else {
      k := keys[n];
      v := PartNamed(k, q[k], part);
    }
  }

  lemma {:induction false} SplitTwo(a: string, b: string, sep: char)
    ensures Split(a + [sep] + b, sep) == Split(a, sep) + Split(b, sep)
  {
    hide Split;
    if a == [] {
      SplitWord("", b, sep);
      assert "" + [sep] + b == a + [sep] + b;
    } else {
      var s := a + [sep] + b;
      SplitTwo(a[1..], b, sep);
      assert s[0] == a[0] && s[1..] == a[1..] + [sep] + b;
      SplitStep(s, sep);
      SplitStep(a, sep);
    }
  }

  lemma SplitStep(s: string, sep: char)
    requires s != []
    ensures var r := Split(s[1..], sep); Split(s, sep) == if s[0] == sep then [""] + r else [[s[0]] + r[0]] + r[1..]
  {
  }

  /** Every piece of the query read back lies within one part, read up to its fragment sign. */
  lemma {:induction false} PieceFromPart(parts: seq<string>, p: string) returns (part: string)
    requires parts != [] && p in Split(Cut(Join(parts, '&'), '#').0, '&')
    ensures part in parts && p in Split(Cut(part, '#').0, '&')
  {
    hide Cut, Split, Join;
    part := parts[0];
    JoinStep(parts, '&');
    if |parts| > 1 {
      ReadTwo(part, Join(parts[1..], '&'));
      if p !in Split(Cut(part, '#').0, '&') {
        part := PieceFromPart(parts[1..], p);
      }
    }
  }

  lemma JoinStep(parts: seq<string>, sep: char)
    requires parts != []
    ensures Join(parts, sep) == if |parts| == 1 then parts[0] else parts[0] + [sep] + Join(parts[1..], sep)
  {
  }

  lemma ReadTwo(a: string, b: string)
    ensures var read := Split(Cut(a + ['&'] + b, '#').0, '&');
            read == if '#' in a then Split(Cut(a, '#').0, '&') else Split(Cut(a, '#').0, '&') + Split(Cut(b, '#').0, '&')
  {
    hide Cut, Split;
    CutFirst(a, ['&'] + b, '#');
    CutFirst(['&'], b, '#');
    assert a + (['&'] + b) == a + ['&'] + b;
    if '#' !in a {
      NoCut(a, '#');
      SplitTwo(a, Cut(b, '#').0, '&');
      assert a + (['&'] + Cut(b, '#').0) == a + ['&'] + Cut(b, '#').0;
    }
  }

  /** A name that is not plain is read back only from a longer one. */
  lemma LongerName(base: string, keys: seq<string>, q: Params, skip: nat, k: string) returns (longer: string)
    requires AllBytes(q) && OtherKeys(keys, q) && '?' !in base && '#' !in base
    requires k in QueryOf(Link(base, keys, q, skip)) && !PlainKey(k)
    ensures longer in q && |longer| > |k| && !PlainKey(longer)
  {
    hide Bytes, Escape, Unescape, Cut, Split, ParsePairs, PlainKey, Parts, Join, Itoa, Sorted, QueryOf;
    var last := "$skiptoken=" + Itoa(skip);
    var parts := Parts(keys, q) + [last];
    var query := Join(parts, '&');
    LinkRead(base, query);
    var p := KeyComesFromPair(Split(Cut(query, '#').0, '&'), k);
    var part := PieceFromPart(parts, p);
    if part == last {
      SkipTokenPlain();
      SkipPair(map[], skip);
      assert last == "$skiptoken" + "=" + Itoa(skip);
      PieceOfPart("$skiptoken", Itoa(skip), p, k);
    } else {
      var name, v := PartOfKey(keys, q, part);
      PieceOfPart(name, Escape(v), p, k);
      longer := name;
    }
  }

  lemma SkipTokenPlain()
    ensures PlainKey("$skiptoken")
  {
  }

  /** Names that are not plain cannot all be read back, each from a longer one. */
  lemma {:induction false} SomeNameIsLost(base: string, keys: seq<string>, q: Params, skip: nat, k: string)
    requires AllBytes(q) && OtherKeys(keys, q) && '?' !in base && '#' !in base && k in q && !PlainKey(k)
    ensures exists lost | lost in q :: lost !in QueryOf(Link(base, keys, q, skip))
    decreases set x | x in q.Keys && |x| > |k|
  {
    hide PlainKey, QueryOf, Link, Sorted, Bytes;
    if k in QueryOf(Link(base, keys, q, skip)) {
      var longer := LongerName(base, keys, q, skip, k);
      var above, fewer := set x | x in q.Keys && |x| > |k|, set x | x in q.Keys && |x| > |longer|;
      assert fewer <= above && longer in above && longer !in fewer;
      SomeNameIsLost(base, keys, q, skip, longer);
    }
  }

  /** From a plain path, the link asks for the same parameters exactly when every name is plain. */
  lemma NamesKeptExactly(base: string, keys: seq<string>, q: Params, skip: nat)
    requires AllBytes(q) && OtherKeys(keys, q) && '?' !in base && '#' !in base
    ensures QueryOf(Link(base, keys, q, skip)) == Follow(q, skip) <==> forall k | k in q :: PlainKey(k)
  {
    hide PlainKey, QueryOf, Link, Sorted, Bytes;
    if forall k | k in q :: PlainKey(k) {
      LinkKeepsParameters(base, keys, q, skip);
    } else {
      var k :| k in q && !PlainKey(k);
      SomeNameIsLost(base, keys, q, skip, k);
    }
  }

  // ----- the path of the link -----

  /** A path, decoded, that the link can carry as it is. */
  predicate PlainPath(base: string) {
    '?' !in base && '#' !in base && '%' !in base && NoControl(base)
  }

  predicate NoControl(s: string) {
    forall c | c in s :: !Control(c)
  }

  /** Decoding loses length exactly where it meets an escape. */
  lemma {:induction false} PathLength(s: string)
    ensures '%' !in s ==> PathUnescape(s) == Some(s)
    ensures var r := PathUnescape(s); r.Some? ==> |r.value| <= |s| && ('%' in s ==> |r.value| < |s|)
  {
    if s != [] {
      assert s == [s[0]] + s[1..];
      if s[0] != '%' {
        PathLength(s[1..]);
      } else if |s| >= 3 {
        PathLength(s[3..]);
      }
    }
  }

  /** What is read as the path ends with the path itself, or before it. */
  lemma PathRead(base: string, query: string)
    ensures var read := Cut(Cut(base + "?" + query, '#').0, '?').0;
            |read| <= |base| && (|read| == |base| ==> read == base && '?' !in base && '#' !in base)
  {
    hide Cut;
    var rest := "?" + query;
    assert base + "?" + query == base + rest;
    if '#' in base {
      ShorterCut(base, rest, '#');
    } else if '?' in base {
      CutFirst(base, rest, '#');
      ShorterCut(base, Cut(rest, '#').0, '?');
    } else {
      LinkRead(base, query);
    }
  }

  /** The path comes back exactly when it has none of ? # %. */
  lemma PathKeptExactly(base: string, query: string)
    ensures PathUnescape(Cut(Cut(base + "?" + query, '#').0, '?').0) == Some(base) <==> '?' !in base && '#' !in base && '%' !in base
  {
    hide Cut, PathUnescape;
    PathRead(base, query);
    PathLength(Cut(Cut(base + "?" + query, '#').0, '?').0);
    if '?' !in base && '#' !in base {
      LinkRead(base, query);
    }
  }

  /** A link with plain path and names is refused exactly for a control character in one of them. */
  lemma RefusedExactly(base: string, keys: seq<string>, q: Params, skip: nat)
    requires AllBytes(q) && OtherKeys(keys, q) && '?' !in base && '#' !in base && forall k | k in q :: PlainKey(k)
    ensures (exists c | c in Cut(Link(base, keys, q, skip), '#').0 :: Control(c)) <==> !NoControl(base) || exists k | k in q :: !NoControl(k)
  {
    hide Cut, Bytes, PartsOf, Parts, Join, Itoa, Sorted, PlainKey;
    var query := Join(Parts(keys, q) + ["$skiptoken=" + Itoa(skip)], '&');
    forall k | k in keys
      ensures '#' !in k
    {
      PlainHasNo(k);
    }
    LinkHas(keys, q, skip, '#');
    NoCut(base + "?" + query, '#');
    forall c | Control(c)
      ensures c in query <==> exists k | k in keys :: c in k
    {
      LinkHas(keys, q, skip, c);
    }
    assert NoControl("$skiptoken");
  }

  /** Following the link asks for the same request, its path and its parameters, with the offset
      advanced, exactly when the path and every parameter name can stand in a link unescaped. */
  lemma LinkKeepsExactly(base: string, keys: seq<string>, q: Params, skip: nat)
    requires AllBytes(q) && OtherKeys(keys, q)
    ensures Requested(Link(base, keys, q, skip)) == Some(Target(base, Follow(q, skip))) <==>
              PlainPath(base) && forall k | k in q :: PlainKey(k) && NoControl(k)
  {
    hide PlainKey, QueryOf, PathUnescape, Cut, Sorted, Bytes, Parts, Join, Itoa, Follow, NoControl, Control;
    PathKeptExactly(base, Join(Parts(keys, q) + ["$skiptoken=" + Itoa(skip)], '&'));
    if '?' !in base && '#' !in base {
      NamesKeptExactly(base, keys, q, skip);
      if forall k | k in q :: PlainKey(k) {
        RefusedExactly(base, keys, q, skip);
      }
    }
  }

  /** A group named with a fragment sign: the link leads elsewhere, without any parameter. */
  lemma PathSwallowsTheRest()
    ensures var q: Params := map["$top" := ["1"]];
            && AllBytes(q) && OtherKeys(["$top"], q) && PlainKey("$top")
            && Requested(Link("/groups/C#/members", ["$top"], q, 1)) == Some(Target("/groups/C", map[]))
  {
    hide QueryOf, PathUnescape, Cut, Parts, Join, Itoa;
    var q: Params := map["$top" := ["1"]];
    assert q["$top"] == ["1"];
    var query := Join(Parts(["$top"], q) + ["$skiptoken=" + Itoa(1)], '&');
    assert Link("/groups/C#/members", ["$top"], q, 1) == "/groups/C" + ['#'] + ("/members?" + query);
    CutAt("/groups/C", "/members?" + query, '#');
    NoCut("/groups/C", '?');
    PathLength("/groups/C");
    NothingAsked("/groups/C", "/members?" + query);
  }

  lemma NothingAsked(path: string, tail: string)
    requires '?' !in path && '#' !in path
    ensures QueryOf(path + ['#'] + tail) == map[]
  {
    hide Cut;
    CutAt(path, tail, '#');
    NoCut(path, '?');
    assert Split("", '&') == [""] && [""][..0] == [];
  }

  /** A group named with a percent sign: no request at all. */
  lemma PercentBreaksTheLink(keys: seq<string>, q: Params, skip: nat)
    requires AllBytes(q) && OtherKeys(keys, q)
    ensures Requested(Link("/groups/100%", keys, q, skip)) == None
  {
    hide QueryOf, PathUnescape, Cut, Parts, Join, Itoa, Sorted;
    LinkRead("/groups/100%", Join(Parts(keys, q) + ["$skiptoken=" + Itoa(skip)], '&'));
    EscapeAfter("/groups/100");
    assert "/groups/100" + "%" == "/groups/100%";
  }

  lemma {:induction false} EscapeAfter(s: string)
    requires '%' !in s
    ensures PathUnescape(s + "%") == None
  {
    if s != [] {
      EscapeAfter(s[1..]);
      assert (s + "%")[0] == s[0] && (s + "%")[1..] == s[1..] + "%";
    } else {
      assert s + "%" == "%";
    }
  }

  /** One name with a fragment sign takes a plain parameter and the offset with it. */
  lemma FragmentSwallowsTheRest()
    ensures var q: Params := map["a#" := ["1"], "b" := ["2"]];
            && AllBytes(q) && OtherKeys(["a#", "b"], q)
            && QueryOf(Link("u", ["a#", "b"], q, 1)) == map["a" := [""]]
  {
    hide QueryOf, Escape, Parts, Join;
    var q: Params := map["a#" := ["1"], "b" := ["2"]];
    var keys := ["a#", "b"];
    assert q["a#"] == ["1"] && q["b"] == ["2"];
    var parts := Parts(keys, q) + ["$skiptoken=" + Itoa(1)];
    FirstPart(q);
    JoinStep(parts, '&');
    var tail := "=1&" + Join(parts[1..], '&');
    assert parts[0] == "a#=1" && "a#=1" + ['&'] == "a" + ['#'] + "=1&";
    assert Link("u", keys, q, 1) == "u" + "?" + "a" + ['#'] + tail;
    FragmentCut(tail);
  }

  lemma FirstPart(q: Params)
    requires q == map["a#" := ["1"], "b" := ["2"]] && AllBytes(q)
    ensures |Parts(["a#", "b"], q)| == 2 && Parts(["a#", "b"], q)[0] == "a#=1"
  {
    hide Escape, Bytes;
    EscapeDigits("1");
    EscapeDigits("2");
    assert ["a#", "b"][..1] == ["a#"] && ["a#"][..0] == [] && ["1"][..0] == [] && ["2"][..0] == [];
    OnePart("a#", "1");
    OnePart("b", "2");
    assert "a#" + "=" + "1" == "a#=1";
    assert Parts(["a#"], q) == Parts([], q) + PartsOf("a#", ["1"]);
  }

  lemma OnePart(k: string, v: string)
    requires Bytes(v)
    ensures PartsOf(k, [v]) == [k + "=" + Escape(v)]
  {
    hide Bytes, Escape;
    assert [v][..0] == [] && [v][0] == v && PartsOf(k, []) == [];
  }

  lemma FragmentCut(tail: string)
    ensures QueryOf("u" + "?" + "a" + ['#'] + tail) == map["a" := [""]]
  {
    hide Unescape, Cut, ParsePairs;
    CutAt("u?a", tail, '#');
    CutAt("u", "a", '?');
    assert "u" + "?" + "a" == "u?a" == "u" + ['?'] + "a";
    SplitWord("a", "", '&');
    NoCut("a", '=');
    UnescapePlain("a");
    UnescapeNothing();
    NoPairs();
    PairsSnoc([], "a");
    assert [] + ["a"] == ["a"] && [] + [""] == [""];
  }
}
