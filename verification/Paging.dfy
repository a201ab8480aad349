/** The collection pipeline: filter, page, project, and the link to the next page. */
module Paging {
  import opened Text
  import opened Lists
  import opened Int64
  import opened Order
  import opened JsonValue
  import opened Directory
  import opened FilterSyntax
  import opened Rendering
  import opened Query
  import opened Samples
  import N = Normalize

  // ----- integers in a string -----

  /** strconv.Atoi. */
  function Atoi(s: string): (r: Option<int>)
    ensures r.Some? ==> -MAX64 - 1 <= r.value <= MAX64
  {
    var negative := s != [] && s[0] == '-';
    var digits := if s != [] && (s[0] == '-' || s[0] == '+') then s[1..] else s;
    if digits == [] || !AllDigits(digits) then None
    else
      var n: int := if negative then 0 - Number(digits) else Number(digits);
      if -MAX64 - 1 <= n <= MAX64 then Some(n) else None
  }

  lemma AtoiOfItoa(n: nat)
    requires n <= MAX64
    ensures Atoi(Itoa(n)) == Some(n) && Trim(Itoa(n)) == Itoa(n) && Bytes(Itoa(n))
  {
    hide Digits, Number;
    NumberOfDigits(n);
    EscapeDigits(Itoa(n));
  }

  // ----- page size and offset -----

  function PageSize(c: Config, requested: int): (r: int)
  {
    var max := if c.graph.Some? && c.graph.value.maxPageSize > 0 then c.graph.value.maxPageSize else 999;
    var def := if c.graph.Some? && c.graph.value.defaultPageSize > 0 then c.graph.value.defaultPageSize else 100;
    var n := if requested <= 0 then def else requested;
    if n > max then max else n
  }

  /** A page holds at least one row and never more than the configured cap, whatever was asked;
      a request within bounds is honoured. */
  lemma PageSizeBounds(c: Config, requested: int)
    ensures var max := if c.graph.Some? && c.graph.value.maxPageSize > 0 then c.graph.value.maxPageSize else 999;
            1 <= PageSize(c, requested) <= max && (1 <= requested <= max ==> PageSize(c, requested) == requested)
  {
  }

  function Param(q: Params, name: string): string {
    if name in q && q[name] != [] then q[name][0] else ""
  }

  function IntParam(q: Params, name: string): (r: Option<int>)
    ensures r.Some? ==> -MAX64 - 1 <= r.value <= MAX64
  {
    Atoi(Trim(Param(q, name)))
  }

  function Top(c: Config, q: Params): (r: int)
    ensures 1 <= r
  {
    var n := IntParam(q, "$top");
    PageSize(c, if n.Some? then n.value else 0)
  }

  function Skip(q: Params): (r: nat)
    ensures r <= MAX64
  {
    var n := IntParam(q, "$skiptoken");
    if n.None? || n.value < 0 then 0 else n.value
  }

  // ----- projection -----

  const ALWAYS_KEPT: set<string> := {"id", "@odata.context", "@odata.type", "manager"}

  /** The last field of that name, in any case. */
  function NamedLast(fields: seq<Field>, want: string): (r: Option<string>)
    ensures r.Some? ==> EqualFold(r.value, want) && exists i | 0 <= i < |fields| :: fields[i].name == r.value
    ensures r.None? ==> forall i | 0 <= i < |fields| :: !EqualFold(fields[i].name, want)
  {
    if fields == [] then None
    else
      var n := |fields| - 1;
      if EqualFold(fields[n].name, want) then Some(fields[n].name)
      else
        var r := NamedLast(fields[..n], want);
        assert r.Some? ==> exists i | 0 <= i < n :: fields[..n][i].name == r.value;
        assert r.None? ==> forall i | 0 <= i < n :: fields[..n][i] == fields[i];
        r
  }

  /** The names a $select list asks for, or None when one of them is unknown or an annotation. */
  function Chosen(fields: seq<Field>, wants: seq<string>): Option<set<string>> {
    if wants == [] then Some({})
    else
      var before := Chosen(fields, wants[..|wants| - 1]);
      var want := Trim(wants[|wants| - 1]);
      var name := NamedLast(fields, want);
      if before.None? || want == "" then before
      else if name.None? || HasPrefix(name.value, "@") then None
      else Some(before.value + {name.value})
  }

  function Selected(fields: seq<Field>, raw: string, hidden: set<string>): Option<seq<Field>> {
    if Trim(raw) == "" then Some(Keep(fields, (f: Field) => f.name !in hidden))
    else
      var chosen := Chosen(fields, Split(Trim(raw), ','));
      if chosen.None? then None else Some(Keep(fields, (f: Field) => f.name in chosen.value + ALWAYS_KEPT))
  }

  method FilterFields(fields: seq<Field>, p: Field -> bool) returns (out: seq<Field>)
    ensures out == Keep(fields, p)
  {
    out := [];
    for i := 0 to |fields|
      invariant out == Keep(fields[..i], p)
    {
      KeepStep(fields, i, p);
      if p(fields[i]) {
        out := out + [fields[i]];
      }
    }
    assert fields[..|fields|] == fields;
  }

  /** The field names by their folded form. */
  method KnownNames(fields: seq<Field>) returns (known: map<string, string>)
    ensures forall want :: Lower(want) in known <==> NamedLast(fields, want).Some?
    ensures forall want | Lower(want) in known :: NamedLast(fields, want) == Some(known[Lower(want)])
  {
    known := map[];
    for i := 0 to |fields|
      invariant forall want :: Lower(want) in known <==> NamedLast(fields[..i], want).Some?
      invariant forall want | Lower(want) in known :: NamedLast(fields[..i], want) == Some(known[Lower(want)])
    {
      assert fields[..i + 1][..i] == fields[..i] && fields[..i + 1][i] == fields[i];
      known := known[Lower(fields[i].name) := fields[i].name];
    }
    assert fields[..|fields|] == fields;
  }

  method ApplySelect(fields: seq<Field>, raw0: string, hidden: set<string>) returns (out: Option<seq<Field>>)
    ensures out == Selected(fields, raw0, hidden)
  {
    hide NamedLast, Keep, Trim, Lower, HasPrefix, Split;
    var raw := Trim(raw0);
    if raw == "" {
      if hidden == {} {
        KeepAll(fields, (f: Field) => f.name !in hidden);
        return Some(fields);
      }
      var shown := FilterFields(fields, (f: Field) => f.name !in hidden);
      return Some(shown);
    }
    var known := KnownNames(fields);
    var keep := ALWAYS_KEPT;
    var wants := Split(raw, ',');
    for i := 0 to |wants|
      invariant Chosen(fields, wants[..i]).Some? && keep == Chosen(fields, wants[..i]).value + ALWAYS_KEPT
    {
      ChosenStep(fields, wants, i);
      var want := Trim(wants[i]);
      if want == "" {
        continue;
      }
      if Lower(want) !in known || HasPrefix(known[Lower(want)], "@") {
        return None;
      }
      keep := keep + {known[Lower(want)]};
    }
    assert wants[..|wants|] == wants;
    var kept := FilterFields(fields, (f: Field) => f.name in keep);
    KeepSame(fields, (f: Field) => f.name in keep, (f: Field) => f.name in Chosen(fields, wants).value + ALWAYS_KEPT);
    return Some(kept);
  }

  lemma ChosenStep(fields: seq<Field>, wants: seq<string>, i: nat)
    requires i < |wants|
    ensures var before := Chosen(fields, wants[..i]); var want := Trim(wants[i]); var name := NamedLast(fields, want);
            Chosen(fields, wants[..i + 1]) ==
              if before.None? || want == "" then before
              else if name.None? || HasPrefix(name.value, "@") then None
              else Some(before.value + {name.value})
    ensures Chosen(fields, wants[..i + 1]).None? ==> Chosen(fields, wants).None?
  {
    hide NamedLast, Trim;
    assert wants[..i + 1][..i] == wants[..i];
    ChosenStuck(fields, wants, i + 1);
  }

  lemma {:induction false} ChosenStuck(fields: seq<Field>, wants: seq<string>, i: nat)
    requires i <= |wants|
    ensures Chosen(fields, wants[..i]).None? ==> Chosen(fields, wants).None?
  {
    hide NamedLast, Trim;
    if i < |wants| {
      var n := |wants| - 1;
      ChosenStuck(fields, wants[..n], i);
      assert wants[..n][..i] == wants[..i];
    } else {
      assert wants[..i] == wants;
    }
  }

  /** Without clashing names, a list selects exactly the properties it names, plus those always
      kept, in their order; it is refused exactly when some entry names nothing but an annotation. */
  lemma SelectsByName(fields: seq<Field>, raw: string, hidden: set<string>)
    requires Trim(raw) != "" && forall i, j | 0 <= i < j < |fields| :: !EqualFold(fields[i].name, fields[j].name)
    ensures var wants := Split(Trim(raw), ',');
            && (Selected(fields, raw, hidden).None? <==>
                 exists w | w in wants :: Trim(w) != "" && forall f | f in fields && EqualFold(f.name, Trim(w)) :: HasPrefix(f.name, "@"))
            && (Selected(fields, raw, hidden).Some? ==> forall f ::
                 f in Selected(fields, raw, hidden).value <==>
                 f in fields && (f.name in {"id", "@odata.context", "@odata.type", "manager"}
                                 || exists w | w in wants :: Trim(w) != "" && EqualFold(f.name, Trim(w))))
  {
    hide NamedLast, Trim, Split, EqualFold, HasPrefix, Chosen;
    var wants := Split(Trim(raw), ',');
    ChosenNames(fields, wants);
    var chosen := Chosen(fields, wants);
    if chosen.Some? {
      KeepIn(fields, (f: Field) => f.name in chosen.value + ALWAYS_KEPT);
    }
  }

  lemma {:induction false} ChosenNames(fields: seq<Field>, wants: seq<string>)
    requires forall i, j | 0 <= i < j < |fields| :: !EqualFold(fields[i].name, fields[j].name)
    ensures Chosen(fields, wants).None? <==>
              exists w | w in wants :: Trim(w) != "" && forall f | f in fields && EqualFold(f.name, Trim(w)) :: HasPrefix(f.name, "@")
    ensures Chosen(fields, wants).Some? ==> forall f | f in fields ::
              f.name in Chosen(fields, wants).value <==> exists w | w in wants :: Trim(w) != "" && EqualFold(f.name, Trim(w))
  {
    hide NamedLast, Trim, EqualFold, HasPrefix;
    if wants != [] {
      var n := |wants| - 1;
      assert wants == wants[..n] + [wants[n]];
      ChosenNames(fields, wants[..n]);
      NamedOnly(fields, Trim(wants[n]));
    }
  }

  lemma NamedOnly(fields: seq<Field>, want: string)
    requires forall i, j | 0 <= i < j < |fields| :: !EqualFold(fields[i].name, fields[j].name)
    ensures NamedLast(fields, want).None? ==> forall f | f in fields :: !EqualFold(f.name, want)
    ensures NamedLast(fields, want).Some? ==> forall f | f in fields :: EqualFold(f.name, want) <==> f.name == NamedLast(fields, want).value
    ensures NamedLast(fields, want).Some? ==> exists f | f in fields :: EqualFold(f.name, want)
  {
    hide NamedLast;
    var name := NamedLast(fields, want);
    if name.Some? {
      var i :| 0 <= i < |fields| && fields[i].name == name.value;
      assert fields[i] in fields;
      forall f | f in fields
        ensures EqualFold(f.name, want) <==> f.name == name.value
      {
        var j :| 0 <= j < |fields| && fields[j] == f;
      }
    }
  }

  // ----- one request -----

  /** What a route serves: the rendered entities in object-id order, their schema, the properties
      hidden unless selected, and whether the route expands. */
  datatype Listing = Listing(config: Config, items: seq<seq<Field>>, schema: Value, hidden: set<string>, expandable: bool)

  datatype Reply = Refused | Panicked | Page(value: seq<Value>, next: Option<nat>)

  const UNSUPPORTED_OPTIONS: seq<string> := ["$orderby", "$search", "$count", "$apply", "$format"]

  predicate Unsupported(q: Params, expandable: bool) {
    (exists o | o in UNSUPPORTED_OPTIONS :: o in q) || (!expandable && "$expand" in q)
  }

  /** The rows the filter keeps, or None when it does not compile. */
  function Kept(l: Listing, q: Params): Option<seq<seq<Field>>> {
    if "$filter" !in q then Some(l.items)
    else
      var f := ParseFilter(l.schema, Param(q, "$filter"));
      if f.None? then None else Some(Keep(l.items, (e: seq<Field>) => FilterHolds(f.value, Obj(e))))
  }

  /** Every row projected, or None when one of them is refused. */
  function Projected(rows: seq<seq<Field>>, raw: string, hidden: set<string>): Option<seq<Value>> {
    if rows == [] then Some([])
    else
      var before := Projected(rows[..|rows| - 1], raw, hidden);
      var last := Selected(rows[|rows| - 1], raw, hidden);
      if before.None? || last.None? then None else Some(before.value + [Obj(last.value)])
  }

  function Respond(l: Listing, q: Params): Reply {
    var rows := Kept(l, q);
    if Unsupported(q, l.expandable) || rows.None? then Refused
    else
      var total := |rows.value|;
      var skip := if Skip(q) > total then total else Skip(q);
      var sum := Wrap64(skip + Top(l.config, q));
      var end := if sum > total then total else sum;
      if end < skip then Panicked
      else
        var page := Projected(rows.value[skip..end], Param(q, "$select"), l.hidden);
        if page.None? then Refused
        else Page(page.value, if end < total then Some(end) else None)
  }

  lemma ProjectedStep(rows: seq<seq<Field>>, i: nat, raw: string, hidden: set<string>)
    requires i < |rows|
    ensures Projected(rows[..i + 1], raw, hidden) ==
              if Projected(rows[..i], raw, hidden).None? || Selected(rows[i], raw, hidden).None? then None
              else Some(Projected(rows[..i], raw, hidden).value + [Obj(Selected(rows[i], raw, hidden).value)])
    ensures Projected(rows[..i + 1], raw, hidden).None? ==> Projected(rows, raw, hidden).None?
  {
    hide Selected;
    assert rows[..i + 1][..i] == rows[..i];
    ProjectedStuck(rows, i + 1, raw, hidden);
  }

  lemma {:induction false} ProjectedStuck(rows: seq<seq<Field>>, i: nat, raw: string, hidden: set<string>)
    requires i <= |rows|
    ensures Projected(rows[..i], raw, hidden).None? ==> Projected(rows, raw, hidden).None?
  {
    hide Selected;
    if i < |rows| {
      ProjectedStuck(rows[..|rows| - 1], i, raw, hidden);
      assert rows[..|rows| - 1][..i] == rows[..i];
    } else {
      assert rows[..i] == rows;
    }
  }

  method ProjectRows(rows: seq<seq<Field>>, raw: string, hidden: set<string>) returns (page: Option<seq<Value>>)
    ensures page == Projected(rows, raw, hidden)
  {
    hide Selected;
    var out := [];
    for i := 0 to |rows|
      invariant Projected(rows[..i], raw, hidden) == Some(out)
    {
      ProjectedStep(rows, i, raw, hidden);
      var narrowed := ApplySelect(rows[i], raw, hidden);
      if narrowed.None? {
        return None;
      }
      out := out + [Obj(narrowed.value)];
    }
    assert rows[..|rows|] == rows;
    return Some(out);
  }

  method FilterRows(l: Listing, f: Filter) returns (kept: seq<seq<Field>>)
    ensures kept == Keep(l.items, (e: seq<Field>) => FilterHolds(f, Obj(e)))
  {
    hide FilterHolds;
    ghost var p := (e: seq<Field>) => FilterHolds(f, Obj(e));
    kept := [];
    for i := 0 to |l.items|
      invariant kept == Keep(l.items[..i], p)
    {
      KeepStep(l.items, i, p);
      if FilterHolds(f, Obj(l.items[i])) {
        kept := kept + [l.items[i]];
      }
    }
    assert l.items[..|l.items|] == l.items;
  }

  method RenderCollection(l: Listing, q: Params) returns (reply: Reply)
    ensures reply == Respond(l, q)
  {
    hide Unsupported, ParseFilter, FilterHolds, Projected, Top, Skip, Param, Wrap64;
    if Unsupported(q, l.expandable) {
      return Refused;
    }
    var items := l.items;
    if "$filter" in q {
      var f := ParseFilter(l.schema, Param(q, "$filter"));
      if f.None? {
        return Refused;
      }
      items := FilterRows(l, f.value);
    }
    var top := Top(l.config, q);
    var skip: int := Skip(q);
    var total := |items|;
    if skip > total {
      skip := total;
    }
    var end := Wrap64(skip + top);
    if end > total {
      end := total;
    }
    if end < skip {
      return Panicked;
    }
    var page := ProjectRows(items[skip..end], Param(q, "$select"), l.hidden);
    if page.None? {
      return Refused;
    }
    return Page(page.value, if end < total then Some(end) else None);
  }

  /** The slice bounds fail exactly when offset plus page size leaves the 64-bit range. */
  lemma PanicsExactly(l: Listing, q: Params)
    requires Top(l.config, q) <= MAX64 && |l.items| <= MAX64
    ensures Respond(l, q).Panicked? <==>
            !Unsupported(q, l.expandable) && Kept(l, q).Some?
            && (if Skip(q) > |Kept(l, q).value| then |Kept(l, q).value| else Skip(q)) + Top(l.config, q) > MAX64
  {
    hide Unsupported, ParseFilter, FilterHolds, Projected, Top, Skip, Param;
    if Kept(l, q).Some? {
      KeptIsShorter(l, q);
    }
  }

  lemma KeptIsShorter(l: Listing, q: Params)
    ensures Kept(l, q).Some? ==> |Kept(l, q).value| <= |l.items|
  {
    hide ParseFilter, FilterHolds;
    if "$filter" in q && Kept(l, q).Some? {
      KeepIsShorter(l.items, (e: seq<Field>) => FilterHolds(ParseFilter(l.schema, Param(q, "$filter")).value, Obj(e)));
    }
  }

  /** One account listed, a page size at the end of the range, and an offset of one. */
  lemma LargestPagePanics()
    ensures var c := Sample([], [SampleMember()]).(graph := Some(N.CanonGraph(None).(maxPageSize := MAX64)));
            var l := Listing(c, [UserFields(SampleTenant([]), SampleMember())], USER_SCHEMA, {}, true);
            Respond(l, map["$top" := [Itoa(MAX64)], "$skiptoken" := [Itoa(1)]]) == Panicked
  {
    hide Itoa, Atoi, Trim, Wrap64, N.CanonGraph, UserFields, Sample;
    var c := Sample([], [SampleMember()]).(graph := Some(N.CanonGraph(None).(maxPageSize := MAX64)));
    var l := Listing(c, [UserFields(SampleTenant([]), SampleMember())], USER_SCHEMA, {}, true);
    var q: Params := map["$top" := [Itoa(MAX64)], "$skiptoken" := [Itoa(1)]];
    AtoiOfItoa(MAX64);
    AtoiOfItoa(1);
    assert "$top" != "$skiptoken" && "$filter" !in q && "$expand" !in q;
    assert Kept(l, q) == Some(l.items);
    PanicsExactly(l, q);
  }

  function SampleMember(): User {
    Account("u", Guid('1'), Guid('a'), "", [])
  }

  // ----- following the links -----

  predicate PlainKeys(q: Params) {
    forall k | k in q :: PlainKey(k) && NoControl(k)
  }

  lemma EnumerateNames(s: set<string>) returns (names: seq<string>)
    ensures (forall k :: k in names <==> k in s) && forall i, j | 0 <= i < j < |names| :: names[i] != names[j]
    decreases s
  {
    if s == {} {
      names := [];
    } else {
      var k :| k in s;
      names := EnumerateNames(s - {k});
      assert forall i | 0 <= i < |names| :: names[i] in names;
      names := names + [k];
    }
  }

  lemma OtherKeysExist(q: Params)
    ensures exists keys :: OtherKeys(keys, q)
  {
    var names := EnumerateNames(q.Keys - {"$skiptoken"});
    var keys := SortBy(names, (k: string) => k);
    SortedNames(keys, names);
    assert OtherKeys(keys, q);
  }

  ghost function NameList(q: Params): (keys: seq<string>)
    ensures OtherKeys(keys, q)
  {
    OtherKeysExist(q);
    var keys :| OtherKeys(keys, q);
    keys
  }

  /** What the continuation link asks for: the path with the origin before it, and the parameters. */
  ghost function NextRequest(base: string, q: Params, end: nat): Option<Target>
    requires AllBytes(q)
  {
    Requested(Link(base, NameList(q), q, end))
  }

  lemma NextRequestFollows(base: string, q: Params, end: nat)
    requires AllBytes(q) && PlainKeys(q) && PlainPath(base) && end <= MAX64
    ensures NextRequest(base, q, end) == Some(Target(base, Follow(q, end)))
    ensures Skip(Follow(q, end)) == end && AllBytes(Follow(q, end)) && PlainKeys(Follow(q, end))
  {
    hide PlainKey, NoControl, PlainPath, Link, Requested, Sorted, AllBytes, Follow, NameList, Skip;
    LinkKeepsExactly(base, NameList(q), q, end);
    FollowSkips(q, end);
    FollowStaysPlain(q, end);
  }

  lemma FollowSkips(q: Params, end: nat)
    requires end <= MAX64
    ensures Skip(Follow(q, end)) == end
  {
    hide Itoa, Atoi, Trim;
    AtoiOfItoa(end);
  }

  lemma FollowStaysPlain(q: Params, end: nat)
    requires AllBytes(q) && PlainKeys(q) && end <= MAX64
    ensures AllBytes(Follow(q, end)) && PlainKeys(Follow(q, end))
  {
    hide PlainKey, Itoa, Bytes;
    AtoiOfItoa(end);
    SkipTokenPlain();
    assert forall v | v in [Itoa(end)] :: v == Itoa(end);
  }

  lemma FollowKeepsRest(l: Listing, q: Params, end: nat)
    ensures var n := Follow(q, end);
            && Kept(l, n) == Kept(l, q) && Top(l.config, n) == Top(l.config, q)
            && Param(n, "$select") == Param(q, "$select") && Unsupported(n, l.expandable) == Unsupported(q, l.expandable)
  {
    hide ParseFilter, FilterHolds, Atoi, Trim, PageSize, Itoa;
  }

  /** The rows from the requested offset on, projected: what the pages should add up to. */
  function Unpaged(l: Listing, q: Params): Option<seq<Value>> {
    var rows := Kept(l, q);
    if Unsupported(q, l.expandable) || rows.None? then None
    else
      var skip := if Skip(q) > |rows.value| then |rows.value| else Skip(q);
      Projected(rows.value[skip..], Param(q, "$select"), l.hidden)
  }

  function Left(l: Listing, q: Params): nat {
    if Kept(l, q).None? || Skip(q) > |Kept(l, q).value| then 0 else |Kept(l, q).value| - Skip(q)
  }

  /** Request a page, then follow the link while there is one. */
  ghost function Walk(l: Listing, base: string, q: Params): Option<seq<Value>>
    requires AllBytes(q) && PlainKeys(q) && PlainPath(base) && |l.items| + Top(l.config, q) <= MAX64
    decreases Left(l, q)
  {
    var reply := Respond(l, q);
    if !reply.Page? then None
    else if reply.next.None? then Some(reply.value)
    else
      Progress(l, base, q);
      var next := NextRequest(base, q, reply.next.value).value;
      var rest := Walk(l, next.path, next.query);
      if rest.None? then None else Some(reply.value + rest.value)
  }

  /** The next page starts later and the request is otherwise the same. */
  lemma Progress(l: Listing, base: string, q: Params)
    requires AllBytes(q) && PlainKeys(q) && PlainPath(base) && |l.items| + Top(l.config, q) <= MAX64
    requires Respond(l, q).Page? && Respond(l, q).next.Some?
    ensures var n := Follow(q, Respond(l, q).next.value);
            && NextRequest(base, q, Respond(l, q).next.value) == Some(Target(base, n)) && Skip(n) == Respond(l, q).next.value
            && AllBytes(n) && PlainKeys(n) && Top(l.config, n) == Top(l.config, q) && Kept(l, n) == Kept(l, q)
            && Left(l, n) < Left(l, q)
  {
    hide Unsupported, Kept, Projected, Top, Skip, Param, NextRequest, Bytes, PlainKey, PlainPath;
    KeptIsShorter(l, q);
    NextRequestFollows(base, q, Respond(l, q).next.value);
    FollowKeepsRest(l, q, Respond(l, q).next.value);
  }

  lemma {:induction false} ProjectedConcat(a: seq<seq<Field>>, b: seq<seq<Field>>, raw: string, hidden: set<string>)
    ensures var p, r := Projected(a, raw, hidden), Projected(b, raw, hidden);
            Projected(a + b, raw, hidden) == if p.None? || r.None? then None else Some(p.value + r.value)
  {
    hide Selected;
    if b == [] {
      assert a + b == a;
      if Projected(a, raw, hidden).Some? {
        assert Projected(a, raw, hidden).value + [] == Projected(a, raw, hidden).value;
      }
    } else {
      var n := |b| - 1;
      ProjectedConcat(a, b[..n], raw, hidden);
      assert (a + b)[..|a + b| - 1] == a + b[..n] && (a + b)[|a + b| - 1] == b[n];
      var p, r, last := Projected(a, raw, hidden), Projected(b[..n], raw, hidden), Selected(b[n], raw, hidden);
      if p.Some? && r.Some? && last.Some? {
        assert p.value + (r.value + [Obj(last.value)]) == p.value + r.value + [Obj(last.value)];
      }
    }
  }

  /** Following the links from any page gives exactly the rows from there on: every kept row once,
      in order, projected. It ends, and it fails only if some row is refused by $select. */
  lemma {:induction false} WalkIsUnpaged(l: Listing, base: string, q: Params)
    requires AllBytes(q) && PlainKeys(q) && PlainPath(base) && |l.items| + Top(l.config, q) <= MAX64
    ensures Walk(l, base, q) == Unpaged(l, q)
    decreases Left(l, q)
  {
    hide Unsupported, Kept, Projected, Top, Skip, Param, NextRequest, Bytes, PlainKey, PlainPath, Left;
    KeptIsShorter(l, q);
    var rows := Kept(l, q);
    var reply := Respond(l, q);
    if !Unsupported(q, l.expandable) && rows.Some? {
      var total := |rows.value|;
      var skip := if Skip(q) > total then total else Skip(q);
      var end := if skip + Top(l.config, q) > total then total else skip + Top(l.config, q);
      assert rows.value[skip..] == rows.value[skip..end] + rows.value[end..];
      ProjectedConcat(rows.value[skip..end], rows.value[end..], Param(q, "$select"), l.hidden);
      if end == total {
        ProjectedNone(Param(q, "$select"), l.hidden);
        assert rows.value[end..] == [];
        if reply.Page? {
          assert reply.value + [] == reply.value;
        }
      } else if reply.Page? {
        Progress(l, base, q);
        FollowKeepsRest(l, q, end);
        WalkIsUnpaged(l, base, Follow(q, end));
      }
    }
  }

  lemma ProjectedNone(raw: string, hidden: set<string>)
    ensures Projected([], raw, hidden) == Some([])
  {
  }

  // ----- what a listing shows -----

  /** The rows as they are. */
  function Listed(rows: seq<seq<Field>>): (r: seq<Value>)
    ensures |r| == |rows| && forall i | 0 <= i < |r| :: r[i] == Obj(rows[i])
  {
    seq(|rows|, i requires 0 <= i < |rows| => Obj(rows[i]))
  }

  lemma ShownWhole(fields: seq<Field>, hidden: set<string>)
    requires hidden == {}
    ensures Selected(fields, "", hidden) == Some(fields)
  {
    TrimEmpty();
    KeepAll(fields, (f: Field) => f.name !in hidden);
  }

  lemma {:induction false} ProjectedWhole(rows: seq<seq<Field>>)
    ensures Projected(rows, "", {}) == Some(Listed(rows))
  {
    hide Selected;
    if rows != [] {
      var n := |rows| - 1;
      ProjectedWhole(rows[..n]);
      ShownWhole(rows[n], {});
      assert Listed(rows) == Listed(rows[..n]) + [Obj(rows[n])];
    }
  }

  /** The request names no option the surface refuses. */
  predicate Supported(l: Listing, q: Params) {
    && "$orderby" !in q && "$search" !in q && "$count" !in q && "$apply" !in q && "$format" !in q
    && (l.expandable || "$expand" !in q)
  }

  lemma SupportedExactly(l: Listing, q: Params)
    ensures Unsupported(q, l.expandable) <==> !Supported(l, q)
  {
    assert UNSUPPORTED_OPTIONS == ["$orderby", "$search", "$count", "$apply", "$format"];
    var os := UNSUPPORTED_OPTIONS;
    assert os[0] in os && os[1] in os && os[2] in os && os[3] in os && os[4] in os;
  }

  /** A first request for whole entities. */
  ghost predicate WholeFirst(l: Listing, base: string, q: Params) {
    && AllBytes(q) && PlainKeys(q) && PlainPath(base) && |l.items| + Top(l.config, q) <= MAX64
    && Supported(l, q) && "$skiptoken" !in q && "$select" !in q && l.hidden == {}
  }

  lemma FromTheStart(q: Params)
    requires "$skiptoken" !in q
    ensures Skip(q) == 0
  {
    TrimEmpty();
  }

  lemma WalkFromTheStart(l: Listing, base: string, q: Params)
    requires WholeFirst(l, base, q)
    ensures Walk(l, base, q) == if Kept(l, q).None? then None else Some(Listed(Kept(l, q).value))
  {
    hide Kept, Unsupported, Supported, Top, Skip, Param, PlainKeys, PlainPath, AllBytes, Listed, Projected;
    WalkIsUnpaged(l, base, q);
    SupportedExactly(l, q);
    FromTheStart(q);
    NoSelect(q);
    if Kept(l, q).Some? {
      ProjectedWhole(Kept(l, q).value);
      assert Kept(l, q).value[0..] == Kept(l, q).value;
    }
  }

  lemma NoSelect(q: Params)
    requires "$select" !in q
    ensures Param(q, "$select") == ""
  {
  }

  /** Followed from the first page, a filtered listing shows the entities the filter keeps, whole, as
      often as they are there and in their order. */
  lemma FilterIsApplied(l: Listing, base: string, q: Params, f: Filter)
    requires WholeFirst(l, base, q) && "$filter" in q && ParseFilter(l.schema, q["$filter"][0]) == Some(f)
    ensures Walk(l, base, q) == Some(Listed(Keep(l.items, (e: seq<Field>) => FilterHolds(f, Obj(e)))))
  {
    hide Walk, Unsupported, Supported, Top, PlainKeys, PlainPath, Listed, ParseFilter, FilterHolds;
    WalkFromTheStart(l, base, q);
  }

  /** Without a filter it shows all of them. */
  lemma NoFilterShowsAll(l: Listing, base: string, q: Params)
    requires WholeFirst(l, base, q) && "$filter" !in q
    ensures Walk(l, base, q) == Some(Listed(l.items))
  {
    hide Walk, Unsupported, Supported, Top, PlainKeys, PlainPath, Listed, ParseFilter, FilterHolds;
    WalkFromTheStart(l, base, q);
  }

  /** A request with an option the surface refuses, or a filter that does not compile, gets nothing. */
  lemma RefusedFor(l: Listing, q: Params)
    ensures !Supported(l, q) ==> Respond(l, q) == Refused
    ensures "$filter" in q && q["$filter"] != [] && ParseFilter(l.schema, q["$filter"][0]).None? ==> Respond(l, q) == Refused
  {
    hide Unsupported, Supported, ParseFilter, FilterHolds, Projected;
    SupportedExactly(l, q);
  }

  /** From the requested offset the page holds the next rows up to its size, and it links to the row
      after them, if there is one. */
  lemma PageHolds(l: Listing, q: Params)
    requires Supported(l, q) && "$select" !in q && "$filter" !in q && l.hidden == {} && |l.items| + Top(l.config, q) <= MAX64
    ensures var total := |l.items|; var skip := if Skip(q) > total then total else Skip(q);
            var end := if skip + Top(l.config, q) > total then total else skip + Top(l.config, q);
            Respond(l, q) == Page(Listed(l.items[skip..end]), if end < total then Some(end) else None)
  {
    hide Unsupported, Supported, Top, Skip, Projected, Listed;
    SupportedExactly(l, q);
    NoSelect(q);
    var total := |l.items|;
    var skip := if Skip(q) > total then total else Skip(q);
    var end := if skip + Top(l.config, q) > total then total else skip + Top(l.config, q);
    ProjectedWhole(l.items[skip..end]);
  }

  /** What $skiptoken and $top ask for, and what stands in for them. */
  lemma OffsetAndSize(c: Config, q: Params, n: nat)
    requires n <= MAX64 && c.graph.Some? && 1 <= c.graph.value.defaultPageSize <= c.graph.value.maxPageSize
    ensures "$skiptoken" !in q ==> Skip(q) == 0
    ensures "$skiptoken" in q && q["$skiptoken"] == [Itoa(n)] ==> Skip(q) == n
    ensures "$top" !in q ==> Top(c, q) == c.graph.value.defaultPageSize
    ensures "$top" in q && q["$top"] == [Itoa(n)] ==>
              Top(c, q) == if n == 0 then c.graph.value.defaultPageSize
                           else if n > c.graph.value.maxPageSize then c.graph.value.maxPageSize else n
  {
    hide Itoa, Atoi, Trim;
    TrimEmpty();
    AtoiOfItoa(n);
    NothingIsNoNumber();
  }

  lemma NothingIsNoNumber()
    ensures Atoi("") == None
  {
  }

  /** Without $select everything is shown that is not hidden. */
  lemma UnselectedShows(fields: seq<Field>, hidden: set<string>)
    ensures Selected(fields, "", hidden).Some?
    ensures forall f :: f in Selected(fields, "", hidden).value <==> f in fields && f.name !in hidden
  {
    TrimEmpty();
    KeepIn(fields, (f: Field) => f.name !in hidden);
  }
}
