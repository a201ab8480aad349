/** $expand=manager: each user's manager, projected, appended to the rendered user. */
module Expansion {
  import opened Text
  import opened JsonValue
  import opened Directory
  import opened FilterSyntax
  import opened Rendering
  import opened Query
  import opened Paging

  const USER_HIDDEN: set<string> := {"department", "companyName", "employeeId", "onPremisesExtensionAttributes"}

  /** A stored user always has a tenant. */
  function Shown(c: Config, u: User): seq<Field> {
    UserFields(if TenantOf(c, u.tid).Some? then TenantOf(c, u.tid).value else NO_TENANT, u)
  }

  /** The $select list inside manager(...), or None when the option is refused. */
  function InnerSelect(option: string): Option<string> {
    var cut := Cut(Trim(option), '(');
    if !EqualFold(Trim(cut.0), "manager") then None
    else if cut.1 == "" then Some("")
    else
      var inner := Trim(cut.1);
      var closed := HasSuffix(inner, ")");
      var opts := Cut(if closed then inner[..|inner| - 1] else inner, '=');
      if !closed || !EqualFold(Trim(opts.0), "$select") then None else Some(opts.1)
  }

  /** The manager property, or None when its projection is refused. */
  function ManagerField(c: Config, m: User, select: string): Option<Field> {
    var shown := Selected([Field("@odata.type", Str("#microsoft.graph.user"))] + Shown(c, m), select, USER_HIDDEN);
    if shown.None? then None else Some(Field("manager", Obj(shown.value)))
  }

  function WithManager(c: Config, u: User, select: string): Option<seq<Field>> {
    var m := ManagerOf(c, u);
    if m.None? then Some(Shown(c, u))
    else
      var f := ManagerField(c, m.value, select);
      if f.None? then None else Some(Shown(c, u) + [f.value])
  }

  function AllShown(c: Config, us: seq<User>): (r: seq<seq<Field>>)
    ensures |r| == |us| && forall i | 0 <= i < |us| :: r[i] == Shown(c, us[i])
  {
    seq(|us|, i requires 0 <= i < |us| => Shown(c, us[i]))
  }

  function AllWithManager(c: Config, us: seq<User>, select: string): Option<seq<seq<Field>>> {
    if us == [] then Some([])
    else
      var before := AllWithManager(c, us[..|us| - 1], select);
      var last := WithManager(c, us[|us| - 1], select);
      if before.None? || last.None? then None else Some(before.value + [last.value])
  }

  function Expanded(c: Config, q: Params, us: seq<User>): Option<seq<seq<Field>>> {
    if "$expand" !in q then Some(AllShown(c, us))
    else
      var select := InnerSelect(if q["$expand"] == [] then "" else Join(q["$expand"], ','));
      if select.None? then None else AllWithManager(c, us, select.value)
  }

  lemma {:induction false} AllStuck(c: Config, us: seq<User>, i: nat, select: string)
    requires i <= |us|
    ensures AllWithManager(c, us[..i], select).None? ==> AllWithManager(c, us, select).None?
  {
    hide WithManager;
    if i < |us| {
      AllStuck(c, us[..|us| - 1], i, select);
      assert us[..|us| - 1][..i] == us[..i];
    } else {
      assert us[..i] == us;
    }
  }

  method ExpandManager(c: Config, q: Params, us: seq<User>) returns (items: Option<seq<seq<Field>>>)
    ensures items == Expanded(c, q, us)
  {
    hide InnerSelect, Shown, Selected, ManagerOf;
    var plain := AllShown(c, us);
    if "$expand" !in q {
      return Some(plain);
    }
    var select := InnerSelect(if q["$expand"] == [] then "" else Join(q["$expand"], ','));
    if select.None? {
      return None;
    }
    var out := plain;
    for i := 0 to |us|
      invariant |out| == |us| && AllWithManager(c, us[..i], select.value) == Some(out[..i])
      invariant forall j | i <= j < |us| :: out[j] == plain[j]
    {
      assert us[..i + 1][..i] == us[..i];
      AllStuck(c, us, i + 1, select.value);
      ghost var done := out[..i];
      var m := ManagerOf(c, us[i]);
      if m.Some? {
        var mgr := ApplySelect([Field("@odata.type", Str("#microsoft.graph.user"))] + Shown(c, m.value), select.value, USER_HIDDEN);
        if mgr.None? {
          return None;
        }
        out := out[i := out[i] + [Field("manager", Obj(mgr.value))]];
      }
      assert out[..i + 1] == done + [out[i]];
    }
    assert us[..|us|] == us && out[..|us|] == out;
    return Some(out);
  }

  lemma {:induction false} ExpandedRow(c: Config, us: seq<User>, select: string, i: nat)
    requires AllWithManager(c, us, select).Some? && i < |us|
    ensures |AllWithManager(c, us, select).value| == |us|
    ensures WithManager(c, us[i], select) == Some(AllWithManager(c, us, select).value[i])
  {
    hide WithManager;
    var n := |us| - 1;
    if n > 0 {
      ExpandedRow(c, us[..n], select, if i < n then i else 0);
    }
  }

  /** Whatever a filter selects without $expand it selects with it: row by row, the verdict is that
      on the user alone. */
  lemma ExpansionKeepsFilter(c: Config, q: Params, us: seq<User>, src: string, i: nat)
    requires ParseFilter(USER_SCHEMA, src).Some? && Expanded(c, q, us).Some? && i < |us|
    ensures |Expanded(c, q, us).value| == |us|
    ensures var f := ParseFilter(USER_SCHEMA, src).value;
            FilterHolds(f, Obj(Expanded(c, q, us).value[i])) == FilterHolds(f, Obj(Shown(c, us[i])))
  {
    hide ParseFilter, FilterHolds, UserFields, InnerSelect, Selected, ManagerOf, TenantOf, AllWithManager;
    if "$expand" in q {
      var select := InnerSelect(if q["$expand"] == [] then "" else Join(q["$expand"], ',')).value;
      ExpandedRow(c, us, select, i);
      var t := if TenantOf(c, us[i].tid).Some? then TenantOf(c, us[i].tid).value else NO_TENANT;
      var m := ManagerOf(c, us[i]);
      if m.Some? {
        ExpandKeepsVerdict(src, t, us[i], ManagerField(c, m.value, select).value.value);
      }
    }
  }

  // ----- what the option asks for -----

  lemma CutWhole(s: string, sep: char)
    requires sep !in s
    ensures Cut(s, sep) == (s, "")
  {
  }

  lemma UnbracketedOption(w: string)
    requires '(' !in w
    ensures InnerSelect(w) == if EqualFold(Trim(w), "manager") then Some("") else None
  {
    hide EqualFold, Cut;
    TrimLeftDrops(w);
    TrimRightDrops(TrimLeft(w));
    CutWhole(Trim(w), '(');
    TrimIdempotent(w);
  }

  lemma InnerList(v: string)
    ensures InnerSelect("manager($select=" + v + ")") == Some(v)
  {
    hide Cut, Trim;
    var inner := "$select=" + v + ")";
    var option := "manager(" + inner;
    assert option == "manager($select=" + v + ")" && option == "manager" + ['('] + inner;
    TrimEnds(option);
    TrimEnds(inner);
    TrimEnds("manager");
    TrimEnds("$select");
    CutAt("manager", inner, '(');
    assert inner[..|inner| - 1] == "$select" + ['='] + v && HasSuffix(inner, ")");
    CutAt("$select", v, '=');
  }

  /** Asked to expand managers, a row is the user, followed by the user's manager where there is one,
      with the properties the inner list selects. Nothing but managers can be expanded. */
  lemma ManagersAreShown(c: Config, q: Params, us: seq<User>, v: string, i: nat)
    requires "$expand" in q && q["$expand"] == ["manager($select=" + v + ")"] && Expanded(c, q, us).Some? && i < |us|
    requires Lower(us[i].tid) == us[i].tid
    requires forall j, k | 0 <= j < k < |c.users| :: !(c.users[j].tid == c.users[k].tid && c.users[j].username == c.users[k].username)
    ensures var u, rows := us[i], Expanded(c, q, us).value;
            && |rows| == |us|
            && (forall m | m in c.users && m.tid == u.tid && m.username == u.manager && u.manager != "" ::
                 var shown := Selected([Field("@odata.type", Str("#microsoft.graph.user"))] + Shown(c, m), v,
                                       {"department", "companyName", "employeeId", "onPremisesExtensionAttributes"});
                 shown.Some? && rows[i] == Shown(c, u) + [Field("manager", Obj(shown.value))])
            && ((u.manager == "" || forall m | m in c.users :: !(m.tid == u.tid && m.username == u.manager)) ==> rows[i] == Shown(c, u))
  {
    hide InnerSelect, Selected, Shown, AllWithManager;
    InnerList(v);
    var u := us[i];
    assert Join(q["$expand"], ',') == q["$expand"][0];
    ExpandedRow(c, us, v, i);
    forall m | m in c.users && m.tid == u.tid && m.username == u.manager && u.manager != ""
      ensures ManagerOf(c, u) == Some(m)
    {
      var f := FindUser(c.users, u.tid, u.manager).value;
      var j :| 0 <= j < |c.users| && c.users[j] == m;
      var k :| 0 <= k < |c.users| && c.users[k] == f;
      assert j == k;
    }
  }
}
