/** How users and groups are rendered, the schemas filters are checked against, and what a
    compiled filter says of a rendered entity. */
module Rendering {
  import opened Text
  import opened Grammar
  import opened JsonValue
  import opened Directory
  import opened Membership
  import opened FilterSyntax
  import P = FilterPrint
  import R = RuleSyntax

  // ----- rendering -----

  function Nullable(s: string): Value {
    if s == "" then Null else Str(s)
  }

  function Strs(ss: seq<string>): Value {
    Arr(seq(|ss|, i requires 0 <= i < |ss| => Str(ss[i])))
  }

  function UserFields(t: Tenant, u: User): seq<Field> {
    NameFields(t, u) + WorkFields(u)
  }

  function NameFields(t: Tenant, u: User): seq<Field> {
    [ Field("id", Str(u.oid)),
      Field("displayName", Str(u.name)),
      Field("userPrincipalName", Str(PrincipalName(t, u))),
      Field("mail", Nullable(u.email)),
      Field("givenName", Nullable(u.profile.givenName)),
      Field("surname", Nullable(u.profile.surname)),
      Field("jobTitle", Nullable(u.org.jobTitle)),
      Field("officeLocation", Nullable(u.org.officeLocation)) ]
  }

  function WorkFields(u: User): seq<Field> {
    [ Field("mobilePhone", Nullable(u.profile.mobilePhone)),
      Field("businessPhones", Strs(u.profile.businessPhones)),
      Field("preferredLanguage", Nullable(u.profile.preferredLanguage)),
      Field("accountEnabled", Bool(UserEnabled(u))),
      Field("department", Nullable(u.org.department)),
      Field("companyName", Nullable(u.org.companyName)),
      Field("employeeId", Nullable(u.org.employeeId)),
      Field("onPremisesExtensionAttributes", Obj(ExtensionFields(u))) ]
  }

  function ExtensionFields(u: User): seq<Field> {
    [ Field("extensionAttribute1", Nullable(u.org.extension1)),
      Field("extensionAttribute2", Nullable(u.org.extension2)),
      Field("extensionAttribute3", Nullable(u.org.extension3)) ]
  }

  function RenderUser(t: Tenant, u: User): Value {
    Obj(UserFields(t, u))
  }

  function GroupFields(g: DirGroup): seq<Field> {
    var dynamic := g.membershipRule != "";
    [ Field("id", Str(g.oid)),
      Field("displayName", Str(g.name)),
      Field("description", Nullable(g.description)),
      Field("mail", Nullable(g.mail)),
      Field("mailNickname", Nullable(g.mailNickname)),
      Field("mailEnabled", Bool(g.mailEnabled)),
      Field("securityEnabled", Bool(g.securityEnabled)),
      Field("groupTypes", Strs(if dynamic then ["DynamicMembership"] else [])),
      Field("membershipRule", Nullable(g.membershipRule)),
      Field("membershipRuleProcessingState", if dynamic then Str("On") else Null) ]
  }

  function RenderGroup(g: DirGroup): Value {
    Obj(GroupFields(g))
  }

  const NO_TENANT := Tenant("", "", [], "", 0, false, [])
  const NO_USER := User("", "", "", "", "", [], "", "", "", None, [], "", NO_ORG, NO_PROFILE, [])
  const NO_DIR_GROUP := DirGroup("", "", "", "", "", false, false, "")

  /** The schemas are the empty entities. */
  const USER_SCHEMA: Value := RenderUser(NO_TENANT, NO_USER)
  const GROUP_SCHEMA: Value := RenderGroup(NO_DIR_GROUP)

  // ----- evaluation -----

  predicate LiteralEquals(v: Value, lit: Literal) {
    match lit
    case NullLit => v.Null?
    case BoolLit(b) => v == Bool(b)
    case StrLit(s) => v.Str? && EqualFold(v.s, s)
  }

  predicate TestHolds(t: Test, e: Value) {
    var v := Lookup(e, t.path);
    match t
    case Cmp(_, op, lits) =>
      (match op
       case Ne => lits != [] && !LiteralEquals(v, lits[0])
       case StartsWith =>
         v.Str? && HasPrefix(Lower(v.s), Lower(if lits != [] && lits[0].StrLit? then lits[0].s else ""))
       case _ => exists lit | lit in lits :: LiteralEquals(v, lit))
    case Any(_, lit) => v.Arr? && exists x | x in v.items :: LiteralEquals(x, lit)
  }

  predicate FilterHolds(f: Filter, e: Value) {
    Eval(f, (t: Test) => TestHolds(t, e))
  }

  // ----- schemas and entities have the same shape -----

  /** The same fields in the same order, collections where there were collections, leaves where
      there were leaves. */
  predicate SameShape(a: Value, b: Value)
    decreases a
  {
    if a.Obj? then
      b.Obj? && |a.fields| == |b.fields|
      && forall i | 0 <= i < |a.fields| :: a.fields[i].name == b.fields[i].name && SameShape(a.fields[i].value, b.fields[i].value)
    else if a.Arr? then b.Arr?
    else !a.Map? && !b.Obj? && !b.Arr? && !b.Map?
  }

  lemma ShapeOfConcat(a: seq<Field>, b: seq<Field>, a': seq<Field>, b': seq<Field>)
    requires SameShape(Obj(a), Obj(b)) && SameShape(Obj(a'), Obj(b'))
    ensures SameShape(Obj(a + a'), Obj(b + b'))
  {
    var x, y := Obj(a + a'), Obj(b + b');
    forall i | 0 <= i < |x.fields|
      ensures x.fields[i].name == y.fields[i].name && SameShape(x.fields[i].value, y.fields[i].value)
    {
      if i < |a| {
        assert x.fields[i] == Obj(a).fields[i] && y.fields[i] == Obj(b).fields[i];
      } else {
        assert x.fields[i] == Obj(a').fields[i - |a|] && y.fields[i] == Obj(b').fields[i - |a|];
      }
    }
  }

  lemma NamesShape(t: Tenant, u: User)
    ensures SameShape(Obj(NameFields(NO_TENANT, NO_USER)), Obj(NameFields(t, u)))
  {
    hide PrincipalName;
  }

  lemma WorkShape(u: User)
    ensures SameShape(Obj(WorkFields(NO_USER)), Obj(WorkFields(u)))
  {
    hide UserEnabled, ExtensionFields;
    ExtensionShape(u);
  }

  lemma ExtensionShape(u: User)
    ensures SameShape(Obj(ExtensionFields(NO_USER)), Obj(ExtensionFields(u)))
  {
  }

  lemma UserShape(t: Tenant, u: User)
    ensures SameShape(USER_SCHEMA, RenderUser(t, u))
  {
    hide NameFields, WorkFields, SameShape;
    NamesShape(t, u);
    WorkShape(u);
    ShapeOfConcat(NameFields(NO_TENANT, NO_USER), NameFields(t, u), WorkFields(NO_USER), WorkFields(u));
  }

  lemma GroupShape(g: DirGroup)
    ensures SameShape(GROUP_SCHEMA, RenderGroup(g))
  {
  }

  lemma {:induction false} FindSame(a: seq<Field>, b: seq<Field>, seg: string)
    requires P.SchemaOk(Obj(a)) && SameShape(Obj(a), Obj(b)) && Find(a, seg, true).Some?
    ensures Find(b, seg, true).Some? && Find(b, seg, true) == Find(b, seg, false)
    ensures SameShape(Find(a, seg, true).value, Find(b, seg, true).value)
  {
    assert P.NameOk(Obj(a).fields[0].name) && Obj(a).fields[0].name == Obj(b).fields[0].name;
    assert !HasPrefix(a[0].name, "@") by {
      assert P.NameChar(a[0].name[0]);
    }
    if !EqualFold(a[0].name, seg) {
      FindSame(a[1..], b[1..], seg);
    }
  }

  lemma {:induction false} WalkSame(a: Value, b: Value, path: seq<string>)
    requires P.SchemaOk(a) && SameShape(a, b) && Walk(a, path).Some?
    ensures Walk(b, path) == Some(Lookup(b, path)) && SameShape(Walk(a, path).value, Lookup(b, path))
    decreases |path|
  {
    if path != [] {
      FindSame(a.fields, b.fields, path[0]);
      P.FindOk(a.fields, path[0]);
      WalkSame(Find(a.fields, path[0], true).value, Find(b.fields, path[0], true).value, path[1..]);
    }
  }

  lemma SchemaOfConcat(a: seq<Field>, b: seq<Field>)
    requires P.SchemaOk(Obj(a)) && P.SchemaOk(Obj(b))
    ensures P.SchemaOk(Obj(a + b))
  {
    var x := Obj(a + b);
    forall i | 0 <= i < |x.fields|
      ensures P.NameOk(x.fields[i].name) && P.SchemaOk(x.fields[i].value)
    {
      assert x.fields[i] == if i < |a| then Obj(a).fields[i] else Obj(b).fields[i - |a|];
    }
  }

  lemma SchemaOfOne(name: string, v: Value)
    requires (forall i | 0 <= i < |name| :: P.NameChar(name[i])) && name != "" && |name| != 3
    requires |name| != 10 || LowerChar(name[0]) != 's'
    requires P.SchemaOk(v)
    ensures P.SchemaOk(Obj([Field(name, v)]))
  {
    assert Lower("startsWith")[0] == 's';
    assert P.NameOk(name);
  }

  lemma {:induction false} SchemaOfFields(fs: seq<Field>)
    requires forall i | 0 <= i < |fs| :: PlainName(fs[i].name) && P.SchemaOk(fs[i].value)
    ensures P.SchemaOk(Obj(fs))
  {
    if fs != [] {
      SchemaOfFields(fs[1..]);
      SchemaOfOne(fs[0].name, fs[0].value);
      SchemaOfConcat([fs[0]], fs[1..]);
      assert [fs[0]] + fs[1..] == fs;
    }
  }

  /** Alphanumeric, and of another length than the words of the grammar, or another first letter. */
  predicate PlainName(n: string) {
    (forall i | 0 <= i < |n| :: P.NameChar(n[i])) && n != "" && |n| != 3 && (|n| != 10 || LowerChar(n[0]) != 's')
  }

  lemma SchemasOk()
    ensures P.SchemaOk(USER_SCHEMA) && P.SchemaOk(GROUP_SCHEMA)
  {
    hide P.SchemaOk, NameFields, WorkFields, GroupFields;
    NamesOk();
    WorkOk();
    GroupOk();
    SchemaOfConcat(NameFields(NO_TENANT, NO_USER), WorkFields(NO_USER));
  }

  lemma NamesOk()
    ensures P.SchemaOk(Obj(NameFields(NO_TENANT, NO_USER)))
  {
    hide P.SchemaOk, PlainName;
    LeavesOk();
    PlainNames();
    SchemaOfFields(NameFields(NO_TENANT, NO_USER));
  }

  lemma WorkOk()
    ensures P.SchemaOk(Obj(WorkFields(NO_USER)))
  {
    hide P.SchemaOk, PlainName, ExtensionFields;
    LeavesOk();
    ExtensionsOk();
    PlainWork();
    SchemaOfFields(WorkFields(NO_USER));
  }

  lemma ExtensionsOk()
    ensures P.SchemaOk(Obj(ExtensionFields(NO_USER)))
  {
    hide P.SchemaOk, PlainName;
    LeavesOk();
    PlainExtensions();
    SchemaOfFields(ExtensionFields(NO_USER));
  }

  lemma GroupOk()
    ensures P.SchemaOk(Obj(GroupFields(NO_DIR_GROUP)))
  {
    hide P.SchemaOk, PlainName;
    LeavesOk();
    PlainGroup();
    SchemaOfFields(GroupFields(NO_DIR_GROUP));
  }

  lemma PlainNames()
    ensures PlainName("id") && PlainName("displayName") && PlainName("userPrincipalName") && PlainName("mail")
    ensures PlainName("givenName") && PlainName("surname") && PlainName("jobTitle") && PlainName("officeLocation")
  {
  }

  lemma PlainWork()
    ensures PlainName("mobilePhone") && PlainName("businessPhones") && PlainName("preferredLanguage") && PlainName("accountEnabled")
    ensures PlainName("department") && PlainName("companyName") && PlainName("employeeId") && PlainName("onPremisesExtensionAttributes")
  {
  }

  lemma PlainExtensions()
    ensures PlainName("extensionAttribute1") && PlainName("extensionAttribute2") && PlainName("extensionAttribute3")
  {
  }

  lemma PlainGroup()
    ensures PlainName("id") && PlainName("displayName") && PlainName("description") && PlainName("mail") && PlainName("mailNickname")
    ensures PlainName("mailEnabled") && PlainName("securityEnabled")
    ensures PlainName("groupTypes") && PlainName("membershipRule") && PlainName("membershipRuleProcessingState")
  {
  }

  lemma LeavesOk()
    ensures forall v: Value {:trigger P.SchemaOk(v)} | !v.Obj? :: P.SchemaOk(v)
  {
  }

  // ----- paths reach the same kind of value -----

  /** A path the schema accepts reaches a collection of the entity where it reaches a collection of
      the schema, and a leaf where it reaches a leaf; evaluation looks it up there. */
  lemma AcceptedPathReaches(schema: Value, e: Value, raw: string)
    requires P.SchemaOk(schema) && SameShape(schema, e) && Resolve(schema, raw).Some?
    ensures var path := Resolve(schema, raw).value;
            && Walk(e, path) == Some(Lookup(e, path)) && !Lookup(e, path).Obj?
            && Lookup(e, path).Arr? == Walk(schema, path).value.Arr?
  {
    WalkSame(schema, e, Split(raw, '/'));
  }

  /** Over every user and every group. */
  lemma AcceptedPathsReach(raw: string, t: Tenant, u: User, g: DirGroup)
    ensures Resolve(USER_SCHEMA, raw).Some? ==>
              var path := Resolve(USER_SCHEMA, raw).value; var e := RenderUser(t, u);
              Walk(e, path) == Some(Lookup(e, path)) && !Lookup(e, path).Obj? && Lookup(e, path).Arr? == Walk(USER_SCHEMA, path).value.Arr?
    ensures Resolve(GROUP_SCHEMA, raw).Some? ==>
              var path := Resolve(GROUP_SCHEMA, raw).value; var e := RenderGroup(g);
              Walk(e, path) == Some(Lookup(e, path)) && !Lookup(e, path).Obj? && Lookup(e, path).Arr? == Walk(GROUP_SCHEMA, path).value.Arr?
  {
    hide UserFields, GroupFields, P.SchemaOk, SameShape, Resolve, Walk, Lookup;
    SchemasOk();
    UserShape(t, u);
    GroupShape(g);
    if Resolve(USER_SCHEMA, raw).Some? {
      AcceptedPathReaches(USER_SCHEMA, RenderUser(t, u), raw);
    }
    if Resolve(GROUP_SCHEMA, raw).Some? {
      AcceptedPathReaches(GROUP_SCHEMA, RenderGroup(g), raw);
    }
  }

  // ----- $expand does not change verdicts -----

  lemma {:induction false} FindBefore(fields: seq<Field>, extra: Field, seg: string)
    requires Find(fields, seg, false).Some?
    ensures Find(fields + [extra], seg, false) == Find(fields, seg, false)
  {
    assert (fields + [extra])[0] == fields[0] && (fields + [extra])[1..] == fields[1..] + [extra];
    if !EqualFold(fields[0].name, seg) {
      FindBefore(fields[1..], extra, seg);
    }
  }

  /** A test the schema accepts does not notice a property appended to the entity. */
  lemma TestIgnoresExtra(schema: Value, fields: seq<Field>, extra: Field, t: Test)
    requires P.SchemaOk(schema) && SameShape(schema, Obj(fields)) && P.TestOk(schema, t)
    ensures TestHolds(t, Obj(fields + [extra])) == TestHolds(t, Obj(fields))
  {
    hide LiteralEquals, P.SchemaOk, Join, Split;
    var e, x := Obj(fields), Obj(fields + [extra]);
    ResolvedIsSplit(schema, Join(t.path, '/'));
    FindSame(schema.fields, fields, t.path[0]);
    FindBefore(fields, extra, t.path[0]);
    assert Lookup(x, t.path) == Lookup(e, t.path);
  }

  lemma {:induction false} EvalSameOn<A>(f: Expr<A>, ok: A -> bool, p: A -> bool, q: A -> bool)
    requires WellFormed(f, ok) && forall a | ok(a) :: p(a) == q(a)
    ensures Eval(f, p) == Eval(f, q)
  {
    match f
    case Or(xs) => forall x | x in xs ensures Eval(x, p) == Eval(x, q) { EvalSameOn(x, ok, p, q); }
    case And(xs) => forall x | x in xs ensures Eval(x, p) == Eval(x, q) { EvalSameOn(x, ok, p, q); }
    case Not(x) => EvalSameOn(x, ok, p, q);
    case Leaf(_) =>
  }

  /** $expand appends a manager; no accepted filter sees it. */
  lemma ExpandKeepsVerdict(src: string, t: Tenant, u: User, manager: Value)
    requires ParseFilter(USER_SCHEMA, src).Some?
    ensures var f := ParseFilter(USER_SCHEMA, src).value;
            FilterHolds(f, Obj(UserFields(t, u) + [Field("manager", manager)])) == FilterHolds(f, RenderUser(t, u))
  {
    hide UserFields, P.SchemaOk, SameShape, P.TestOk, TestHolds, Eval, WellFormed, ParseFilter;
    SchemasOk();
    UserShape(t, u);
    P.ParsedIsPrintable(USER_SCHEMA, src);
    var f := ParseFilter(USER_SCHEMA, src).value;
    var ok := (a: Test) => P.TestOk(USER_SCHEMA, a);
    var e, x := RenderUser(t, u), Obj(UserFields(t, u) + [Field("manager", manager)]);
    forall a | ok(a)
      ensures TestHolds(a, e) == TestHolds(a, x)
    {
      TestIgnoresExtra(USER_SCHEMA, UserFields(t, u), Field("manager", manager), a);
    }
    EvalSameOn(f, ok, (a: Test) => TestHolds(a, x), (a: Test) => TestHolds(a, e));
  }

  // ----- the two query languages agree -----

  /** The property a rule attribute is rendered as. */
  function AttrPath(a: R.Attr): seq<string> {
    match a
    case Department => ["department"]
    case CompanyName => ["companyName"]
    case EmployeeId => ["employeeId"]
    case JobTitle => ["jobTitle"]
    case OfficeLocation => ["officeLocation"]
    case DisplayName => ["displayName"]
    case Mail => ["mail"]
    case UserPrincipalName => ["userPrincipalName"]
    case Extension1 => ["onPremisesExtensionAttributes", "extensionAttribute1"]
    case Extension2 => ["onPremisesExtensionAttributes", "extensionAttribute2"]
    case Extension3 => ["onPremisesExtensionAttributes", "extensionAttribute3"]
  }

  /** Tells names apart by length and first letter. */
  function Mark(n: string): int {
    if n == "" then 0 else 256 * |n| + LowerChar(n[0]) as int % 256
  }

  lemma MarkFolds(a: string, b: string)
    ensures EqualFold(a, b) ==> Mark(a) == Mark(b)
  {
    if |a| == |b| && a != "" && Mark(a) != Mark(b) {
      assert Lower(a)[0] != Lower(b)[0];
    }
  }

  lemma {:induction false} FindAt(fields: seq<Field>, k: nat, skipAnnotations: bool)
    requires k < |fields| && forall j | 0 <= j < k :: Mark(fields[j].name) != Mark(fields[k].name)
    requires fields[k].name != "" && fields[k].name[0] != '@'
    ensures Find(fields, fields[k].name, skipAnnotations) == Some(fields[k].value)
  {
    if k > 0 {
      MarkFolds(fields[0].name, fields[k].name);
      FindAt(fields[1..], k - 1, skipAnnotations);
    }
  }

  lemma NameMarks(t: Tenant, u: User)
    ensures |NameFields(t, u)| == 8 && forall i | 0 <= i < 8 :: Mark(NameFields(t, u)[i].name) == 256 * [2, 11, 17, 4, 9, 7, 8, 14][i] + "idumgsjo"[i] as int
  {
    hide Nullable, Strs, PrincipalName, UserEnabled, ExtensionFields;
  }

  lemma WorkMarks(u: User)
    ensures |WorkFields(u)| == 8 && forall i | 0 <= i < 8 :: Mark(WorkFields(u)[i].name) == 256 * [11, 14, 17, 14, 10, 11, 10, 29][i] + "mbpadceo"[i] as int
  {
    hide Nullable, Strs, PrincipalName, UserEnabled, ExtensionFields;
  }

  lemma MarksDiffer(i: nat, j: nat)
    requires i < j < 16
    ensures var ls := [2, 11, 17, 4, 9, 7, 8, 14] + [11, 14, 17, 14, 10, 11, 10, 29]; var cs := "idumgsjo" + "mbpadceo";
            ls[i] != ls[j] || cs[i] != cs[j]
  {
  }

  lemma FieldRendered(t: Tenant, u: User, k: nat, skipAnnotations: bool)
    requires k < 16
    ensures Find(UserFields(t, u), UserFields(t, u)[k].name, skipAnnotations) == Some(UserFields(t, u)[k].value)
  {
    hide NameFields, WorkFields, Mark;
    NameMarks(t, u);
    WorkMarks(u);
    var fs := UserFields(t, u);
    forall j | 0 <= j < k
      ensures Mark(fs[j].name) != Mark(fs[k].name)
    {
      MarksDiffer(j, k);
      assert fs[j] == if j < 8 then NameFields(t, u)[j] else WorkFields(u)[j - 8];
      assert fs[k] == if k < 8 then NameFields(t, u)[k] else WorkFields(u)[k - 8];
    }
    NoAnnotation(t, u, k);
    FindAt(fs, k, skipAnnotations);
  }

  lemma NoAnnotation(t: Tenant, u: User, k: nat)
    requires k < 16
    ensures |UserFields(t, u)| == 16
    ensures var n := UserFields(t, u)[k].name; n != "" && n[0] != '@' && n == UserFields(NO_TENANT, NO_USER)[k].name
  {
    var fs := UserFields(t, u);
    assert fs[k] == if k < 8 then NameFields(t, u)[k] else WorkFields(u)[k - 8];
  }

  /** Each property shows its own field of the account. */
  lemma UserNamesRead(t: Tenant, u: User)
    ensures var e := RenderUser(t, u);
            && Lookup(e, ["id"]) == Str(u.oid)
            && Lookup(e, ["displayName"]) == Str(u.name)
            && Lookup(e, ["userPrincipalName"]) == Str(PrincipalName(t, u))
            && Lookup(e, ["mail"]) == Nullable(u.email)
            && Lookup(e, ["givenName"]) == Nullable(u.profile.givenName)
            && Lookup(e, ["surname"]) == Nullable(u.profile.surname)
            && Lookup(e, ["jobTitle"]) == Nullable(u.org.jobTitle)
            && Lookup(e, ["officeLocation"]) == Nullable(u.org.officeLocation)
  {
    hide Find, Nullable, Strs, ExtensionFields, PrincipalName, UserFields, RenderUser, UserEnabled;
    NamesAt(t, u);
    FieldShown(t, u, 0, "id", Str(u.oid));
    FieldShown(t, u, 1, "displayName", Str(u.name));
    FieldShown(t, u, 2, "userPrincipalName", Str(PrincipalName(t, u)));
    FieldShown(t, u, 3, "mail", Nullable(u.email));
    FieldShown(t, u, 4, "givenName", Nullable(u.profile.givenName));
    FieldShown(t, u, 5, "surname", Nullable(u.profile.surname));
    FieldShown(t, u, 6, "jobTitle", Nullable(u.org.jobTitle));
    FieldShown(t, u, 7, "officeLocation", Nullable(u.org.officeLocation));
  }

  lemma UserWorkRead(t: Tenant, u: User)
    ensures var e := RenderUser(t, u);
            && Lookup(e, ["mobilePhone"]) == Nullable(u.profile.mobilePhone)
            && Lookup(e, ["businessPhones"]) == Strs(u.profile.businessPhones)
            && Lookup(e, ["preferredLanguage"]) == Nullable(u.profile.preferredLanguage)
            && Lookup(e, ["accountEnabled"]) == Bool(u.accountEnabled != Some(false))
            && Lookup(e, ["department"]) == Nullable(u.org.department)
            && Lookup(e, ["companyName"]) == Nullable(u.org.companyName)
            && Lookup(e, ["employeeId"]) == Nullable(u.org.employeeId)
  {
    hide Find, Nullable, Strs, ExtensionFields, PrincipalName, UserFields, RenderUser, UserEnabled;
    WorkAt(t, u);
    FieldShown(t, u, 8, "mobilePhone", Nullable(u.profile.mobilePhone));
    FieldShown(t, u, 9, "businessPhones", Strs(u.profile.businessPhones));
    FieldShown(t, u, 10, "preferredLanguage", Nullable(u.profile.preferredLanguage));
    FieldShown(t, u, 11, "accountEnabled", Bool(UserEnabled(u)));
    FieldShown(t, u, 12, "department", Nullable(u.org.department));
    FieldShown(t, u, 13, "companyName", Nullable(u.org.companyName));
    FieldShown(t, u, 14, "employeeId", Nullable(u.org.employeeId));
    EnabledUnlessOff(u);
  }

  lemma EnabledUnlessOff(u: User)
    ensures UserEnabled(u) == (u.accountEnabled != Some(false))
  {
  }

  lemma NamesAt(t: Tenant, u: User)
    ensures |UserFields(t, u)| == 16 && forall k | 0 <= k < 8 :: UserFields(t, u)[k] == NameFields(t, u)[k]
  {
  }

  lemma WorkAt(t: Tenant, u: User)
    ensures |UserFields(t, u)| == 16 && forall k | 8 <= k < 16 :: UserFields(t, u)[k] == WorkFields(u)[k - 8]
  {
  }

  lemma FieldShown(t: Tenant, u: User, k: nat, name: string, value: Value)
    requires k < |UserFields(t, u)| == 16 && UserFields(t, u)[k] == Field(name, value)
    ensures Lookup(RenderUser(t, u), [name]) == value
  {
    hide UserFields, Find;
    FieldRendered(t, u, k, false);
    assert [name][1..] == [];
  }

  /** Each property shows its own field of the group; a rule makes it a dynamic one. */
  lemma GroupFieldsRead(g: DirGroup)
    ensures var e := RenderGroup(g);
            && Lookup(e, ["id"]) == (Str(g.oid))
            && Lookup(e, ["displayName"]) == (Str(g.name))
            && Lookup(e, ["description"]) == (Nullable(g.description))
            && Lookup(e, ["mail"]) == (Nullable(g.mail))
            && Lookup(e, ["mailNickname"]) == (Nullable(g.mailNickname))
            && Lookup(e, ["mailEnabled"]) == (Bool(g.mailEnabled))
            && Lookup(e, ["securityEnabled"]) == (Bool(g.securityEnabled))
            && Lookup(e, ["groupTypes"]) == (Strs(if g.membershipRule != "" then ["DynamicMembership"] else []))
            && Lookup(e, ["membershipRule"]) == (Nullable(g.membershipRule))
            && Lookup(e, ["membershipRuleProcessingState"]) == (if g.membershipRule != "" then Str("On") else Null)
  {
    hide Find, Nullable, Strs, Mark;
    GroupMarks(g);
    GroupShown(g, 0, "id");
    GroupShown(g, 1, "displayName");
    GroupShown(g, 3, "mail");
    GroupShown(g, 4, "mailNickname");
    GroupShown(g, 5, "mailEnabled");
    GroupShown(g, 6, "securityEnabled");
    GroupShown(g, 7, "groupTypes");
    GroupShown(g, 8, "membershipRule");
    GroupShown(g, 9, "membershipRuleProcessingState");
    DescriptionShown(g);
  }

  lemma GroupMarks(g: DirGroup)
    ensures |GroupFields(g)| == 10
    ensures forall i | 0 <= i < 10 ::
              Mark(GroupFields(g)[i].name) == 256 * [2, 11, 11, 4, 12, 11, 15, 10, 14, 29][i] + "iddmmmsgmm"[i] as int
  {
    hide Nullable, Strs;
  }

  lemma GroupNamesPlain(g: DirGroup)
    ensures |GroupFields(g)| == 10
    ensures forall i | 0 <= i < 10 :: GroupFields(g)[i].name != "" && GroupFields(g)[i].name[0] != '@'
  {
    hide Nullable, Strs;
  }

  lemma GroupShown(g: DirGroup, k: nat, name: string)
    requires k < |GroupFields(g)| == 10 && k != 2 && GroupFields(g)[k].name == name
    ensures Lookup(RenderGroup(g), [name]) == GroupFields(g)[k].value
  {
    hide GroupFields, Find, Mark;
    GroupMarks(g);
    GroupNamesPlain(g);
    forall j | 0 <= j < k
      ensures Mark(GroupFields(g)[j].name) != Mark(GroupFields(g)[k].name)
    {
      GroupMarksDiffer(j, k);
    }
    FindAt(GroupFields(g), k, false);
    assert [name][1..] == [];
  }

  lemma GroupMarksDiffer(i: nat, j: nat)
    requires i < j < 10 && j != 2
    ensures var ls := [2, 11, 11, 4, 12, 11, 15, 10, 14, 29]; var cs := "iddmmmsgmm"; ls[i] != ls[j] || cs[i] != cs[j]
  {
  }

  lemma DescriptionShown(g: DirGroup)
    ensures Lookup(RenderGroup(g), ["description"]) == Nullable(g.description)
  {
    var fs := GroupFields(g);
    var name := "description";
    assert Lower("displayName")[1] == 'i' && Lower(name)[1] == 'e' && |Lower("id")| == 2;
    assert fs[0].name == "id" && fs[1].name == "displayName" && fs[2].name == name;
    assert !EqualFold(fs[0].name, name) && !EqualFold(fs[1].name, name) && EqualFold(fs[2].name, name);
    assert fs[1..][0] == fs[1] && fs[1..][1..][0] == fs[2];
    assert Find(fs[1..][1..], name, false) == Some(fs[2].value);
    assert Find(fs[1..], name, false) == Some(fs[2].value);
    assert [name][1..] == [];
  }

  /** The rendered value of an attribute: null only when unset. */
  lemma AttrRendered(a: R.Attr, t: Tenant, u: User)
    requires u.username != "" && u.name != ""
    ensures Lookup(RenderUser(t, u), AttrPath(a)) == Nullable(AttrValue(a, t, u))
  {
    hide PrincipalName, Find, ExtensionFields;
    PrincipalIsNamed(t, u);
    var fs := UserFields(t, u);
    var k := match a
      case DisplayName => 1 case UserPrincipalName => 2 case Mail => 3 case JobTitle => 6 case OfficeLocation => 7
      case Department => 12 case CompanyName => 13 case EmployeeId => 14 case _ => 15;
    FieldRendered(t, u, k, false);
    assert fs[k] == if k < 8 then NameFields(t, u)[k] else WorkFields(u)[k - 8];
    var path := AttrPath(a);
    assert path[0] == fs[k].name;
    assert Lookup(RenderUser(t, u), path) == Lookup(fs[k].value, path[1..]);
    if k == 15 {
      ExtensionRendered(u);
      assert path[1..][1..] == [];
      assert fs[k].value == Obj(ExtensionFields(u));
      assert Lookup(fs[k].value, path[1..]) == Find(ExtensionFields(u), path[1], false).value;
    } else {
      assert path[1..] == [];
    }
  }

  lemma ExtensionRendered(u: User)
    ensures Find(ExtensionFields(u), "extensionAttribute1", false) == Some(Nullable(u.org.extension1))
    ensures Find(ExtensionFields(u), "extensionAttribute2", false) == Some(Nullable(u.org.extension2))
    ensures Find(ExtensionFields(u), "extensionAttribute3", false) == Some(Nullable(u.org.extension3))
  {
    var fs := ExtensionFields(u);
    assert Lower(fs[0].name)[18] == '1' && Lower(fs[1].name)[18] == '2' && Lower(fs[2].name)[18] == '3';
    assert fs[1..] == [fs[1], fs[2]] && fs[1..][1..] == [fs[2]];
    assert Find(fs[1..], fs[1].name, false) == Some(fs[1].value);
    assert Find(fs[1..], fs[2].name, false) == Find([fs[2]], fs[2].name, false) == Some(fs[2].value);
  }

  lemma PrincipalIsNamed(t: Tenant, u: User)
    requires u.username != ""
    ensures PrincipalName(t, u) != ""
  {
  }

  /** On every attribute both languages know, -eq and eq, -ne and ne, -in and in, -startsWith and
      startsWith select the same users, unset attributes included. */
  lemma LanguagesAgree(a: R.Attr, t: Tenant, u: User, v: string, vs: seq<string>)
    requires u.username != "" && u.name != "" && forall i | 0 <= i < |vs| :: Lower(vs[i]) == vs[i]
    ensures var got := AttrValue(a, t, u); var e := RenderUser(t, u); var path := AttrPath(a);
            && Compares(R.Eq, got, Some(v), []) == TestHolds(Cmp(path, Eq, [StrLit(v)]), e)
            && Compares(R.Ne, got, Some(v), []) == TestHolds(Cmp(path, Ne, [StrLit(v)]), e)
            && Compares(R.Eq, got, None, []) == TestHolds(Cmp(path, Eq, [NullLit]), e)
            && Compares(R.Ne, got, None, []) == TestHolds(Cmp(path, Ne, [NullLit]), e)
            && Compares(R.StartsWith, got, Some(v), []) == TestHolds(Cmp(path, StartsWith, [StrLit(v)]), e)
            && Compares(R.In, got, None, vs) == TestHolds(Cmp(path, In, StrLits(vs)), e)
  {
    hide RenderUser, AttrValue, AttrPath, Lookup, Contains, HasPrefix;
    AttrRendered(a, t, u);
    var got := AttrValue(a, t, u);
    OneLit(Nullable(got), StrLit(v));
    OneLit(Nullable(got), NullLit);
    InLits(got, vs);
  }

  lemma OneLit(v: Value, lit: Literal)
    ensures (exists l | l in [lit] :: LiteralEquals(v, l)) <==> LiteralEquals(v, lit)
  {
    assert lit in [lit];
  }

  function StrLits(vs: seq<string>): (r: seq<Literal>)
    ensures |r| == |vs| && forall i | 0 <= i < |r| :: r[i] == StrLit(vs[i])
  {
    seq(|vs|, i requires 0 <= i < |vs| => StrLit(vs[i]))
  }

  lemma InLits(got: string, vs: seq<string>)
    requires forall i | 0 <= i < |vs| :: Lower(vs[i]) == vs[i]
    ensures (exists lit | lit in StrLits(vs) :: LiteralEquals(Nullable(got), lit)) <==> got != "" && Lower(got) in vs
  {
    if got != "" && Lower(got) in vs {
      var i :| 0 <= i < |vs| && vs[i] == Lower(got);
      assert StrLits(vs)[i] in StrLits(vs) && LiteralEquals(Nullable(got), StrLits(vs)[i]);
    }
  }
}
