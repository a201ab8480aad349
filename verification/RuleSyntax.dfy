/** Dynamic membership rules: lexer, parser and printer. */
module RuleSyntax {
  import opened Text
  import opened Grammar
  import opened Lexing

  // ----- the compiled rule -----

  /** The string attributes a rule may read. */
  datatype Attr =
    | Department | CompanyName | EmployeeId | JobTitle | OfficeLocation | DisplayName | Mail
    | UserPrincipalName | Extension1 | Extension2 | Extension3

  datatype Op = Eq | Ne | StartsWith | NotStartsWith | Includes | NotIncludes | In | NotIn

  /** One comparison: value None is null; values are for -in and -notIn, lowercased. */
  datatype Comparison =
    | Compare(attr: Attr, op: Op, value: Option<string>, values: seq<string>)
    | Enabled(eq: bool, state: bool)

  datatype Rule = Reports(managerOid: string) | Boolean(expr: Expr<Comparison>)

  function AttrName(a: Attr): string {
    match a
    case Department => "department"
    case CompanyName => "companyname"
    case EmployeeId => "employeeid"
    case JobTitle => "jobtitle"
    case OfficeLocation => "officelocation"
    case DisplayName => "displayname"
    case Mail => "mail"
    case UserPrincipalName => "userprincipalname"
    case Extension1 => "extensionattribute1"
    case Extension2 => "extensionattribute2"
    case Extension3 => "extensionattribute3"
  }

  function AttrOf(name: string): (r: Option<Attr>)
    ensures r.Some? ==> AttrName(r.value) == name
  {
    if name == "department" then Some(Department)
    else if name == "companyname" then Some(CompanyName)
    else if name == "employeeid" then Some(EmployeeId)
    else if name == "jobtitle" then Some(JobTitle)
    else if name == "officelocation" then Some(OfficeLocation)
    else if name == "displayname" then Some(DisplayName)
    else if name == "mail" then Some(Mail)
    else if name == "userprincipalname" then Some(UserPrincipalName)
    else if name == "extensionattribute1" then Some(Extension1)
    else if name == "extensionattribute2" then Some(Extension2)
    else if name == "extensionattribute3" then Some(Extension3)
    else None
  }

  function OpName(op: Op): string {
    match op
    case Eq => "eq"
    case Ne => "ne"
    case StartsWith => "startswith"
    case NotStartsWith => "notstartswith"
    case Includes => "contains"
    case NotIncludes => "notcontains"
    case In => "in"
    case NotIn => "notin"
  }

  function OpOf(name: string): (r: Option<Op>)
    ensures r.Some? ==> OpName(r.value) == name
  {
    if name == "eq" then Some(Eq)
    else if name == "ne" then Some(Ne)
    else if name == "startswith" then Some(StartsWith)
    else if name == "notstartswith" then Some(NotStartsWith)
    else if name == "contains" then Some(Includes)
    else if name == "notcontains" then Some(NotIncludes)
    else if name == "in" then Some(In)
    else if name == "notin" then Some(NotIn)
    else None
  }

  // ----- tokens -----

  datatype Kind = Word | Quoted | Punct
  datatype Tok = Tok(kind: Kind, text: string)

  predicate IsPunct(c: char) {
    c == '(' || c == ')' || c == '[' || c == ']' || c == ','
  }

  predicate WordChar(c: char) {
    !IsSpace(c) && !IsPunct(c) && c != '"'
  }

  /** The rest of a string literal after its opening quote: its value and what follows it. */
  function Scan(s: string): (r: Option<(string, string)>)
    ensures r.Some? ==> |r.value.1| < |s|
  {
    if s == [] then None
    else if s[0] == '\\' && |s| > 1 then Cons1(s[1], Scan(s[2..]))
    else if s[0] == '"' then Some(("", s[1..]))
    else Cons1(s[0], Scan(s[1..]))
  }

  function Lex(s: string): Option<seq<Tok>>
    decreases |s|
  {
    if s == [] then Some([])
    else if IsSpace(s[0]) then Lex(s[1..])
    else if IsPunct(s[0]) then ConsTok(Tok(Punct, [s[0]]), Lex(s[1..]))
    else if s[0] == '"' then
      match Scan(s[1..])
      case None => None
      case Some((text, rest)) => ConsTok(Tok(Quoted, text), Lex(rest))
    else
      ConsTok(Tok(Word, s[..WordLength(s, WordChar)]), Lex(s[WordLength(s, WordChar)..]))
  }

  // ----- printing tokens -----

  function Escape(s: string): string {
    if s == [] then []
    else (if s[0] == '"' || s[0] == '\\' then ['\\', s[0]] else [s[0]]) + Escape(s[1..])
  }

  function PrintTok(t: Tok): string {
    if t.kind.Quoted? then "\"" + Escape(t.text) + "\"" else t.text
  }

  /** The tokens the lexer can produce: it never makes an empty or broken word. */
  predicate Printable(t: Tok) {
    match t.kind
    case Quoted => true
    case Punct => |t.text| == 1 && IsPunct(t.text[0])
    case Word => t.text != "" && forall i | 0 <= i < |t.text| :: WordChar(t.text[i])
  }

  lemma ScanPlain(c: char, tail: string)
    requires c != '"' && c != '\\'
    ensures Scan([c] + tail) == Cons1(c, Scan(tail))
  {
    assert ([c] + tail)[1..] == tail;
  }

  lemma ScanEscaped(c: char, tail: string)
    ensures Scan(['\\', c] + tail) == Cons1(c, Scan(tail))
  {
    assert (['\\', c] + tail)[2..] == tail;
  }

  lemma ScanEnd(rest: string)
    ensures Scan("\"" + rest) == Some(("", rest))
  {
    assert ("\"" + rest)[1..] == rest;
  }

  lemma {:induction false} ScanEscape(s: string, rest: string)
    ensures Scan(Escape(s) + "\"" + rest) == Some((s, rest))
  {
    hide Scan;
    if s == [] {
      assert Escape(s) + "\"" + rest == "\"" + rest;
      ScanEnd(rest);
    } else {
      ScanEscape(s[1..], rest);
      var tail := Escape(s[1..]) + "\"" + rest;
      if s[0] == '"' || s[0] == '\\' {
        assert Escape(s) + "\"" + rest == ['\\', s[0]] + tail;
        ScanEscaped(s[0], tail);
      } else {
        assert Escape(s) + "\"" + rest == [s[0]] + tail;
        ScanPlain(s[0], tail);
      }
      assert [s[0]] + s[1..] == s;
    }
  }

  lemma LexQuoted(text: string, rest: string)
    ensures Lex("\"" + Escape(text) + "\"" + rest) == ConsTok(Tok(Quoted, text), Lex(rest))
  {
    hide Scan, Escape, WordLength;
    var tail := Escape(text) + "\"" + rest;
    ScanEscape(text, rest);
    var s := "\"" + Escape(text) + "\"" + rest;
    assert s[0] == '"' && s[1..] == tail;
  }

  lemma LexWord(text: string, rest: string)
    requires Printable(Tok(Word, text)) && (rest == "" || rest[0] == ' ')
    ensures Lex(text + rest) == ConsTok(Tok(Word, text), Lex(rest))
  {
    hide Scan, Escape, WordLength;
    var s := text + rest;
    WordLengthIs(text, rest, WordChar);
    assert s[0] == text[0] && WordChar(s[0]);
    assert s[..|text|] == text && s[|text|..] == rest;
  }

  lemma LexOne(t: Tok, rest: string)
    requires Printable(t) && (rest == "" || rest[0] == ' ')
    ensures Lex(PrintTok(t) + rest) == ConsTok(t, Lex(rest))
  {
    hide Scan, Escape, WordLength;
    var s := PrintTok(t) + rest;
    match t.kind {
      case Quoted =>
        LexQuoted(t.text, rest);
      case Punct =>
        assert s[0] == t.text[0] && s[1..] == rest && [s[0]] == t.text;
      case Word =>
        LexWord(t.text, rest);
    }
  }

  lemma LexBlank(s: string)
    ensures Lex(" " + s) == Lex(s) && Lex("") == Some([])
  {
    assert (" " + s)[1..] == s;
  }

  /** Lexing printed tokens gives the tokens back, whatever their strings hold. */
  lemma LexPrinted(ts: seq<Tok>)
    requires forall t | t in ts :: Printable(t)
    ensures Lex(Spaced(ts, PrintTok)) == Some(ts)
  {
    hide Lex, PrintTok, Printable;
    LexBlank("");
    forall s
      ensures Lex(" " + s) == Lex(s)
    {
      LexBlank(s);
    }
    forall t, rest | Printable(t) && (rest == "" || rest[0] == ' ')
      ensures Lex(PrintTok(t) + rest) == ConsTok(t, Lex(rest))
    {
      LexOne(t, rest);
    }
    SpacedReads(Lex, PrintTok, Printable, ts);
  }

  lemma {:induction false} LexedIsPrintable(s: string)
    requires Lex(s).Some?
    ensures forall t | t in Lex(s).value :: Printable(t)
    decreases |s|
  {
    if s == [] {
    } else if IsSpace(s[0]) || IsPunct(s[0]) {
      LexedIsPrintable(s[1..]);
    } else if s[0] == '"' {
      LexedIsPrintable(Scan(s[1..]).value.1);
    } else {
      LexedIsPrintable(s[WordLength(s, WordChar)..]);
    }
  }

  /** Printed tokens neither start nor end with a blank. */
  lemma {:induction false} PrintedEdges(ts: seq<Tok>)
    requires ts != [] && forall t | t in ts :: Printable(t)
    ensures var s := Spaced(ts, PrintTok); s != "" && !IsSpace(s[0]) && !IsSpace(s[|s| - 1])
    ensures Spaced(ts, PrintTok)[0] == PrintTok(ts[0])[0]
  {
    assert Printable(ts[0]);
    if |ts| > 1 {
      PrintedEdges(ts[1..]);
    }
  }

  // ----- comparisons: concrete syntax -----

  datatype Items = Last(value: Tok, close: Tok) | More(value: Tok, comma: Tok, rest: Items)

  datatype Clause = Clause(prop: Tok, op: Tok, operand: Operand)
  datatype Operand = Single(value: Tok) | List(open: Tok, items: Items)

  const USER_DOT := "user."

  datatype Prop = Flag | Text(attr: Attr)

  function PropOf(t: Tok): Option<Prop> {
    var name := Lower(t.text);
    if !t.kind.Word? || !HasPrefix(name, USER_DOT) then None
    else if name[5..] == "accountenabled" then Some(Flag)
    else
      match AttrOf(name[5..])
      case None => None
      case Some(a) => Some(Text(a))
  }

  function PropName(p: Prop): string {
    if p.Flag? then "accountenabled" else AttrName(p.attr)
  }

  function OperatorOf(t: Tok): Option<Op> {
    if !t.kind.Word? || !HasPrefix(t.text, "-") then None else OpOf(Lower(t.text[1..]))
  }

  predicate IsWord(t: Tok, w: string) {
    t.kind.Word? && EqualFold(t.text, w)
  }

  predicate SingleOk(p: Prop, op: Op, v: Tok) {
    if p.Flag? then (op.Eq? || op.Ne?) && (IsWord(v, "true") || IsWord(v, "false"))
    else !op.In? && !op.NotIn? && (v.kind.Quoted? || (IsWord(v, "null") && (op.Eq? || op.Ne?)))
  }

  function ParseItems(ts: seq<Tok>): (r: Option<(Items, seq<Tok>)>)
    ensures r.Some? ==> |r.value.1| < |ts|
  {
    if |ts| < 2 || !ts[0].kind.Quoted? then None
    else if ts[1] == Tok(Punct, "]") then Some((Last(ts[0], ts[1]), ts[2..]))
    else if ts[1] == Tok(Punct, ",") then
      match ParseItems(ts[2..])
      case None => None
      case Some((items, rest)) => Some((More(ts[0], ts[1], items), rest))
    else None
  }

  function ParseClause(ts: seq<Tok>): (r: Option<(Clause, seq<Tok>)>)
    ensures r.Some? ==> |r.value.1| < |ts|
  {
    if |ts| < 3 then None
    else
      match (PropOf(ts[0]), OperatorOf(ts[1]))
      case (Some(p), Some(op)) =>
        if SingleOk(p, op, ts[2]) then Some((Clause(ts[0], ts[1], Single(ts[2])), ts[3..]))
        else if p.Text? && (op.In? || op.NotIn?) && ts[2] == Tok(Punct, "[") then
          match ParseItems(ts[3..])
          case None => None
          case Some((items, rest)) => Some((Clause(ts[0], ts[1], List(ts[2], items)), rest))
        else None
      case _ => None
  }

  function YieldItems(d: Items): seq<Tok> {
    match d
    case Last(v, close) => [v, close]
    case More(v, comma, rest) => [v, comma] + YieldItems(rest)
  }

  function YieldClause(d: Clause): seq<Tok> {
    match d.operand
    case Single(v) => [d.prop, d.op, v]
    case List(open, items) => [d.prop, d.op, open] + YieldItems(items)
  }

  predicate ValidItems(d: Items) {
    d.value.kind.Quoted? &&
    match d
    case Last(_, close) => close == Tok(Punct, "]")
    case More(_, comma, rest) => comma == Tok(Punct, ",") && ValidItems(rest)
  }

  predicate ValidClause(d: Clause) {
    match (PropOf(d.prop), OperatorOf(d.op))
    case (Some(p), Some(op)) =>
      if d.operand.Single? then SingleOk(p, op, d.operand.value)
      else p.Text? && (op.In? || op.NotIn?) && d.operand.open == Tok(Punct, "[") && ValidItems(d.operand.items)
    case _ => false
  }

  function ItemValues(d: Items): (r: seq<string>)
    ensures r != []
  {
    match d
    case Last(v, _) => [Lower(v.text)]
    case More(v, _, rest) => [Lower(v.text)] + ItemValues(rest)
  }

  function MeanClause(d: Clause): Comparison {
    match (PropOf(d.prop), OperatorOf(d.op))
    case (Some(Flag), Some(op)) => Enabled(op.Eq?, d.operand.Single? && IsWord(d.operand.value, "true"))
    case (Some(Text(a)), Some(op)) =>
      (match d.operand
       case Single(v) => Compare(a, op, if v.kind.Quoted? then Some(v.text) else None, [])
       case List(_, items) => Compare(a, op, None, ItemValues(items)))
    case _ => Enabled(true, true)
  }

  function RuleLang(): Lang<Tok, Clause, Comparison> {
    Lang(
      (t: Tok) => IsWord(t, "-or"), (t: Tok) => IsWord(t, "-and"), (t: Tok) => IsWord(t, "-not"),
      (t: Tok) => t == Tok(Punct, "("), (t: Tok) => t == Tok(Punct, ")"),
      ParseClause, YieldClause, ValidClause, MeanClause)
  }

  lemma {:induction false} ItemsSound(ts: seq<Tok>)
    requires ParseItems(ts).Some?
    ensures var (d, rest) := ParseItems(ts).value; ValidItems(d) && YieldItems(d) + rest == ts
  {
    if ts[1] != Tok(Punct, "]") {
      ItemsSound(ts[2..]);
    }
  }

  lemma {:induction false} ItemsComplete(d: Items, rest: seq<Tok>)
    requires ValidItems(d)
    ensures ParseItems(YieldItems(d) + rest) == Some((d, rest))
  {
    if d.More? {
      ItemsComplete(d.rest, rest);
      assert (YieldItems(d) + rest)[2..] == YieldItems(d.rest) + rest;
    }
  }

  lemma ClauseSound(ts: seq<Tok>)
    requires ParseClause(ts).Some?
    ensures var (d, rest) := ParseClause(ts).value; ValidClause(d) && YieldClause(d) + rest == ts
  {
    hide PropOf, OperatorOf, SingleOk;
    var (d, rest) := ParseClause(ts).value;
    if d.operand.List? {
      ItemsSound(ts[3..]);
    }
  }

  lemma ClauseComplete(d: Clause, rest: seq<Tok>)
    requires ValidClause(d)
    ensures ParseClause(YieldClause(d) + rest) == Some((d, rest))
  {
    hide PropOf, OperatorOf;
    var ts := YieldClause(d) + rest;
    match d.operand {
      case Single(v) =>
        assert ts[0] == d.prop && ts[1] == d.op && ts[2] == v && ts[3..] == rest;
      case List(open, items) =>
        assert ts[0] == d.prop && ts[1] == d.op && ts[2] == open && ts[3..] == YieldItems(items) + rest;
        ItemsComplete(items, rest);
    }
  }

  lemma FoldedFirst(a: string, w: string)
    requires EqualFold(a, w) && w != ""
    ensures a != "" && LowerChar(a[0]) == LowerChar(w[0])
  {
    assert Lower(a)[0] == Lower(w)[0];
  }

  lemma PropStart(t: Tok)
    requires PropOf(t).Some?
    ensures t.text != "" && LowerChar(t.text[0]) == 'u'
  {
    assert Lower(t.text)[0] == USER_DOT[0];
  }

  lemma RuleLangLawful()
    ensures Lawful(RuleLang())
  {
    var L := RuleLang();
    forall t: Tok | L.isOr(t)
      ensures !L.isAnd(t)
    {
      assert Lower("-or")[1] == 'o' && Lower("-and")[1] == 'a';
    }
    forall ts: seq<Tok> | L.parseAtom(ts).Some?
      ensures L.validAtom(L.parseAtom(ts).value.0)
      ensures L.yieldAtom(L.parseAtom(ts).value.0) + L.parseAtom(ts).value.1 == ts
    {
      ClauseSound(ts);
    }
    forall c: Clause | L.validAtom(c)
      ensures AtomStart(L, c)
    {
      PropStart(c.prop);
      if IsWord(c.prop, "-not") {
        FoldedFirst(c.prop.text, "-not");
      }
    }
    forall c: Clause, rest: seq<Tok> | L.validAtom(c)
      ensures AtomParses(L, c, rest)
    {
      ClauseComplete(c, rest);
    }
  }

  // ----- whole rules -----

  /** The blanks the direct-reports pattern allows (no vertical tab). */
  predicate PatternBlank(c: char) {
    IsSpace(c) && c != '\U{0B}'
  }

  function DropBlanks(s: string): (r: string)
    ensures |r| <= |s|
  {
    if s != "" && PatternBlank(s[0]) then DropBlanks(s[1..]) else s
  }

  /** What follows the word w and at least one blank. */
  function AfterWord(s: string, w: string): Option<string> {
    if |s| > |w| && Lower(s[..|w|]) == w && PatternBlank(s[|w|]) then Some(DropBlanks(s[|w|..])) else None
  }

  /** The quoted text of: direct reports for "...", in any case. */
  function ReportsOf(s: string): Option<string> {
    match AfterWord(s, "direct")
    case None => None
    case Some(s1) =>
      match AfterWord(s1, "reports")
      case None => None
      case Some(s2) =>
        match AfterWord(s2, "for")
        case None => None
        case Some(q) =>
          if |q| >= 2 && q[0] == '"' && q[|q| - 1] == '"' && '"' !in q[1..|q| - 1] then Some(q[1..|q| - 1])
          else None
  }

  function ParseRule(src: string): Option<Rule> {
    var s := Trim(src);
    if s == "" then None
    else
      match ReportsOf(s)
      case Some(oid) => if IsGuid(Lower(Trim(oid))) then Some(Reports(Lower(Trim(oid)))) else None
      case None =>
        match Lex(s)
        case None => None
        case Some(ts) =>
          match Parse(RuleLang(), ts)
          case None => None
          case Some(d) => Some(Boolean(MeanOr(RuleLang(), d)))
  }

  // ----- printing rules -----

  /** What a parsed comparison always satisfies. */
  predicate ComparisonOk(a: Comparison) {
    a.Compare? ==>
      if a.op.In? || a.op.NotIn? then a.value.None? && a.values != [] && forall i | 0 <= i < |a.values| :: Lower(a.values[i]) == a.values[i]
      else a.values == [] && (a.value.None? ==> a.op.Eq? || a.op.Ne?)
  }

  ghost predicate RuleOk(r: Rule) {
    match r
    case Reports(oid) => IsGuid(oid)
    case Boolean(e) => WellFormed(e, ComparisonOk)
  }

  function ItemsFor(vs: seq<string>): Items
    requires vs != []
  {
    if |vs| == 1 then Last(Tok(Quoted, vs[0]), Tok(Punct, "]"))
    else More(Tok(Quoted, vs[0]), Tok(Punct, ","), ItemsFor(vs[1..]))
  }

  function ClauseFor(a: Comparison): Clause {
    match a
    case Enabled(eq, state) =>
      Clause(Tok(Word, USER_DOT + "accountenabled"), Tok(Word, "-" + OpName(if eq then Eq else Ne)),
             Single(Tok(Word, if state then "true" else "false")))
    case Compare(attr, op, value, values) =>
      Clause(Tok(Word, USER_DOT + AttrName(attr)), Tok(Word, "-" + OpName(op)),
             if values != [] then List(Tok(Punct, "["), ItemsFor(values))
             else Single(if value.Some? then Tok(Quoted, value.value) else Tok(Word, "null")))
  }

  function RuleStyle(): Style<Tok, Clause, Comparison> {
    Style(Tok(Word, "-or"), Tok(Word, "-and"), Tok(Word, "-not"), Tok(Punct, "("), Tok(Punct, ")"), ClauseFor)
  }

  ghost function PrintRule(r: Rule): string
    requires RuleOk(r)
  {
    match r
    case Reports(oid) => "Direct Reports for \"" + oid + "\""
    case Boolean(e) => Spaced(YieldOr(RuleLang(), WriteOr(RuleStyle(), e, ComparisonOk)), PrintTok)
  }

  predicate IsLower(s: string) {
    forall i | 0 <= i < |s| :: !('A' <= s[i] <= 'Z')
  }

  lemma LowerOfLower(s: string)
    requires IsLower(s)
    ensures Lower(s) == s
  {
  }

  /** Attribute and operator names are lowercase letters and digits. */
  predicate NameChars(s: string) {
    forall i | 0 <= i < |s| :: 'a' <= s[i] <= 'z' || '0' <= s[i] <= '9'
  }

  lemma ShortNames()
    ensures NameChars("department") && NameChars("companyname") && NameChars("employeeid") && NameChars("jobtitle") && NameChars("mail")
  {
  }

  lemma LongNames()
    ensures NameChars("officelocation") && NameChars("displayname") && NameChars("userprincipalname") && NameChars("accountenabled")
  {
  }

  lemma ExtensionNames()
    ensures NameChars("extensionattribute1") && NameChars("extensionattribute2") && NameChars("extensionattribute3")
  {
  }

  lemma AttrNameChars(a: Attr)
    ensures NameChars(AttrName(a))
  {
    hide NameChars;
    ShortNames();
    LongNames();
    ExtensionNames();
  }

  lemma OpNameChars(op: Op)
    ensures NameChars(OpName(op)) && OpName(op) != ""
  {
  }

  lemma AttrRoundTrip(a: Attr)
    ensures AttrOf(AttrName(a)) == Some(a)
  {
    var n := AttrName(a);
    assert "department"[0] == 'd' && "employeeid"[0] == 'e';
    assert "companyname"[0] == 'c' && "displayname"[0] == 'd';
    assert "extensionattribute1"[18] == '1' && "extensionattribute2"[18] == '2' && "extensionattribute3"[18] == '3';
  }

  lemma {:induction false} ItemsForOk(vs: seq<string>)
    requires vs != [] && forall i | 0 <= i < |vs| :: Lower(vs[i]) == vs[i]
    ensures ValidItems(ItemsFor(vs)) && ItemValues(ItemsFor(vs)) == vs
  {
    if |vs| > 1 {
      ItemsForOk(vs[1..]);
      assert [vs[0]] + vs[1..] == vs;
    }
  }

  lemma AttrPropOf(a: Attr)
    ensures PropOf(Tok(Word, USER_DOT + AttrName(a))) == Some(Text(a))
  {
    hide AttrName, AttrOf, Lower;
    var n := USER_DOT + AttrName(a);
    AttrNameChars(a);
    LowerOfLower(n);
    assert n[..5] == USER_DOT && n[5..] == AttrName(a);
    AttrRoundTrip(a);
    NotTheFlag(a);
  }

  lemma NotTheFlag(a: Attr)
    ensures AttrName(a) != "accountenabled"
  {
    assert |"accountenabled"| == 14 && "accountenabled"[0] == 'a';
    assert |AttrName(a)| != 14 || AttrName(a)[0] == 'o';
  }

  lemma FlagPropOf()
    ensures PropOf(Tok(Word, USER_DOT + "accountenabled")) == Some(Flag)
  {
    var n := USER_DOT + "accountenabled";
    LowerOfLower(n);
    assert n[..5] == USER_DOT && n[5..] == "accountenabled";
  }

  lemma OperatorOfName(op: Op)
    ensures OperatorOf(Tok(Word, "-" + OpName(op))) == Some(op)
  {
    OpNameChars(op);
    LowerOfLower(OpName(op));
    assert ("-" + OpName(op))[1..] == OpName(op);
  }

  lemma TrueIsNotFalse()
    ensures Lower("true") != Lower("false")
  {
    assert |Lower("true")| == 4;
  }

  lemma ClauseForOk(a: Comparison)
    requires ComparisonOk(a)
    ensures ValidClause(ClauseFor(a)) && MeanClause(ClauseFor(a)) == a
  {
    match a {
      case Enabled(eq, state) =>
        FlagPropOf();
        OperatorOfName(if eq then Eq else Ne);
        TrueIsNotFalse();
      case Compare(attr, op, value, values) =>
        AttrPropOf(attr);
        OperatorOfName(op);
        if values != [] {
          ItemsForOk(values);
        }
    }
  }

  lemma RuleStyleFaithful()
    ensures Faithful(RuleLang(), RuleStyle(), ComparisonOk)
  {
    forall a | ComparisonOk(a)
      ensures RuleLang().validAtom(RuleStyle().atom(a)) && RuleLang().meanAtom(RuleStyle().atom(a)) == a
    {
      ClauseForOk(a);
    }
  }

  /** A word that folds to a word the lexer can produce is one itself. */
  lemma FoldedWord(a: string, w: string)
    requires EqualFold(a, w) && w != "" && forall i | 0 <= i < |w| :: WordChar(w[i])
    ensures Printable(Tok(Word, a))
  {
    forall i | 0 <= i < |a|
      ensures WordChar(a[i])
    {
      assert Lower(a)[i] == Lower(w)[i] && WordChar(w[i]);
    }
  }

  lemma KeywordPrintable(t: Tok, w: string)
    requires IsWord(t, w) && w in {"-or", "-and", "-not", "true", "false", "null"}
    ensures Printable(t)
  {
    FoldedWord(t.text, w);
  }

  lemma PropNameChars(p: Prop)
    ensures NameChars(PropName(p))
  {
    hide NameChars, AttrName;
    if p.Flag? {
      LongNames();
    } else {
      AttrNameChars(p.attr);
    }
  }

  lemma PropPrintable(t: Tok)
    requires PropOf(t).Some?
    ensures Printable(t)
  {
    hide AttrName, AttrOf;
    var name := Lower(t.text);
    var key := PropName(PropOf(t).value);
    assert name == USER_DOT + key by {
      assert name == name[..5] + name[5..];
    }
    PropNameChars(PropOf(t).value);
    forall i | 0 <= i < |t.text|
      ensures WordChar(t.text[i])
    {
      assert name[i] == if i < 5 then USER_DOT[i] else key[i - 5];
      assert WordChar(name[i]);
    }
  }

  lemma OperatorPrintable(t: Tok)
    requires OperatorOf(t).Some?
    ensures Printable(t)
  {
    hide OpName, OpOf;
    var name := Lower(t.text[1..]);
    OpNameChars(OperatorOf(t).value);
    LowerIdempotent(t.text[1..]);
    FoldedWord(t.text[1..], name);
    assert t.text == "-" + t.text[1..];
    forall i | 0 <= i < |t.text|
      ensures WordChar(t.text[i])
    {
      if i > 0 {
        assert t.text[i] == t.text[1..][i - 1];
      }
    }
  }

  lemma {:induction false} ItemsPrintable(d: Items)
    requires ValidItems(d)
    ensures forall t | t in YieldItems(d) :: Printable(t)
  {
    if d.More? {
      ItemsPrintable(d.rest);
    }
  }

  lemma ClausePrintable(d: Clause)
    requires ValidClause(d)
    ensures forall t | t in YieldClause(d) :: Printable(t)
  {
    PropPrintable(d.prop);
    OperatorPrintable(d.op);
    if d.operand.List? {
      ItemsPrintable(d.operand.items);
    } else if !d.operand.value.kind.Quoted? {
      var v := d.operand.value;
      KeywordPrintable(v, if IsWord(v, "true") then "true" else if IsWord(v, "false") then "false" else "null");
    }
  }

  lemma DerivationPrintable(d: OrTree<Tok, Clause>)
    requires ValidOr(RuleLang(), d)
    ensures forall t | t in YieldOr(RuleLang(), d) :: Printable(t)
  {
    var L := RuleLang();
    forall t: Tok | L.isOr(t) || L.isAnd(t) || L.isNot(t) || L.isOpen(t) || L.isClose(t)
      ensures Printable(t)
    {
      if t.kind.Word? {
        KeywordPrintable(t, if IsWord(t, "-or") then "-or" else if IsWord(t, "-and") then "-and" else "-not");
      }
    }
    forall c: Clause, t: Tok | L.validAtom(c) && t in L.yieldAtom(c)
      ensures Printable(t)
    {
      ClausePrintable(c);
    }
    OrTokens(L, d, Printable);
  }

  /** No boolean rule reads as a direct-reports rule. */
  lemma DerivationFirstChar(d: OrTree<Tok, Clause>)
    requires ValidOr(RuleLang(), d)
    ensures YieldOr(RuleLang(), d) != []
    ensures var t := YieldOr(RuleLang(), d)[0]; t.text != "" && !t.kind.Quoted? && LowerChar(t.text[0]) != 'd'
  {
    var L := RuleLang();
    RuleLangLawful();
    OrFirst(L, d);
    var t := YieldOr(L, d)[0];
    if L.isNot(t) {
      FoldedFirst(t.text, "-not");
    } else if !L.isOpen(t) {
      var c :| L.validAtom(c) && L.yieldAtom(c) != [] && t == L.yieldAtom(c)[0];
      PropStart(c.prop);
    }
  }

  lemma NotReports(s: string)
    requires s != "" && LowerChar(s[0]) != 'd'
    ensures ReportsOf(s).None?
  {
    if |s| > 6 {
      assert Lower(s[..6])[0] == LowerChar(s[0]) && "direct"[0] == 'd';
    }
  }

  lemma AfterWordOf(w: string, word: string, rest: string)
    requires |w| == |word| && Lower(w) == word && rest != "" && !PatternBlank(rest[0])
    ensures AfterWord(w + " " + rest, word) == Some(rest)
  {
    var s := w + " " + rest;
    assert s[..|w|] == w && s[|w|..] == " " + rest;
    assert (" " + rest)[1..] == rest;
    assert DropBlanks(rest) == rest;
  }

  lemma ReportsOfText(oid: string)
    requires '"' !in oid
    ensures ReportsOf("Direct" + " " + ("Reports" + " " + ("for" + " " + ("\"" + oid + "\"")))) == Some(oid)
  {
    var q := "\"" + oid + "\"";
    assert Lower("Direct") == "direct" && Lower("Reports") == "reports" && Lower("for") == "for";
    AfterWordOf("Direct", "direct", "Reports" + " " + ("for" + " " + q));
    AfterWordOf("Reports", "reports", "for" + " " + q);
    AfterWordOf("for", "for", q);
    assert q[1..|q| - 1] == oid;
  }

  lemma ReportsRoundTrip(oid: string)
    requires IsGuid(oid)
    ensures ParseRule("Direct Reports for \"" + oid + "\"") == Some(Reports(oid))
  {
    hide ReportsOf, Lex, Parse, MeanOr, RuleLang, Trim;
    var s := "Direct Reports for \"" + oid + "\"";
    assert s == "Direct" + " " + ("Reports" + " " + ("for" + " " + ("\"" + oid + "\"")));
    ReportsOfText(oid);
    GuidIsCanonical(oid);
    assert s[0] == 'D' && s[|s| - 1] == '"';
    TrimEnds(s);
  }

  /** Printing any rule a parser can build, then lexing and parsing the text, gives the rule back. */
  lemma PrintThenParse(r: Rule)
    requires RuleOk(r)
    ensures ParseRule(PrintRule(r)) == Some(r)
  {
    hide Lex, Trim, ReportsOf, Faithful, Lawful, Printable;
    match r {
      case Reports(oid) => ReportsRoundTrip(oid);
      case Boolean(e) =>
        RuleLangLawful();
        RuleStyleFaithful();
        var d := WriteOr(RuleStyle(), e, ComparisonOk);
        WriteThenParse(RuleLang(), RuleStyle(), e, ComparisonOk);
        WriteOrFaithful(RuleLang(), RuleStyle(), e, ComparisonOk);
        var ts := YieldOr(RuleLang(), d);
        DerivationPrintable(d);
        DerivationFirstChar(d);
        LexPrinted(ts);
        PrintedEdges(ts);
        NotReports(Spaced(ts, PrintTok));
        TrimEnds(Spaced(ts, PrintTok));
    }
  }

  /** Every accepted text compiles to a rule that can be printed, so accepted texts have a normal form. */
  lemma ParsedIsPrintable(src: string)
    requires ParseRule(src).Some?
    ensures RuleOk(ParseRule(src).value)
    ensures ParseRule(PrintRule(ParseRule(src).value)) == ParseRule(src)
  {
    var r := ParseRule(src).value;
    if r.Boolean? {
      var ts := Lex(Trim(src)).value;
      var d := Parse(RuleLang(), ts).value;
      RuleLangLawful();
      ParseIsExact(RuleLang(), ts, d);
      forall c: Clause | RuleLang().validAtom(c)
        ensures ComparisonOk(RuleLang().meanAtom(c))
      {
        MeantIsOk(c);
      }
      OrWellFormed(RuleLang(), d, ComparisonOk);
    }
    PrintThenParse(r);
  }

  lemma {:induction false} ItemValuesLower(d: Items)
    ensures forall i | 0 <= i < |ItemValues(d)| :: Lower(ItemValues(d)[i]) == ItemValues(d)[i]
  {
    LowerIdempotent(d.value.text);
    if d.More? {
      ItemValuesLower(d.rest);
    }
  }

  lemma MeantIsOk(d: Clause)
    requires ValidClause(d)
    ensures ComparisonOk(MeanClause(d))
  {
    if d.operand.List? {
      ItemValuesLower(d.operand.items);
    }
  }
}
