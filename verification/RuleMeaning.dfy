/** What the words of a membership rule say: -or, -and and -not between any two rules, and every
    comparison, as text. */
module RuleMeaning {
  import opened Text
  import opened Grammar
  import opened Lexing
  import opened RuleSyntax
  import opened Directory

  // ----- lexing texts put together -----

  predicate Breaks(s: string) {
    s == "" || IsSpace(s[0]) || IsPunct(s[0])
  }

  lemma {:induction false} ScanBefore(s: string, after: string)
    requires Scan(s).Some?
    ensures Scan(s + after) == Some((Scan(s).value.0, Scan(s).value.1 + after))
  {
    var t := s + after;
    assert t[0] == s[0] && t[1..] == s[1..] + after;
    if s[0] == '\\' && |s| > 1 {
      assert t[1] == s[1] && t[2..] == s[2..] + after;
      ScanBefore(s[2..], after);
    } else if s[0] != '"' {
      ScanBefore(s[1..], after);
    }
  }

  lemma {:induction false} WordBefore(s: string, after: string)
    requires Breaks(after)
    ensures WordLength(s + after, WordChar) == WordLength(s, WordChar)
  {
    if s == "" {
      assert s + after == after;
    } else {
      assert (s + after)[0] == s[0] && (s + after)[1..] == s[1..] + after;
      WordBefore(s[1..], after);
    }
  }

  function Joined(a: Option<seq<Tok>>, b: Option<seq<Tok>>): Option<seq<Tok>> {
    if a.None? || b.None? then None else Some(a.value + b.value)
  }

  lemma ConsJoined(t: Tok, a: Option<seq<Tok>>, b: Option<seq<Tok>>)
    ensures Joined(ConsTok(t, a), b) == ConsTok(t, Joined(a, b))
  {
    if a.Some? && b.Some? {
      assert [t] + (a.value + b.value) == ([t] + a.value) + b.value;
    }
  }

  lemma LexStep(s: string)
    requires s != ""
    ensures Lex(s) ==
              if IsSpace(s[0]) then Lex(s[1..])
              else if IsPunct(s[0]) then ConsTok(Tok(Punct, [s[0]]), Lex(s[1..]))
              else if s[0] == '"' then
                if Scan(s[1..]).None? then None else ConsTok(Tok(Quoted, Scan(s[1..]).value.0), Lex(Scan(s[1..]).value.1))
              else ConsTok(Tok(Word, s[..WordLength(s, WordChar)]), Lex(s[WordLength(s, WordChar)..]))
  {
  }

  lemma LexNothing()
    ensures Lex("") == Some([])
  {
  }

  /** A text that lexes, followed by a blank or punctuation, lexes to its tokens and the rest's. */
  lemma {:induction false} LexJoined(a: string, b: string)
    requires Lex(a).Some? && Breaks(b)
    ensures Lex(a + b) == Joined(Lex(a), Lex(b))
    decreases |a|
  {
    hide Lex, Scan, WordLength, WordChar;
    if a == "" {
      assert a + b == b;
      LexNothing();
      if Lex(b).Some? {
        assert [] + Lex(b).value == Lex(b).value;
      }
    } else {
      var s := a + b;
      LexStep(a);
      LexStep(s);
      assert s[0] == a[0] && s[1..] == a[1..] + b;
      if IsSpace(a[0]) {
        LexJoined(a[1..], b);
      } else if IsPunct(a[0]) {
        LexJoined(a[1..], b);
        ConsJoined(Tok(Punct, [a[0]]), Lex(a[1..]), Lex(b));
      } else if a[0] == '"' {
        var (text, rest) := Scan(a[1..]).value;
        ScanBefore(a[1..], b);
        LexJoined(rest, b);
        ConsJoined(Tok(Quoted, text), Lex(rest), Lex(b));
      } else {
        WordJoined(a, b);
      }
    }
  }

  lemma WordJoined(a: string, b: string)
    requires a != "" && Lex(a).Some? && Breaks(b) && !IsSpace(a[0]) && !IsPunct(a[0]) && a[0] != '"'
    ensures Lex(a + b) == Joined(Lex(a), Lex(b))
    decreases |a|, 0
  {
    hide Lex, Scan;
    var n := WordLength(a, WordChar);
    LexStep(a);
    LexStep(a + b);
    WordBefore(a, b);
    assert (a + b)[..n] == a[..n] && (a + b)[n..] == a[n..] + b;
    assert n > 0;
    LexJoined(a[n..], b);
    ConsJoined(Tok(Word, a[..n]), Lex(a[n..]), Lex(b));
  }

  // ----- trimming changes no token -----

  lemma {:induction false} ScanBlankAfter(s: string, c: char)
    requires IsSpace(c)
    ensures Scan(s).None? ==> Scan(s + [c]).None?
  {
    if s == "" {
      assert s + [c] == [c] && Scan([c][1..]) == None;
    } else {
      var t := s + [c];
      assert t[0] == s[0] && t[1..] == s[1..] + [c];
      if s[0] == '\\' && |s| > 1 {
        assert t[1] == s[1] && t[2..] == s[2..] + [c];
        ScanBlankAfter(s[2..], c);
      } else if s[0] == '\\' {
        assert t[1] == c && t[2..] == "" && Scan("") == None;
      } else if s[0] != '"' {
        ScanBlankAfter(s[1..], c);
      }
    }
  }

  lemma {:induction false} LexBlankAfter(s: string, c: char)
    requires IsSpace(c)
    ensures Lex(s + [c]) == Lex(s)
    decreases |s|
  {
    hide Lex, Scan, WordLength, WordChar;
    LexNothing();
    if s == "" {
      assert s + [c] == [c] && [c][1..] == "";
      LexStep([c]);
    } else {
      var t := s + [c];
      LexStep(s);
      LexStep(t);
      assert t[0] == s[0] && t[1..] == s[1..] + [c];
      if IsSpace(s[0]) || IsPunct(s[0]) {
        LexBlankAfter(s[1..], c);
      } else if s[0] == '"' {
        if Scan(s[1..]).Some? {
          ScanBefore(s[1..], [c]);
          LexBlankAfter(Scan(s[1..]).value.1, c);
        } else {
          ScanBlankAfter(s[1..], c);
        }
      } else {
        WordBlankAfter(s, c);
      }
    }
  }

  lemma WordBlankAfter(s: string, c: char)
    requires IsSpace(c) && s != "" && !IsSpace(s[0]) && !IsPunct(s[0]) && s[0] != '"'
    ensures Lex(s + [c]) == Lex(s)
    decreases |s|, 0
  {
    hide Lex, Scan;
    var n := WordLength(s, WordChar);
    LexStep(s);
    LexStep(s + [c]);
    WordBefore(s, [c]);
    assert (s + [c])[..n] == s[..n] && (s + [c])[n..] == s[n..] + [c] && n > 0;
    LexBlankAfter(s[n..], c);
  }

  lemma {:induction false} LexLeft(s: string)
    ensures Lex(TrimLeft(s)) == Lex(s)
  {
    hide Lex;
    if s != "" && IsSpace(s[0]) {
      LexStep(s);
      LexLeft(s[1..]);
    }
  }

  lemma {:induction false} LexRight(s: string)
    ensures Lex(TrimRight(s)) == Lex(s)
  {
    hide Lex;
    if s != "" && IsSpace(s[|s| - 1]) {
      var n := |s| - 1;
      assert s == s[..n] + [s[n]];
      LexBlankAfter(s[..n], s[n]);
      LexRight(s[..n]);
    }
  }

  lemma LexTrimmed(s: string)
    ensures Lex(Trim(s)) == Lex(s)
  {
    hide Lex;
    LexLeft(s);
    LexRight(TrimLeft(s));
  }

  // ----- texts and derivations -----

  /** The text is a rule other than a direct-reports rule. */
  predicate Compiles(src: string) {
    ParseRule(src).Some? && ParseRule(src).value.Boolean?
  }

  /** The rule written src selects the user. */
  predicate Selects(src: string, c: Config, t: Tenant, u: User) {
    ParseRule(src).Some? && RuleMatches(ParseRule(src).value, c, t, u)
  }

  /** The derivation of a text that compiles. */
  lemma DerivationOf(src: string) returns (d: OrTree<Tok, Clause>)
    requires Compiles(src)
    ensures ValidOr(RuleLang(), d) && Lex(src) == Some(YieldOr(RuleLang(), d)) && ParseRule(src) == Some(Boolean(MeanOr(RuleLang(), d)))
  {
    hide Lex, ReportsOf, RuleLang, MeanOr, Parse, Trim;
    var ts := Lex(Trim(src)).value;
    d := Parse(RuleLang(), ts).value;
    RuleLangLawful();
    ParseIsExact(RuleLang(), ts, d);
    LexTrimmed(src);
  }

  lemma FirstToken(s: string)
    requires s != "" && !IsSpace(s[0]) && Lex(s).Some?
    ensures Lex(s).value != [] && (!Lex(s).value[0].kind.Quoted? ==> Lex(s).value[0].text != "" && Lex(s).value[0].text[0] == s[0])
  {
    hide Lex, Scan;
    LexStep(s);
  }

  /** A text whose tokens the grammar derives compiles to that derivation's meaning. */
  lemma CompiledFrom(src: string, d: OrTree<Tok, Clause>)
    requires ValidOr(RuleLang(), d) && Lex(src) == Some(YieldOr(RuleLang(), d))
    ensures ParseRule(src) == Some(Boolean(MeanOr(RuleLang(), d)))
  {
    hide Lex, ReportsOf, RuleLang, MeanOr, Parse, Trim, YieldOr, ValidOr;
    var s := Trim(src);
    LexTrimmed(src);
    LexNothing();
    DerivationFirstChar(d);
    TrimEnds(src);
    FirstToken(s);
    NotReports(s);
    RuleLangLawful();
    ParseIsExact(RuleLang(), YieldOr(RuleLang(), d), d);
  }

  function Leaves(t: Tenant, u: User): Comparison -> bool {
    (a: Comparison) => Matches(a, t, u)
  }

  lemma SelectsBy(src: string, d: OrTree<Tok, Clause>, c: Config, t: Tenant, u: User)
    requires ParseRule(src) == Some(Boolean(MeanOr(RuleLang(), d)))
    ensures Selects(src, c, t, u) <==> Eval(MeanOr(RuleLang(), d), Leaves(t, u))
  {
    hide ParseRule, MeanOr, RuleLang;
  }

  // ----- the connectives -----

  lemma LexGroup(a: string, rest: string)
    requires Lex(a).Some? && Lex(rest).Some? && Breaks(rest)
    ensures Lex("(" + a + ")" + rest) == Some([Tok(Punct, "(")] + Lex(a).value + [Tok(Punct, ")")] + Lex(rest).value)
  {
    hide Lex;
    LexPunct(')', rest);
    LexJoined(a, [')'] + rest);
    LexPunct('(', a + ([')'] + rest));
    assert "(" + a + ")" + rest == ['('] + (a + ([')'] + rest));
    GroupTokens([Tok(Punct, "(")], Lex(a).value, [Tok(Punct, ")")], Lex(rest).value);
  }

  lemma LexPunct(p: char, rest: string)
    requires IsPunct(p)
    ensures Lex([p] + rest) == ConsTok(Tok(Punct, [p]), Lex(rest))
  {
    hide Lex;
    LexStep([p] + rest);
    assert ([p] + rest)[1..] == rest;
  }

  lemma GroupTokens(o: seq<Tok>, x: seq<Tok>, p: seq<Tok>, y: seq<Tok>)
    ensures o + (x + (p + y)) == o + x + p + y
  {
  }

  /** A word, a blank, and a text. */
  lemma LexWordThen(w: string, rest: string)
    requires w != "" && Lex(rest).Some? && forall i | 0 <= i < |w| :: WordChar(w[i])
    ensures Lex(w + " " + rest) == Some([Tok(Word, w)] + Lex(rest).value)
  {
    hide Lex;
    LexOne(Tok(Word, w), " " + rest);
    LexBlank(rest);
    assert w + (" " + rest) == w + " " + rest;
  }

  lemma Connectives()
    ensures RuleLang().isOr(Tok(Word, "-or")) && RuleLang().isAnd(Tok(Word, "-and")) && RuleLang().isNot(Tok(Word, "-not"))
    ensures RuleLang().isOpen(Tok(Punct, "(")) && RuleLang().isClose(Tok(Punct, ")"))
    ensures forall w, i | w in {"-or", "-and", "-not"} && 0 <= i < |w| :: WordChar(w[i])
  {
  }

  /** -or between any two rules: whom either selects. */
  lemma OrSelectsEither(a: string, b: string, c: Config, t: Tenant, u: User)
    requires Compiles(a) && Compiles(b)
    ensures var r := a + " -or " + b; Compiles(r) && (Selects(r, c, t, u) <==> Selects(a, c, t, u) || Selects(b, c, t, u))
  {
    hide Lex, ParseRule, RuleLang, MeanOr, YieldOr, ValidOr, Selects, Leaves;
    var d := DerivationOf(a);
    var e := DerivationOf(b);
    Connectives();
    LexWordThen("-or", b);
    LexBlank("-or" + " " + b);
    LexJoined(a, " " + ("-or" + " " + b));
    assert a + (" " + ("-or" + " " + b)) == a + " -or " + b;
    var both := Either(d, Tok(Word, "-or"), e);
    EitherMeans(RuleLang(), d, Tok(Word, "-or"), e, Leaves(t, u));
    assert Lex(a).value + ([Tok(Word, "-or")] + Lex(b).value) == Lex(a).value + [Tok(Word, "-or")] + Lex(b).value;
    CompiledFrom(a + " -or " + b, both);
    SelectsBy(a, d, c, t, u);
    SelectsBy(b, e, c, t, u);
    SelectsBy(a + " -or " + b, both, c, t, u);
  }

  /** -and between any two grouped rules: whom both select. */
  lemma AndSelectsBoth(a: string, b: string, c: Config, t: Tenant, u: User)
    requires Compiles(a) && Compiles(b)
    ensures var r := "(" + a + ") -and (" + b + ")"; Compiles(r) && (Selects(r, c, t, u) <==> Selects(a, c, t, u) && Selects(b, c, t, u))
  {
    hide Lex, ParseRule, RuleLang, MeanOr, YieldOr, ValidOr, Selects, Leaves;
    var d := DerivationOf(a);
    var e := DerivationOf(b);
    Connectives();
    LexNothing();
    LexGroup(b, "");
    var second := "(" + b + ")" + "";
    LexWordThen("-and", second);
    LexBlank("-and" + " " + second);
    LexGroup(a, " " + ("-and" + " " + second));
    var r := "(" + a + ") -and (" + b + ")";
    assert "(" + a + ")" + (" " + ("-and" + " " + second)) == r;
    var both := Both(Tok(Punct, "("), d, Tok(Punct, ")"), Tok(Word, "-and"), e);
    BothMeans(RuleLang(), Tok(Punct, "("), d, Tok(Punct, ")"), Tok(Word, "-and"), e, Leaves(t, u));
    SameTokens(Lex(a).value, Lex(b).value);
    CompiledFrom(r, both);
    SelectsBy(a, d, c, t, u);
    SelectsBy(b, e, c, t, u);
    SelectsBy(r, both, c, t, u);
  }

  lemma SameTokens(x: seq<Tok>, y: seq<Tok>)
    ensures var o, p, k := Tok(Punct, "("), Tok(Punct, ")"), Tok(Word, "-and");
            [o] + x + [p] + ([k] + ([o] + y + [p] + [])) == [o] + x + [p] + [k] + ([o] + y + [p])
  {
  }

  /** -not before any grouped rule: whom it does not select. */
  lemma NotSelectsTheRest(a: string, c: Config, t: Tenant, u: User)
    requires Compiles(a)
    ensures var r := "-not (" + a + ")"; Compiles(r) && (Selects(r, c, t, u) <==> !Selects(a, c, t, u))
  {
    hide Lex, ParseRule, RuleLang, MeanOr, YieldOr, ValidOr, Selects, Leaves;
    var d := DerivationOf(a);
    Connectives();
    LexNothing();
    LexGroup(a, "");
    LexWordThen("-not", "(" + a + ")" + "");
    var r := "-not (" + a + ")";
    assert "-not" + " " + ("(" + a + ")" + "") == r;
    var n := Complement(Tok(Word, "-not"), Tok(Punct, "("), d, Tok(Punct, ")"));
    ComplementMeans(RuleLang(), Tok(Word, "-not"), Tok(Punct, "("), d, Tok(Punct, ")"), Leaves(t, u));
    assert [Tok(Punct, "(")] + Lex(a).value + [Tok(Punct, ")")] + [] == [Tok(Punct, "(")] + Lex(a).value + [Tok(Punct, ")")];
    CompiledFrom(r, n);
    SelectsBy(a, d, c, t, u);
    SelectsBy(r, n, c, t, u);
  }

  // ----- comparisons, as text -----

  /** Text that needs no escape within quotes. */
  predicate PlainValue(v: string) {
    '"' !in v && '\\' !in v
  }

  lemma {:induction false} EscapePlain(v: string)
    requires PlainValue(v)
    ensures Escape(v) == v
  {
    if v != "" {
      EscapePlain(v[1..]);
      assert v == [v[0]] + v[1..];
    }
  }

  lemma ClauseCompiles(d: Clause, src: string)
    requires ValidClause(d) && src == Spaced(YieldClause(d), PrintTok)
    ensures ParseRule(src) == Some(Boolean(MeanOr(RuleLang(), Only(Atom(d)))))
  {
    hide Lex, ParseRule, MeanOr, YieldOr, ValidOr, Printable, ValidClause, YieldClause, PrintTok;
    ClausePrintable(d);
    LexPrinted(YieldClause(d));
    AloneIsValid(d);
    CompiledFrom(src, Only(Atom(d)));
  }

  lemma AloneIsValid(d: Clause)
    requires ValidClause(d)
    ensures var alone: OrTree<Tok, Clause> := Only(Atom(d)); ValidOr(RuleLang(), alone) && YieldOr(RuleLang(), alone) == YieldClause(d)
  {
    hide ValidClause, YieldClause;
    AloneMeans(RuleLang(), d, (a: Comparison) => true);
  }

  lemma ClauseSelects(d: Clause, src: string, c: Config, t: Tenant, u: User)
    requires ValidClause(d) && src == Spaced(YieldClause(d), PrintTok)
    ensures Compiles(src) && (Selects(src, c, t, u) <==> Matches(MeanClause(d), t, u))
  {
    hide Lex, ParseRule, MeanOr, YieldOr, ValidOr, Selects, Matches, MeanClause, ValidClause, YieldClause, PrintTok;
    ClauseCompiles(d, src);
    AloneMeans(RuleLang(), d, Leaves(t, u));
    SelectsBy(src, Only(Atom(d)), c, t, u);
  }

  lemma ThreeSpaced(x: Tok, y: Tok, z: Tok)
    ensures Spaced([x, y, z], PrintTok) == PrintTok(x) + " " + (PrintTok(y) + " " + PrintTok(z))
  {
    hide PrintTok;
    assert [x, y, z][1..] == [y, z] && [y, z][1..] == [z];
    assert Spaced([z], PrintTok) == PrintTok(z) && Spaced([y, z], PrintTok) == PrintTok(y) + " " + PrintTok(z);
  }

  /** user.attribute -operator "value" */
  function Asks(attribute: string, operator: string, v: string): string {
    AsksWord(attribute, operator, "\"" + v + "\"")
  }

  /** user.attribute -operator operand */
  function AsksWord(attribute: string, operator: string, operand: string): string {
    "user." + attribute + " " + ("-" + operator + " " + operand)
  }

  function OneOperand(attribute: string, operator: string, operand: Tok): Clause {
    Clause(Tok(Word, "user." + attribute), Tok(Word, "-" + operator), Operand.Single(operand))
  }

  lemma OperandText(attribute: string, operator: string, operand: Tok)
    ensures Spaced(YieldClause(OneOperand(attribute, operator, operand)), PrintTok) == AsksWord(attribute, operator, PrintTok(operand))
  {
    var d := OneOperand(attribute, operator, operand);
    ThreeSpaced(d.prop, d.op, operand);
  }

  lemma ComparisonSelects(attribute: string, attr: Attr, operator: string, op: Op, v: string, c: Config, t: Tenant, u: User)
    requires attribute == AttrName(attr) && operator == OpName(op) && !op.In? && !op.NotIn? && PlainValue(v)
    ensures Compiles(Asks(attribute, operator, v))
    ensures Selects(Asks(attribute, operator, v), c, t, u) <==> Compares(op, AttrValue(attr, t, u), Some(v), [])
  {
    EscapePlain(v);
    EscapedSelects(attribute, attr, operator, op, v, c, t, u);
  }

  lemma EscapedSelects(attribute: string, attr: Attr, operator: string, op: Op, v: string, c: Config, t: Tenant, u: User)
    requires attribute == AttrName(attr) && operator == OpName(op) && !op.In? && !op.NotIn?
    ensures Compiles(Asks(attribute, operator, Escape(v)))
    ensures Selects(Asks(attribute, operator, Escape(v)), c, t, u) <==> Compares(op, AttrValue(attr, t, u), Some(v), [])
  {
    hide Selects, Compiles, PropOf, OperatorOf, AttrName, OpName, AttrValue, Compares, Escape, AsksWord;
    var d := OneOperand(attribute, operator, Tok(Quoted, v));
    AttrPropOf(attr);
    OperatorOfName(op);
    OperandText(attribute, operator, Tok(Quoted, v));
    ClauseSelects(d, Asks(attribute, operator, Escape(v)), c, t, u);
  }

  /** Whether a set attribute folds to, starts with, or contains a value. */
  predicate FoldsTo(got: string, v: string) {
    got != "" && Lower(got) == Lower(v)
  }

  predicate FoldedStarts(got: string, v: string) {
    got != "" && HasPrefix(Lower(got), Lower(v))
  }

  predicate FoldedContains(got: string, v: string) {
    got != "" && Contains(Lower(got), Lower(v))
  }

  /** The operator words that compare with one value. */
  lemma OperatorsSelect(v: string, c: Config, t: Tenant, u: User)
    requires PlainValue(v)
    ensures Selects(Asks("department", "eq", v), c, t, u) <==> FoldsTo(u.org.department, v)
    ensures Selects(Asks("department", "ne", v), c, t, u) <==> !FoldsTo(u.org.department, v)
    ensures Selects(Asks("department", "startswith", v), c, t, u) <==> FoldedStarts(u.org.department, v)
    ensures Selects(Asks("department", "notstartswith", v), c, t, u) <==> !FoldedStarts(u.org.department, v)
    ensures Selects(Asks("department", "contains", v), c, t, u) <==> FoldedContains(u.org.department, v)
    ensures Selects(Asks("department", "notcontains", v), c, t, u) <==> !FoldedContains(u.org.department, v)
  {
    hide Selects, Compiles, Contains, HasPrefix, Asks, Lower;
    ComparisonSelects("department", Department, "eq", Eq, v, c, t, u);
    ComparisonSelects("department", Department, "ne", Ne, v, c, t, u);
    ComparisonSelects("department", Department, "startswith", StartsWith, v, c, t, u);
    ComparisonSelects("department", Department, "notstartswith", NotStartsWith, v, c, t, u);
    ComparisonSelects("department", Department, "contains", Includes, v, c, t, u);
    ComparisonSelects("department", Department, "notcontains", NotIncludes, v, c, t, u);
  }

  lemma AttributeSelects(attribute: string, attr: Attr, v: string, c: Config, t: Tenant, u: User)
    requires attribute == AttrName(attr) && PlainValue(v)
    ensures Selects(Asks(attribute, "eq", v), c, t, u) <==> FoldsTo(AttrValue(attr, t, u), v)
  {
    hide Selects, Compiles, AttrName, AttrValue, Asks;
    ComparisonSelects(attribute, attr, "eq", Eq, v, c, t, u);
  }

  /** Each attribute word reads its own field of the account. */
  lemma AttributesRead(v: string, c: Config, t: Tenant, u: User)
    requires PlainValue(v)
    ensures Selects(Asks("department", "eq", v), c, t, u) <==> FoldsTo(u.org.department, v)
    ensures Selects(Asks("companyname", "eq", v), c, t, u) <==> FoldsTo(u.org.companyName, v)
    ensures Selects(Asks("employeeid", "eq", v), c, t, u) <==> FoldsTo(u.org.employeeId, v)
    ensures Selects(Asks("jobtitle", "eq", v), c, t, u) <==> FoldsTo(u.org.jobTitle, v)
    ensures Selects(Asks("officelocation", "eq", v), c, t, u) <==> FoldsTo(u.org.officeLocation, v)
    ensures Selects(Asks("displayname", "eq", v), c, t, u) <==> FoldsTo(u.name, v)
    ensures Selects(Asks("mail", "eq", v), c, t, u) <==> FoldsTo(u.email, v)
    ensures Selects(Asks("userprincipalname", "eq", v), c, t, u) <==> FoldsTo(PrincipalName(t, u), v)
    ensures Selects(Asks("extensionattribute1", "eq", v), c, t, u) <==> FoldsTo(u.org.extension1, v)
    ensures Selects(Asks("extensionattribute2", "eq", v), c, t, u) <==> FoldsTo(u.org.extension2, v)
    ensures Selects(Asks("extensionattribute3", "eq", v), c, t, u) <==> FoldsTo(u.org.extension3, v)
  {
    hide Selects, FoldsTo, PrincipalName, Asks;
    AttributeSelects("department", Department, v, c, t, u);
    AttributeSelects("companyname", CompanyName, v, c, t, u);
    AttributeSelects("employeeid", EmployeeId, v, c, t, u);
    AttributeSelects("jobtitle", JobTitle, v, c, t, u);
    AttributeSelects("officelocation", OfficeLocation, v, c, t, u);
    AttributeSelects("displayname", DisplayName, v, c, t, u);
    AttributeSelects("mail", Mail, v, c, t, u);
    AttributeSelects("userprincipalname", UserPrincipalName, v, c, t, u);
    AttributeSelects("extensionattribute1", Extension1, v, c, t, u);
    AttributeSelects("extensionattribute2", Extension2, v, c, t, u);
    AttributeSelects("extensionattribute3", Extension3, v, c, t, u);
  }

  lemma WordSelects(attribute: string, operator: string, operand: string, c: Config, t: Tenant, u: User)
    requires ValidClause(OneOperand(attribute, operator, Tok(Word, operand)))
    ensures Selects(AsksWord(attribute, operator, operand), c, t, u) <==>
              Matches(MeanClause(OneOperand(attribute, operator, Tok(Word, operand))), t, u)
  {
    hide Selects, Compiles, ValidClause, MeanClause, OneOperand;
    OperandText(attribute, operator, Tok(Word, operand));
    ClauseSelects(OneOperand(attribute, operator, Tok(Word, operand)), AsksWord(attribute, operator, operand), c, t, u);
  }

  /** A null operand asks whether the attribute is unset. */
  lemma NullSelects(c: Config, t: Tenant, u: User)
    ensures Selects(AsksWord("department", "eq", "null"), c, t, u) <==> u.org.department == ""
    ensures Selects(AsksWord("department", "ne", "null"), c, t, u) <==> u.org.department != ""
  {
    hide Selects, PropOf, OperatorOf, AsksWord;
    AttrPropOf(Department);
    OperatorOfName(Eq);
    OperatorOfName(Ne);
    WordSelects("department", "eq", "null", c, t, u);
    WordSelects("department", "ne", "null", c, t, u);
  }

  /** accountEnabled against true and false; an account is enabled unless it says otherwise. */
  lemma EnabledSelects(c: Config, t: Tenant, u: User)
    ensures var on := u.accountEnabled != Some(false);
            && (Selects(AsksWord("accountenabled", "eq", "true"), c, t, u) <==> on)
            && (Selects(AsksWord("accountenabled", "eq", "false"), c, t, u) <==> !on)
            && (Selects(AsksWord("accountenabled", "ne", "true"), c, t, u) <==> !on)
            && (Selects(AsksWord("accountenabled", "ne", "false"), c, t, u) <==> on)
  {
    hide Selects, AsksWord;
    FlagSelects(true, true, c, t, u);
    FlagSelects(true, false, c, t, u);
    FlagSelects(false, true, c, t, u);
    FlagSelects(false, false, c, t, u);
  }

  lemma FlagSelects(eq: bool, state: bool, c: Config, t: Tenant, u: User)
    ensures Selects(AsksWord("accountenabled", if eq then "eq" else "ne", if state then "true" else "false"), c, t, u)
            <==> ((UserEnabled(u) == state) == eq)
  {
    hide Selects, PropOf, OperatorOf, AsksWord, UserEnabled;
    FlagPropOf();
    OperatorOfName(if eq then Eq else Ne);
    TrueIsNotFalse();
    WordSelects("accountenabled", if eq then "eq" else "ne", if state then "true" else "false", c, t, u);
  }

  /** The items of a list operand up to its closing bracket. */
  function ItemsText(vs: seq<string>): string
    requires vs != []
  {
    if |vs| == 1 then "\"" + vs[0] + "\" ]" else "\"" + vs[0] + "\" , " + ItemsText(vs[1..])
  }

  /** user.attribute -operator [ "v1" , "v2" , ... ] */
  function AsksList(attribute: string, operator: string, vs: seq<string>): string
    requires vs != []
  {
    "user." + attribute + " " + ("-" + operator + " " + ("[ " + ItemsText(vs)))
  }

  function LowerAll(vs: seq<string>): (r: seq<string>)
    ensures |r| == |vs| && forall i | 0 <= i < |r| :: r[i] == Lower(vs[i])
  {
    seq(|vs|, i requires 0 <= i < |vs| => Lower(vs[i]))
  }

  lemma {:induction false} ItemsValued(vs: seq<string>)
    requires vs != []
    ensures ValidItems(ItemsFor(vs)) && ItemValues(ItemsFor(vs)) == LowerAll(vs)
  {
    hide Lower;
    if |vs| == 1 {
      assert LowerAll(vs) == [Lower(vs[0])];
    } else {
      ItemsValued(vs[1..]);
      assert LowerAll(vs) == [Lower(vs[0])] + LowerAll(vs[1..]);
    }
  }

  lemma {:induction false} ItemsPrinted(vs: seq<string>)
    requires vs != [] && forall v | v in vs :: PlainValue(v)
    ensures YieldItems(ItemsFor(vs)) != [] && Spaced(YieldItems(ItemsFor(vs)), PrintTok) == ItemsText(vs)
  {
    hide Escape, PlainValue, Spaced;
    var d := ItemsFor(vs);
    var x := Tok(Quoted, vs[0]);
    EscapePlain(vs[0]);
    if |vs| == 1 {
      ItemsEnd(x, Tok(Punct, "]"));
    } else {
      ItemsPrinted(vs[1..]);
      ItemsMore(x, Tok(Punct, ","), YieldItems(d.rest));
    }
  }

  lemma ItemsEnd(x: Tok, y: Tok)
    ensures Spaced([x, y], PrintTok) == PrintTok(x) + " " + PrintTok(y)
  {
    hide PrintTok;
    assert [x, y][1..] == [y] && Spaced([y], PrintTok) == PrintTok(y);
  }

  lemma ItemsMore(x: Tok, y: Tok, rest: seq<Tok>)
    requires rest != []
    ensures Spaced([x, y] + rest, PrintTok) == PrintTok(x) + " " + (PrintTok(y) + " " + Spaced(rest, PrintTok))
  {
    hide PrintTok;
    assert ([x, y] + rest)[1..] == [y] + rest && ([y] + rest)[1..] == rest;
    assert Spaced([y] + rest, PrintTok) == PrintTok(y) + " " + Spaced(rest, PrintTok);
  }

  /** A list operand asks whether the set attribute folds to one of its values. */
  lemma ListSelects(vs: seq<string>, c: Config, t: Tenant, u: User)
    requires vs != [] && forall v | v in vs :: PlainValue(v)
    ensures Selects(AsksList("department", "in", vs), c, t, u) <==> exists v | v in vs :: FoldsTo(u.org.department, v)
    ensures Selects(AsksList("department", "notin", vs), c, t, u) <==> !exists v | v in vs :: FoldsTo(u.org.department, v)
  {
    hide Selects, AsksList, Lower, PlainValue;
    ListText("in", In, vs, c, t, u);
    ListText("notin", NotIn, vs, c, t, u);
    var got, lows := u.org.department, LowerAll(vs);
    if Lower(got) in lows {
      var i :| 0 <= i < |lows| && lows[i] == Lower(got);
      assert vs[i] in vs;
    }
    if v :| v in vs && Lower(got) == Lower(v) {
      var i :| 0 <= i < |vs| && vs[i] == v;
      assert lows[i] in lows;
    }
  }

  function ListOperand(operator: string, vs: seq<string>): Clause
    requires vs != []
  {
    Clause(Tok(Word, "user." + "department"), Tok(Word, "-" + operator), List(Tok(Punct, "["), ItemsFor(vs)))
  }

  lemma ListPrinted(operator: string, vs: seq<string>)
    requires vs != [] && forall v | v in vs :: PlainValue(v)
    ensures Spaced(YieldClause(ListOperand(operator, vs)), PrintTok) == AsksList("department", operator, vs)
  {
    hide PlainValue, ItemsText, Lower, Spaced, ItemsFor;
    var d := ListOperand(operator, vs);
    var items := YieldItems(ItemsFor(vs));
    var open := [Tok(Punct, "[")] + items;
    ItemsPrinted(vs);
    ItemsMore(d.prop, d.op, open);
    OneMore(Tok(Punct, "["), items);
    assert "[" + " " + ItemsText(vs) == "[ " + ItemsText(vs);
    assert YieldClause(d) == [d.prop, d.op] + open;
  }

  lemma OneMore(x: Tok, rest: seq<Tok>)
    requires rest != []
    ensures Spaced([x] + rest, PrintTok) == PrintTok(x) + " " + Spaced(rest, PrintTok)
  {
    hide PrintTok;
    assert ([x] + rest)[1..] == rest;
  }

  lemma ListText(operator: string, op: Op, vs: seq<string>, c: Config, t: Tenant, u: User)
    requires vs != [] && (forall v | v in vs :: PlainValue(v)) && (op.In? || op.NotIn?) && operator == OpName(op)
    ensures Selects(AsksList("department", operator, vs), c, t, u) <==> Compares(op, u.org.department, None, LowerAll(vs))
  {
    hide Selects, PropOf, OperatorOf, OpName, Compares, PlainValue, ItemsText, Lower, Spaced, AsksList, ItemsFor;
    AttrPropOf(Department);
    OperatorOfName(op);
    ItemsValued(vs);
    ListPrinted(operator, vs);
    ClauseSelects(ListOperand(operator, vs), AsksList("department", operator, vs), c, t, u);
  }

  // ----- what is refused -----

  predicate WordText(w: string) {
    w != "" && forall i | 0 <= i < |w| :: WordChar(w[i])
  }

  lemma StartsWithUser(w: string)
    requires WordText(w)
    ensures var t := Tok(Word, "user." + w); Printable(t) && !RuleLang().isNot(t) && !RuleLang().isOpen(t) && PrintTok(t)[0] == 'u'
  {
    var t := Tok(Word, "user." + w);
    assert t.text[0] == 'u' && LowerChar('u') == 'u';
    if IsWord(t, "-not") {
      FoldedFirst(t.text, "-not");
    }
    forall i | 0 <= i < |t.text|
      ensures WordChar(t.text[i])
    {
      if i >= 5 {
        assert t.text[i] == w[i - 5];
      }
    }
  }

  /** A property with no comparison after it is refused. */
  lemma NoClauseNoRule(w: string, ts: seq<Tok>, src: string)
    requires WordText(w) && ts != [] && ts[0] == Tok(Word, "user." + w) && (forall t | t in ts :: Printable(t))
    requires ParseClause(ts).None? && src == Spaced(ts, PrintTok)
    ensures ParseRule(src).None?
  {
    hide Lex, Printable, ParseClause, ReportsOf, Trim, WordText, PrintTok, Spaced;
    StartsWithUser(w);
    LexPrinted(ts);
    PrintedEdges(ts);
    TrimEnds(src);
    NotReports(src);
    NoAtomNoParse(RuleLang(), ts);
  }

  /** A comparison with a property word in front compiles exactly when the grammar has it. */
  lemma CompilesExactly(w: string, d: Clause, src: string)
    requires WordText(w) && d.prop == Tok(Word, "user." + w) && Printable(d.op) && (d.operand.Single? ==> Printable(d.operand.value))
    requires d.operand.List? ==> d.operand.open == Tok(Punct, "[") && ValidItems(d.operand.items)
    requires src == Spaced(YieldClause(d), PrintTok)
    ensures Compiles(src) <==> ValidClause(d)
  {
    hide ParseRule, Lex, PropOf, OperatorOf, WordText, Spaced, PrintTok, MeanOr, RuleLang, SingleOk;
    if ValidClause(d) {
      ClauseCompiles(d, src);
    } else {
      StartsWithUser(w);
      if d.operand.List? {
        ItemsPrintable(d.operand.items);
      }
      NoClause(d);
      NoClauseNoRule(w, YieldClause(d), src);
    }
  }

  lemma NoClause(d: Clause)
    requires !ValidClause(d) && (d.operand.List? ==> d.operand.open == Tok(Punct, "[") && ValidItems(d.operand.items))
    ensures ParseClause(YieldClause(d)).None?
  {
    hide PropOf, OperatorOf;
  }

  lemma OperatorWord(o: string)
    requires WordText(o)
    ensures Printable(Tok(Word, "-" + o)) && OperatorOf(Tok(Word, "-" + o)) == OpOf(Lower(o))
  {
    hide OpOf;
    var t := "-" + o;
    assert t[1..] == o;
    forall i | 0 <= i < |t|
      ensures WordChar(t[i])
    {
      if i > 0 {
        assert t[i] == o[i - 1];
      }
    }
  }

  lemma OpIs(n: string, op: Op)
    ensures OpOf(n) == Some(op) <==> n == OpName(op)
  {
    hide OpOf, OpName;
    OperatorOfName(op);
    OpNameChars(op);
    LowerOfLower(OpName(op));
    assert ("-" + OpName(op))[1..] == OpName(op);
  }

  /** The operators take a quoted value, but for -in and -notin, which take a list; only -eq and -ne
      take null. No other operator is known. */
  lemma OperatorsKnown(o: string, v: string, vs: seq<string>)
    requires WordText(o) && PlainValue(v) && vs != [] && forall x | x in vs :: PlainValue(x)
    ensures var n := Lower(o);
            && (Compiles(Asks("department", o, v)) <==>
                 n == "eq" || n == "ne" || n == "startswith" || n == "notstartswith" || n == "contains" || n == "notcontains")
            && (Compiles(AsksWord("department", o, "null")) <==> n == "eq" || n == "ne")
            && (Compiles(AsksList("department", o, vs)) <==> n == "in" || n == "notin")
  {
    hide Compiles, Lower, PropOf, OpOf, OperatorOf, WordText, PlainValue, AsksWord, AsksList, Printable, Escape;
    var n := Lower(o);
    OperatorWord(o);
    OpIs(n, Eq);
    OpIs(n, Ne);
    OpIs(n, StartsWith);
    OpIs(n, NotStartsWith);
    OpIs(n, Includes);
    OpIs(n, NotIncludes);
    OpIs(n, In);
    OpIs(n, NotIn);
    EscapePlain(v);
    QuotedCompiles(o, v);
    NullCompiles(o);
    ListCompiles(o, vs);
  }

  lemma DepartmentWord()
    ensures WordText("department") && PropOf(Tok(Word, "user." + "department")) == Some(Prop.Text(Department))
  {
    AttrPropOf(Department);
  }

  lemma QuotedCompiles(o: string, v: string)
    requires WordText(o)
    ensures Compiles(Asks("department", o, Escape(v))) <==> var op := OpOf(Lower(o)); op.Some? && !op.value.In? && !op.value.NotIn?
  {
    hide Compiles, Lower, PropOf, OpOf, OperatorOf, WordText, AsksWord, Escape;
    OperatorWord(o);
    DepartmentWord();
    OperandText("department", o, Tok(Quoted, v));
    CompilesExactly("department", OneOperand("department", o, Tok(Quoted, v)), Asks("department", o, Escape(v)));
  }

  lemma NullCompiles(o: string)
    requires WordText(o)
    ensures Compiles(AsksWord("department", o, "null")) <==> var op := OpOf(Lower(o)); op.Some? && (op.value.Eq? || op.value.Ne?)
  {
    hide Compiles, PropOf, OpOf, OperatorOf, WordText, AsksWord;
    var x := Tok(Word, "null");
    OperatorWord(o);
    DepartmentWord();
    KeywordPrintable(x, "null");
    OperandText("department", o, x);
    CompilesExactly("department", OneOperand("department", o, x), AsksWord("department", o, "null"));
  }

  lemma ListCompiles(o: string, vs: seq<string>)
    requires WordText(o) && vs != [] && forall x | x in vs :: PlainValue(x)
    ensures Compiles(AsksList("department", o, vs)) <==> var op := OpOf(Lower(o)); op.Some? && (op.value.In? || op.value.NotIn?)
  {
    hide Compiles, Lower, PropOf, OpOf, OperatorOf, WordText, AsksList, PlainValue, ItemsFor;
    OperatorWord(o);
    DepartmentWord();
    ItemsValued(vs);
    ListPrinted(o, vs);
    CompilesExactly("department", ListOperand(o, vs), AsksList("department", o, vs));
  }

  /** The attributes that compare with text, and no other property. */
  lemma AttributesKnown(w: string, v: string)
    requires WordText(w) && PlainValue(v)
    ensures var n := Lower(w);
            Compiles(Asks(w, "eq", v)) <==>
              || n == "department" || n == "companyname" || n == "employeeid" || n == "jobtitle" || n == "officelocation"
              || n == "displayname" || n == "mail" || n == "userprincipalname"
              || n == "extensionattribute1" || n == "extensionattribute2" || n == "extensionattribute3"
  {
    hide Compiles, Lower, AttrName, WordText, OperatorOf, AsksWord, Escape, PlainValue;
    EscapePlain(v);
    var x := Tok(Quoted, v);
    OperatorOfName(Eq);
    OperatorPrintable(Tok(Word, "-" + "eq"));
    OperandText(w, "eq", x);
    PropWord(w);
    CompilesExactly(w, OneOperand(w, "eq", x), Asks(w, "eq", Escape(v)));
  }

  lemma PropWord(w: string)
    ensures var p := PropOf(Tok(Word, "user." + w)); (p.Some? && p.value.Text?) <==> AttrOf(Lower(w)).Some?
  {
    hide AttrName, AttrOf;
    var n := Lower("user." + w);
    assert n[5..] == Lower(w) && n[..5] == USER_DOT;
    if AttrOf("accountenabled").Some? {
      NotTheFlag(AttrOf("accountenabled").value);
    }
  }

  /** accountEnabled compares by -eq and -ne alone, and never with quoted text. */
  lemma FlagCompiles(o: string, v: string, state: bool)
    requires WordText(o) && PlainValue(v)
    ensures !Compiles(Asks("accountenabled", o, v))
    ensures var n := Lower(o);
            Compiles(AsksWord("accountenabled", o, if state then "true" else "false")) <==> n == "eq" || n == "ne"
  {
    hide Compiles, PropOf, OpOf, OperatorOf, WordText, AsksWord, Escape, PlainValue;
    var x, y, n := Tok(Quoted, v), Tok(Word, if state then "true" else "false"), Lower(o);
    EscapePlain(v);
    OperatorWord(o);
    OpIs(n, Eq);
    OpIs(n, Ne);
    FlagPropOf();
    FlagWord();
    KeywordPrintable(y, y.text);
    OperandText("accountenabled", o, x);
    OperandText("accountenabled", o, y);
    CompilesExactly("accountenabled", OneOperand("accountenabled", o, x), Asks("accountenabled", o, Escape(v)));
    CompilesExactly("accountenabled", OneOperand("accountenabled", o, y), AsksWord("accountenabled", o, y.text));
  }

  lemma FlagWord()
    ensures WordText("accountenabled")
  {
  }

  /** Within quotes a backslash makes the next character part of the value. */
  lemma EscapesRead(a: string, b: string, ch: char, c: Config, t: Tenant, u: User)
    requires PlainValue(a) && PlainValue(b) && (ch == '"' || ch == '\\')
    ensures Selects(Asks("department", "eq", a + "\\" + [ch] + b), c, t, u) <==> FoldsTo(u.org.department, a + [ch] + b)
  {
    hide Selects, Compiles, Lower, Asks;
    EscapeOne(a, ch, b);
    EscapedSelects("department", Department, "eq", Eq, a + [ch] + b, c, t, u);
  }

  lemma EscapeStep(s: string)
    requires s != ""
    ensures Escape(s) == (if s[0] == '"' || s[0] == '\\' then ['\\', s[0]] else [s[0]]) + Escape(s[1..])
  {
  }

  lemma {:induction false} EscapeAdds(a: string, b: string)
    ensures Escape(a + b) == Escape(a) + Escape(b)
  {
    hide Escape;
    if a == "" {
      EscapePlain("");
      assert a + b == b && "" + Escape(b) == Escape(b);
    } else {
      var s := a + b;
      EscapeAdds(a[1..], b);
      EscapeStep(a);
      EscapeStep(s);
      assert s[0] == a[0] && s[1..] == a[1..] + b;
      var h := if a[0] == '"' || a[0] == '\\' then ['\\', a[0]] else [a[0]];
      assert h + (Escape(a[1..]) + Escape(b)) == (h + Escape(a[1..])) + Escape(b);
    }
  }

  lemma EscapeOne(a: string, ch: char, b: string)
    requires PlainValue(a) && PlainValue(b) && (ch == '"' || ch == '\\')
    ensures Escape(a + [ch] + b) == a + "\\" + [ch] + b
  {
    hide PlainValue;
    EscapeAdds(a + [ch], b);
    EscapeAdds(a, [ch]);
    EscapePlain(a);
    EscapePlain(b);
    assert [ch][1..] == "" && Escape("") == "" && Escape([ch]) == ['\\', ch] + [] == ['\\', ch];
    assert a + ['\\', ch] == a + "\\" + [ch];
  }

  // ----- direct reports -----

  /** A direct-reports rule: whoever has a manager of their tenant with that object id. */
  lemma ReportsMatch(oid: string, c: Config, t: Tenant, u: User)
    requires DistinctNames(c.users) && Lower(u.tid) == u.tid
    ensures RuleMatches(Reports(oid), c, t, u) <==>
              u.manager != "" && exists m | m in c.users :: m.tid == u.tid && m.username == u.manager && m.oid == oid
  {
    hide Lower;
    var f := FindUser(c.users, u.tid, u.manager);
    if m :| m in c.users && m.tid == u.tid && m.username == u.manager {
      var i :| 0 <= i < |c.users| && c.users[i] == m;
      var j :| 0 <= j < |c.users| && c.users[j] == f.value;
      assert i == j;
    }
  }

  lemma DirectReportsSelect(oid: string, c: Config, t: Tenant, u: User)
    requires IsGuid(oid) && DistinctNames(c.users) && Lower(u.tid) == u.tid
    ensures Selects("Direct Reports for \"" + oid + "\"", c, t, u) <==>
              u.manager != "" && exists m | m in c.users :: m.tid == u.tid && m.username == u.manager && m.oid == oid
  {
    hide ParseRule, IsGuid, Lower, RuleMatches;
    ReportsRoundTrip(oid);
    ReportsMatch(oid, c, t, u);
  }

  predicate DistinctNames(us: seq<User>) {
    forall i, j | 0 <= i < j < |us| :: !(us[i].tid == us[j].tid && us[i].username == us[j].username)
  }
}
