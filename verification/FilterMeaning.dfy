/** What the words of a $filter say: or, and, not between any two filters, and every test, as text. */
module FilterMeaning {
  import opened Text
  import opened Grammar
  import opened Lexing
  import opened JsonValue
  import opened Directory
  import opened FilterSyntax
  import opened Rendering
  import P = FilterPrint

  // ----- lexing texts put together -----

  predicate Breaks(s: string) {
    s == "" || IsSpace(s[0]) || IsPunct(s[0])
  }

  lemma {:induction false} ScanBefore(s: string, after: string)
    requires Scan(s).Some? && (after == "" || after[0] != '\'')
    ensures Scan(s + after) == Some((Scan(s).value.0, Scan(s).value.1 + after))
  {
    var t := s + after;
    assert t[0] == s[0] && t[1..] == s[1..] + after;
    if s[0] != '\'' {
      ScanBefore(s[1..], after);
    } else if |s| > 1 && s[1] == '\'' {
      assert t[1] == s[1] && t[2..] == s[2..] + after;
      ScanBefore(s[2..], after);
    } else {
      assert |t| > 1 ==> t[1] == if |s| > 1 then s[1] else after[0];
    }
  }

  lemma {:induction false} WordBefore(s: string, after: string)
    requires Breaks(after)
    ensures WordLength(s + after, WordChar) == WordLength(s, WordChar)
  {
    if s == "" {
      assert s + after == after;
    } else {
      assert (s + after)[0] == s[0] && (s + after)[1..] == s[1..] + after;
      WordBefore(s[1..], after);
    }
  }

  function Joined(a: Option<seq<Tok>>, b: Option<seq<Tok>>): Option<seq<Tok>> {
    if a.None? || b.None? then None else Some(a.value + b.value)
  }

  lemma ConsJoined(t: Tok, a: Option<seq<Tok>>, b: Option<seq<Tok>>)
    ensures Joined(ConsTok(t, a), b) == ConsTok(t, Joined(a, b))
  {
    if a.Some? && b.Some? {
      assert [t] + (a.value + b.value) == ([t] + a.value) + b.value;
    }
  }

  lemma LexStep(s: string)
    requires s != ""
    ensures Lex(s) ==
              if IsSpace(s[0]) then Lex(s[1..])
              else if IsPunct(s[0]) then ConsTok(Tok(false, [s[0]]), Lex(s[1..]))
              else if s[0] == '\'' then
                if Scan(s[1..]).None? then None else ConsTok(Tok(true, Scan(s[1..]).value.0), Lex(Scan(s[1..]).value.1))
              else ConsTok(Tok(false, s[..WordLength(s, WordChar)]), Lex(s[WordLength(s, WordChar)..]))
  {
  }

  lemma LexNothing()
    ensures Lex("") == Some([])
  {
  }

  /** A text that lexes, followed by a blank or punctuation, lexes to its tokens and the rest's. */
  lemma {:induction false} LexJoined(a: string, b: string)
    requires Lex(a).Some? && Breaks(b)
    ensures Lex(a + b) == Joined(Lex(a), Lex(b))
    decreases |a|
  {
    hide Lex, Scan, WordLength, WordChar;
    if a == "" {
      assert a + b == b;
      LexNothing();
      if Lex(b).Some? {
        assert [] + Lex(b).value == Lex(b).value;
      }
    } else {
      var s := a + b;
      LexStep(a);
      LexStep(s);
      assert s[0] == a[0] && s[1..] == a[1..] + b;
      if IsSpace(a[0]) {
        LexJoined(a[1..], b);
      } else if IsPunct(a[0]) {
        LexJoined(a[1..], b);
        ConsJoined(Tok(false, [a[0]]), Lex(a[1..]), Lex(b));
      } else if a[0] == '\'' {
        var (text, rest) := Scan(a[1..]).value;
        ScanBefore(a[1..], b);
        LexJoined(rest, b);
        ConsJoined(Tok(true, text), Lex(rest), Lex(b));
      } else {
        WordJoined(a, b);
      }
    }
  }

  lemma WordJoined(a: string, b: string)
    requires a != "" && Lex(a).Some? && Breaks(b) && !IsSpace(a[0]) && !IsPunct(a[0]) && a[0] != '\''
    ensures Lex(a + b) == Joined(Lex(a), Lex(b))
    decreases |a|, 0
  {
    hide Lex, Scan;
    var n := WordLength(a, WordChar);
    LexStep(a);
    LexStep(a + b);
    WordBefore(a, b);
    assert (a + b)[..n] == a[..n] && (a + b)[n..] == a[n..] + b;
    assert n > 0;
    LexJoined(a[n..], b);
    ConsJoined(Tok(false, a[..n]), Lex(a[n..]), Lex(b));
  }

  // ----- texts and derivations -----

  /** The filter written src keeps the entity. */
  predicate Keeps(schema: Value, src: string, e: Value) {
    ParseFilter(schema, src).Some? && FilterHolds(ParseFilter(schema, src).value, e)
  }

  function Leaves(e: Value): Test -> bool {
    (t: Test) => TestHolds(t, e)
  }

  lemma DerivationOf(schema: Value, src: string) returns (d: OrTree<Tok, Term>)
    requires ParseFilter(schema, src).Some?
    ensures ValidOr(FilterLang(schema), d) && Lex(src) == Some(YieldOr(FilterLang(schema), d))
    ensures ParseFilter(schema, src) == Some(MeanOr(FilterLang(schema), d))
  {
    hide Lex, FilterLang, MeanOr, Parse;
    d := Parse(FilterLang(schema), Lex(src).value).value;
    FilterLangLawful(schema);
    ParseIsExact(FilterLang(schema), Lex(src).value, d);
  }

  lemma CompiledFrom(schema: Value, src: string, d: OrTree<Tok, Term>, e: Value)
    requires ValidOr(FilterLang(schema), d) && Lex(src) == Some(YieldOr(FilterLang(schema), d))
    ensures ParseFilter(schema, src) == Some(MeanOr(FilterLang(schema), d))
    ensures Keeps(schema, src, e) <==> Eval(MeanOr(FilterLang(schema), d), Leaves(e))
  {
    hide Lex, FilterLang, MeanOr, Parse;
    FilterLangLawful(schema);
    ParseIsExact(FilterLang(schema), Lex(src).value, d);
  }

  // ----- the connectives -----

  lemma LexPunct(p: char, rest: string)
    requires IsPunct(p)
    ensures Lex([p] + rest) == ConsTok(Tok(false, [p]), Lex(rest))
  {
    hide Lex;
    LexStep([p] + rest);
    assert ([p] + rest)[1..] == rest;
  }

  /** A word, then a text it does not run into. */
  lemma LexWordThen(w: string, rest: string)
    requires w != "" && AllWord(w) && Breaks(rest)
    ensures Lex(w + rest) == ConsTok(Tok(false, w), Lex(rest))
  {
    hide Lex;
    LexWord(w, "");
    LexNothing();
    assert w + "" == w && [Tok(false, w)] + [] == [Tok(false, w)];
    LexJoined(w, rest);
  }

  lemma LexGroup(a: string, rest: string)
    requires Lex(a).Some? && Lex(rest).Some? && Breaks(rest)
    ensures Lex("(" + a + ")" + rest) == Some([Tok(false, "(")] + Lex(a).value + [Tok(false, ")")] + Lex(rest).value)
  {
    hide Lex;
    LexPunct(')', rest);
    LexJoined(a, [')'] + rest);
    LexPunct('(', a + ([')'] + rest));
    assert "(" + a + ")" + rest == ['('] + (a + ([')'] + rest));
    GroupTokens([Tok(false, "(")], Lex(a).value, [Tok(false, ")")], Lex(rest).value);
  }

  lemma GroupTokens(o: seq<Tok>, x: seq<Tok>, p: seq<Tok>, y: seq<Tok>)
    ensures o + (x + (p + y)) == o + x + p + y
  {
  }

  lemma Connectives(schema: Value)
    ensures var L := FilterLang(schema);
            && L.isOr(Tok(false, "or")) && L.isAnd(Tok(false, "and")) && L.isNot(Tok(false, "not"))
            && L.isOpen(Tok(false, "(")) && L.isClose(Tok(false, ")"))
    ensures AllWord("or") && AllWord("and") && AllWord("not")
  {
  }

  /** or between any two filters: what either keeps. */
  lemma OrKeepsEither(schema: Value, a: string, b: string, e: Value)
    requires ParseFilter(schema, a).Some? && ParseFilter(schema, b).Some?
    ensures ParseFilter(schema, a + " or " + b).Some?
    ensures Keeps(schema, a + " or " + b, e) <==> Keeps(schema, a, e) || Keeps(schema, b, e)
  {
    hide Lex, ParseFilter, FilterLang, MeanOr, YieldOr, ValidOr, Keeps, Leaves;
    var d := DerivationOf(schema, a);
    var f := DerivationOf(schema, b);
    Connectives(schema);
    LexBlank(b);
    LexWordThen("or", " " + b);
    LexBlank("or" + (" " + b));
    LexJoined(a, " " + ("or" + (" " + b)));
    assert a + (" " + ("or" + (" " + b))) == a + " or " + b;
    var both := Either(d, Tok(false, "or"), f);
    EitherMeans(FilterLang(schema), d, Tok(false, "or"), f, Leaves(e));
    assert Lex(a).value + ([Tok(false, "or")] + Lex(b).value) == Lex(a).value + [Tok(false, "or")] + Lex(b).value;
    CompiledFrom(schema, a + " or " + b, both, e);
    CompiledFrom(schema, a, d, e);
    CompiledFrom(schema, b, f, e);
  }

  /** and between any two grouped filters: what both keep. */
  lemma AndKeepsBoth(schema: Value, a: string, b: string, e: Value)
    requires ParseFilter(schema, a).Some? && ParseFilter(schema, b).Some?
    ensures ParseFilter(schema, "(" + a + ") and (" + b + ")").Some?
    ensures Keeps(schema, "(" + a + ") and (" + b + ")", e) <==> Keeps(schema, a, e) && Keeps(schema, b, e)
  {
    hide Lex, ParseFilter, FilterLang, MeanOr, YieldOr, ValidOr, Keeps, Leaves;
    var d := DerivationOf(schema, a);
    var f := DerivationOf(schema, b);
    var open, close, kw := Tok(false, "("), Tok(false, ")"), Tok(false, "and");
    Connectives(schema);
    LexNothing();
    LexGroup(b, "");
    var second := "(" + b + ")" + "";
    LexBlank(second);
    LexWordThen("and", " " + second);
    LexBlank("and" + (" " + second));
    LexGroup(a, " " + ("and" + (" " + second)));
    var r := "(" + a + ") and (" + b + ")";
    assert "(" + a + ")" + (" " + ("and" + (" " + second))) == r;
    BothMeans(FilterLang(schema), open, d, close, kw, f, Leaves(e));
    SameTokens(open, Lex(a).value, close, kw, Lex(b).value);
    CompiledFrom(schema, r, Both(open, d, close, kw, f), e);
    CompiledFrom(schema, a, d, e);
    CompiledFrom(schema, b, f, e);
  }

  lemma SameTokens(o: Tok, x: seq<Tok>, p: Tok, k: Tok, y: seq<Tok>)
    ensures [o] + x + [p] + ([k] + ([o] + y + [p] + [])) == [o] + x + [p] + [k] + ([o] + y + [p])
  {
  }

  /** not before any grouped filter: what it does not keep. */
  lemma NotKeepsTheRest(schema: Value, a: string, e: Value)
    requires ParseFilter(schema, a).Some?
    ensures ParseFilter(schema, "not (" + a + ")").Some?
    ensures Keeps(schema, "not (" + a + ")", e) <==> !Keeps(schema, a, e)
  {
    hide Lex, ParseFilter, FilterLang, MeanOr, YieldOr, ValidOr, Keeps, Leaves;
    var d := DerivationOf(schema, a);
    var open, close, kw := Tok(false, "("), Tok(false, ")"), Tok(false, "not");
    Connectives(schema);
    LexNothing();
    LexGroup(a, "");
    var group := "(" + a + ")" + "";
    LexBlank(group);
    LexWordThen("not", " " + group);
    var r := "not (" + a + ")";
    assert "not" + (" " + group) == r;
    ComplementMeans(FilterLang(schema), kw, open, d, close, Leaves(e));
    assert [open] + Lex(a).value + [close] + [] == [open] + Lex(a).value + [close];
    CompiledFrom(schema, r, Complement(kw, open, d, close), e);
    CompiledFrom(schema, a, d, e);
  }

  // ----- tests, as text -----

  /** Text that needs no doubled quote. */
  predicate PlainValue(v: string) {
    '\'' !in v
  }

  lemma {:induction false} QuotedPlain(v: string)
    requires PlainValue(v)
    ensures Quoted(v) == v
  {
    if v != "" {
      QuotedPlain(v[1..]);
      assert v == [v[0]] + v[1..];
    }
  }

  function InQuotes(v: string): string {
    "'" + v + "'"
  }

  lemma LexQuotes(v: string, rest: string)
    requires rest == "" || rest[0] != '\''
    ensures Lex(InQuotes(Quoted(v)) + rest) == ConsTok(Tok(true, v), Lex(rest))
  {
    hide Lex, Scan, Quoted;
    ScanQuoted(v, rest);
    var s := InQuotes(Quoted(v)) + rest;
    assert s[0] == '\'' && s[1..] == Quoted(v) + "'" + rest;
    LexStep(s);
  }

  lemma TermKeeps(schema: Value, t: Test, src: string, e: Value)
    requires P.SchemaOk(schema) && P.TestOk(schema, t) && Lex(src) == Some(YieldTerm(P.TermFor(t)))
    ensures ParseFilter(schema, src) == Some(Leaf(t)) && (Keeps(schema, src, e) <==> TestHolds(t, e))
  {
    hide Lex, MeanOr, YieldOr, ValidOr, Keeps, ValidTerm, TestHolds, MeanTerm, YieldTerm, P.TermFor, P.SchemaOk, P.TestOk, ParseFilter;
    P.TermForReads(schema, t);
    var d: OrTree<Tok, Term> := Only(Atom(P.TermFor(t)));
    AloneMeans(FilterLang(schema), P.TermFor(t), Leaves(e));
    CompiledFrom(schema, src, d, e);
    AloneIs(FilterLang(schema), P.TermFor(t));
  }

  lemma AloneIs<T, C, A>(L: Lang<T, C, A>, c: C)
    ensures MeanOr(L, Only(Atom(c))) == Leaf(L.meanAtom(c))
  {
    var none: AndTail<T, C>, nothing: OrTail<T, C> := AndEnd, OrEnd;
    assert MeanAndTail(L, none) == [] && MeanOrTail(L, nothing) == [];
    assert MeanAnd(L, AndTree(Atom(c), none)) == Leaf(L.meanAtom(c));
  }

  /** The path names a property of the schema: a leaf, or a collection. */
  predicate Named(schema: Value, path: string, p: seq<string>) {
    p != [] && path == Join(p, '/') && Resolve(schema, path) == Some(p)
  }

  /** path op operand */
  function Compared(path: string, op: string, operand: string): string {
    path + (" " + (op + (" " + operand)))
  }

  lemma LexCompared(path: string, op: string, operand: string)
    requires path != "" && AllWord(path) && op != "" && AllWord(op)
    ensures Lex(Compared(path, op, operand)) == ConsTok(Tok(false, path), ConsTok(Tok(false, op), Lex(operand)))
  {
    hide Lex, AllWord;
    LexBlank(operand);
    LexWordThen(op, " " + operand);
    LexBlank(op + (" " + operand));
    LexWordThen(path, " " + (op + (" " + operand)));
  }

  lemma OpWords()
    ensures AllWord("eq") && AllWord("ne") && AllWord("in") && AllWord("null") && AllWord("true") && AllWord("false")
    ensures AllWord("startsWith") && AllWord("x")
  {
  }

  lemma LexOperand(l: Literal, rest: string)
    requires Breaks(rest)
    ensures Lex(Operand(l) + rest) == ConsTok(P.LitTok(l), Lex(rest))
  {
    hide Lex;
    OpWords();
    match l {
      case NullLit => LexWordThen("null", rest);
      case BoolLit(b) => LexWordThen(if b then "true" else "false", rest);
      case StrLit(s) => LexQuotes(s, rest);
    }
  }

  /** A literal as it is written; a quote within a string is doubled. */
  function Operand(l: Literal): string {
    match l
    case NullLit => "null"
    case BoolLit(b) => if b then "true" else "false"
    case StrLit(s) => InQuotes(Quoted(s))
  }

  /** The value is what the literal says: null, the same truth value, or a string that folds to it. */
  predicate Says(x: Value, l: Literal) {
    match l
    case NullLit => x == Null
    case BoolLit(b) => x == Bool(b)
    case StrLit(s) => x.Str? && Lower(x.s) == Lower(s)
  }

  lemma OneToken(t: Tok)
    ensures ConsTok(t, Some([])) == Some([t])
  {
    assert [t] + [] == [t];
  }

  lemma InARow(a: Tok, b: Tok, rest: seq<Tok>)
    ensures ConsTok(a, ConsTok(b, Some(rest))) == Some([a, b] + rest)
  {
    assert [a] + ([b] + rest) == [a, b] + rest;
  }

  lemma TestKeeps(schema: Value, path: string, p: seq<string>, op: CmpOp, w: string, l: Literal, e: Value)
    requires P.SchemaOk(schema) && Named(schema, path, p) && ((op.Eq? && w == "eq") || (op.Ne? && w == "ne"))
    ensures Keeps(schema, Compared(path, w, Operand(l)), e) <==> TestHolds(Cmp(p, op, [l]), e)
  {
    hide Lex, P.SchemaOk, Keeps, Lookup, Resolve, Compared, Operand, AllWord, TestHolds;
    P.JoinPathOf(schema, p);
    OpWords();
    LexNothing();
    LexOperand(l, "");
    assert Operand(l) + "" == Operand(l);
    LexCompared(path, w, Operand(l));
    OneToken(P.LitTok(l));
    InARow(Tok(false, path), Tok(false, w), [P.LitTok(l)]);
    assert [Tok(false, path), Tok(false, w)] + [P.LitTok(l)] == [Tok(false, path), Tok(false, w), P.LitTok(l)];
    TermKeeps(schema, Cmp(p, op, [l]), Compared(path, w, Operand(l)), e);
  }

  /** path eq literal, and path ne literal. */
  lemma EqualityKeeps(schema: Value, path: string, p: seq<string>, l: Literal, e: Value)
    requires P.SchemaOk(schema) && Named(schema, path, p)
    ensures Keeps(schema, Compared(path, "eq", Operand(l)), e) <==> Says(Lookup(e, p), l)
    ensures Keeps(schema, Compared(path, "ne", Operand(l)), e) <==> !Says(Lookup(e, p), l)
  {
    hide P.SchemaOk, Keeps, Lookup, Named, Compared, Operand;
    TestKeeps(schema, path, p, Eq, "eq", l, e);
    TestKeeps(schema, path, p, Ne, "ne", l, e);
    OneLit(Lookup(e, p), l);
  }

  /** A comparison compiles exactly when its path names a leaf or collection of the schema and its
      operator is eq or ne, in any case. */
  lemma ComparisonsKnown(schema: Value, path: string, o: string, l: Literal)
    requires P.SchemaOk(schema) && path != "" && AllWord(path) && !EqualFold(path, "not") && o != "" && AllWord(o)
    ensures ParseFilter(schema, Compared(path, o, Operand(l))).Some? <==>
              Resolve(schema, path).Some? && (EqualFold(o, "eq") || EqualFold(o, "ne"))
  {
    hide Lex, P.SchemaOk, Resolve, Compared, Operand, AllWord, ParseTerm, MeanOr, LiteralOf, ComparisonHead, EqualFold, ParseFilter;
    var h, k, x := Tok(false, path), Tok(false, o), P.LitTok(l);
    LexNothing();
    LexOperand(l, "");
    assert Operand(l) + "" == Operand(l);
    LexCompared(path, o, Operand(l));
    OneToken(x);
    InARow(h, k, [x]);
    assert [h, k] + [x] == [h, k, x];
    P.LitTokReads(l);
    if Resolve(schema, path).Some? && (EqualFold(o, "eq") || EqualFold(o, "ne")) {
      ResolvedHead(schema, path);
      var d: OrTree<Tok, Term> := Only(Atom(CompareTerm(h, k, x)));
      AloneMeans(FilterLang(schema), CompareTerm(h, k, x), (t: Test) => true);
      CompiledFrom(schema, Compared(path, o, Operand(l)), d, Null);
    } else {
      NoComparison(schema, path, o, x);
      NoFilter(schema, [h, k, x], Compared(path, o, Operand(l)));
    }
  }

  lemma ResolvedHead(schema: Value, path: string)
    requires P.SchemaOk(schema) && Resolve(schema, path).Some?
    ensures ComparisonHead(schema, Tok(false, path))
  {
    hide P.SchemaOk, Resolve, ComparisonHead;
    ResolvedIsSplit(schema, path);
    JoinSplit(path, '/');
    P.JoinPathOf(schema, Split(path, '/'));
  }

  lemma NoComparison(schema: Value, path: string, o: string, x: Tok)
    requires Resolve(schema, path).None? || !(EqualFold(o, "eq") || EqualFold(o, "ne"))
    requires LiteralOf(x).Some?
    ensures ParseTerm(schema, [Tok(false, path), Tok(false, o), x]).None?
  {
    hide Resolve, EndsInAny, TermHead;
    FoldDiffers("(", "null");
    FoldDiffers("(", "true");
    FoldDiffers("(", "false");
  }

  lemma NotAParenthesis(w: string)
    requires w != "" && AllWord(w)
    ensures !EqualFold(w, "(")
  {
    assert WordChar(w[0]) && Lower(w)[0] == LowerChar(w[0]) && Lower("(")[0] == '(';
  }

  /** What no test starts, but for a negation or a group, is no filter. */
  lemma NoFilter(schema: Value, ts: seq<Tok>, src: string)
    requires Lex(src) == Some(ts) && ParseTerm(schema, ts).None? && ts != []
    requires !ts[0].str && AllWord(ts[0].text) && ts[0].text != "" && !EqualFold(ts[0].text, "not")
    ensures ParseFilter(schema, src).None?
  {
    hide Lex, ParseTerm;
    NotAParenthesis(ts[0].text);
    NoAtomNoParse(FilterLang(schema), ts);
  }

  /** startsWith(path,'value') */
  lemma PrefixKeeps(schema: Value, path: string, p: seq<string>, v: string, e: Value)
    requires P.SchemaOk(schema) && Named(schema, path, p)
    ensures Keeps(schema, "startsWith(" + path + "," + InQuotes(Quoted(v)) + ")", e) <==>
              Lookup(e, p).Str? && HasPrefix(Lower(Lookup(e, p).s), Lower(v))
  {
    hide Lex, P.SchemaOk, Keeps, Lookup, Resolve, InQuotes, AllWord, HasPrefix, Lower, Quoted;
    P.JoinPathOf(schema, p);
    OpWords();
    LexNothing();
    LexPunct(')', "");
    OneToken(Tok(false, ")"));
    assert [')'] + "" == ")" == [')'] && [','] == "," && ['('] == "(";
    LexQuotes(v, ")");
    var last := InQuotes(Quoted(v)) + ")";
    LexPunct(',', last);
    LexWordThen(path, [','] + last);
    LexPunct('(', path + ([','] + last));
    LexWordThen("startsWith", ['('] + (path + ([','] + last)));
    var src := "startsWith(" + path + "," + InQuotes(Quoted(v)) + ")";
    assert "startsWith" + (['('] + (path + ([','] + last))) == src;
    var lit, close := Tok(true, v), Tok(false, ")");
    assert [Tok(false, "startsWith")] + ([Tok(false, "(")] + ([Tok(false, path)] + ([Tok(false, ",")] + ([lit] + [close]))))
        == [Tok(false, "startsWith"), Tok(false, "("), Tok(false, path), Tok(false, ","), lit, close];
    TermKeeps(schema, Cmp(p, StartsWith, [StrLit(v)]), src, e);
  }

  /** path/any(x:x eq literal) */
  lemma AnyKeeps(schema: Value, path: string, p: seq<string>, l: Literal, e: Value)
    requires P.SchemaOk(schema) && Named(schema, path, p) && Lookup(schema, p).Arr?
    ensures Keeps(schema, path + "/any(x:x eq " + Operand(l) + ")", e) <==>
              Lookup(e, p).Arr? && exists x | x in Lookup(e, p).items :: Says(x, l)
  {
    hide Lex, P.SchemaOk, Keeps, Lookup, Resolve, Operand, AllWord;
    P.AnyHead(schema, p);
    OpWords();
    LexNothing();
    LexPunct(')', "");
    OneToken(Tok(false, ")"));
    assert [')'] + "" == ")" && [':'] == ":" && ['('] == "(";
    LexOperand(l, ")");
    var last := Operand(l) + ")";
    LexBlank(last);
    LexWordThen("eq", " " + last);
    var eq := "eq" + (" " + last);
    LexBlank(eq);
    LexWordThen("x", " " + eq);
    LexPunct(':', "x" + (" " + eq));
    LexWordThen("x", [':'] + ("x" + (" " + eq)));
    LexPunct('(', "x" + ([':'] + ("x" + (" " + eq))));
    var rest := ['('] + ("x" + ([':'] + ("x" + (" " + eq))));
    LexWordThen(path + "/any", rest);
    var src := path + "/any(x:x eq " + Operand(l) + ")";
    assert path + "/any" + rest == src;
    var head, x, lit, close := Tok(false, path + "/any"), Tok(false, "x"), P.LitTok(l), Tok(false, ")");
    assert [head] + ([Tok(false, "(")] + ([x] + ([Tok(false, ":")] + ([x] + ([Tok(false, "eq")] + ([lit] + [close]))))))
        == [head, Tok(false, "("), x, Tok(false, ":"), x, Tok(false, "eq"), lit, close];
    TermKeeps(schema, Any(p, l), src, e);
  }

  /** The items of a list up to its closing parenthesis. */
  function ItemsText(ls: seq<Literal>): string
    requires ls != []
  {
    if |ls| == 1 then Operand(ls[0]) + ")" else Operand(ls[0]) + ("," + ItemsText(ls[1..]))
  }

  lemma {:induction false} LexItems(ls: seq<Literal>)
    requires ls != []
    ensures Lex(ItemsText(ls)) == Some(YieldLits(P.LitsFor(ls)))
  {
    hide Lex, Operand;
    if |ls| == 1 {
      LexNothing();
      LexPunct(')', "");
      OneToken(Tok(false, ")"));
      assert [')'] + "" == ")";
      LexOperand(ls[0], ")");
      assert [P.LitTok(ls[0])] + [Tok(false, ")")] == [P.LitTok(ls[0]), Tok(false, ")")];
    } else {
      LexItems(ls[1..]);
      LexPunct(',', ItemsText(ls[1..]));
      assert [','] == ",";
      LexOperand(ls[0], "," + ItemsText(ls[1..]));
      InARow(P.LitTok(ls[0]), Tok(false, ","), YieldLits(P.LitsFor(ls[1..])));
    }
  }

  /** path in (literal,literal,...) */
  lemma ListKeeps(schema: Value, path: string, p: seq<string>, ls: seq<Literal>, e: Value)
    requires P.SchemaOk(schema) && Named(schema, path, p) && ls != []
    ensures Keeps(schema, Compared(path, "in", "(" + ItemsText(ls)), e) <==> exists l | l in ls :: Says(Lookup(e, p), l)
  {
    hide Lex, P.SchemaOk, Keeps, Lookup, Resolve, Compared, ItemsText, AllWord;
    P.JoinPathOf(schema, p);
    OpWords();
    LexItems(ls);
    LexPunct('(', ItemsText(ls));
    assert ['('] == "(";
    LexCompared(path, "in", "(" + ItemsText(ls));
    InARow(Tok(false, path), Tok(false, "in"), [Tok(false, "(")] + YieldLits(P.LitsFor(ls)));
    assert [Tok(false, path), Tok(false, "in")] + ([Tok(false, "(")] + YieldLits(P.LitsFor(ls)))
        == [Tok(false, path), Tok(false, "in"), Tok(false, "(")] + YieldLits(P.LitsFor(ls));
    TermKeeps(schema, Cmp(p, In, ls), Compared(path, "in", "(" + ItemsText(ls)), e);
    forall l
      ensures Says(Lookup(e, p), l) <==> LiteralEquals(Lookup(e, p), l)
    {
    }
  }

  // ----- over rendered accounts -----

  /** Each property of an account but the extension attributes can be named in a filter, and is read
      from the account's own. */
  lemma PropertyRead(name: string, k: nat, t: Tenant, u: User)
    requires k < 15 && k < |UserFields(NO_TENANT, NO_USER)| && name == UserFields(NO_TENANT, NO_USER)[k].name
    ensures P.SchemaOk(USER_SCHEMA) && Named(USER_SCHEMA, name, [name])
    ensures k < |UserFields(t, u)| && Lookup(RenderUser(t, u), [name]) == UserFields(t, u)[k].value
  {
    hide P.SchemaOk, Find, UserFields, Split;
    SchemasOk();
    NoAnnotation(t, u, k);
    NoAnnotation(NO_TENANT, NO_USER, k);
    FieldRendered(t, u, k, false);
    FieldRendered(NO_TENANT, NO_USER, k, true);
    assert [name][1..] == [] && Join([name], '/') == name;
    LeafField(k);
    NoSlash(k);
    SplitWord(name, "", '/');
    var leaf := UserFields(NO_TENANT, NO_USER)[k].value;
    assert Walk(leaf, []) == Some(leaf);
    assert Walk(USER_SCHEMA, [name]) == Some(leaf);
  }

  lemma LeafField(k: nat)
    requires k < 15 && k < |UserFields(NO_TENANT, NO_USER)|
    ensures !UserFields(NO_TENANT, NO_USER)[k].value.Obj?
  {
    hide UserFields;
    NamesAt(NO_TENANT, NO_USER);
    WorkAt(NO_TENANT, NO_USER);
  }

  lemma NoSlash(k: nat)
    requires k < |UserFields(NO_TENANT, NO_USER)|
    ensures '/' !in UserFields(NO_TENANT, NO_USER)[k].name
  {
    hide UserFields;
    SchemasOk();
    assert P.NameOk(USER_SCHEMA.fields[k].name);
  }

  /** department eq 'v' keeps the users whose set department folds to v. */
  lemma DepartmentKeeps(v: string, t: Tenant, u: User)
    ensures Keeps(USER_SCHEMA, Compared("department", "eq", Operand(StrLit(v))), RenderUser(t, u)) <==>
              u.org.department != "" && Lower(u.org.department) == Lower(v)
  {
    hide Keeps, RenderUser, Lookup, Compared, P.SchemaOk, Named, UserFields, Lower;
    WorkAt(NO_TENANT, NO_USER);
    WorkAt(t, u);
    PropertyRead("department", 12, t, u);
    EqualityKeeps(USER_SCHEMA, "department", ["department"], StrLit(v), RenderUser(t, u));
  }

  /** A doubled quote stands for one. */
  lemma {:induction false} QuoteDoubled(a: string, b: string)
    requires PlainValue(a) && PlainValue(b)
    ensures Operand(StrLit(a + "'" + b)) == "'" + a + "''" + b + "'"
  {
    QuotedOne(a, b);
  }

  lemma {:induction false} QuotedOne(a: string, b: string)
    requires PlainValue(a) && PlainValue(b)
    ensures Quoted(a + "'" + b) == a + "''" + b
  {
    var s := a + "'" + b;
    if a == "" {
      QuotedPlain(b);
      assert s[0] == '\'' && s[1..] == b;
    } else {
      QuotedOne(a[1..], b);
      assert s[0] == a[0] && s[1..] == a[1..] + "'" + b && a == [a[0]] + a[1..];
      assert [a[0]] + (a[1..] + "''" + b) == a + "''" + b;
    }
  }
}
