/** Writing filters down: any filter a parser can build survives print, lex, parse. */
module FilterPrint {
  import opened Text
  import opened Grammar
  import opened Lexing
  import opened JsonValue
  import opened FilterSyntax

  predicate NameChar(c: char) {
    'a' <= c <= 'z' || 'A' <= c <= 'Z' || '0' <= c <= '9'
  }

  /** Names that can stand in a path: alphanumeric, and not a word of the grammar. */
  predicate NameOk(n: string) {
    n != "" && (forall i | 0 <= i < |n| :: NameChar(n[i])) && !EqualFold(n, "not") && !EqualFold(n, "startsWith") && !EqualFold(n, "any")
  }

  predicate SchemaOk(v: Value) {
    v.Obj? ==> forall i | 0 <= i < |v.fields| :: NameOk(v.fields[i].name) && SchemaOk(v.fields[i].value)
  }

  lemma FoldedName(name: string, seg: string)
    requires NameOk(name) && EqualFold(name, seg)
    ensures NameOk(seg)
  {
    forall i | 0 <= i < |seg|
      ensures NameChar(seg[i])
    {
      assert Lower(seg)[i] == Lower(name)[i] && NameChar(name[i]);
    }
  }

  lemma {:induction false} FindOk(fields: seq<Field>, seg: string)
    requires SchemaOk(Obj(fields)) && Find(fields, seg, true).Some?
    ensures SchemaOk(Find(fields, seg, true).value) && NameOk(seg)
  {
    assert NameOk(fields[0].name) && SchemaOk(fields[0].value);
    if EqualFold(fields[0].name, seg) && !HasPrefix(fields[0].name, "@") {
      FoldedName(fields[0].name, seg);
    } else {
      var rest := Obj(fields).fields[1..];
      assert forall i | 0 <= i < |rest| :: rest[i] == Obj(fields).fields[i + 1];
      FindOk(rest, seg);
    }
  }

  lemma {:induction false} WalkOk(cur: Value, path: seq<string>)
    requires SchemaOk(cur) && Walk(cur, path).Some?
    ensures forall i | 0 <= i < |path| :: NameOk(path[i])
    decreases |path|
  {
    if path != [] {
      FindOk(cur.fields, path[0]);
      WalkOk(Find(cur.fields, path[0], true).value, path[1..]);
    }
  }

  // ----- joined paths -----

  predicate NamesOk(p: seq<string>) {
    p != [] && forall i | 0 <= i < |p| :: NameOk(p[i])
  }

  lemma {:induction false} JoinChars(p: seq<string>)
    requires NamesOk(p)
    ensures Join(p, '/') != "" && forall i | 0 <= i < |Join(p, '/')| :: NameChar(Join(p, '/')[i]) || Join(p, '/')[i] == '/'
    ensures |p| > 1 ==> '/' in Join(p, '/')
  {
    assert NameOk(p[0]);
    if |p| > 1 {
      JoinChars(p[1..]);
      assert Join(p, '/')[|p[0]|] == '/';
    }
  }

  /** What stands after the last slash is the last name. */
  lemma {:induction false} JoinEnd(p: seq<string>)
    requires NamesOk(p)
    ensures HasSuffix(Join(p, '/'), p[|p| - 1])
    ensures |p| > 1 ==> |Join(p, '/')| > |p[|p| - 1]| && Join(p, '/')[|Join(p, '/')| - |p[|p| - 1]| - 1] == '/'
  {
    if |p| > 1 {
      JoinEnd(p[1..]);
    }
  }

  lemma JoinIsNotKeyword(p: seq<string>, w: string)
    requires NamesOk(p) && w in {"not", "startsWith", "("}
    ensures !EqualFold(Join(p, '/'), w)
  {
    JoinChars(p);
    var j := Join(p, '/');
    assert NameOk(p[0]);
    if |p| > 1 {
      var k :| 0 <= k < |j| && j[k] == '/';
      if |j| == |w| {
        assert Lower(j)[k] == '/' && Lower(w)[k] != '/';
      }
    } else if w == "(" {
      FoldDiffers(j, w);
    }
  }

  lemma TailDiffers(e: string)
    requires |e| == 4 && !EqualFold(e[1..], "any")
    ensures !EqualFold(e, "/any")
  {
    assert Lower(e)[1..] == Lower(e[1..]) && Lower("/any")[1..] == Lower("any");
  }

  lemma SlashDiffers(e: string, k: nat)
    requires |e| == 4 && 0 < k < 4 && e[k] == '/'
    ensures !EqualFold(e, "/any")
  {
    assert Lower(e)[k] == '/' && Lower("/any")[k] != '/';
  }

  lemma JoinDoesNotEndInAny(p: seq<string>)
    requires NamesOk(p)
    ensures !EndsInAny(Tok(false, Join(p, '/')))
  {
    var j := Join(p, '/');
    var last := p[|p| - 1];
    JoinEnd(p);
    assert NameOk(last);
    if |j| > 4 {
      var e := j[|j| - 4..];
      if |last| > 3 {
        assert e[0] == last[|last| - 4];
        FoldDiffers(e, "/any");
      } else if |last| == 3 {
        assert e[1..] == last;
        TailDiffers(e);
      } else {
        assert e[3 - |last|] == '/';
        SlashDiffers(e, 3 - |last|);
      }
    }
  }

  lemma JoinPathOf(schema: Value, p: seq<string>)
    requires SchemaOk(schema) && p != [] && Resolve(schema, Join(p, '/')) == Some(p)
    ensures NamesOk(p) && PathOf(schema, Tok(false, Join(p, '/'))) == Some(p) && ComparisonHead(schema, Tok(false, Join(p, '/')))
    ensures AllWord(Join(p, '/')) && Join(p, '/') != ""
  {
    WalkOk(schema, p);
    JoinChars(p);
    JoinIsNotKeyword(p, "not");
    JoinIsNotKeyword(p, "(");
    JoinIsNotKeyword(p, "startsWith");
    JoinDoesNotEndInAny(p);
  }

  // ----- the canonical form -----

  /** What a parsed test always satisfies. */
  predicate TestOk(schema: Value, t: Test) {
    t.path != [] && Resolve(schema, Join(t.path, '/')) == Some(t.path) &&
    match t
    case Any(p, _) => Lookup(schema, p).Arr?
    case Cmp(_, op, lits) => lits != [] && (!op.In? ==> |lits| == 1) && (op.StartsWith? ==> lits[0].StrLit?)
  }

  function LitTok(l: Literal): Tok {
    match l
    case NullLit => Tok(false, "null")
    case BoolLit(b) => Tok(false, if b then "true" else "false")
    case StrLit(s) => Tok(true, s)
  }

  function LitsFor(ls: seq<Literal>): Lits
    requires ls != []
  {
    if |ls| == 1 then LastLit(LitTok(ls[0]), Tok(false, ")"))
    else MoreLits(LitTok(ls[0]), Tok(false, ","), LitsFor(ls[1..]))
  }

  function TermFor(t: Test): Term {
    if t.path == [] || (t.Cmp? && t.lits == []) then CompareTerm(Tok(true, ""), Tok(true, ""), Tok(true, ""))
    else
      var path := Tok(false, Join(t.path, '/'));
      match t
      case Any(p, l) =>
        AnyTerm(Tok(false, Join(p, '/') + "/any"), Tok(false, "("), Tok(false, "x"), Tok(false, ":"), Tok(false, "x"), Tok(false, "eq"),
                LitTok(l), Tok(false, ")"))
      case Cmp(_, op, lits) =>
        match op
        case StartsWith => PrefixTerm(Tok(false, "startsWith"), Tok(false, "("), path, Tok(false, ","), LitTok(lits[0]), Tok(false, ")"))
        case In => InTerm(path, Tok(false, "in"), Tok(false, "("), LitsFor(lits))
        case Eq => CompareTerm(path, Tok(false, "eq"), LitTok(lits[0]))
        case Ne => CompareTerm(path, Tok(false, "ne"), LitTok(lits[0]))
  }

  function FilterStyle(): Style<Tok, Term, Test> {
    Style(Tok(false, "or"), Tok(false, "and"), Tok(false, "not"), Tok(false, "("), Tok(false, ")"), TermFor)
  }

  ghost predicate FilterOk(schema: Value, f: Filter) {
    WellFormed(f, (t: Test) => TestOk(schema, t))
  }

  ghost function PrintFilter(schema: Value, f: Filter): string
    requires FilterOk(schema, f)
  {
    Spaced(YieldOr(FilterLang(schema), WriteOr(FilterStyle(), f, (t: Test) => TestOk(schema, t))), PrintTok)
  }

  lemma LitTokReads(l: Literal)
    ensures LiteralOf(LitTok(l)) == Some(l)
  {
    KeywordsDiffer();
  }

  lemma {:induction false} LitsForReads(ls: seq<Literal>)
    requires ls != []
    ensures ValidLits(LitsFor(ls)) && LitValues(LitsFor(ls)) == ls
  {
    LitTokReads(ls[0]);
    if |ls| > 1 {
      LitsForReads(ls[1..]);
      assert [ls[0]] + ls[1..] == ls;
    }
  }

  lemma AnyHead(schema: Value, p: seq<string>)
    requires SchemaOk(schema) && p != [] && Resolve(schema, Join(p, '/')) == Some(p) && Lookup(schema, p).Arr?
    ensures var h := Tok(false, Join(p, '/') + "/any");
            CollectionOf(schema, h) == Some(p) && TermHead(h) && !Is(h, "startsWith") && h.text[..|h.text| - 4] == Join(p, '/')
    ensures AllWord(Join(p, '/') + "/any")
  {
    var h := Join(p, '/') + "/any";
    JoinPathOf(schema, p);
    assert h[..|h| - 4] == Join(p, '/') && h[|h| - 4..] == "/any";
    var w0 := h[|h| - 4];
    assert Lower(h)[|h| - 4] == '/';
    assert |h| > 4;
    assert !EqualFold(h, "not") && !EqualFold(h, "(");
    assert |h| == 10 ==> Lower("startsWith")[6] == 'w';
  }

  lemma IsItself(w: string)
    ensures Is(Tok(false, w), w)
  {
  }

  lemma AnyForReads(schema: Value, t: Test)
    requires SchemaOk(schema) && TestOk(schema, t) && t.Any?
    ensures ValidTerm(schema, TermFor(t)) && MeanTerm(schema, TermFor(t)) == t
  {
    AnyHead(schema, t.path);
    ResolvedIsSplit(schema, Join(t.path, '/'));
    hide Resolve, Lookup, SchemaOk, LiteralOf, EqualFold, TermHead;
    LitTokReads(t.lit);
    IsItself("(");
    IsItself(":");
    IsItself("x");
    IsItself("eq");
    IsItself(")");
  }

  lemma PrefixForReads(schema: Value, t: Test)
    requires SchemaOk(schema) && TestOk(schema, t) && t.Cmp? && t.op.StartsWith?
    ensures ValidTerm(schema, TermFor(t)) && MeanTerm(schema, TermFor(t)) == t
  {
    JoinPathOf(schema, t.path);
    ResolvedIsSplit(schema, Join(t.path, '/'));
    KeywordLaws();
    hide Resolve, Lookup, SchemaOk, LiteralOf, Is, PathOf;
    IsItself("startsWith");
    IsItself("(");
    IsItself(",");
    IsItself(")");
    assert [t.lits[0]] == t.lits;
  }

  lemma InForReads(schema: Value, t: Test)
    requires SchemaOk(schema) && TestOk(schema, t) && t.Cmp? && t.op.In?
    ensures ValidTerm(schema, TermFor(t)) && MeanTerm(schema, TermFor(t)) == t
  {
    JoinPathOf(schema, t.path);
    ResolvedIsSplit(schema, Join(t.path, '/'));
    LitsForReads(t.lits);
    hide Resolve, Lookup, SchemaOk, LiteralOf, Is, PathOf, ComparisonHead;
    IsItself("in");
    InIsNotEq(Tok(false, "in"));
    IsItself("(");
  }

  lemma EqForReads(schema: Value, t: Test)
    requires SchemaOk(schema) && TestOk(schema, t) && t.Cmp? && (t.op.Eq? || t.op.Ne?)
    ensures ValidTerm(schema, TermFor(t)) && MeanTerm(schema, TermFor(t)) == t
  {
    JoinPathOf(schema, t.path);
    ResolvedIsSplit(schema, Join(t.path, '/'));
    LitTokReads(t.lits[0]);
    NeIsNotEq();
    hide Resolve, Lookup, SchemaOk, LiteralOf, Is, PathOf, ComparisonHead;
    IsItself("eq");
    IsItself("ne");
    assert [t.lits[0]] == t.lits;
  }

  lemma NeIsNotEq()
    ensures !Is(Tok(false, "ne"), "eq")
  {
    KeywordsDiffer();
  }

  lemma TermForReads(schema: Value, t: Test)
    requires SchemaOk(schema) && TestOk(schema, t)
    ensures ValidTerm(schema, TermFor(t)) && MeanTerm(schema, TermFor(t)) == t
  {
    hide SchemaOk, TestOk, ValidTerm, TermFor, MeanTerm;
    if t.Any? {
      AnyForReads(schema, t);
    } else {
      match t.op {
        case StartsWith => PrefixForReads(schema, t);
        case In => InForReads(schema, t);
        case _ => EqForReads(schema, t);
      }
    }
  }

  lemma FilterStyleFaithful(schema: Value)
    requires SchemaOk(schema)
    ensures Faithful(FilterLang(schema), FilterStyle(), (t: Test) => TestOk(schema, t))
  {
    forall t | TestOk(schema, t)
      ensures FilterLang(schema).validAtom(FilterStyle().atom(t)) && FilterLang(schema).meanAtom(FilterStyle().atom(t)) == t
    {
      TermForReads(schema, t);
    }
  }

  // ----- every token of a derivation is one the lexer makes -----

  lemma FoldedPrintable(t: Tok, w: string)
    requires Is(t, w) && w != "" && (AllWord(w) || (|w| == 1 && IsPunct(w[0])))
    ensures Printable(t)
  {
    forall i | 0 <= i < |t.text|
      ensures LowerChar(t.text[i]) == LowerChar(w[i])
    {
      assert Lower(t.text)[i] == Lower(w)[i];
    }
  }

  lemma KeywordPrintable(t: Tok)
    requires Is(t, "or") || Is(t, "and") || Is(t, "not") || Is(t, "(") || Is(t, ")") || Is(t, ",") || Is(t, ":") || Is(t, "eq")
             || Is(t, "ne") || Is(t, "in") || Is(t, "startsWith") || LiteralOf(t).Some?
    ensures Printable(t)
  {
    if !t.str {
      var w := if Is(t, "or") then "or" else if Is(t, "and") then "and" else if Is(t, "not") then "not" else if Is(t, "(") then "("
        else if Is(t, ")") then ")" else if Is(t, ",") then "," else if Is(t, ":") then ":" else if Is(t, "eq") then "eq"
        else if Is(t, "ne") then "ne" else if Is(t, "in") then "in" else if Is(t, "startsWith") then "startsWith"
        else if Is(t, "null") then "null" else if Is(t, "true") then "true" else "false";
      FoldedPrintable(t, w);
    }
  }

  lemma ResolvedText(schema: Value, raw: string)
    requires SchemaOk(schema) && Resolve(schema, raw).Some?
    ensures AllWord(raw) && raw != "" && Join(Split(raw, '/'), '/') == raw
  {
    JoinSplit(raw, '/');
    JoinPathOf(schema, Split(raw, '/'));
  }

  lemma {:induction false} LitsPrintable(d: Lits)
    requires ValidLits(d)
    ensures forall t | t in YieldLits(d) :: Printable(t)
  {
    KeywordPrintable(d.lit);
    if d.LastLit? {
      KeywordPrintable(d.close);
    } else {
      KeywordPrintable(d.comma);
      LitsPrintable(d.rest);
    }
  }

  lemma AnyTermPrintable(schema: Value, d: Term)
    requires SchemaOk(schema) && ValidTerm(schema, d) && d.AnyTerm?
    ensures forall t | t in YieldTerm(d) :: Printable(t)
  {
    hide Is, LiteralOf, Resolve, Lookup, SchemaOk;
    var h := d.head.text;
    ResolvedText(schema, h[..|h| - 4]);
    forall i | 0 <= i < |h|
      ensures WordChar(h[i])
    {
      if i < |h| - 4 {
        assert h[..|h| - 4][i] == h[i];
      } else {
        assert Lower(h[|h| - 4..])[i - (|h| - 4)] == Lower("/any")[i - (|h| - 4)];
      }
    }
    FoldedPrintable(d.v', d.v.text);
    KeywordPrintable(d.open);
    KeywordPrintable(d.colon);
    KeywordPrintable(d.eq);
    KeywordPrintable(d.lit);
    KeywordPrintable(d.close);
  }

  lemma TermPrintable(schema: Value, d: Term)
    requires SchemaOk(schema) && ValidTerm(schema, d)
    ensures forall t | t in YieldTerm(d) :: Printable(t)
  {
    hide Is, LiteralOf, Resolve, SchemaOk, CollectionOf, EndsInAny;
    match d {
      case PrefixTerm(kw, open, path, comma, lit, close) =>
        ResolvedText(schema, path.text);
        KeywordPrintable(kw);
        KeywordPrintable(open);
        KeywordPrintable(comma);
        KeywordPrintable(close);
      case CompareTerm(path, op, lit) =>
        ResolvedText(schema, path.text);
        KeywordPrintable(op);
        KeywordPrintable(lit);
      case InTerm(path, op, open, items) =>
        ResolvedText(schema, path.text);
        KeywordPrintable(op);
        KeywordPrintable(open);
        LitsPrintable(items);
      case AnyTerm(_, _, _, _, _, _, _, _) =>
        AnyTermPrintable(schema, d);
    }
  }

  lemma DerivationPrintable(schema: Value, d: OrTree<Tok, Term>)
    requires SchemaOk(schema) && ValidOr(FilterLang(schema), d)
    ensures forall t | t in YieldOr(FilterLang(schema), d) :: Printable(t)
  {
    var L := FilterLang(schema);
    forall t: Tok | L.isOr(t) || L.isAnd(t) || L.isNot(t) || L.isOpen(t) || L.isClose(t)
      ensures Printable(t)
    {
      KeywordPrintable(t);
    }
    forall c: Term, t: Tok | L.validAtom(c) && t in L.yieldAtom(c)
      ensures Printable(t)
    {
      TermPrintable(schema, c);
    }
    OrTokens(L, d, Printable);
  }

  /** Printing any well-formed filter, then lexing and parsing the text, gives the filter back. */
  lemma PrintThenParse(schema: Value, f: Filter)
    requires SchemaOk(schema) && FilterOk(schema, f)
    ensures ParseFilter(schema, PrintFilter(schema, f)) == Some(f)
  {
    var L := FilterLang(schema);
    var ok := (t: Test) => TestOk(schema, t);
    FilterLangLawful(schema);
    FilterStyleFaithful(schema);
    WriteThenParse(L, FilterStyle(), f, ok);
    WriteOrFaithful(L, FilterStyle(), f, ok);
    var d := WriteOr(FilterStyle(), f, ok);
    DerivationPrintable(schema, d);
    LexPrinted(YieldOr(L, d));
  }

  lemma MeantIsOk(schema: Value, d: Term)
    requires SchemaOk(schema) && ValidTerm(schema, d)
    ensures TestOk(schema, MeanTerm(schema, d))
  {
    match d {
      case PrefixTerm(_, _, path, _, _, _) => JoinSplit(path.text, '/');
      case CompareTerm(path, _, _) => JoinSplit(path.text, '/');
      case InTerm(path, _, _, _) => JoinSplit(path.text, '/');
      case AnyTerm(head, _, _, _, _, _, _, _) => JoinSplit(head.text[..|head.text| - 4], '/');
    }
  }

  /** Every accepted text compiles to a filter that can be printed and read back. */
  lemma ParsedIsPrintable(schema: Value, src: string)
    requires SchemaOk(schema) && ParseFilter(schema, src).Some?
    ensures FilterOk(schema, ParseFilter(schema, src).value)
    ensures ParseFilter(schema, PrintFilter(schema, ParseFilter(schema, src).value)) == ParseFilter(schema, src)
  {
    var L := FilterLang(schema);
    var ts := Lex(src).value;
    var d := Parse(L, ts).value;
    FilterLangLawful(schema);
    ParseIsExact(L, ts, d);
    forall c: Term | L.validAtom(c)
      ensures TestOk(schema, L.meanAtom(c))
    {
      MeantIsOk(schema, c);
    }
    OrWellFormed(L, d, (t: Test) => TestOk(schema, t));
    PrintThenParse(schema, ParseFilter(schema, src).value);
  }
}
