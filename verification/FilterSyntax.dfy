/** The $filter subset: lexer, property resolution, parser and printer. */
module FilterSyntax {
  import opened Text
  import opened Grammar
  import opened Lexing
  import opened JsonValue

  // ----- the compiled filter -----

  datatype Literal = NullLit | BoolLit(b: bool) | StrLit(s: string)
  datatype CmpOp = Eq | Ne | In | StartsWith

  /** One test of a property path: path op literal(s), or path/any(x: x eq literal). */
  datatype Test = Cmp(path: seq<string>, op: CmpOp, lits: seq<Literal>) | Any(path: seq<string>, lit: Literal)

  type Filter = Expr<Test>

  // ----- tokens -----

  datatype Tok = Tok(str: bool, text: string)

  predicate IsPunct(c: char) {
    c == '(' || c == ')' || c == ',' || c == ':'
  }

  predicate WordChar(c: char) {
    !IsSpace(c) && !IsPunct(c) && c != '\''
  }

  /** The rest of a string literal after its opening quote; a doubled quote stands for one. */
  function Scan(s: string): (r: Option<(string, string)>)
    ensures r.Some? ==> |r.value.1| < |s|
  {
    if s == [] then None
    else if s[0] != '\'' then Cons1(s[0], Scan(s[1..]))
    else if |s| > 1 && s[1] == '\'' then Cons1('\'', Scan(s[2..]))
    else Some(("", s[1..]))
  }

  function Lex(s: string): Option<seq<Tok>>
    decreases |s|
  {
    if s == [] then Some([])
    else if IsSpace(s[0]) then Lex(s[1..])
    else if IsPunct(s[0]) then ConsTok(Tok(false, [s[0]]), Lex(s[1..]))
    else if s[0] == '\'' then
      match Scan(s[1..])
      case None => None
      case Some((text, rest)) => ConsTok(Tok(true, text), Lex(rest))
    else
      ConsTok(Tok(false, s[..WordLength(s, WordChar)]), Lex(s[WordLength(s, WordChar)..]))
  }

  function Quoted(s: string): string {
    if s == [] then []
    else (if s[0] == '\'' then "''" else [s[0]]) + Quoted(s[1..])
  }

  function PrintTok(t: Tok): string {
    if t.str then "'" + Quoted(t.text) + "'" else t.text
  }

  /** The tokens the lexer can produce. */
  predicate Printable(t: Tok) {
    t.str || (|t.text| == 1 && IsPunct(t.text[0])) || (t.text != "" && AllWord(t.text))
  }

  predicate AllWord(s: string) {
    forall i | 0 <= i < |s| :: WordChar(s[i])
  }

  lemma ScanPlain(c: char, tail: string)
    requires c != '\''
    ensures Scan([c] + tail) == Cons1(c, Scan(tail))
  {
    assert ([c] + tail)[1..] == tail;
  }

  lemma ScanDoubled(tail: string)
    ensures Scan("''" + tail) == Cons1('\'', Scan(tail))
  {
    assert ("''" + tail)[2..] == tail;
  }

  lemma {:induction false} ScanQuoted(s: string, rest: string)
    requires rest == "" || rest[0] != '\''
    ensures Scan(Quoted(s) + "'" + rest) == Some((s, rest))
  {
    if s == [] {
      assert Quoted(s) + "'" + rest == "'" + rest;
      assert ("'" + rest)[1..] == rest;
    } else {
      hide Scan;
      ScanQuoted(s[1..], rest);
      var tail := Quoted(s[1..]) + "'" + rest;
      if s[0] == '\'' {
        assert Quoted(s) + "'" + rest == "''" + tail;
        ScanDoubled(tail);
      } else {
        assert Quoted(s) + "'" + rest == [s[0]] + tail;
        ScanPlain(s[0], tail);
      }
      assert [s[0]] + s[1..] == s;
    }
  }

  lemma LexQuoted(text: string, rest: string)
    requires rest == "" || rest[0] == ' '
    ensures Lex("'" + (Quoted(text) + "'" + rest)) == ConsTok(Tok(true, text), Lex(rest))
  {
    hide Scan, Quoted;
    var tail := Quoted(text) + "'" + rest;
    ScanQuoted(text, rest);
    assert ("'" + tail)[0] == '\'' && ("'" + tail)[1..] == tail;
  }

  lemma LexWord(text: string, rest: string)
    requires text != "" && AllWord(text) && (rest == "" || rest[0] == ' ')
    ensures Lex(text + rest) == ConsTok(Tok(false, text), Lex(rest))
  {
    var s := text + rest;
    WordLengthIs(text, rest, WordChar);
    assert WordChar(text[0]) && s[0] == text[0] && s[..|text|] == text && s[|text|..] == rest;
  }

  lemma LexPunct(c: char, rest: string)
    requires IsPunct(c)
    ensures Lex([c] + rest) == ConsTok(Tok(false, [c]), Lex(rest))
  {
    assert ([c] + rest)[1..] == rest;
  }

  lemma LexOne(t: Tok, rest: string)
    requires Printable(t) && (rest == "" || rest[0] == ' ')
    ensures Lex(PrintTok(t) + rest) == ConsTok(t, Lex(rest))
  {
    hide Lex, Quoted, AllWord;
    if t.str {
      LexQuoted(t.text, rest);
      assert PrintTok(t) + rest == "'" + (Quoted(t.text) + "'" + rest);
    } else if |t.text| == 1 && IsPunct(t.text[0]) {
      LexPunct(t.text[0], rest);
      assert [t.text[0]] == t.text;
    } else {
      LexWord(t.text, rest);
    }
  }

  lemma LexBlank(s: string)
    ensures Lex(" " + s) == Lex(s) && Lex("") == Some([])
  {
    assert (" " + s)[1..] == s;
  }

  /** Lexing printed tokens gives the tokens back, whatever their strings hold. */
  lemma LexPrinted(ts: seq<Tok>)
    requires forall t | t in ts :: Printable(t)
    ensures Lex(Spaced(ts, PrintTok)) == Some(ts)
  {
    hide Lex, PrintTok, Printable;
    LexBlank("");
    forall s
      ensures Lex(" " + s) == Lex(s)
    {
      LexBlank(s);
    }
    forall t, rest | Printable(t) && (rest == "" || rest[0] == ' ')
      ensures Lex(PrintTok(t) + rest) == ConsTok(t, Lex(rest))
    {
      LexOne(t, rest);
    }
    SpacedReads(Lex, PrintTok, Printable, ts);
  }

  // ----- property paths -----

  /** The first field of that name, in any case; resolution skips annotations. */
  function Find(fields: seq<Field>, seg: string, skipAnnotations: bool): Option<Value> {
    if fields == [] then None
    else if EqualFold(fields[0].name, seg) && !(skipAnnotations && HasPrefix(fields[0].name, "@")) then Some(fields[0].value)
    else Find(fields[1..], seg, skipAnnotations)
  }

  function Walk(cur: Value, path: seq<string>): Option<Value>
    decreases |path|
  {
    if path == [] then Some(cur)
    else if !cur.Obj? then None
    else
      match Find(cur.fields, path[0], true)
      case None => None
      case Some(v) => Walk(v, path[1..])
  }

  /** A path is usable when it reaches a leaf or a collection of the schema. */
  function Resolve(schema: Value, raw: string): Option<seq<string>> {
    var path := Split(raw, '/');
    match Walk(schema, path)
    case None => None
    case Some(v) => if v.Obj? then None else Some(path)
  }

  lemma ResolvedIsSplit(schema: Value, raw: string)
    requires Resolve(schema, raw).Some?
    ensures Resolve(schema, raw).value == Split(raw, '/')
  {
  }

  /** lookupPath: a missing property reads as null. */
  function Lookup(cur: Value, path: seq<string>): Value
    decreases |path|
  {
    if path == [] then cur
    else if !cur.Obj? then Null
    else
      match Find(cur.fields, path[0], false)
      case None => Lookup(Null, path[1..])
      case Some(v) => Lookup(v, path[1..])
  }

  // ----- tests: concrete syntax -----

  datatype Lits = LastLit(lit: Tok, close: Tok) | MoreLits(lit: Tok, comma: Tok, rest: Lits)

  datatype Term =
    | PrefixTerm(kw: Tok, open: Tok, path: Tok, comma: Tok, lit: Tok, close: Tok)
    | CompareTerm(path: Tok, op: Tok, lit: Tok)
    | InTerm(path: Tok, op: Tok, open: Tok, items: Lits)
    | AnyTerm(head: Tok, open: Tok, v: Tok, colon: Tok, v': Tok, eq: Tok, lit: Tok, close: Tok)

  predicate Is(t: Tok, w: string) {
    !t.str && EqualFold(t.text, w)
  }

  predicate EndsInAny(t: Tok) {
    !t.str && |t.text| > 4 && EqualFold(t.text[|t.text| - 4..], "/any")
  }

  function LiteralOf(t: Tok): Option<Literal> {
    if t.str then Some(StrLit(t.text))
    else if Is(t, "null") then Some(NullLit)
    else if Is(t, "true") then Some(BoolLit(true))
    else if Is(t, "false") then Some(BoolLit(false))
    else None
  }

  function PathOf(schema: Value, t: Tok): Option<seq<string>> {
    if t.str || (exists i | 0 <= i < |t.text| :: IsPunct(t.text[i])) then None else Resolve(schema, t.text)
  }

  function CollectionOf(schema: Value, t: Tok): Option<seq<string>> {
    if !EndsInAny(t) then None
    else
      match Resolve(schema, t.text[..|t.text| - 4])
      case None => None
      case Some(p) => if Lookup(schema, p).Arr? then Some(p) else None
  }

  function ParseLits(ts: seq<Tok>): (r: Option<(Lits, seq<Tok>)>)
    ensures r.Some? ==> |r.value.1| < |ts|
  {
    if |ts| < 2 || LiteralOf(ts[0]).None? then None
    else if Is(ts[1], ")") then Some((LastLit(ts[0], ts[1]), ts[2..]))
    else if Is(ts[1], ",") then
      match ParseLits(ts[2..])
      case None => None
      case Some((items, rest)) => Some((MoreLits(ts[0], ts[1], items), rest))
    else None
  }

  /** A head the unary rule leaves to the tests: neither a negation nor a group. */
  predicate TermHead(t: Tok) {
    !Is(t, "not") && !Is(t, "(")
  }

  function ParseTerm(schema: Value, ts: seq<Tok>): (r: Option<(Term, seq<Tok>)>)
    ensures r.Some? ==> |r.value.1| < |ts|
  {
    if ts == [] || !TermHead(ts[0]) then None
    else if Is(ts[0], "startsWith") then
      if |ts| >= 6 && Is(ts[1], "(") && PathOf(schema, ts[2]).Some? && Is(ts[3], ",") && ts[4].str && Is(ts[5], ")")
      then Some((PrefixTerm(ts[0], ts[1], ts[2], ts[3], ts[4], ts[5]), ts[6..]))
      else None
    else if EndsInAny(ts[0]) then
      if |ts| >= 8 && CollectionOf(schema, ts[0]).Some? && Is(ts[1], "(") && !ts[2].str && Printable(ts[2]) && Is(ts[3], ":")
         && Is(ts[4], ts[2].text) && Is(ts[5], "eq") && LiteralOf(ts[6]).Some? && Is(ts[7], ")")
      then Some((AnyTerm(ts[0], ts[1], ts[2], ts[3], ts[4], ts[5], ts[6], ts[7]), ts[8..]))
      else None
    else if |ts| < 3 || PathOf(schema, ts[0]).None? then None
    else if (Is(ts[1], "eq") || Is(ts[1], "ne")) && LiteralOf(ts[2]).Some? then
      Some((CompareTerm(ts[0], ts[1], ts[2]), ts[3..]))
    else if Is(ts[1], "in") && Is(ts[2], "(") then
      match ParseLits(ts[3..])
      case None => None
      case Some((items, rest)) => Some((InTerm(ts[0], ts[1], ts[2], items), rest))
    else None
  }

  function YieldLits(d: Lits): seq<Tok> {
    match d
    case LastLit(lit, close) => [lit, close]
    case MoreLits(lit, comma, rest) => [lit, comma] + YieldLits(rest)
  }

  function YieldTerm(d: Term): seq<Tok> {
    match d
    case PrefixTerm(kw, open, path, comma, lit, close) => [kw, open, path, comma, lit, close]
    case CompareTerm(path, op, lit) => [path, op, lit]
    case InTerm(path, op, open, items) => [path, op, open] + YieldLits(items)
    case AnyTerm(head, open, v, colon, v', eq, lit, close) => [head, open, v, colon, v', eq, lit, close]
  }

  predicate ValidLits(d: Lits) {
    LiteralOf(d.lit).Some? &&
    match d
    case LastLit(_, close) => Is(close, ")")
    case MoreLits(_, comma, rest) => Is(comma, ",") && ValidLits(rest)
  }

  predicate ComparisonHead(schema: Value, t: Tok) {
    TermHead(t) && !Is(t, "startsWith") && !EndsInAny(t) && PathOf(schema, t).Some?
  }

  predicate ValidTerm(schema: Value, d: Term) {
    match d
    case PrefixTerm(kw, open, path, comma, lit, close) =>
      TermHead(kw) && Is(kw, "startsWith") && Is(open, "(") && PathOf(schema, path).Some? && Is(comma, ",") && lit.str && Is(close, ")")
    case CompareTerm(path, op, lit) =>
      ComparisonHead(schema, path) && (Is(op, "eq") || Is(op, "ne")) && LiteralOf(lit).Some?
    case InTerm(path, op, open, items) =>
      ComparisonHead(schema, path) && Is(op, "in") && !Is(op, "eq") && !Is(op, "ne") && Is(open, "(") && ValidLits(items)
    case AnyTerm(head, open, v, colon, v', eq, lit, close) =>
      TermHead(head) && !Is(head, "startsWith") && CollectionOf(schema, head).Some? && Is(open, "(") && !v.str && Printable(v) && Is(colon, ":")
      && Is(v', v.text) && Is(eq, "eq") && LiteralOf(lit).Some? && Is(close, ")")
  }

  function LitValues(d: Lits): (r: seq<Literal>)
    ensures r != []
  {
    var l := if LiteralOf(d.lit).Some? then LiteralOf(d.lit).value else NullLit;
    match d
    case LastLit(_, _) => [l]
    case MoreLits(_, _, rest) => [l] + LitValues(rest)
  }

  function MeanTerm(schema: Value, d: Term): Test {
    match d
    case PrefixTerm(_, _, path, _, lit, _) => Cmp(Split(path.text, '/'), StartsWith, [StrLit(lit.text)])
    case CompareTerm(path, op, lit) => Cmp(Split(path.text, '/'), if Is(op, "eq") then Eq else Ne, LitValues(LastLit(lit, lit)))
    case InTerm(path, _, _, items) => Cmp(Split(path.text, '/'), In, LitValues(items))
    case AnyTerm(head, _, _, _, _, _, lit, _) =>
      Any(Split(if EndsInAny(head) then head.text[..|head.text| - 4] else "", '/'), LitValues(LastLit(lit, lit))[0])
  }

  function FilterLang(schema: Value): Lang<Tok, Term, Test> {
    Lang(
      (t: Tok) => Is(t, "or"), (t: Tok) => Is(t, "and"), (t: Tok) => Is(t, "not"),
      (t: Tok) => Is(t, "("), (t: Tok) => Is(t, ")"),
      (ts: seq<Tok>) => ParseTerm(schema, ts), YieldTerm,
      (d: Term) => ValidTerm(schema, d), (d: Term) => MeanTerm(schema, d))
  }

  lemma {:induction false} LitsSound(ts: seq<Tok>)
    requires ParseLits(ts).Some?
    ensures var (d, rest) := ParseLits(ts).value; ValidLits(d) && YieldLits(d) + rest == ts
  {
    if !Is(ts[1], ")") {
      LitsSound(ts[2..]);
    }
  }

  lemma FoldDiffers(a: string, b: string)
    requires |a| != |b| || (a != "" && LowerChar(a[0]) != LowerChar(b[0]))
    ensures Lower(a) != Lower(b)
  {
    if |a| == |b| {
      assert Lower(a)[0] != Lower(b)[0];
    }
  }

  /** No token is two keywords at once. */
  lemma KeywordsDiffer()
    ensures Lower(")") != Lower(",") && Lower("or") != Lower("and") && Lower(")") != Lower("or") && Lower(")") != Lower("and")
    ensures Lower("(") != Lower("not") && Lower("in") != Lower("eq") && Lower("in") != Lower("ne") && Lower("eq") != Lower("ne")
    ensures Lower("startsWith") != Lower("not") && Lower("startsWith") != Lower("(")
    ensures Lower("null") != Lower("true") && Lower("null") != Lower("false") && Lower("true") != Lower("false")
  {
    FoldDiffers(")", ",");
    FoldDiffers("or", "and");
    FoldDiffers(")", "or");
    FoldDiffers(")", "and");
    FoldDiffers("(", "not");
    FoldDiffers("in", "eq");
    FoldDiffers("in", "ne");
    FoldDiffers("eq", "ne");
    FoldDiffers("startsWith", "not");
    FoldDiffers("startsWith", "(");
    FoldDiffers("null", "true");
    FoldDiffers("null", "false");
    FoldDiffers("true", "false");
  }

  lemma {:induction false} LitsComplete(d: Lits, rest: seq<Tok>)
    requires ValidLits(d)
    ensures ParseLits(YieldLits(d) + rest) == Some((d, rest))
  {
    KeywordsDiffer();
    if d.MoreLits? {
      LitsComplete(d.rest, rest);
      assert (YieldLits(d) + rest)[2..] == YieldLits(d.rest) + rest;
    }
  }

  lemma TermSound(schema: Value, ts: seq<Tok>)
    requires ParseTerm(schema, ts).Some?
    ensures var (d, rest) := ParseTerm(schema, ts).value; ValidTerm(schema, d) && YieldTerm(d) + rest == ts
  {
    hide Is, EndsInAny, LiteralOf, PathOf, CollectionOf, TermHead, Printable;
    if Is(ts[0], "startsWith") {
      assert ts[..6] == [ts[0], ts[1], ts[2], ts[3], ts[4], ts[5]];
      assert ts[..6] + ts[6..] == ts;
    } else if EndsInAny(ts[0]) {
      assert ts[..8] == [ts[0], ts[1], ts[2], ts[3], ts[4], ts[5], ts[6], ts[7]];
      assert ts[..8] + ts[8..] == ts;
    } else {
      assert ts[..3] == [ts[0], ts[1], ts[2]];
      if ParseTerm(schema, ts).value.0.InTerm? {
        InIsNotEq(ts[1]);
        LitsSound(ts[3..]);
      }
    }
  }

  lemma InIsNotEq(t: Tok)
    requires Is(t, "in")
    ensures !Is(t, "eq") && !Is(t, "ne")
  {
    KeywordsDiffer();
  }

  lemma TermComplete(schema: Value, d: Term, rest: seq<Tok>)
    requires ValidTerm(schema, d)
    ensures ParseTerm(schema, YieldTerm(d) + rest) == Some((d, rest))
  {
    hide Is, LiteralOf, PathOf, TermHead, Printable;
    var ts := YieldTerm(d) + rest;
    match d {
      case PrefixTerm(kw, open, path, comma, lit, close) =>
        assert ts[..6] == [kw, open, path, comma, lit, close] && ts[6..] == rest;
      case CompareTerm(path, op, lit) =>
        assert ts[..3] == [path, op, lit] && ts[3..] == rest;
      case InTerm(path, op, open, items) =>
        assert ts[..3] == [path, op, open] && ts[3..] == YieldLits(items) + rest;
        LitsComplete(items, rest);
      case AnyTerm(head, open, v, colon, v', eq, lit, close) =>
        assert ts[..8] == [head, open, v, colon, v', eq, lit, close] && ts[8..] == rest;
    }
  }

  lemma KeywordLaws()
    ensures forall t | Is(t, "or") :: !Is(t, "and")
    ensures forall t | Is(t, ")") :: !Is(t, "or") && !Is(t, "and")
    ensures forall t | Is(t, "(") :: !Is(t, "not")
    ensures forall t | Is(t, "startsWith") :: TermHead(t)
  {
    KeywordsDiffer();
  }

  lemma TermStart(schema: Value, d: Term)
    requires ValidTerm(schema, d)
    ensures YieldTerm(d) != [] && TermHead(YieldTerm(d)[0])
  {
    hide Is, EndsInAny, LiteralOf, PathOf, CollectionOf, TermHead, Printable;
  }

  lemma FilterLangLawful(schema: Value)
    ensures Lawful(FilterLang(schema))
  {
    hide Is, ValidTerm, ParseTerm, YieldTerm, MeanTerm;
    var L := FilterLang(schema);
    KeywordLaws();
    forall ts: seq<Tok> | L.parseAtom(ts).Some?
      ensures L.validAtom(L.parseAtom(ts).value.0)
      ensures L.yieldAtom(L.parseAtom(ts).value.0) + L.parseAtom(ts).value.1 == ts
    {
      TermSound(schema, ts);
    }
    forall c: Term | L.validAtom(c)
      ensures AtomStart(L, c)
    {
      TermStart(schema, c);
    }
    forall c: Term, rest: seq<Tok> | L.validAtom(c)
      ensures AtomParses(L, c, rest)
    {
      TermComplete(schema, c, rest);
    }
  }

  function ParseFilter(schema: Value, src: string): Option<Filter> {
    match Lex(src)
    case None => None
    case Some(ts) =>
      match Parse(FilterLang(schema), ts)
      case None => None
      case Some(d) => Some(MeanOr(FilterLang(schema), d))
  }

  lemma {:induction false} LexedIsPrintable(s: string)
    requires Lex(s).Some?
    ensures forall t | t in Lex(s).value :: Printable(t)
    decreases |s|
  {
    if s == [] {
    } else if IsSpace(s[0]) || IsPunct(s[0]) {
      LexedIsPrintable(s[1..]);
    } else if s[0] == '\'' {
      LexedIsPrintable(Scan(s[1..]).value.1);
    } else {
      WordLengthWord(s);
      LexedIsPrintable(s[WordLength(s, WordChar)..]);
    }
  }

  lemma {:induction false} WordLengthWord(s: string)
    ensures AllWord(s[..WordLength(s, WordChar)])
    ensures WordLength(s, WordChar) == |s| || !WordChar(s[WordLength(s, WordChar)])
  {
    if s != [] && WordChar(s[0]) {
      WordLengthWord(s[1..]);
      assert s[..WordLength(s, WordChar)] == [s[0]] + s[1..][..WordLength(s[1..], WordChar)];
    }
  }
}
