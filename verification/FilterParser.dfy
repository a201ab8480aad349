/** The $filter lexer and recursive-descent parser as they run. */
module FilterParser {
  import opened Text
  import opened Grammar
  import opened Lexing
  import opened JsonValue
  import opened FilterSyntax

  ghost function Lexed(s: string): Option<(seq<Tok>, ())> {
    if Lex(s).None? then None else Some((Lex(s).value, ()))
  }

  ghost function LitsRest(ts: seq<Tok>): Option<(seq<Literal>, seq<Tok>)> {
    match ParseLits(ts)
    case None => None
    case Some((d, rest)) => Some((LitValues(d), rest))
  }

  method LexString(src: string, from: nat) returns (r: Option<(string, nat)>)
    requires from <= |src|
    ensures match Scan(src[from..])
            case None => r.None?
            case Some((text, rest)) => r.Some? && r.value.0 == text && from < r.value.1 <= |src| && src[r.value.1..] == rest
  {
    hide Scan;
    var b := "";
    var i := from;
    PrefixedNone(Scan(src[from..]));
    while i < |src|
      invariant from <= i <= |src|
      invariant Scan(src[from..]) == Prefixed(b, Scan(src[i..]))
    {
      ScanStep(src, i);
      PrefixedTwice(b, [src[i]], Scan(src[i + 1..]));
      if src[i] == '\'' {
        if i + 1 < |src| && src[i + 1] == '\'' {
          PrefixedTwice(b, ['\''], Scan(src[i + 2..]));
          b := b + ['\''];
          i := i + 2;
          continue;
        }
        return Some((b, i + 1));
      }
      b := b + [src[i]];
      i := i + 1;
    }
    ScanEnd(src);
    return None;
  }

  /** One turn inside a string literal. */
  lemma ScanStep(src: string, i: nat)
    requires i < |src|
    ensures src[i] != '\'' ==> Scan(src[i..]) == Prefixed([src[i]], Scan(src[i + 1..]))
    ensures src[i] == '\'' && i + 1 < |src| && src[i + 1] == '\'' ==> Scan(src[i..]) == Prefixed(['\''], Scan(src[i + 2..]))
    ensures src[i] == '\'' && (i + 1 == |src| || src[i + 1] != '\'') ==> Scan(src[i..]) == Some(("", src[i + 1..]))
  {
    var at := src[i..];
    assert at[1..] == src[i + 1..] && (|at| > 1 ==> at[1] == src[i + 1] && at[2..] == src[i + 2..]);
  }

  lemma ScanEnd(src: string)
    ensures Scan(src[|src|..]) == None
  {
  }

  method WordEnd(src: string, from: nat) returns (end: nat)
    requires from <= |src|
    ensures from <= end <= |src| && end == from + WordLength(src[from..], WordChar)
  {
    hide WordChar;
    end := from;
    while end < |src| && WordChar(src[end])
      invariant from <= end <= |src|
      invariant from + WordLength(src[from..], WordChar) == end + WordLength(src[end..], WordChar)
    {
      assert src[end..][1..] == src[end + 1..];
      end := end + 1;
    }
  }

  /** One turn of the lexer. */
  lemma LexStep(src: string, i: nat)
    requires i < |src|
    ensures IsSpace(src[i]) ==> Lexed(src[i..]) == Lexed(src[i + 1..])
    ensures !IsSpace(src[i]) && IsPunct(src[i]) ==> Lexed(src[i..]) == Prefixed([Tok(false, [src[i]])], Lexed(src[i + 1..]))
    ensures !IsSpace(src[i]) && !IsPunct(src[i]) && src[i] == '\'' ==>
              var scan := Scan(src[i + 1..]);
              Lexed(src[i..]) == if scan.None? then None else Prefixed([Tok(true, scan.value.0)], Lexed(scan.value.1))
    ensures !IsSpace(src[i]) && !IsPunct(src[i]) && src[i] != '\'' ==>
              var n := WordLength(src[i..], WordChar);
              n >= 1 && Lexed(src[i..]) == Prefixed([Tok(false, src[i..i + n])], Lexed(src[i + n..]))
  {
    hide Scan;
    var at := src[i..];
    assert at[1..] == src[i + 1..];
    var n := WordLength(at, WordChar);
    assert at[..n] == src[i..i + n] && at[n..] == src[i + n..];
  }

  lemma LexEnd(src: string)
    ensures Lexed(src[|src|..]) == Some(([], ()))
  {
  }

  /** Lexes a filter; an empty one is refused. */
  method LexFilter(src: string) returns (r: Option<seq<Tok>>)
    ensures r == if Lex(src) == Some([]) then None else Lex(src)
  {
    var out: seq<Tok> := [];
    var i := 0;
    hide Lex, Scan, WordLength, WordChar;
    assert src[0..] == src;
    PrefixedNone(Lexed(src));
    while i < |src|
      invariant i <= |src|
      invariant Lexed(src) == Prefixed(out, Lexed(src[i..]))
    {
      LexStep(src, i);
      ghost var before := out;
      if IsSpace(src[i]) {
        i := i + 1;
      } else if IsPunct(src[i]) {
        out := out + [Tok(false, [src[i]])];
        i := i + 1;
      } else if src[i] == '\'' {
        var lit := LexString(src, i + 1);
        if lit.None? {
          return None;
        }
        out := out + [Tok(true, lit.value.0)];
        i := lit.value.1;
      } else {
        var end := WordEnd(src, i);
        out := out + [Tok(false, src[i..end])];
        i := end;
      }
      if out != before {
        PrefixedTwice(before, [out[|before|]], Lexed(src[i..]));
      }
    }
    LexEnd(src);
    assert out + [] == out;
    return if out == [] then None else Some(out);
  }

  class FilterParser {
    const toks: seq<Tok>
    const schema: Value
    var pos: nat

    constructor (toks: seq<Tok>, schema: Value)
      ensures this.toks == toks && this.schema == schema && pos == 0
    {
      this.toks := toks;
      this.schema := schema;
      pos := 0;
    }

    ghost predicate Valid()
      reads this
    {
      pos <= |toks| && forall i | 0 <= i < |toks| :: Printable(toks[i])
    }

    method Word(w: string) returns (b: bool)
      requires Valid()
      modifies this
      ensures Valid()
      ensures b == (old(pos) < |toks| && Is(toks[old(pos)], w))
      ensures pos == if b then old(pos) + 1 else old(pos)
    {
      b := pos < |toks| && Is(toks[pos], w);
      if b {
        pos := pos + 1;
      }
    }

    method Or() returns (r: Option<Filter>)
      requires Valid()
      modifies this
      ensures Valid()
      ensures match ParseOr(FilterLang(schema), toks[old(pos)..])
              case None => r.None?
              case Some((d, rest)) => r == Some(MeanOr(FilterLang(schema), d)) && toks[pos..] == rest
      decreases |toks| - pos, 3
    {
      var first := And();
      if first.None? {
        return None;
      }
      var out := [first.value];
      ghost var whole := Prefixed(out, OrRest(FilterLang(schema), toks[pos..]));
      while true
        invariant Valid() && old(pos) < pos && out != []
        invariant whole == Prefixed(out, OrRest(FilterLang(schema), toks[pos..]))
        decreases |toks| - pos
      {
        ghost var at := toks[pos..];
        var more := Word("or");
        if !more {
          break;
        }
        OrRestStep(FilterLang(schema), at, out);
        assert at[1..] == toks[pos..];
        var next := And();
        if next.None? {
          return None;
        }
        out := out + [next.value];
      }
      assert out + [] == out;
      return Some(Flatten(true, out));
    }

    method And() returns (r: Option<Filter>)
      requires Valid()
      modifies this
      ensures Valid()
      ensures match ParseAnd(FilterLang(schema), toks[old(pos)..])
              case None => r.None?
              case Some((d, rest)) => r == Some(MeanAnd(FilterLang(schema), d)) && toks[pos..] == rest
      decreases |toks| - pos, 2
    {
      var first := UnaryFilter();
      if first.None? {
        return None;
      }
      var out := [first.value];
      ghost var whole := Prefixed(out, AndRest(FilterLang(schema), toks[pos..]));
      while true
        invariant Valid() && old(pos) < pos && out != []
        invariant whole == Prefixed(out, AndRest(FilterLang(schema), toks[pos..]))
        decreases |toks| - pos
      {
        ghost var at := toks[pos..];
        var more := Word("and");
        if !more {
          break;
        }
        AndRestStep(FilterLang(schema), at, out);
        assert at[1..] == toks[pos..];
        var next := UnaryFilter();
        if next.None? {
          return None;
        }
        out := out + [next.value];
      }
      assert out + [] == out;
      return Some(Flatten(false, out));
    }

    method UnaryFilter() returns (r: Option<Filter>)
      requires Valid()
      modifies this
      ensures Valid()
      ensures match ParseUnary(FilterLang(schema), toks[old(pos)..])
              case None => r.None?
              case Some((d, rest)) => r == Some(MeanUnary(FilterLang(schema), d)) && toks[pos..] == rest
      decreases |toks| - pos, 1
    {
      hide Is, ParseTerm, MeanTerm, Printable;
      ghost var at := toks[pos..];
      var not := Word("not");
      if not {
        assert at[1..] == toks[pos..];
        var inner := UnaryFilter();
        return if inner.None? then None else Some(Not(inner.value));
      }
      var open := Word("(");
      if open {
        assert at[1..] == toks[pos..];
        var body := Or();
        if body.None? {
          return None;
        }
        var close := Word(")");
        return if close then body else None;
      }
      var t := TermFilter();
      return if t.None? then None else Some(Leaf(t.value));
    }

    /** startsWith or a comparison: what is left once not and ( are excluded. */
    method TermFilter() returns (r: Option<Test>)
      requires Valid() && (pos < |toks| ==> TermHead(toks[pos]))
      modifies this
      ensures Valid()
      ensures match ParseTerm(schema, toks[old(pos)..])
              case None => r.None?
              case Some((d, rest)) => r == Some(MeanTerm(schema, d)) && toks[pos..] == rest
      decreases |toks| - pos, 0
    {
      var starts := Word("startsWith");
      if starts {
        r := PrefixFilter();
      } else {
        r := ComparisonFilter();
      }
    }

    method Path() returns (r: Option<seq<string>>)
      requires Valid()
      modifies this
      ensures Valid()
      ensures r == if old(pos) < |toks| then PathOf(schema, toks[old(pos)]) else None
      ensures r.Some? ==> pos == old(pos) + 1 && r.value == Split(toks[old(pos)].text, '/')
    {
      if pos >= |toks| || toks[pos].str || (exists i | 0 <= i < |toks[pos].text| :: IsPunct(toks[pos].text[i])) {
        return None;
      }
      pos := pos + 1;
      return Resolve(schema, toks[pos - 1].text);
    }

    method ReadLiteral() returns (r: Option<Literal>)
      requires Valid()
      modifies this
      ensures Valid()
      ensures r == if old(pos) < |toks| then LiteralOf(toks[old(pos)]) else None
      ensures r.Some? ==> pos == old(pos) + 1
    {
      if pos >= |toks| {
        return None;
      }
      pos := pos + 1;
      return LiteralOf(toks[pos - 1]);
    }

    method PrefixFilter() returns (r: Option<Test>)
      requires Valid() && pos > 0 && TermHead(toks[pos - 1]) && Is(toks[pos - 1], "startsWith")
      modifies this
      ensures Valid()
      ensures match ParseTerm(schema, toks[old(pos) - 1..])
              case None => r.None?
              case Some((d, rest)) => r == Some(MeanTerm(schema, d)) && toks[pos..] == rest
    {
      var open := Word("(");
      if !open {
        return None;
      }
      var path := Path();
      if path.None? {
        return None;
      }
      var comma := Word(",");
      if !comma || pos >= |toks| || !toks[pos].str {
        return None;
      }
      pos := pos + 1;
      var close := Word(")");
      return if close then Some(Cmp(path.value, StartsWith, [StrLit(toks[pos - 2].text)])) else None;
    }

    method ComparisonFilter() returns (r: Option<Test>)
      requires Valid() && (pos < |toks| ==> TermHead(toks[pos]) && !Is(toks[pos], "startsWith"))
      modifies this
      ensures Valid()
      ensures match ParseTerm(schema, toks[old(pos)..])
              case None => r.None?
              case Some((d, rest)) => r == Some(MeanTerm(schema, d)) && toks[pos..] == rest
    {
      hide LiteralOf, PathOf, CollectionOf, EndsInAny, Printable, TermHead;
      KeywordsDiffer();
      if pos < |toks| && EndsInAny(toks[pos]) {
        r := AnyFilter();
        return;
      }
      var path := Path();
      if path.None? || pos >= |toks| || toks[pos].str {
        return None;
      }
      var op := toks[pos];
      pos := pos + 1;
      if Is(op, "eq") || Is(op, "ne") {
        var lit := ReadLiteral();
        return if lit.None? then None else Some(Cmp(path.value, if Is(op, "eq") then Eq else Ne, [lit.value]));
      } else if Is(op, "in") {
        var open := Word("(");
        if !open {
          return None;
        }
        assert toks[old(pos)..][3..] == toks[pos..];
        var lits := LiteralList();
        return if lits.None? then None else Some(Cmp(path.value, In, lits.value));
      }
      return None;
    }

    method LiteralList() returns (r: Option<seq<Literal>>)
      requires Valid()
      modifies this
      ensures Valid()
      ensures match ParseLits(toks[old(pos)..])
              case None => r.None?
              case Some((d, rest)) => r == Some(LitValues(d)) && toks[pos..] == rest
    {
      KeywordsDiffer();
      var lits: seq<Literal> := [];
      ghost var whole := LitsRest(toks[pos..]);
      PrefixedNone(whole);
      while true
        invariant Valid()
        invariant whole == Prefixed(lits, LitsRest(toks[pos..]))
        decreases |toks| - pos
      {
        ghost var at := toks[pos..];
        var lit := ReadLiteral();
        if lit.None? {
          return None;
        }
        lits := lits + [lit.value];
        var close := Word(")");
        if close {
          assert at[2..] == toks[pos..];
          return Some(lits);
        }
        var comma := Word(",");
        if !comma {
          return None;
        }
        assert at[2..] == toks[pos..];
        PrefixedTwice(lits[..|lits| - 1], [lit.value], LitsRest(toks[pos..]));
      }
    }

    method AnyFilter() returns (r: Option<Test>)
      requires Valid() && pos < |toks| && TermHead(toks[pos]) && !Is(toks[pos], "startsWith") && EndsInAny(toks[pos])
      modifies this
      ensures Valid()
      ensures match ParseTerm(schema, toks[old(pos)..])
              case None => r.None?
              case Some((d, rest)) => r == Some(MeanTerm(schema, d)) && toks[pos..] == rest
    {
      hide Is, LiteralOf, Lookup, Printable, Walk;
      var head := toks[pos];
      pos := pos + 1;
      var path := Resolve(schema, head.text[..|head.text| - 4]);
      if path.None? || !Lookup(schema, path.value).Arr? {
        return None;
      }
      var open := Word("(");
      if !open || pos >= |toks| || toks[pos].str {
        return None;
      }
      var v := toks[pos];
      pos := pos + 1;
      var colon := Word(":");
      if !colon {
        return None;
      }
      var again := Word(v.text);
      if !again {
        return None;
      }
      var eq := Word("eq");
      if !eq {
        return None;
      }
      var lit := ReadLiteral();
      if lit.None? {
        return None;
      }
      var close := Word(")");
      return if close then Some(Any(path.value, lit.value)) else None;
    }
  }

  /** Compiles a filter exactly as the specification says. */
  method CompileFilter(src: string, schema: Value) returns (r: Option<Filter>)
    ensures r == ParseFilter(schema, src)
  {
    var toks := LexFilter(src);
    if toks.None? {
      return None;
    }
    LexedIsPrintable(src);
    assert forall i | 0 <= i < |toks.value| :: toks.value[i] in toks.value;
    var p := new FilterParser(toks.value, schema);
    assert toks.value[0..] == toks.value;
    var f := p.Or();
    if f.None? || p.pos < |p.toks| {
      return None;
    }
    return f;
  }
}
