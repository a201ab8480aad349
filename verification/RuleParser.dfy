/** The rule lexer and the recursive-descent parser as they run: an index into the
    text, a position into the tokens, lists grown in loops. */
module RuleParser {
  import opened Text
  import opened Grammar
  import opened Lexing
  import opened RuleSyntax

  ghost function Lexed(s: string): Option<(seq<Tok>, ())> {
    if Lex(s).None? then None else Some((Lex(s).value, ()))
  }

  ghost function ItemsRest(ts: seq<Tok>): Option<(seq<string>, seq<Tok>)> {
    match ParseItems(ts)
    case None => None
    case Some((d, rest)) => Some((ItemValues(d), rest))
  }

  method LexString(src: string, from: nat) returns (r: Option<(string, nat)>)
    requires from <= |src|
    ensures match Scan(src[from..])
            case None => r.None?
            case Some((text, rest)) => r.Some? && r.value.0 == text && from < r.value.1 <= |src| && src[r.value.1..] == rest
  {
    hide Scan;
    var b := "";
    var i := from;
    PrefixedNone(Scan(src[from..]));
    while i < |src|
      invariant from <= i <= |src|
      invariant Scan(src[from..]) == Prefixed(b, Scan(src[i..]))
    {
      ScanStep(src, i);
      PrefixedTwice(b, [src[i]], Scan(src[i + 1..]));
      if src[i] == '\\' && i + 1 < |src| {
        PrefixedTwice(b, [src[i + 1]], Scan(src[i + 2..]));
        b := b + [src[i + 1]];
        i := i + 2;
        continue;
      }
      if src[i] == '"' {
        return Some((b, i + 1));
      }
      b := b + [src[i]];
      i := i + 1;
    }
    return None;
  }

  /** One turn inside a string literal. */
  lemma ScanStep(src: string, i: nat)
    requires i < |src|
    ensures src[i] == '\\' && i + 1 < |src| ==> Scan(src[i..]) == Prefixed([src[i + 1]], Scan(src[i + 2..]))
    ensures src[i] == '"' ==> Scan(src[i..]) == Some(("", src[i + 1..]))
    ensures src[i] != '"' && (src[i] != '\\' || i + 1 == |src|) ==> Scan(src[i..]) == Prefixed([src[i]], Scan(src[i + 1..]))
  {
    var at := src[i..];
    assert at[1..] == src[i + 1..] && (|at| > 1 ==> at[1] == src[i + 1] && at[2..] == src[i + 2..]);
  }

  method WordEnd(src: string, from: nat) returns (end: nat)
    requires from <= |src|
    ensures from <= end <= |src| && end == from + WordLength(src[from..], WordChar)
  {
    hide WordChar;
    end := from;
    while end < |src| && WordChar(src[end])
      invariant from <= end <= |src|
      invariant from + WordLength(src[from..], WordChar) == end + WordLength(src[end..], WordChar)
    {
      assert src[end..][1..] == src[end + 1..];
      end := end + 1;
    }
  }

  /** One turn of the lexer. */
  lemma LexStep(src: string, i: nat)
    requires i < |src|
    ensures IsSpace(src[i]) ==> Lexed(src[i..]) == Lexed(src[i + 1..])
    ensures !IsSpace(src[i]) && IsPunct(src[i]) ==> Lexed(src[i..]) == Prefixed([Tok(Punct, [src[i]])], Lexed(src[i + 1..]))
    ensures !IsSpace(src[i]) && !IsPunct(src[i]) && src[i] == '"' ==>
              var scan := Scan(src[i + 1..]);
              Lexed(src[i..]) == if scan.None? then None else Prefixed([Tok(Quoted, scan.value.0)], Lexed(scan.value.1))
    ensures !IsSpace(src[i]) && !IsPunct(src[i]) && src[i] != '"' ==>
              var n := WordLength(src[i..], WordChar);
              n >= 1 && Lexed(src[i..]) == Prefixed([Tok(Word, src[i..i + n])], Lexed(src[i + n..]))
  {
    hide Scan;
    var at := src[i..];
    assert at[1..] == src[i + 1..];
    var n := WordLength(at, WordChar);
    assert at[..n] == src[i..i + n] && at[n..] == src[i + n..];
  }

  lemma LexEnd(src: string)
    ensures Lexed(src[|src|..]) == Some(([], ()))
  {
  }

  method LexRule(src: string) returns (r: Option<seq<Tok>>)
    ensures r == Lex(src)
  {
    var out: seq<Tok> := [];
    var i := 0;
    hide Lex, Scan, WordLength, WordChar;
    assert src[0..] == src;
    PrefixedNone(Lexed(src));
    while i < |src|
      invariant i <= |src|
      invariant Lexed(src) == Prefixed(out, Lexed(src[i..]))
    {
      LexStep(src, i);
      ghost var before := out;
      if IsSpace(src[i]) {
        i := i + 1;
      } else if IsPunct(src[i]) {
        out := out + [Tok(Punct, [src[i]])];
        i := i + 1;
      } else if src[i] == '"' {
        var lit := LexString(src, i + 1);
        if lit.None? {
          return None;
        }
        out := out + [Tok(Quoted, lit.value.0)];
        i := lit.value.1;
      } else {
        var end := WordEnd(src, i);
        out := out + [Tok(Word, src[i..end])];
        i := end;
      }
      if out != before {
        PrefixedTwice(before, [out[|before|]], Lexed(src[i..]));
      }
    }
    LexEnd(src);
    assert out + [] == out;
    return Some(out);
  }

  class RuleParser {
    const toks: seq<Tok>
    var pos: nat

    constructor (toks: seq<Tok>)
      ensures this.toks == toks && pos == 0
    {
      this.toks := toks;
      pos := 0;
    }

    predicate Done()
      reads this
    {
      pos >= |toks|
    }

    function Peek(): Tok
      reads this
    {
      if Done() then Tok(Punct, "") else toks[pos]
    }

    method Keyword(w: string) returns (b: bool)
      requires pos <= |toks|
      modifies this
      ensures b == (old(pos) < |toks| && IsWord(toks[old(pos)], w))
      ensures pos == if b then old(pos) + 1 else old(pos)
    {
      b := IsWord(Peek(), w);
      if b {
        pos := pos + 1;
      }
    }

    method Punctuation(s: string) returns (b: bool)
      requires pos <= |toks|
      modifies this
      ensures b == (old(pos) < |toks| && toks[old(pos)] == Tok(Punct, s))
      ensures pos == if b then old(pos) + 1 else old(pos)
    {
      b := Peek() == Tok(Punct, s) && !Done();
      if b {
        pos := pos + 1;
      }
    }

    method Or() returns (r: Option<Expr<Comparison>>)
      requires pos <= |toks|
      modifies this
      ensures pos <= |toks|
      ensures match ParseOr(RuleLang(), toks[old(pos)..])
              case None => r.None?
              case Some((d, rest)) => r == Some(MeanOr(RuleLang(), d)) && toks[pos..] == rest
      decreases |toks| - pos, 3
    {
      var first := And();
      if first.None? {
        return None;
      }
      var out := [first.value];
      ghost var whole := Prefixed(out, OrRest(RuleLang(), toks[pos..]));
      while true
        invariant old(pos) < pos <= |toks| && out != []
        invariant whole == Prefixed(out, OrRest(RuleLang(), toks[pos..]))
        decreases |toks| - pos
      {
        ghost var at := toks[pos..];
        var more := Keyword("-or");
        if !more {
          break;
        }
        OrRestStep(RuleLang(), at, out);
        assert at[1..] == toks[pos..];
        var next := And();
        if next.None? {
          return None;
        }
        out := out + [next.value];
      }
      assert out + [] == out;
      return Some(Flatten(true, out));
    }

    method And() returns (r: Option<Expr<Comparison>>)
      requires pos <= |toks|
      modifies this
      ensures pos <= |toks|
      ensures match ParseAnd(RuleLang(), toks[old(pos)..])
              case None => r.None?
              case Some((d, rest)) => r == Some(MeanAnd(RuleLang(), d)) && toks[pos..] == rest
      decreases |toks| - pos, 2
    {
      var first := UnaryRule();
      if first.None? {
        return None;
      }
      var out := [first.value];
      ghost var whole := Prefixed(out, AndRest(RuleLang(), toks[pos..]));
      while true
        invariant old(pos) < pos <= |toks| && out != []
        invariant whole == Prefixed(out, AndRest(RuleLang(), toks[pos..]))
        decreases |toks| - pos
      {
        ghost var at := toks[pos..];
        var more := Keyword("-and");
        if !more {
          break;
        }
        AndRestStep(RuleLang(), at, out);
        assert at[1..] == toks[pos..];
        var next := UnaryRule();
        if next.None? {
          return None;
        }
        out := out + [next.value];
      }
      assert out + [] == out;
      return Some(Flatten(false, out));
    }

    method UnaryRule() returns (r: Option<Expr<Comparison>>)
      requires pos <= |toks|
      modifies this
      ensures pos <= |toks|
      ensures match ParseUnary(RuleLang(), toks[old(pos)..])
              case None => r.None?
              case Some((d, rest)) => r == Some(MeanUnary(RuleLang(), d)) && toks[pos..] == rest
      decreases |toks| - pos, 1
    {
      hide ParseClause, MeanClause;
      ghost var at := toks[pos..];
      var not := Keyword("-not");
      if not {
        assert at[1..] == toks[pos..];
        var inner := UnaryRule();
        return if inner.None? then None else Some(Not(inner.value));
      }
      var open := Punctuation("(");
      if open {
        assert at[1..] == toks[pos..];
        var body := Or();
        if body.None? {
          return None;
        }
        var close := Punctuation(")");
        return if close then body else None;
      }
      r := ComparisonRule();
    }

    method ComparisonRule() returns (r: Option<Expr<Comparison>>)
      requires pos <= |toks|
      modifies this
      ensures pos <= |toks|
      ensures match ParseClause(toks[old(pos)..])
              case None => r.None?
              case Some((d, rest)) => r == Some(Leaf(MeanClause(d))) && toks[pos..] == rest
      decreases |toks| - pos, 0
    {
      var prop := Peek();
      if Done() || PropOf(prop).None? {
        return None;
      }
      pos := pos + 1;
      var opTok := Peek();
      if OperatorOf(opTok).None? {
        return None;
      }
      var p, op := PropOf(prop).value, OperatorOf(opTok).value;
      pos := pos + 1;
      var v := Peek();
      if p.Flag? {
        if (!op.Eq? && !op.Ne?) || (!IsWord(v, "true") && !IsWord(v, "false")) {
          return None;
        }
        pos := pos + 1;
        return Some(Leaf(Enabled(op.Eq?, IsWord(v, "true"))));
      }
      if op.In? || op.NotIn? {
        var values := Array();
        return if values.None? then None else Some(Leaf(Compare(p.attr, op, None, values.value)));
      }
      if Done() {
        return None;
      } else if v.kind.Quoted? {
        pos := pos + 1;
        return Some(Leaf(Compare(p.attr, op, Some(v.text), [])));
      } else if IsWord(v, "null") && (op.Eq? || op.Ne?) {
        pos := pos + 1;
        return Some(Leaf(Compare(p.attr, op, None, [])));
      }
      return None;
    }

    method Array() returns (r: Option<seq<string>>)
      requires pos <= |toks|
      modifies this
      ensures pos <= |toks|
      ensures old(pos) < |toks| && toks[old(pos)] == Tok(Punct, "[") ==>
              match ParseItems(toks[old(pos) + 1..])
              case None => r.None?
              case Some((d, rest)) => r == Some(ItemValues(d)) && toks[pos..] == rest
      ensures !(old(pos) < |toks| && toks[old(pos)] == Tok(Punct, "[")) ==> r.None?
    {
      var open := Punctuation("[");
      if !open {
        return None;
      }
      var out: seq<string> := [];
      ghost var whole := ItemsRest(toks[pos..]);
      PrefixedNone(whole);
      while true
        invariant old(pos) < pos <= |toks|
        invariant whole == Prefixed(out, ItemsRest(toks[pos..]))
        decreases |toks| - pos
      {
        ghost var at := toks[pos..];
        var v := Peek();
        if !v.kind.Quoted? || Done() {
          return None;
        }
        pos := pos + 1;
        out := out + [Lower(v.text)];
        var close := Punctuation("]");
        if close {
          assert at[2..] == toks[pos..];
          return Some(out);
        }
        var comma := Punctuation(",");
        if !comma {
          return None;
        }
        assert at[2..] == toks[pos..];
        PrefixedTwice(out[..|out| - 1], [Lower(v.text)], ItemsRest(toks[pos..]));
      }
    }
  }

  /** Compiles a rule exactly as the specification says. */
  method CompileRule(src: string) returns (r: Option<Rule>)
    ensures r == ParseRule(src)
  {
    hide Lex, ReportsOf, Trim, Lower, IsGuid, ParseOr, MeanOr;
    var s := Trim(src);
    if s == "" {
      return None;
    }
    match ReportsOf(s) {
      case Some(quoted) =>
        var oid := Lower(Trim(quoted));
        return if IsGuid(oid) then Some(Reports(oid)) else None;
      case None =>
    }
    var toks := LexRule(s);
    if toks.None? {
      return None;
    }
    var p := new RuleParser(toks.value);
    assert toks.value[0..] == toks.value;
    var e := p.Or();
    if e.None? || !p.Done() {
      return None;
    }
    return Some(Boolean(e.value));
  }
}
