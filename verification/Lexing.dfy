/** What the two lexers share: words, and reading back tokens printed with blanks between them. */
module Lexing {
  import opened Text

  /** A character before the text of a string literal. */
  function Cons1(c: char, r: Option<(string, string)>): Option<(string, string)> {
    match r
    case None => None
    case Some((text, rest)) => Some(([c] + text, rest))
  }

  function ConsTok<T>(t: T, r: Option<seq<T>>): Option<seq<T>> {
    match r
    case None => None
    case Some(ts) => Some([t] + ts)
  }

  /** The length of the word s starts with. */
  function WordLength(s: string, word: char -> bool): (n: nat)
    ensures n <= |s| && (forall i | 0 <= i < n :: word(s[i])) && (n == |s| || !word(s[n]))
  {
    if s != [] && word(s[0]) then 1 + WordLength(s[1..], word) else 0
  }

  lemma {:induction false} WordLengthIs(w: string, rest: string, word: char -> bool)
    requires (forall i | 0 <= i < |w| :: word(w[i])) && (rest == "" || !word(rest[0]))
    ensures WordLength(w + rest, word) == |w|
  {
    if w == "" {
      assert w + rest == rest;
    } else {
      assert word(w[0]) && (w + rest)[1..] == w[1..] + rest;
      WordLengthIs(w[1..], rest, word);
    }
  }

  /** The tokens printed with one blank between them. */
  function Spaced<T>(ts: seq<T>, printOne: T -> string): string {
    if ts == [] then ""
    else if |ts| == 1 then printOne(ts[0])
    else printOne(ts[0]) + " " + Spaced(ts[1..], printOne)
  }

  /** The lexer skips blanks, and reads each good token back when nothing or a blank follows it. */
  ghost predicate ReadsTokens<T(!new)>(lex: string -> Option<seq<T>>, printOne: T -> string, good: T -> bool) {
    && lex("") == Some([])
    && (forall s :: lex(" " + s) == lex(s))
    && forall t, rest | good(t) && (rest == "" || rest[0] == ' ') :: lex(printOne(t) + rest) == ConsTok(t, lex(rest))
  }

  /** Lexing printed tokens gives the tokens back. */
  lemma {:induction false} SpacedReads<T(!new)>(lex: string -> Option<seq<T>>, printOne: T -> string, good: T -> bool, ts: seq<T>)
    requires ReadsTokens(lex, printOne, good) && forall t | t in ts :: good(t)
    ensures lex(Spaced(ts, printOne)) == Some(ts)
  {
    if |ts| == 1 {
      assert lex(printOne(ts[0]) + "") == ConsTok(ts[0], lex(""));
      assert printOne(ts[0]) + "" == printOne(ts[0]) && [ts[0]] + [] == ts;
    } else if |ts| > 1 {
      var rest := " " + Spaced(ts[1..], printOne);
      assert Spaced(ts, printOne) == printOne(ts[0]) + rest;
      assert lex(printOne(ts[0]) + rest) == ConsTok(ts[0], lex(rest));
      SpacedReads(lex, printOne, good, ts[1..]);
      assert [ts[0]] + ts[1..] == ts;
    }
  }
}
