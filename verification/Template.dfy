/** ${name} templating of claim values: one replacement pass per parameter, in arbitrary order. */
module Template {
  import opened Text

  type Params = map<string, string>

  // ----- one pass -----

  function Pattern(name: string): (r: string)
    ensures |r| == |name| + 3
  {
    "${" + name + "}"
  }

  /** strings.ReplaceAll: leftmost matches, left to right, what was put in is not read again. */
  function ReplaceAll(s: string, pattern: string, value: string): string
    requires pattern != ""
  {
    if s == "" then ""
    else if HasPrefix(s, pattern) then value + ReplaceAll(s[|pattern|..], pattern, value)
    else [s[0]] + ReplaceAll(s[1..], pattern, value)
  }

  /** One pass per name, in the order given. */
  function Fold(s: string, order: seq<string>, params: Params): string
    requires forall n | n in order :: n in params
  {
    if order == [] then s
    else
      var n := |order| - 1;
      ReplaceAll(Fold(s, order[..n], params), Pattern(order[n]), params[order[n]])
  }

  /** Every name once. */
  ghost predicate Enumerates(order: seq<string>, params: Params) {
    (forall n :: n in order <==> n in params) && forall i, j | 0 <= i < j < |order| :: order[i] != order[j]
  }

  /** The map range picks the names in any order. */
  method TemplateValue(s0: string, params: Params) returns (s: string)
    ensures exists order :: Enumerates(order, params) && s == Fold(s0, order, params)
  {
    hide ReplaceAll;
    s := s0;
    ghost var order: seq<string> := [];
    var todo := params.Keys;
    while todo != {}
      invariant todo <= params.Keys
      invariant forall n :: n in order <==> n in params.Keys - todo
      invariant forall i, j | 0 <= i < j < |order| :: order[i] != order[j]
      invariant s == Fold(s0, order, params)
      decreases todo
    {
      var name :| name in todo;
      todo := todo - {name};
      s := ReplaceAll(s, Pattern(name), params[name]);
      ghost var was := order;
      assert forall i | 0 <= i < |was| :: was[i] in was;
      order := was + [name];
      assert order[..|order| - 1] == was;
    }
  }

  // ----- one simultaneous substitution -----

  /** The name of the placeholder s opens with, when it is closed. */
  function Placeholder(s: string): (r: Option<string>)
    ensures r.Some? ==> HasPrefix(s, Pattern(r.value)) && '}' !in r.value
    ensures r.None? ==> forall n: string {:trigger Pattern(n)} | '}' !in n :: !HasPrefix(s, Pattern(n))
  {
    if HasPrefix(s, "${") && '}' in s[2..] then
      var n := Upto(s[2..]);
      assert s[..|n| + 3] == s[..2] + s[2..][..|n|] + s[2..][|n|..|n| + 1];
      Some(n)
    else
      NoPattern(s);
      None
  }

  /** The text before the first closing brace. */
  function Upto(s: string): (r: string)
    ensures '}' !in r && |r| <= |s| && r == s[..|r|]
    ensures '}' in s ==> |r| < |s| && s[|r|] == '}'
    ensures '}' !in s ==> r == s
  {
    if s == "" || s[0] == '}' then ""
    else
      var r := Upto(s[1..]);
      assert s[..|r| + 1] == [s[0]] + s[1..][..|r|] && s == [s[0]] + s[1..];
      [s[0]] + r
  }

  lemma PatternParts(s: string, n: string)
    requires HasPrefix(s, Pattern(n))
    ensures HasPrefix(s, "${") && |n| < |s[2..]| && s[2..][|n|] == '}' && s[2..][..|n|] == n
  {
    var p := s[..|n| + 3];
    assert p == Pattern(n) && p[..2] == "${" && p[|n| + 2] == '}' && p[2..|n| + 2] == n;
    assert s[..2] == p[..2] && s[2..][..|n|] == p[2..|n| + 2];
  }

  lemma NoPattern(s: string)
    requires !(HasPrefix(s, "${") && '}' in s[2..])
    ensures forall n: string {:trigger Pattern(n)} :: !HasPrefix(s, Pattern(n))
  {
    forall n: string {:trigger Pattern(n)}
      ensures !HasPrefix(s, Pattern(n))
    {
      if HasPrefix(s, Pattern(n)) {
        PatternParts(s, n);
      }
    }
  }

  /** Two closed placeholders at the same place have the same name. */
  lemma PlaceholderIs(s: string, n: string)
    requires HasPrefix(s, Pattern(n)) && '}' !in n
    ensures Placeholder(s) == Some(n)
  {
    PatternParts(s, n);
    var t := s[2..];
    var m := Placeholder(s).value;
    PatternParts(s, m);
    assert forall i | 0 <= i < |n| :: n[i] == t[i];
    assert forall i | 0 <= i < |m| :: m[i] == t[i];
  }

  /** Every closed placeholder whose name has a value becomes that value, all at once. */
  function Subst(s: string, params: Params): string {
    if s == "" then ""
    else
      var p := Placeholder(s);
      if p.Some? && p.value in params then params[p.value] + Subst(s[|p.value| + 3..], params)
      else [s[0]] + Subst(s[1..], params)
  }

  // ----- when the order does not matter -----

  predicate PlainText(s: string) {
    forall c | c in s :: c != '$' && c != '{' && c != '}'
  }

  /** Names and values hold none of the three marks. */
  predicate PlainParams(params: Params) {
    forall n | n in params :: PlainText(n) && PlainText(params[n])
  }

  /** s opens with a placeholder that is substituted. */
  predicate Hole(s: string, params: Params) {
    Placeholder(s).Some? && Placeholder(s).value in params
  }

  /** What follows the placeholder s opens with. */
  function Past(s: string): (r: string)
    requires Placeholder(s).Some?
    ensures |r| < |s|
  {
    s[|Placeholder(s).value| + 3..]
  }

  /** Once the placeholders of params are substituted, s starts with name and a closing brace:
      characters of s and whole values spell it. */
  predicate Closes(s: string, params: Params, name: string) {
    s != "" &&
    if Hole(s, params) then
      var value := params[Placeholder(s).value];
      HasPrefix(name, value) && Closes(Past(s), params, name[|value|..])
    else if name == "" then s[0] == '}'
    else s[0] == name[0] && Closes(s[1..], params, name[1..])
  }

  /** Likewise for an opening brace: only empty values may come before it. */
  predicate Opens(s: string, params: Params, name: string) {
    s != "" &&
    if Hole(s, params) then params[Placeholder(s).value] == "" && Opens(Past(s), params, name)
    else s[0] == '{' && Closes(s[1..], params, name)
  }

  /** s starts with a dollar sign that substituting params turns into a placeholder ${name}. */
  predicate Spells(s: string, params: Params, name: string) {
    s != "" && s[0] == '$' && Opens(s[1..], params, name)
  }

  /** A placeholder ${name} is spelled where the text has none. */
  predicate SpelledHere(s: string, params: Params, name: string) {
    Spells(s, params, name) && !HasPrefix(s, Pattern(name))
  }

  predicate NewlySpelled(s: string, params: Params, name: string) {
    exists i | 0 <= i < |s| :: SpelledHere(s[i..], params, name)
  }

  /** Substituting all the other names spells no placeholder the text does not hold already. */
  predicate NothingSpelled(s: string, params: Params) {
    forall n | n in params :: !NewlySpelled(s, params - {n}, n)
  }

  // ----- small steps -----

  lemma PlainMarks(s: string)
    requires PlainText(s)
    ensures '$' !in s && '{' !in s && '}' !in s
  {
  }

  lemma PlainRest(s: string, i: nat)
    requires PlainText(s) && i <= |s|
    ensures PlainText(s[i..])
  {
    assert forall c | c in s[i..] :: c in s;
  }

  lemma PlainValue(params: Params, s: string)
    requires PlainParams(params) && Hole(s, params)
    ensures PlainText(Placeholder(s).value) && PlainText(params[Placeholder(s).value])
  {
  }

  lemma SubstHole(s: string, m: Params)
    requires Hole(s, m)
    ensures s == Pattern(Placeholder(s).value) + Past(s)
    ensures Subst(s, m) == m[Placeholder(s).value] + Subst(Past(s), m)
  {
    hide Placeholder;
    var k := |Placeholder(s).value| + 3;
    assert s == s[..k] + s[k..] && s[..k] == Pattern(Placeholder(s).value) && k <= |s|;
    assert Subst(s, m) == m[Placeholder(s).value] + Subst(s[k..], m);
  }

  lemma SubstText(s: string, m: Params)
    requires s != "" && !Hole(s, m)
    ensures Subst(s, m) == [s[0]] + Subst(s[1..], m)
  {
  }

  lemma SubstEmpty(m: Params)
    ensures Subst("", m) == ""
  {
  }

  lemma HoleStarts(s: string, m: Params)
    requires Hole(s, m)
    ensures |s| >= 3 && s[0] == '$' && s[1] == '{'
  {
    var p := Pattern(Placeholder(s).value);
    assert p[0] == '$' && p[1] == '{' && s[..|p|] == p;
  }

  lemma HoleOf(n: string, rest: string, m: Params)
    requires PlainText(n)
    ensures Placeholder(Pattern(n) + rest) == Some(n) && Past(Pattern(n) + rest) == rest
    ensures Hole(Pattern(n) + rest, m) <==> n in m
  {
    hide Placeholder;
    PlainMarks(n);
    var s := Pattern(n) + rest;
    assert s[..|n| + 3] == Pattern(n) && s[|n| + 3..] == rest;
    PlaceholderIs(s, n);
  }

  lemma {:induction false} SubstCopies(plain: string, s: string, m: Params)
    requires '$' !in plain
    ensures Subst(plain + s, m) == plain + Subst(s, m)
  {
    hide Subst;
    if plain == "" {
      assert plain + s == s;
    } else {
      var t := plain + s;
      assert t[0] == plain[0] && t[1..] == plain[1..] + s && plain == [plain[0]] + plain[1..];
      SubstCopies(plain[1..], s, m);
      assert t[0] in plain;
      if Hole(t, m) {
        HoleStarts(t, m);
      }
      SubstText(t, m);
    }
  }

  /** A placeholder that is not substituted is copied whole. */
  lemma SubstKeeps(n: string, rest: string, m: Params)
    requires PlainText(n) && n !in m
    ensures Subst(Pattern(n) + rest, m) == Pattern(n) + Subst(rest, m)
  {
    hide Subst, Placeholder, PlainText;
    var s := Pattern(n) + rest;
    HoleOf(n, rest, m);
    SubstText(s, m);
    PlainMarks(n);
    var tail := "{" + n + "}";
    assert Pattern(n) == ['$'] + tail && s[0] == '$' && s[1..] == tail + rest;
    SubstCopies(tail, rest, m);
  }

  lemma {:induction false} ReplaceOverPlain(plain: string, s: string, pattern: string, value: string)
    requires '$' !in plain && pattern != "" && pattern[0] == '$'
    ensures ReplaceAll(plain + s, pattern, value) == plain + ReplaceAll(s, pattern, value)
  {
    if plain == "" {
      assert plain + s == s;
    } else {
      assert (plain + s)[0] == plain[0] && (plain + s)[1..] == plain[1..] + s;
      assert !HasPrefix(plain + s, pattern) by {
        assert plain[0] in plain;
      }
      ReplaceOverPlain(plain[1..], s, pattern, value);
      assert plain == [plain[0]] + plain[1..];
    }
  }

  lemma ReplaceHere(s: string, rest: string, pattern: string, value: string)
    requires pattern != "" && s == pattern + rest
    ensures ReplaceAll(s, pattern, value) == value + ReplaceAll(rest, pattern, value)
  {
    assert s[|pattern|..] == rest && s[..|pattern|] == pattern;
  }

  lemma ReplaceNotHere(c: char, rest: string, pattern: string, value: string)
    requires pattern != "" && !HasPrefix([c] + rest, pattern)
    ensures ReplaceAll([c] + rest, pattern, value) == [c] + ReplaceAll(rest, pattern, value)
  {
    assert ([c] + rest)[1..] == rest;
  }

  lemma PrefixOfCons(c: char, t: string, d: char, p: string)
    ensures HasPrefix([c] + t, [d] + p) <==> c == d && HasPrefix(t, p)
  {
    if HasPrefix([c] + t, [d] + p) {
      assert ([c] + t)[..|p| + 1] == [c] + t[..|p|];
      assert ([c] + t[..|p|])[0] == ([d] + p)[0] && ([c] + t[..|p|])[1..] == ([d] + p)[1..];
    }
    if c == d && HasPrefix(t, p) {
      assert ([c] + t)[..|p| + 1] == [c] + t[..|p|];
    }
  }

  // ----- what substituted text spells -----

  /** A text starts with name and a closing brace after a value exactly when the value is the
      start of the name and the rest follows. */
  lemma ValueThenClose(value: string, t: string, name: string)
    requires PlainText(value)
    ensures HasPrefix(value + t, name + "}") <==> HasPrefix(name, value) && HasPrefix(t, name[|value|..] + "}")
  {
    var u, p := value + t, name + "}";
    if HasPrefix(u, p) {
      ValueFits(value, t, name);
    }
    if HasPrefix(name, value) {
      var rest := name[|value|..] + "}";
      assert p == value + rest && |p| == |value| + |rest|;
      assert |p| <= |u| ==> u[..|p|] == value + t[..|rest|];
      if HasPrefix(u, p) {
        assert (value + t[..|rest|])[|value|..] == (value + rest)[|value|..];
      }
    }
  }

  lemma ValueFits(value: string, t: string, name: string)
    requires PlainText(value) && HasPrefix(value + t, name + "}")
    ensures HasPrefix(name, value)
  {
    var u, p := value + t, name + "}";
    assert p[|name|] == '}' && u[..|p|] == p && u[|name|] == u[..|p|][|name|];
    assert forall i | 0 <= i < |value| :: u[i] == value[i] && value[i] in value;
    assert u[..|p|][..|value|] == u[..|value|] == value && p[..|value|] == name[..|value|];
  }

  lemma {:induction false} ClosesExactly(s: string, m: Params, name: string)
    requires PlainParams(m) && PlainText(name)
    ensures Closes(s, m, name) <==> HasPrefix(Subst(s, m), name + "}")
    decreases |s|
  {
    hide Subst, Hole, PlainText, PlainParams;
    if s == "" {
      SubstEmpty(m);
    } else if Hole(s, m) {
      CloseHole(s, m, name);
    } else {
      SubstText(s, m);
      if name == "" {
        PrefixOfCons(s[0], Subst(s[1..], m), '}', "");
        assert "" + "}" == ['}'] + "";
      } else {
        PlainRest(name, 1);
        ClosesExactly(s[1..], m, name[1..]);
        assert name + "}" == [name[0]] + (name[1..] + "}");
        PrefixOfCons(s[0], Subst(s[1..], m), name[0], name[1..] + "}");
      }
    }
  }

  lemma CloseHole(s: string, m: Params, name: string)
    requires PlainParams(m) && PlainText(name) && Hole(s, m)
    ensures Closes(s, m, name) <==> HasPrefix(Subst(s, m), name + "}")
    decreases |s|, 0
  {
    hide Subst, PlainText, PlainParams, Placeholder;
    var value := m[Placeholder(s).value];
    SubstHole(s, m);
    PlainValue(m, s);
    ValueThenClose(value, Subst(Past(s), m), name);
    if HasPrefix(name, value) {
      PlainRest(name, |value|);
      ClosesExactly(Past(s), m, name[|value|..]);
    }
  }

  lemma {:induction false} OpensExactly(s: string, m: Params, name: string)
    requires PlainParams(m) && PlainText(name)
    ensures Opens(s, m, name) <==> HasPrefix(Subst(s, m), "{" + name + "}")
  {
    hide Subst, PlainText, PlainParams, Placeholder;
    var p := "{" + name + "}";
    if s == "" {
      SubstEmpty(m);
    } else if Hole(s, m) {
      var value := m[Placeholder(s).value];
      SubstHole(s, m);
      if value == "" {
        OpensExactly(Past(s), m, name);
        assert value + Subst(Past(s), m) == Subst(Past(s), m);
      } else {
        var u := value + Subst(Past(s), m);
        assert u[0] == value[0] && value[0] in value && p[0] == '{';
        assert HasPrefix(u, p) ==> u[..|p|][0] == '{' && u[..|p|][0] == value[0];
        PlainValue(m, s);
        PlainMarks(value);
      }
    } else {
      SubstText(s, m);
      ClosesExactly(s[1..], m, name);
      assert p == ['{'] + (name + "}");
      PrefixOfCons(s[0], Subst(s[1..], m), '{', name + "}");
    }
  }

  /** Where no placeholder is substituted, the scan finds exactly what the substituted text starts with. */
  lemma SpellsExactly(s: string, m: Params, name: string)
    requires PlainParams(m) && PlainText(name) && s != "" && !Hole(s, m)
    ensures Spells(s, m, name) <==> HasPrefix(Subst(s, m), Pattern(name))
  {
    hide Subst, PlainText, PlainParams, Hole;
    SubstText(s, m);
    OpensExactly(s[1..], m, name);
    assert Pattern(name) == ['$'] + ("{" + name + "}");
    PrefixOfCons(s[0], Subst(s[1..], m), '$', "{" + name + "}");
  }

  /** A substituted placeholder itself spells nothing else. */
  lemma HoleSpellsNothing(s: string, m: Params, name: string)
    requires PlainParams(m) && PlainText(name) && name !in m && Hole(s, m)
    ensures !Spells(s, m, name)
  {
    hide Subst, PlainText, PlainParams, Placeholder;
    PlainValue(m, s);
    SubstHole(s, m);
    var n, rest := Placeholder(s).value, Past(s);
    PlainMarks(n);
    PlainMarks(name);
    OpensExactly(s[1..], m, name);
    assert Pattern(n) == ['$'] + ("{" + n + "}");
    assert s[1..] == ("{" + n + "}") + rest;
    SubstCopies("{" + n + "}", rest, m);
    var t := "{" + n + "}" + Subst(rest, m);
    if HasPrefix(t, "{" + name + "}") {
      assert ['$'] + t == Pattern(n) + Subst(rest, m);
      PrefixOfCons('$', t, '$', "{" + name + "}");
      assert Pattern(name) == ['$'] + ("{" + name + "}");
      HoleOf(n, Subst(rest, m), m);
      PlaceholderIs(Pattern(n) + Subst(rest, m), name);
    }
  }

  // ----- one pass after others -----

  function Dollars(s: string): nat {
    multiset(s)['$']
  }

  lemma NoDollars(s: string)
    requires '$' !in s
    ensures Dollars(s) == 0
  {
  }

  lemma DollarsAdd(a: string, b: string)
    ensures Dollars(a + b) == Dollars(a) + Dollars(b)
  {
  }

  /** Within a substituted placeholder nothing is newly spelled. */
  lemma SpelledPast(s: string, m: Params, name: string)
    requires PlainParams(m) && PlainText(name) && name !in m && Placeholder(s).Some? && PlainText(Placeholder(s).value)
    requires Hole(s, m) || Placeholder(s).value == name
    ensures NewlySpelled(s, m, name) <==> NewlySpelled(Past(s), m, name)
  {
    hide Placeholder, Spells, PlainText, PlainParams;
    var n := Placeholder(s).value;
    var k := |n| + 3;
    PlainMarks(n);
    assert s[..k] == Pattern(n) && s[0..] == s;
    if Hole(s, m) {
      HoleSpellsNothing(s, m, name);
    }
    forall i | 1 <= i < k
      ensures !SpelledHere(s[i..], m, name)
    {
      assert s[i..][0] == s[i] == Pattern(n)[i] != '$';
      NoDollarNoSpell(s[i..], m, name);
    }
    SuffixSpelled(s, k, m, name);
  }

  lemma NoDollarNoSpell(s: string, m: Params, name: string)
    requires s != "" && s[0] != '$'
    ensures !Spells(s, m, name)
  {
  }

  lemma SuffixSpelled(s: string, k: nat, m: Params, name: string)
    requires k <= |s| && forall i | 0 <= i < k :: !SpelledHere(s[i..], m, name)
    ensures NewlySpelled(s, m, name) <==> NewlySpelled(s[k..], m, name)
  {
    hide SpelledHere;
    if NewlySpelled(s, m, name) {
      var i :| 0 <= i < |s| && SpelledHere(s[i..], m, name);
      assert s[k..][i - k..] == s[i..];
    }
    if NewlySpelled(s[k..], m, name) {
      var i :| 0 <= i < |s[k..]| && SpelledHere(s[k..][i..], m, name);
      assert s[k..][i..] == s[i + k..];
    }
  }

  lemma SpelledNext(s: string, m: Params, name: string)
    requires s != ""
    ensures NewlySpelled(s, m, name) <==> SpelledHere(s, m, name) || NewlySpelled(s[1..], m, name)
  {
    hide SpelledHere;
    assert s[0..] == s;
    if !SpelledHere(s, m, name) {
      SuffixSpelled(s, 1, m, name);
    }
  }

  lemma NothingSpelledInNothing(m: Params, name: string)
    ensures !NewlySpelled("", m, name)
  {
  }

  /** The pass for name, made after those for m, extends the substitution by name exactly when
      nothing is newly spelled; otherwise it leaves fewer dollar signs. */
  lemma {:induction false} PassExactly(s: string, m: Params, name: string, value: string)
    requires PlainParams(m) && PlainText(name) && PlainText(value) && name !in m
    ensures var after, all := ReplaceAll(Subst(s, m), Pattern(name), value), Subst(s, m[name := value]);
            && Dollars(after) <= Dollars(all)
            && (if NewlySpelled(s, m, name) then Dollars(after) < Dollars(all) else after == all)
    decreases |s|
  {
    hide ReplaceAll, Subst, NewlySpelled, Hole, Placeholder, PlainText, PlainParams, Dollars, SpelledHere;
    if s == "" {
      SubstEmpty(m);
      SubstEmpty(m[name := value]);
      ReplaceEmpty(Pattern(name), value);
      NothingSpelledInNothing(m, name);
    } else if Hole(s, m) {
      PassHole(s, m, name, value);
    } else if HasPrefix(s, Pattern(name)) {
      PassOwn(s, m, name, value);
    } else {
      PassText(s, m, name, value);
    }
  }

  lemma ReplaceEmpty(pattern: string, value: string)
    requires pattern != ""
    ensures ReplaceAll("", pattern, value) == ""
  {
  }

  lemma PassHole(s: string, m: Params, name: string, value: string)
    requires PlainParams(m) && PlainText(name) && PlainText(value) && name !in m && Hole(s, m)
    ensures var after, all := ReplaceAll(Subst(s, m), Pattern(name), value), Subst(s, m[name := value]);
            && Dollars(after) <= Dollars(all)
            && (if NewlySpelled(s, m, name) then Dollars(after) < Dollars(all) else after == all)
    decreases |s|, 0
  {
    hide ReplaceAll, Subst, NewlySpelled, Placeholder, PlainText, PlainParams, Dollars;
    var all := m[name := value];
    var own, rest := m[Placeholder(s).value], Past(s);
    PlainValue(m, s);
    PlainMarks(own);
    SubstHole(s, m);
    SubstHole(s, all);
    ReplaceOverPlain(own, Subst(rest, m), Pattern(name), value);
    SpelledPast(s, m, name);
    PassExactly(rest, m, name, value);
    DollarsAdd(own, ReplaceAll(Subst(rest, m), Pattern(name), value));
    DollarsAdd(own, Subst(rest, all));
  }

  lemma PassOwn(s: string, m: Params, name: string, value: string)
    requires PlainParams(m) && PlainText(name) && PlainText(value) && name !in m && HasPrefix(s, Pattern(name))
    ensures var after, all := ReplaceAll(Subst(s, m), Pattern(name), value), Subst(s, m[name := value]);
            && Dollars(after) <= Dollars(all)
            && (if NewlySpelled(s, m, name) then Dollars(after) < Dollars(all) else after == all)
    decreases |s|, 0
  {
    hide ReplaceAll, Subst, NewlySpelled, Placeholder, PlainText, PlainParams, Dollars;
    var all := m[name := value];
    var rest := s[|name| + 3..];
    assert s == Pattern(name) + rest;
    HoleOf(name, rest, m);
    HoleOf(name, rest, all);
    SubstKeeps(name, rest, m);
    SubstHole(s, all);
    ReplaceHere(Subst(s, m), Subst(rest, m), Pattern(name), value);
    SpelledPast(s, m, name);
    PassExactly(rest, m, name, value);
    DollarsAdd(value, ReplaceAll(Subst(rest, m), Pattern(name), value));
    DollarsAdd(value, Subst(rest, all));
  }

  lemma PassText(s: string, m: Params, name: string, value: string)
    requires PlainParams(m) && PlainText(name) && PlainText(value) && name !in m
    requires s != "" && !Hole(s, m) && !HasPrefix(s, Pattern(name))
    ensures var after, all := ReplaceAll(Subst(s, m), Pattern(name), value), Subst(s, m[name := value]);
            && Dollars(after) <= Dollars(all)
            && (if NewlySpelled(s, m, name) then Dollars(after) < Dollars(all) else after == all)
    decreases |s|, 0
  {
    hide ReplaceAll, Subst, NewlySpelled, Placeholder, PlainText, PlainParams, Dollars, Spells, HasPrefix;
    var all := m[name := value];
    NotOwnHole(s, m, name, value);
    SubstText(s, m);
    SubstText(s, all);
    SpelledNext(s, m, name);
    SpellsExactly(s, m, name);
    PassExactly(s[1..], m, name, value);
    var before, after := Subst(s[1..], m), ReplaceAll(Subst(s[1..], m), Pattern(name), value);
    DollarsAdd([s[0]], after);
    DollarsAdd([s[0]], Subst(s[1..], all));
    if Spells(s, m, name) {
      ReplaceNew(s[0], before, name, value);
      DollarAlone();
    } else {
      ReplaceNotHere(s[0], before, Pattern(name), value);
    }
  }

  lemma DollarAlone()
    ensures Dollars(['$']) == 1
  {
  }

  lemma NotOwnHole(s: string, m: Params, name: string, value: string)
    requires !Hole(s, m) && !HasPrefix(s, Pattern(name))
    ensures !Hole(s, m[name := value])
  {
    hide Placeholder;
  }

  /** A newly spelled placeholder is replaced, dollar sign and all. */
  lemma ReplaceNew(c: char, t: string, name: string, value: string)
    requires PlainText(name) && PlainText(value) && HasPrefix([c] + t, Pattern(name))
    ensures c == '$' && Dollars(ReplaceAll([c] + t, Pattern(name), value)) == Dollars(ReplaceAll(t, Pattern(name), value))
  {
    hide ReplaceAll, PlainText, Dollars;
    PlainMarks(name);
    PlainMarks(value);
    var p, tail := Pattern(name), "{" + name + "}";
    var rest := ([c] + t)[|p|..];
    assert [c] + t == p + rest && p == ['$'] + tail;
    assert ([c] + t)[0] == c && t == ([c] + t)[1..] == tail + rest;
    ReplaceHere([c] + t, rest, p, value);
    ReplaceOverPlain(tail, rest, p, value);
    DollarsAdd(value, ReplaceAll(rest, p, value));
    DollarsAdd(tail, ReplaceAll(rest, p, value));
    NoDollars(value);
    NoDollars(tail);
  }

  // ----- placeholders still to come survive a pass -----

  /** How often pattern stands in s. */
  function Count(s: string, pattern: string): nat {
    if s == "" then 0 else (if HasPrefix(s, pattern) then 1 else 0) + Count(s[1..], pattern)
  }

  lemma {:induction false} CountOverPlain(plain: string, s: string, pattern: string)
    requires '$' !in plain && pattern != "" && pattern[0] == '$'
    ensures Count(plain + s, pattern) == Count(s, pattern)
  {
    if plain == "" {
      assert plain + s == s;
    } else {
      var t := plain + s;
      assert t[0] == plain[0] && plain[0] in plain && t[1..] == plain[1..] + s;
      CountOverPlain(plain[1..], s, pattern);
    }
  }

  lemma CountHere(n: string, rest: string, name: string)
    requires PlainText(n) && PlainText(name)
    ensures Count(Pattern(n) + rest, Pattern(name)) == (if n == name then 1 else 0) + Count(rest, Pattern(name))
  {
    hide PlainText, HasPrefix, Placeholder;
    PlainMarks(n);
    PlainMarks(name);
    var s, tail := Pattern(n) + rest, "{" + n + "}";
    assert Pattern(n) == ['$'] + tail && s[1..] == tail + rest;
    CountOverPlain(tail, rest, Pattern(name));
    HoleOf(n, rest, map[]);
    if HasPrefix(s, Pattern(name)) {
      PlaceholderIs(s, name);
    }
    StartsWithSelf(Pattern(n), rest);
  }

  lemma StartsWithSelf(p: string, rest: string)
    ensures HasPrefix(p + rest, p)
  {
  }

  /** Every replacement takes one dollar sign away. */
  lemma {:induction false} PassTakes(s: string, name: string, value: string)
    requires PlainText(name) && PlainText(value)
    ensures Dollars(ReplaceAll(s, Pattern(name), value)) + Count(s, Pattern(name)) == Dollars(s)
    decreases |s|
  {
    hide PlainText, HasPrefix, Dollars, ReplaceAll, Pattern;
    var p := Pattern(name);
    if s == "" {
      ReplaceEmpty(p, value);
    } else if HasPrefix(s, p) {
      PrefixRest(s, p);
      var rest := s[|p|..];
      ReplaceHere(s, rest, p, value);
      PassTakes(rest, name, value);
      CountHere(name, rest, name);
      DollarsAdd(value, ReplaceAll(rest, p, value));
      DollarsAdd(p, rest);
      PlainMarks(value);
      NoDollars(value);
      PatternDollar(name);
    } else {
      assert s == [s[0]] + s[1..];
      ReplaceNotHere(s[0], s[1..], p, value);
      PassTakes(s[1..], name, value);
      DollarsAdd([s[0]], s[1..]);
      DollarsAdd([s[0]], ReplaceAll(s[1..], p, value));
    }
  }

  lemma PrefixRest(s: string, p: string)
    requires HasPrefix(s, p)
    ensures |p| <= |s| && s == p + s[|p|..]
  {
  }

  lemma PatternDollar(name: string)
    requires PlainText(name)
    ensures Dollars(Pattern(name)) == 1
  {
    hide PlainText;
    PlainMarks(name);
    assert Pattern(name) == ['$'] + ("{" + name + "}");
    NoDollars("{" + name + "}");
  }

  /** A pass for one name keeps the placeholders of every other. */
  lemma {:induction false} PassKeepsOthers(s: string, name: string, value: string, other: string)
    requires PlainText(name) && PlainText(value) && PlainText(other) && name != other
    ensures Count(ReplaceAll(s, Pattern(name), value), Pattern(other)) >= Count(s, Pattern(other))
    decreases |s|
  {
    hide PlainText, HasPrefix, ReplaceAll, Pattern;
    var p, o := Pattern(name), Pattern(other);
    if s == "" {
      ReplaceEmpty(p, value);
    } else if HasPrefix(s, p) {
      PrefixRest(s, p);
      var rest := s[|p|..];
      ReplaceHere(s, rest, p, value);
      PassKeepsOthers(rest, name, value, other);
      CountHere(name, rest, other);
      PlainMarks(value);
      PatternStart(other);
      CountOverPlain(value, ReplaceAll(rest, p, value), o);
    } else {
      assert s == [s[0]] + s[1..];
      ReplaceNotHere(s[0], s[1..], p, value);
      PassKeepsOthers(s[1..], name, value, other);
      var t := [s[0]] + ReplaceAll(s[1..], p, value);
      assert t[0] == s[0] && t[1..] == ReplaceAll(s[1..], p, value);
      if HasPrefix(s, o) {
        PassKeepsStart(s, name, value, other);
      }
    }
  }

  lemma PatternStart(name: string)
    ensures Pattern(name) != "" && Pattern(name)[0] == '$'
  {
  }

  lemma PassKeepsStart(s: string, name: string, value: string, other: string)
    requires PlainText(other) && HasPrefix(s, Pattern(other))
    ensures HasPrefix([s[0]] + ReplaceAll(s[1..], Pattern(name), value), Pattern(other))
  {
    hide PlainText, ReplaceAll;
    PlainMarks(other);
    var tail, rest := "{" + other + "}", s[|other| + 3..];
    assert s == Pattern(other) + rest && Pattern(other) == ['$'] + tail && s[1..] == tail + rest;
    ReplaceOverPlain(tail, rest, Pattern(name), value);
    var left := ReplaceAll(rest, Pattern(name), value);
    assert [s[0]] + (tail + left) == Pattern(other) + left;
    StartsWithSelf(Pattern(other), left);
  }

  /** Substituting one more name takes one dollar sign per placeholder of it in the text. */
  lemma {:induction false} SubstTakes(s: string, m: Params, name: string, value: string)
    requires PlainParams(m) && PlainText(name) && PlainText(value) && name !in m
    ensures Dollars(Subst(s, m[name := value])) + Count(s, Pattern(name)) == Dollars(Subst(s, m))
    decreases |s|
  {
    hide Subst, PlainText, PlainParams, Dollars, HasPrefix, Pattern, Placeholder, Hole;
    var all := m[name := value];
    if s == "" {
      SubstEmpty(m);
      SubstEmpty(all);
    } else if Hole(s, m) {
      TakesHole(s, m, name, value);
    } else if HasPrefix(s, Pattern(name)) {
      TakesOwn(s, m, name, value);
    } else {
      NotOwnHole(s, m, name, value);
      SubstText(s, m);
      SubstText(s, all);
      SubstTakes(s[1..], m, name, value);
      DollarsAdd([s[0]], Subst(s[1..], m));
      DollarsAdd([s[0]], Subst(s[1..], all));
    }
  }

  lemma TakesHole(s: string, m: Params, name: string, value: string)
    requires PlainParams(m) && PlainText(name) && PlainText(value) && name !in m && Hole(s, m)
    ensures Dollars(Subst(s, m[name := value])) + Count(s, Pattern(name)) == Dollars(Subst(s, m))
    decreases |s|, 0
  {
    hide Subst, PlainText, PlainParams, Dollars, Pattern, Placeholder, Count;
    var own, rest := m[Placeholder(s).value], Past(s);
    PlainValue(m, s);
    SubstHole(s, m);
    SubstHole(s, m[name := value]);
    CountHere(Placeholder(s).value, rest, name);
    SubstTakes(rest, m, name, value);
    DollarsAdd(own, Subst(rest, m));
    DollarsAdd(own, Subst(rest, m[name := value]));
  }

  lemma TakesOwn(s: string, m: Params, name: string, value: string)
    requires PlainParams(m) && PlainText(name) && PlainText(value) && name !in m && HasPrefix(s, Pattern(name))
    ensures Dollars(Subst(s, m[name := value])) + Count(s, Pattern(name)) == Dollars(Subst(s, m))
    decreases |s|, 0
  {
    hide Subst, PlainText, PlainParams, Dollars, Placeholder, Count;
    var all := m[name := value];
    var rest := s[|name| + 3..];
    assert s == Pattern(name) + rest;
    HoleOf(name, rest, m);
    HoleOf(name, rest, all);
    SubstKeeps(name, rest, m);
    SubstHole(s, all);
    CountHere(name, rest, name);
    SubstTakes(rest, m, name, value);
    DollarsAdd(Pattern(name), Subst(rest, m));
    DollarsAdd(value, Subst(rest, all));
    PatternDollar(name);
    PlainMarks(value);
    NoDollars(value);
  }

  // ----- every order gives the simultaneous substitution -----

  function Restrict(params: Params, names: seq<string>): Params
    requires forall n | n in names :: n in params
  {
    map n | n in names :: params[n]
  }

  ghost predicate Orders(order: seq<string>, params: Params) {
    (forall n | n in order :: n in params) && forall i, j | 0 <= i < j < |order| :: order[i] != order[j]
  }

  lemma {:induction false} SubstNothing(s: string)
    ensures Subst(s, map[]) == s
  {
    if s != "" {
      SubstNothing(s[1..]);
      assert s == [s[0]] + s[1..];
    }
  }

  /** The last pass of an order. */
  lemma LastPass(s: string, order: seq<string>, params: Params)
    requires order != [] && Orders(order, params) && PlainParams(params)
    ensures var k := |order| - 1; var n := order[k]; var m := Restrict(params, order[..k]);
            && Orders(order[..k], params) && n !in m && Restrict(params, order) == m[n := params[n]]
            && PlainParams(m) && PlainText(n) && PlainText(params[n])
            && Fold(s, order, params) == ReplaceAll(Fold(s, order[..k], params), Pattern(n), params[n])
  {
    hide ReplaceAll, PlainText;
    var k := |order| - 1;
    assert order == order[..k] + [order[k]];
  }

  lemma {:induction false} PassesKeepOthers(s: string, order: seq<string>, params: Params, other: string)
    requires Orders(order, params) && PlainParams(params) && PlainText(other) && other !in order
    ensures Count(Fold(s, order, params), Pattern(other)) >= Count(s, Pattern(other))
  {
    hide ReplaceAll, PlainText, PlainParams, Count, Pattern;
    if order != [] {
      var k := |order| - 1;
      LastPass(s, order, params);
      PassesKeepOthers(s, order[..k], params, other);
      PassKeepsOthers(Fold(s, order[..k], params), order[k], params[order[k]], other);
    }
  }

  /** Whatever the order, the passes give the simultaneous substitution or leave fewer dollar signs. */
  lemma {:induction false} PassesAtMost(s: string, order: seq<string>, params: Params)
    requires Orders(order, params) && PlainParams(params)
    ensures var all := Subst(s, Restrict(params, order));
            Fold(s, order, params) == all || Dollars(Fold(s, order, params)) < Dollars(all)
  {
    hide ReplaceAll, Subst, PlainText, PlainParams, Count, Dollars, NewlySpelled;
    if order == [] {
      SubstNothing(s);
      assert Restrict(params, order) == map[];
    } else {
      var k := |order| - 1;
      var n, before, m := order[k], Fold(s, order[..k], params), Restrict(params, order[..k]);
      LastPass(s, order, params);
      PassesAtMost(s, order[..k], params);
      if before == Subst(s, m) {
        PassExactly(s, m, n, params[n]);
      } else {
        PassesKeepOthers(s, order[..k], params, n);
        PassTakes(before, n, params[n]);
        SubstTakes(s, m, n, params[n]);
      }
    }
  }

  /** What fewer values spell, more values spell too. */
  lemma {:induction false} SpelledByMore(s: string, fewer: Params, m: Params, name: string)
    requires (forall n | n in fewer :: n in m && fewer[n] == m[n]) && PlainText(name) && Closes(s, fewer, name)
    ensures Closes(s, m, name)
    decreases |s|
  {
    hide Placeholder, PlainText;
    if Hole(s, fewer) {
      var value := fewer[Placeholder(s).value];
      PlainRest(name, |value|);
      SpelledByMore(Past(s), fewer, m, name[|value|..]);
    } else {
      assert name != "" ==> name[0] in name;
      PlainMarks(name);
      if Hole(s, m) {
        HoleStarts(s, m);
      } else if name != "" {
        PlainRest(name, 1);
        SpelledByMore(s[1..], fewer, m, name[1..]);
      }
    }
  }

  lemma {:induction false} OpenedByMore(s: string, fewer: Params, m: Params, name: string)
    requires (forall n | n in fewer :: n in m && fewer[n] == m[n]) && PlainText(name) && Opens(s, fewer, name)
    ensures Opens(s, m, name)
    decreases |s|
  {
    hide Placeholder, PlainText;
    if Hole(s, fewer) {
      OpenedByMore(Past(s), fewer, m, name);
    } else if Hole(s, m) {
      HoleStarts(s, m);
    } else {
      SpelledByMore(s[1..], fewer, m, name);
    }
  }

  lemma NewlySpelledByMore(s: string, fewer: Params, m: Params, name: string)
    requires (forall n | n in fewer :: n in m && fewer[n] == m[n]) && PlainText(name) && NewlySpelled(s, fewer, name)
    ensures NewlySpelled(s, m, name)
  {
    hide PlainText;
    var i :| 0 <= i < |s| && SpelledHere(s[i..], fewer, name);
    OpenedByMore(s[i..][1..], fewer, m, name);
    assert SpelledHere(s[i..], m, name);
  }

  lemma {:induction false} PassesAreSubst(s: string, order: seq<string>, params: Params)
    requires Orders(order, params) && PlainParams(params) && NothingSpelled(s, params)
    ensures Fold(s, order, params) == Subst(s, Restrict(params, order))
  {
    hide ReplaceAll, Subst, PlainText, PlainParams, NewlySpelled, Dollars;
    if order == [] {
      SubstNothing(s);
      assert Restrict(params, order) == map[];
    } else {
      var k := |order| - 1;
      var n, m := order[k], Restrict(params, order[..k]);
      LastPass(s, order, params);
      PassesAreSubst(s, order[..k], params);
      if NewlySpelled(s, m, n) {
        NewlySpelledByMore(s, m, params - {n}, n);
      }
      PassExactly(s, m, n, params[n]);
    }
  }

  lemma NamesInOrder(names: set<string>) returns (order: seq<string>)
    ensures (forall n :: n in order <==> n in names) && forall i, j | 0 <= i < j < |order| :: order[i] != order[j]
    decreases names
  {
    order := [];
    if names != {} {
      var n :| n in names;
      order := NamesInOrder(names - {n});
      assert forall i | 0 <= i < |order| :: order[i] in order;
      order := order + [n];
    }
  }

  /** With the spelled name last, the pass for it finds more than the text held. */
  lemma LastPassShows(s: string, order: seq<string>, params: Params)
    requires order != [] && Orders(order, params) && PlainParams(params)
    requires NewlySpelled(s, Restrict(params, order[..|order| - 1]), order[|order| - 1])
    ensures Fold(s, order, params) != Subst(s, Restrict(params, order))
  {
    hide ReplaceAll, Subst, Fold, PlainText, PlainParams, NewlySpelled, Dollars, Count;
    var k := |order| - 1;
    var n, before, m := order[k], Fold(s, order[..k], params), Restrict(params, order[..k]);
    LastPass(s, order, params);
    PassesAtMost(s, order[..k], params);
    if before == Subst(s, m) {
      PassExactly(s, m, n, params[n]);
    } else {
      PassesKeepOthers(s, order[..k], params, n);
      PassTakes(before, n, params[n]);
      SubstTakes(s, m, n, params[n]);
    }
  }

  lemma Restricted(order: seq<string>, m: Params, params: Params)
    requires (forall k :: k in order <==> k in m) && forall k | k in m :: k in params && params[k] == m[k]
    ensures Restrict(params, order) == m
  {
  }

  lemma SpelledLastShows(s: string, params: Params, n: string) returns (order: seq<string>)
    requires PlainParams(params) && n in params && NewlySpelled(s, params - {n}, n)
    ensures Enumerates(order, params) && Fold(s, order, params) != Subst(s, params)
  {
    hide Fold, Subst, PlainParams, NewlySpelled, Restrict;
    var m := params - {n};
    var others := NamesInOrder(m.Keys);
    order := others + [n];
    Restricted(others, m, params);
    Restricted(order, params, params);
    assert order[..|others|] == others;
    LastPassShows(s, order, params);
  }

  /** With plain names and values, every order of the map range amounts to one simultaneous
      substitution exactly when substituting the other names spells no placeholder anew. */
  lemma AnyOrderExactly(s: string, params: Params)
    requires PlainParams(params)
    ensures (forall order | Enumerates(order, params) :: Fold(s, order, params) == Subst(s, params)) <==> NothingSpelled(s, params)
  {
    hide Subst, PlainParams, NewlySpelled, Fold;
    if NothingSpelled(s, params) {
      forall order | Enumerates(order, params)
        ensures Fold(s, order, params) == Subst(s, params)
      {
        PassesAreSubst(s, order, params);
        assert Restrict(params, order) == params;
      }
    } else {
      var n :| n in params && NewlySpelled(s, params - {n}, n);
      var order := SpelledLastShows(s, params, n);
    }
  }

  // ----- inputs where the order shows -----

  /** A value that is a placeholder itself: the order shows. */
  lemma ValueWithMarks()
    ensures var params: Params := map["a" := "${b}", "b" := "x"];
            Fold("${a}", ["a", "b"], params) == "x" && Fold("${a}", ["b", "a"], params) == "${b}"
  {
    var params: Params := map["a" := "${b}", "b" := "x"];
    Single("a", "${b}");
    Single("b", "x");
    assert Pattern("a") == "${a}";
    OtherName("a", "b", "x");
    Folded("${a}", "a", "b", params);
    Folded("${a}", "b", "a", params);
  }

  lemma OtherName(n: string, name: string, value: string)
    requires PlainText(n) && PlainText(name) && n != name
    ensures ReplaceAll(Pattern(n), Pattern(name), value) == Pattern(n)
  {
    hide ReplaceAll, PlainText, HasPrefix, Placeholder;
    PlainMarks(n);
    PlainMarks(name);
    var tail := "{" + n + "}";
    assert Pattern(n) == ['$'] + tail && Pattern(n) + "" == Pattern(n);
    if HasPrefix(Pattern(n), Pattern(name)) {
      HoleOf(n, "", map[]);
      PlaceholderIs(Pattern(n), name);
    }
    ReplaceNotHere('$', tail, Pattern(name), value);
    NoDollarAbsent(tail, name, value);
  }

  /** An empty value lets a dollar sign join the braces after the placeholder. */
  lemma EmptyValueJoins()
    ensures var params: Params := map["a" := "x", "b" := ""];
            Fold("$${b}{a}", ["b", "a"], params) == "x" && Fold("$${b}{a}", ["a", "b"], params) == "${a}"
  {
    hide ReplaceAll, HasPrefix;
    var params: Params := map["a" := "x", "b" := ""];
    EmptyRemoved();
    OtherAbsent();
    Single("a", "x");
    assert Pattern("a") == "${a}";
    Folded("$${b}{a}", "b", "a", params);
    Folded("$${b}{a}", "a", "b", params);
  }

  /** A placeholder inside an unclosed one: its value completes the name. */
  lemma NestedShows()
    ensures var params: Params := map["b" := "x", "ax" := "y"];
            Fold("${a${b}}", ["b", "ax"], params) == "y" && Fold("${a${b}}", ["ax", "b"], params) == "${ax}"
  {
    hide ReplaceAll, HasPrefix;
    var params: Params := map["b" := "x", "ax" := "y"];
    Folded("${a${b}}", "b", "ax", params);
    Folded("${a${b}}", "ax", "b", params);
    NestedInner();
    NestedAbsent();
    Single("ax", "y");
    assert Pattern("ax") == "${ax}";
  }

  lemma NestedInner()
    ensures ReplaceAll("${a${b}}", Pattern("b"), "x") == "${ax}"
  {
    hide ReplaceAll;
    var p := Pattern("b");
    assert p == "${b}" && "${b}}" == p + "}";
    ReplaceHere("${b}}", "}", p, "x");
    Absent("}", "b", "x");
    assert "x" + "}" == "x}";
    var u := ['$'] + "{a${b}}";
    assert u[2] == 'a' && p[2] == 'b' && u == "${a${b}}";
    ReplaceNotHere('$', "{a${b}}", p, "x");
    assert "{a${b}}" == "{a" + "${b}}";
    ReplaceOverPlain("{a", "${b}}", p, "x");
    assert ['$'] + ("{a" + "x}") == "${ax}";
  }

  lemma NestedAbsent()
    ensures ReplaceAll("${a${b}}", Pattern("ax"), "y") == "${a${b}}"
  {
    hide ReplaceAll;
    var s := "${a${b}}";
    forall i | 0 <= i < |s|
      ensures !HasPrefix(s[i..], Pattern("ax"))
    {
      var p := Pattern("ax");
      assert p[0] == '$' && p[2] == 'a' && p[3] == 'x' && s[i..][0] == s[i];
      assert i < 5 ==> s[i..][2] == s[i + 2] && s[i..][3] == s[i + 3];
    }
    Absent(s, "ax", "y");
  }

  /** A name that holds a brace: two patterns overlap. */
  lemma MarkedNameShows()
    ensures var params: Params := map["a" := "x", "a}" := "y"];
            Fold("${a}}", ["a", "a}"], params) == "x}" && Fold("${a}}", ["a}", "a"], params) == "y"
  {
    hide ReplaceAll, HasPrefix;
    var params: Params := map["a" := "x", "a}" := "y"];
    Folded("${a}}", "a", "a}", params);
    Folded("${a}}", "a}", "a", params);
    assert "${a}}" == Pattern("a") + "}" == Pattern("a}");
    ReplaceHere("${a}}", "}", Pattern("a"), "x");
    NoDollarAbsent("}", "a", "x");
    NoDollarAbsent("x}", "a}", "y");
    NoDollarAbsent("y", "a", "x");
    Single("a}", "y");
    assert "x" + "}" == "x}";
  }

  lemma NoDollarAbsent(s: string, name: string, value: string)
    requires '$' !in s
    ensures ReplaceAll(s, Pattern(name), value) == s
  {
    ReplaceOverPlain(s, "", Pattern(name), value);
    assert s + "" == s;
  }

  lemma EmptyRemoved()
    ensures ReplaceAll("$${b}{a}", Pattern("b"), "") == "${a}"
  {
    hide ReplaceAll;
    var u := ['$'] + "${b}{a}";
    assert u == "$${b}{a}" && "${b}{a}" == Pattern("b") + "{a}" && u[1] != Pattern("b")[1];
    ReplaceNotHere('$', "${b}{a}", Pattern("b"), "");
    ReplaceHere("${b}{a}", "{a}", Pattern("b"), "");
    Absent("{a}", "b", "");
    assert "" + "{a}" == "{a}" && ['$'] + "{a}" == "${a}";
  }

  lemma OtherAbsent()
    ensures ReplaceAll("$${b}{a}", Pattern("a"), "x") == "$${b}{a}"
  {
    hide ReplaceAll;
    var s := "$${b}{a}";
    forall i | 0 <= i < |s|
      ensures !HasPrefix(s[i..], Pattern("a"))
    {
      assert s[i..][0] == s[i] && (i < 2 ==> s[i..][1] == s[i + 1] && s[i..][2] == s[i + 2]);
      assert Pattern("a")[0] == '$' && Pattern("a")[1] == '{' && Pattern("a")[2] == 'a';
    }
    Absent(s, "a", "x");
  }

  lemma Folded(s: string, m: string, n: string, params: Params)
    requires m in params && n in params
    ensures Fold(s, [m, n], params) == ReplaceAll(ReplaceAll(s, Pattern(m), params[m]), Pattern(n), params[n])
  {
    hide ReplaceAll;
    assert [m, n][..1] == [m] && [m][..0] == [];
    assert Fold(s, [], params) == s;
    assert Fold(s, [m], params) == ReplaceAll(s, Pattern(m), params[m]);
  }

  lemma Single(name: string, value: string)
    ensures ReplaceAll(Pattern(name), Pattern(name), value) == value
  {
    ReplaceHere(Pattern(name), "", Pattern(name), value);
    assert Pattern(name) + "" == Pattern(name) && ReplaceAll("", Pattern(name), value) == "" && value + "" == value;
  }

  lemma {:induction false} Absent(s: string, name: string, value: string)
    requires forall i | 0 <= i < |s| :: !HasPrefix(s[i..], Pattern(name))
    ensures ReplaceAll(s, Pattern(name), value) == s
  {
    hide HasPrefix, Pattern;
    if s != "" {
      assert s[0..] == s;
      assert forall i | 0 <= i < |s| - 1 :: s[1..][i..] == s[i + 1..];
      Absent(s[1..], name, value);
      assert s == [s[0]] + s[1..];
    }
  }
}
