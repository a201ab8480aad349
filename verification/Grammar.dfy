/** The grammar both query languages share:

      or    := and (OR and)*
      and   := unary (AND unary)*
      unary := NOT unary | OPEN or CLOSE | atom

    A language supplies its tokens and its atoms; this module supplies concrete
    syntax trees (every token kept), the parser, the meaning of a tree (or/and
    chains flattened into lists) and the printer. */
module Grammar {
  import opened Text

  /** What the parsers build: or/and lists, negation, and comparisons. */
  datatype Expr<A> = Or(args: seq<Expr<A>>) | And(args: seq<Expr<A>>) | Not(inner: Expr<A>) | Leaf(atom: A)

  function Eval<A(==)>(e: Expr<A>, leaf: A -> bool): bool {
    match e
    case Or(xs) => exists x | x in xs :: Eval(x, leaf)
    case And(xs) => forall x | x in xs :: Eval(x, leaf)
    case Not(x) => !Eval(x, leaf)
    case Leaf(a) => leaf(a)
  }

  /** Concrete syntax: T is the token type, C the concrete syntax of an atom. */
  datatype OrTree<T, C> = OrTree(head: AndTree<T, C>, tail: OrTail<T, C>)
  datatype OrTail<T, C> = OrEnd | OrMore(kw: T, next: AndTree<T, C>, tail: OrTail<T, C>)
  datatype AndTree<T, C> = AndTree(head: Unary<T, C>, tail: AndTail<T, C>)
  datatype AndTail<T, C> = AndEnd | AndMore(kw: T, next: Unary<T, C>, tail: AndTail<T, C>)
  datatype Unary<T, C> =
    | Negation(kw: T, inner: Unary<T, C>)
    | Group(open: T, body: OrTree<T, C>, close: T)
    | Atom(atom: C)

  /** A language: its keyword tokens, its atom parser, and what an atom yields and means. */
  datatype Lang<!T(==), !C, !A> = Lang(
    isOr: T -> bool, isAnd: T -> bool, isNot: T -> bool, isOpen: T -> bool, isClose: T -> bool,
    parseAtom: seq<T> -> Option<(C, seq<T>)>,
    yieldAtom: C -> seq<T>, validAtom: C -> bool, meanAtom: C -> A)

  /** What the shared proofs need of a language: keywords do not overlap, atoms are
      parsed exactly (soundly, completely, whatever follows) and never look like a
      negation or a group. */
  ghost predicate Lawful<T(!new), C(!new), A>(L: Lang<T, C, A>) {
    && (forall t: T :: L.isOr(t) ==> !L.isAnd(t))
    && (forall t: T :: L.isClose(t) ==> !L.isOr(t) && !L.isAnd(t))
    && (forall t: T :: L.isOpen(t) ==> !L.isNot(t))
    && (forall ts: seq<T> | L.parseAtom(ts).Some? ::
          && L.validAtom(L.parseAtom(ts).value.0)
          && L.yieldAtom(L.parseAtom(ts).value.0) + L.parseAtom(ts).value.1 == ts)
    && (forall c: C | L.validAtom(c) :: AtomStart(L, c))
    && (forall c: C, rest: seq<T> | L.validAtom(c) :: AtomParses(L, c, rest))
  }

  ghost predicate AtomStart<T, C, A>(L: Lang<T, C, A>, c: C) {
    L.yieldAtom(c) != [] && !L.isNot(L.yieldAtom(c)[0]) && !L.isOpen(L.yieldAtom(c)[0])
  }

  ghost predicate AtomParses<T, C, A>(L: Lang<T, C, A>, c: C, rest: seq<T>) {
    L.parseAtom(L.yieldAtom(c) + rest) == Some((c, rest))
  }

  // ----- the parser -----

  function ParseOr<T, C, A>(L: Lang<T, C, A>, ts: seq<T>): (r: Option<(OrTree<T, C>, seq<T>)>)
    ensures r.Some? ==> |r.value.1| < |ts|
    decreases |ts|, 3
  {
    match ParseAnd(L, ts)
    case None => None
    case Some((a, more)) =>
      match ParseOrTail(L, more)
      case None => None
      case Some((t, rest)) => Some((OrTree(a, t), rest))
  }

  function ParseOrTail<T, C, A>(L: Lang<T, C, A>, ts: seq<T>): (r: Option<(OrTail<T, C>, seq<T>)>)
    ensures r.Some? ==> |r.value.1| <= |ts|
    decreases |ts|, 0
  {
    if ts == [] || !L.isOr(ts[0]) then Some((OrEnd, ts))
    else
      match ParseAnd(L, ts[1..])
      case None => None
      case Some((a, more)) =>
        match ParseOrTail(L, more)
        case None => None
        case Some((t, rest)) => Some((OrMore(ts[0], a, t), rest))
  }

  function ParseAnd<T, C, A>(L: Lang<T, C, A>, ts: seq<T>): (r: Option<(AndTree<T, C>, seq<T>)>)
    ensures r.Some? ==> |r.value.1| < |ts|
    decreases |ts|, 2
  {
    match ParseUnary(L, ts)
    case None => None
    case Some((u, more)) =>
      match ParseAndTail(L, more)
      case None => None
      case Some((t, rest)) => Some((AndTree(u, t), rest))
  }

  function ParseAndTail<T, C, A>(L: Lang<T, C, A>, ts: seq<T>): (r: Option<(AndTail<T, C>, seq<T>)>)
    ensures r.Some? ==> |r.value.1| <= |ts|
    decreases |ts|, 0
  {
    if ts == [] || !L.isAnd(ts[0]) then Some((AndEnd, ts))
    else
      match ParseUnary(L, ts[1..])
      case None => None
      case Some((u, more)) =>
        match ParseAndTail(L, more)
        case None => None
        case Some((t, rest)) => Some((AndMore(ts[0], u, t), rest))
  }

  function ParseUnary<T, C, A>(L: Lang<T, C, A>, ts: seq<T>): (r: Option<(Unary<T, C>, seq<T>)>)
    ensures r.Some? ==> |r.value.1| < |ts|
    decreases |ts|, 1
  {
    if ts != [] && L.isNot(ts[0]) then
      match ParseUnary(L, ts[1..])
      case None => None
      case Some((u, rest)) => Some((Negation(ts[0], u), rest))
    else if ts != [] && L.isOpen(ts[0]) then
      match ParseOr(L, ts[1..])
      case None => None
      case Some((o, rest)) =>
        if rest != [] && L.isClose(rest[0]) then Some((Group(ts[0], o, rest[0]), rest[1..])) else None
    else
      match L.parseAtom(ts)
      case None => None
      case Some((c, rest)) => if |rest| < |ts| then Some((Atom(c), rest)) else None
  }

  // ----- the tokens a tree yields, and which trees the grammar derives -----

  function YieldOr<T, C, A>(L: Lang<T, C, A>, d: OrTree<T, C>): seq<T> {
    YieldAnd(L, d.head) + YieldOrTail(L, d.tail)
  }

  function YieldOrTail<T, C, A>(L: Lang<T, C, A>, d: OrTail<T, C>): seq<T> {
    match d
    case OrEnd => []
    case OrMore(kw, next, tail) => [kw] + YieldAnd(L, next) + YieldOrTail(L, tail)
  }

  function YieldAnd<T, C, A>(L: Lang<T, C, A>, d: AndTree<T, C>): seq<T> {
    YieldUnary(L, d.head) + YieldAndTail(L, d.tail)
  }

  function YieldAndTail<T, C, A>(L: Lang<T, C, A>, d: AndTail<T, C>): seq<T> {
    match d
    case AndEnd => []
    case AndMore(kw, next, tail) => [kw] + YieldUnary(L, next) + YieldAndTail(L, tail)
  }

  function YieldUnary<T, C, A>(L: Lang<T, C, A>, d: Unary<T, C>): seq<T> {
    match d
    case Negation(kw, inner) => [kw] + YieldUnary(L, inner)
    case Group(open, body, close) => [open] + YieldOr(L, body) + [close]
    case Atom(c) => L.yieldAtom(c)
  }

  predicate ValidOr<T, C, A>(L: Lang<T, C, A>, d: OrTree<T, C>) {
    ValidAnd(L, d.head) && ValidOrTail(L, d.tail)
  }

  predicate ValidOrTail<T, C, A>(L: Lang<T, C, A>, d: OrTail<T, C>) {
    d.OrMore? ==> L.isOr(d.kw) && ValidAnd(L, d.next) && ValidOrTail(L, d.tail)
  }

  predicate ValidAnd<T, C, A>(L: Lang<T, C, A>, d: AndTree<T, C>) {
    ValidUnary(L, d.head) && ValidAndTail(L, d.tail)
  }

  predicate ValidAndTail<T, C, A>(L: Lang<T, C, A>, d: AndTail<T, C>) {
    d.AndMore? ==> L.isAnd(d.kw) && ValidUnary(L, d.next) && ValidAndTail(L, d.tail)
  }

  predicate ValidUnary<T, C, A>(L: Lang<T, C, A>, d: Unary<T, C>) {
    match d
    case Negation(kw, inner) => L.isNot(kw) && ValidUnary(L, inner)
    case Group(open, body, close) => L.isOpen(open) && ValidOr(L, body) && L.isClose(close)
    case Atom(c) => L.validAtom(c)
  }

  // ----- soundness: what the parser returns is a derivation of what it consumed -----

  lemma {:induction false} OrSound<T(!new), C(!new), A>(L: Lang<T, C, A>, ts: seq<T>)
    requires Lawful(L) && ParseOr(L, ts).Some?
    ensures var (d, rest) := ParseOr(L, ts).value; ValidOr(L, d) && YieldOr(L, d) + rest == ts
    decreases |ts|, 3
  {
    AndSound(L, ts);
    var (a, more) := ParseAnd(L, ts).value;
    OrTailSound(L, more);
    var (t, rest) := ParseOrTail(L, more).value;
    assert YieldAnd(L, a) + (YieldOrTail(L, t) + rest) == YieldOr(L, OrTree(a, t)) + rest;
  }

  lemma {:induction false} OrTailSound<T(!new), C(!new), A>(L: Lang<T, C, A>, ts: seq<T>)
    requires Lawful(L) && ParseOrTail(L, ts).Some?
    ensures var (d, rest) := ParseOrTail(L, ts).value; ValidOrTail(L, d) && YieldOrTail(L, d) + rest == ts
    decreases |ts|, 0
  {
    if ts != [] && L.isOr(ts[0]) {
      AndSound(L, ts[1..]);
      var (a, more) := ParseAnd(L, ts[1..]).value;
      OrTailSound(L, more);
      var (t, rest) := ParseOrTail(L, more).value;
      assert [ts[0]] + (YieldAnd(L, a) + (YieldOrTail(L, t) + rest))
          == YieldOrTail(L, OrMore(ts[0], a, t)) + rest;
    }
  }

  lemma {:induction false} AndSound<T(!new), C(!new), A>(L: Lang<T, C, A>, ts: seq<T>)
    requires Lawful(L) && ParseAnd(L, ts).Some?
    ensures var (d, rest) := ParseAnd(L, ts).value; ValidAnd(L, d) && YieldAnd(L, d) + rest == ts
    decreases |ts|, 2
  {
    UnarySound(L, ts);
    var (u, more) := ParseUnary(L, ts).value;
    AndTailSound(L, more);
    var (t, rest) := ParseAndTail(L, more).value;
    assert YieldUnary(L, u) + (YieldAndTail(L, t) + rest) == YieldAnd(L, AndTree(u, t)) + rest;
  }

  lemma {:induction false} AndTailSound<T(!new), C(!new), A>(L: Lang<T, C, A>, ts: seq<T>)
    requires Lawful(L) && ParseAndTail(L, ts).Some?
    ensures var (d, rest) := ParseAndTail(L, ts).value; ValidAndTail(L, d) && YieldAndTail(L, d) + rest == ts
    decreases |ts|, 0
  {
    if ts != [] && L.isAnd(ts[0]) {
      UnarySound(L, ts[1..]);
      var (u, more) := ParseUnary(L, ts[1..]).value;
      AndTailSound(L, more);
      var (t, rest) := ParseAndTail(L, more).value;
      assert [ts[0]] + (YieldUnary(L, u) + (YieldAndTail(L, t) + rest))
          == YieldAndTail(L, AndMore(ts[0], u, t)) + rest;
    }
  }

  lemma {:induction false} UnarySound<T(!new), C(!new), A>(L: Lang<T, C, A>, ts: seq<T>)
    requires Lawful(L) && ParseUnary(L, ts).Some?
    ensures var (d, rest) := ParseUnary(L, ts).value; ValidUnary(L, d) && YieldUnary(L, d) + rest == ts
    decreases |ts|, 1
  {
    if ts != [] && L.isNot(ts[0]) {
      UnarySound(L, ts[1..]);
    } else if ts != [] && L.isOpen(ts[0]) {
      OrSound(L, ts[1..]);
      var (o, rest) := ParseOr(L, ts[1..]).value;
      assert [ts[0]] + (YieldOr(L, o) + ([rest[0]] + rest[1..]))
          == YieldUnary(L, Group(ts[0], o, rest[0])) + rest[1..];
    }
  }

  // ----- completeness: every derivation is what the parser returns on its tokens -----

  predicate Starts<T>(ts: seq<T>, p: T -> bool) {
    ts != [] && p(ts[0])
  }

  lemma {:induction false} OrComplete<T(!new), C(!new), A>(L: Lang<T, C, A>, d: OrTree<T, C>, rest: seq<T>)
    requires Lawful(L) && ValidOr(L, d)
    requires !Starts(rest, L.isOr) && !Starts(rest, L.isAnd)
    ensures ParseOr(L, YieldOr(L, d) + rest) == Some((d, rest))
    decreases d, 3
  {
    var after := YieldOrTail(L, d.tail) + rest;
    assert YieldOr(L, d) + rest == YieldAnd(L, d.head) + after;
    assert d.tail.OrMore? ==> after[0] == d.tail.kw;
    assert d.tail.OrEnd? ==> after == rest;
    AndComplete(L, d.head, after);
    OrTailComplete(L, d.tail, rest);
  }

  lemma {:induction false} OrTailComplete<T(!new), C(!new), A>(L: Lang<T, C, A>, d: OrTail<T, C>, rest: seq<T>)
    requires Lawful(L) && ValidOrTail(L, d)
    requires !Starts(rest, L.isOr) && !Starts(rest, L.isAnd)
    ensures ParseOrTail(L, YieldOrTail(L, d) + rest) == Some((d, rest))
    decreases d, 0
  {
    var ts := YieldOrTail(L, d) + rest;
    if d.OrMore? {
      var after := YieldOrTail(L, d.tail) + rest;
      assert ts[0] == d.kw && ts[1..] == YieldAnd(L, d.next) + after;
      assert d.tail.OrMore? ==> after[0] == d.tail.kw;
      assert d.tail.OrEnd? ==> after == rest;
      AndComplete(L, d.next, after);
      OrTailComplete(L, d.tail, rest);
    } else {
      assert ts == rest;
    }
  }

  lemma {:induction false} AndComplete<T(!new), C(!new), A>(L: Lang<T, C, A>, d: AndTree<T, C>, rest: seq<T>)
    requires Lawful(L) && ValidAnd(L, d) && !Starts(rest, L.isAnd)
    ensures ParseAnd(L, YieldAnd(L, d) + rest) == Some((d, rest))
    decreases d, 2
  {
    var after := YieldAndTail(L, d.tail) + rest;
    assert YieldAnd(L, d) + rest == YieldUnary(L, d.head) + after;
    UnaryComplete(L, d.head, after);
    AndTailComplete(L, d.tail, rest);
  }

  lemma {:induction false} AndTailComplete<T(!new), C(!new), A>(L: Lang<T, C, A>, d: AndTail<T, C>, rest: seq<T>)
    requires Lawful(L) && ValidAndTail(L, d) && !Starts(rest, L.isAnd)
    ensures ParseAndTail(L, YieldAndTail(L, d) + rest) == Some((d, rest))
    decreases d, 0
  {
    var ts := YieldAndTail(L, d) + rest;
    if d.AndMore? {
      var after := YieldAndTail(L, d.tail) + rest;
      assert ts[0] == d.kw && ts[1..] == YieldUnary(L, d.next) + after;
      UnaryComplete(L, d.next, after);
      AndTailComplete(L, d.tail, rest);
    } else {
      assert ts == rest;
    }
  }

  lemma {:induction false} UnaryComplete<T(!new), C(!new), A>(L: Lang<T, C, A>, d: Unary<T, C>, rest: seq<T>)
    requires Lawful(L) && ValidUnary(L, d)
    ensures ParseUnary(L, YieldUnary(L, d) + rest) == Some((d, rest))
    decreases d, 1
  {
    var ts := YieldUnary(L, d) + rest;
    match d {
      case Negation(kw, inner) =>
        assert ts[0] == kw && ts[1..] == YieldUnary(L, inner) + rest;
        UnaryComplete(L, inner, rest);
      case Group(open, body, close) =>
        assert ts[0] == open && ts[1..] == YieldOr(L, body) + ([close] + rest);
        OrComplete(L, body, [close] + rest);
        assert ([close] + rest)[1..] == rest;
      case Atom(c) =>
        assert AtomStart(L, c) && AtomParses(L, c, rest);
        assert ts[0] == L.yieldAtom(c)[0];
    }
  }

  /** Which token sequences are accepted: the whole input must be one derivation. */
  function Parse<T, C, A>(L: Lang<T, C, A>, ts: seq<T>): Option<OrTree<T, C>> {
    match ParseOr(L, ts)
    case None => None
    case Some((d, rest)) => if rest == [] then Some(d) else None
  }

  /** What starts neither a negation nor a group must start with an atom. */
  lemma NoAtomNoParse<T, C, A>(L: Lang<T, C, A>, ts: seq<T>)
    requires (ts != [] ==> !L.isNot(ts[0]) && !L.isOpen(ts[0])) && L.parseAtom(ts).None?
    ensures Parse(L, ts).None?
  {
    assert ParseUnary(L, ts).None?;
    assert ParseAnd(L, ts).None?;
    assert ParseOr(L, ts).None?;
  }

  /** The parser accepts exactly the sequences the grammar derives, and returns the derivation. */
  lemma ParseIsExact<T(!new), C(!new), A>(L: Lang<T, C, A>, ts: seq<T>, d: OrTree<T, C>)
    requires Lawful(L)
    ensures Parse(L, ts) == Some(d) <==> ValidOr(L, d) && YieldOr(L, d) == ts
  {
    if Parse(L, ts) == Some(d) {
      OrSound(L, ts);
      assert YieldOr(L, d) + [] == YieldOr(L, d);
    }
    if ValidOr(L, d) && YieldOr(L, d) == ts {
      OrComplete(L, d, []);
      assert YieldOr(L, d) + [] == ts;
    }
  }

  /** The grammar is unambiguous: a token sequence has one derivation at most. */
  lemma DerivationIsUnique<T(!new), C(!new), A>(L: Lang<T, C, A>, d: OrTree<T, C>, d': OrTree<T, C>)
    requires Lawful(L) && ValidOr(L, d) && ValidOr(L, d') && YieldOr(L, d) == YieldOr(L, d')
    ensures d == d'
  {
    ParseIsExact(L, YieldOr(L, d), d);
    ParseIsExact(L, YieldOr(L, d), d');
  }

  // ----- meaning -----

  function MeanOr<T, C, A>(L: Lang<T, C, A>, d: OrTree<T, C>): Expr<A> {
    Flatten(true, [MeanAnd(L, d.head)] + MeanOrTail(L, d.tail))
  }

  function MeanOrTail<T, C, A>(L: Lang<T, C, A>, d: OrTail<T, C>): seq<Expr<A>> {
    match d
    case OrEnd => []
    case OrMore(_, next, tail) => [MeanAnd(L, next)] + MeanOrTail(L, tail)
  }

  function MeanAnd<T, C, A>(L: Lang<T, C, A>, d: AndTree<T, C>): Expr<A> {
    Flatten(false, [MeanUnary(L, d.head)] + MeanAndTail(L, d.tail))
  }

  function MeanAndTail<T, C, A>(L: Lang<T, C, A>, d: AndTail<T, C>): seq<Expr<A>> {
    match d
    case AndEnd => []
    case AndMore(_, next, tail) => [MeanUnary(L, next)] + MeanAndTail(L, tail)
  }

  function MeanUnary<T, C, A>(L: Lang<T, C, A>, d: Unary<T, C>): Expr<A> {
    match d
    case Negation(_, inner) => Not(MeanUnary(L, inner))
    case Group(_, body, _) => MeanOr(L, body)
    case Atom(c) => Leaf(L.meanAtom(c))
  }

  /** A chain of one is its only member; a longer one is a list. */
  function Flatten<A>(disjunction: bool, xs: seq<Expr<A>>): Expr<A>
    requires xs != []
  {
    if |xs| == 1 then xs[0] else if disjunction then Or(xs) else And(xs)
  }

  // ----- truth of a derivation, read off the grammar, against the evaluator -----

  ghost predicate TruthOr<T, C, A>(L: Lang<T, C, A>, d: OrTree<T, C>, leaf: A -> bool) {
    TruthAnd(L, d.head, leaf) || TruthOrTail(L, d.tail, leaf)
  }

  ghost predicate TruthOrTail<T, C, A>(L: Lang<T, C, A>, d: OrTail<T, C>, leaf: A -> bool) {
    d.OrMore? && (TruthAnd(L, d.next, leaf) || TruthOrTail(L, d.tail, leaf))
  }

  ghost predicate TruthAnd<T, C, A>(L: Lang<T, C, A>, d: AndTree<T, C>, leaf: A -> bool) {
    TruthUnary(L, d.head, leaf) && TruthAndTail(L, d.tail, leaf)
  }

  ghost predicate TruthAndTail<T, C, A>(L: Lang<T, C, A>, d: AndTail<T, C>, leaf: A -> bool) {
    d.AndMore? ==> TruthUnary(L, d.next, leaf) && TruthAndTail(L, d.tail, leaf)
  }

  ghost predicate TruthUnary<T, C, A>(L: Lang<T, C, A>, d: Unary<T, C>, leaf: A -> bool) {
    match d
    case Negation(_, inner) => !TruthUnary(L, inner, leaf)
    case Group(_, body, _) => TruthOr(L, body, leaf)
    case Atom(c) => leaf(L.meanAtom(c))
  }

  lemma FlattenTruth<A>(disjunction: bool, xs: seq<Expr<A>>, leaf: A -> bool)
    requires xs != []
    ensures Eval(Flatten(disjunction, xs), leaf) ==
            if disjunction then exists x | x in xs :: Eval(x, leaf) else forall x | x in xs :: Eval(x, leaf)
  {
    assert xs[0] in xs;
    if |xs| == 1 {
      assert forall x | x in xs :: x == xs[0];
    }
  }

  /** Flattening keeps the truth value the grammar gives: NOT binds tightest, then AND, then OR. */
  lemma {:induction false} MeaningOr<T, C, A>(L: Lang<T, C, A>, d: OrTree<T, C>, leaf: A -> bool)
    ensures Eval(MeanOr(L, d), leaf) == TruthOr(L, d, leaf)
    decreases d, 1
  {
    var xs := [MeanAnd(L, d.head)] + MeanOrTail(L, d.tail);
    FlattenTruth(true, xs, leaf);
    MeaningAnd(L, d.head, leaf);
    MeaningOrTail(L, d.tail, leaf);
    assert xs[0] in xs && forall x :: x in xs <==> x == xs[0] || x in MeanOrTail(L, d.tail);
  }

  lemma {:induction false} MeaningOrTail<T, C, A>(L: Lang<T, C, A>, d: OrTail<T, C>, leaf: A -> bool)
    ensures (exists x | x in MeanOrTail(L, d) :: Eval(x, leaf)) == TruthOrTail(L, d, leaf)
    decreases d, 0
  {
    if d.OrMore? {
      MeaningAnd(L, d.next, leaf);
      MeaningOrTail(L, d.tail, leaf);
      var xs := MeanOrTail(L, d);
      assert xs[0] in xs && forall x :: x in xs <==> x == xs[0] || x in MeanOrTail(L, d.tail);
    }
  }

  lemma {:induction false} MeaningAnd<T, C, A>(L: Lang<T, C, A>, d: AndTree<T, C>, leaf: A -> bool)
    ensures Eval(MeanAnd(L, d), leaf) == TruthAnd(L, d, leaf)
    decreases d, 1
  {
    var xs := [MeanUnary(L, d.head)] + MeanAndTail(L, d.tail);
    FlattenTruth(false, xs, leaf);
    MeaningUnary(L, d.head, leaf);
    MeaningAndTail(L, d.tail, leaf);
    assert xs[0] in xs && forall x :: x in xs <==> x == xs[0] || x in MeanAndTail(L, d.tail);
  }

  lemma {:induction false} MeaningAndTail<T, C, A>(L: Lang<T, C, A>, d: AndTail<T, C>, leaf: A -> bool)
    ensures (forall x | x in MeanAndTail(L, d) :: Eval(x, leaf)) == TruthAndTail(L, d, leaf)
    decreases d, 0
  {
    if d.AndMore? {
      MeaningUnary(L, d.next, leaf);
      MeaningAndTail(L, d.tail, leaf);
      var xs := MeanAndTail(L, d);
      assert xs[0] in xs && forall x :: x in xs <==> x == xs[0] || x in MeanAndTail(L, d.tail);
    }
  }

  lemma {:induction false} MeaningUnary<T, C, A>(L: Lang<T, C, A>, d: Unary<T, C>, leaf: A -> bool)
    ensures Eval(MeanUnary(L, d), leaf) == TruthUnary(L, d, leaf)
    decreases d, 0
  {
    match d {
      case Negation(_, inner) => MeaningUnary(L, inner, leaf);
      case Group(_, body, _) => MeaningOr(L, body, leaf);
      case Atom(_) =>
    }
  }

  // ----- putting derivations together -----

  function Appended<T, C>(a: OrTail<T, C>, b: OrTail<T, C>): OrTail<T, C> {
    match a
    case OrEnd => b
    case OrMore(kw, next, tail) => OrMore(kw, next, Appended(tail, b))
  }

  lemma {:induction false} AppendedTail<T, C, A>(L: Lang<T, C, A>, a: OrTail<T, C>, b: OrTail<T, C>, leaf: A -> bool)
    requires ValidOrTail(L, a) && ValidOrTail(L, b)
    ensures var t := Appended(a, b);
            && ValidOrTail(L, t) && YieldOrTail(L, t) == YieldOrTail(L, a) + YieldOrTail(L, b)
            && TruthOrTail(L, t, leaf) == (TruthOrTail(L, a, leaf) || TruthOrTail(L, b, leaf))
  {
    hide TruthAnd, ValidAnd, YieldAnd;
    if a.OrMore? {
      AppendedTail(L, a.tail, b, leaf);
      var head := [a.kw] + YieldAnd(L, a.next);
      assert head + (YieldOrTail(L, a.tail) + YieldOrTail(L, b)) == (head + YieldOrTail(L, a.tail)) + YieldOrTail(L, b);
    } else {
      assert [] + YieldOrTail(L, b) == YieldOrTail(L, b);
    }
  }

  /** Two derivations with an OR between them, however they are made up inside. */
  function Either<T, C>(a: OrTree<T, C>, kw: T, b: OrTree<T, C>): OrTree<T, C> {
    OrTree(a.head, Appended(a.tail, OrMore(kw, b.head, b.tail)))
  }

  lemma EitherMeans<T, C, A>(L: Lang<T, C, A>, a: OrTree<T, C>, kw: T, b: OrTree<T, C>, leaf: A -> bool)
    requires ValidOr(L, a) && ValidOr(L, b) && L.isOr(kw)
    ensures var d := Either(a, kw, b);
            && ValidOr(L, d) && YieldOr(L, d) == YieldOr(L, a) + [kw] + YieldOr(L, b)
            && Eval(MeanOr(L, d), leaf) == (Eval(MeanOr(L, a), leaf) || Eval(MeanOr(L, b), leaf))
  {
    var more := OrMore(kw, b.head, b.tail);
    AppendedTail(L, a.tail, more, leaf);
    MeaningOr(L, a, leaf);
    MeaningOr(L, b, leaf);
    MeaningOr(L, Either(a, kw, b), leaf);
  }

  function Only<T, C>(u: Unary<T, C>): OrTree<T, C> {
    OrTree(AndTree(u, AndEnd), OrEnd)
  }

  lemma OnlyMeans<T, C, A>(L: Lang<T, C, A>, u: Unary<T, C>, leaf: A -> bool)
    ensures var d := Only(u);
            ValidOr(L, d) == ValidUnary(L, u) && YieldOr(L, d) == YieldUnary(L, u) && TruthOr(L, d, leaf) == TruthUnary(L, u, leaf)
  {
    hide ValidUnary, YieldUnary, TruthUnary;
    var none: AndTail<T, C>, nothing: OrTail<T, C> := AndEnd, OrEnd;
    assert ValidAndTail(L, none) && YieldAndTail(L, none) == [] && TruthAndTail(L, none, leaf);
    assert ValidOrTail(L, nothing) && YieldOrTail(L, nothing) == [] && !TruthOrTail(L, nothing, leaf);
    var a := AndTree(u, none);
    assert ValidAnd(L, a) == ValidUnary(L, u) && TruthAnd(L, a, leaf) == TruthUnary(L, u, leaf);
    assert YieldAnd(L, a) == YieldUnary(L, u) + [] == YieldUnary(L, u);
    assert YieldOr(L, Only(u)) == YieldAnd(L, a) + [];
  }

  lemma ChainMeans<T, C, A>(L: Lang<T, C, A>, u: Unary<T, C>, kw: T, v: Unary<T, C>, leaf: A -> bool)
    ensures var t: AndTail<T, C> := AndMore(kw, v, AndEnd);
            && ValidAndTail(L, t) == (L.isAnd(kw) && ValidUnary(L, v)) && YieldAndTail(L, t) == [kw] + YieldUnary(L, v)
            && TruthAndTail(L, t, leaf) == TruthUnary(L, v, leaf)
    ensures var d := OrTree(AndTree(u, AndMore(kw, v, AndEnd)), OrEnd);
            && ValidOr(L, d) == (ValidUnary(L, u) && L.isAnd(kw) && ValidUnary(L, v))
            && YieldOr(L, d) == YieldUnary(L, u) + [kw] + YieldUnary(L, v)
            && TruthOr(L, d, leaf) == (TruthUnary(L, u, leaf) && TruthUnary(L, v, leaf))
  {
    hide ValidUnary, YieldUnary, TruthUnary;
    var t: AndTail<T, C> := AndMore(kw, v, AndEnd);
    assert YieldAndTail(L, AndEnd) == [] && [kw] + YieldUnary(L, v) + [] == [kw] + YieldUnary(L, v);
    assert YieldAnd(L, AndTree(u, t)) == YieldUnary(L, u) + YieldAndTail(L, t);
    assert YieldUnary(L, u) + ([kw] + YieldUnary(L, v)) + [] == YieldUnary(L, u) + [kw] + YieldUnary(L, v);
    assert ValidAndTail(L, AndEnd) && TruthAndTail(L, AndEnd, leaf);
  }

  lemma GroupMeans<T, C, A>(L: Lang<T, C, A>, open: T, a: OrTree<T, C>, close: T, leaf: A -> bool)
    ensures var u: Unary<T, C> := Group(open, a, close);
            && ValidUnary(L, u) == (L.isOpen(open) && ValidOr(L, a) && L.isClose(close))
            && YieldUnary(L, u) == [open] + YieldOr(L, a) + [close] && TruthUnary(L, u, leaf) == TruthOr(L, a, leaf)
  {
    hide ValidOr, YieldOr, TruthOr;
  }

  /** Two grouped derivations with an AND between them. */
  function Both<T, C>(open: T, a: OrTree<T, C>, close: T, kw: T, b: OrTree<T, C>): OrTree<T, C> {
    OrTree(AndTree(Group(open, a, close), AndMore(kw, Group(open, b, close), AndEnd)), OrEnd)
  }

  lemma BothMeans<T, C, A>(L: Lang<T, C, A>, open: T, a: OrTree<T, C>, close: T, kw: T, b: OrTree<T, C>, leaf: A -> bool)
    requires ValidOr(L, a) && ValidOr(L, b) && L.isAnd(kw) && L.isOpen(open) && L.isClose(close)
    ensures var d := Both(open, a, close, kw, b);
            && ValidOr(L, d) && YieldOr(L, d) == [open] + YieldOr(L, a) + [close] + [kw] + ([open] + YieldOr(L, b) + [close])
            && Eval(MeanOr(L, d), leaf) == (Eval(MeanOr(L, a), leaf) && Eval(MeanOr(L, b), leaf))
  {
    hide ValidOr, YieldOr, TruthOr, ValidUnary, YieldUnary, TruthUnary, MeanOr;
    GroupMeans(L, open, a, close, leaf);
    GroupMeans(L, open, b, close, leaf);
    ChainMeans(L, Group(open, a, close), kw, Group(open, b, close), leaf);
    MeaningOr(L, a, leaf);
    MeaningOr(L, b, leaf);
    MeaningOr(L, Both(open, a, close, kw, b), leaf);
  }

  /** A grouped derivation after a NOT. */
  function Complement<T, C>(kw: T, open: T, a: OrTree<T, C>, close: T): OrTree<T, C> {
    Only(Negation(kw, Group(open, a, close)))
  }

  lemma NegationMeans<T, C, A>(L: Lang<T, C, A>, kw: T, u: Unary<T, C>, leaf: A -> bool)
    ensures var n: Unary<T, C> := Negation(kw, u);
            && ValidUnary(L, n) == (L.isNot(kw) && ValidUnary(L, u)) && YieldUnary(L, n) == [kw] + YieldUnary(L, u)
            && TruthUnary(L, n, leaf) == !TruthUnary(L, u, leaf)
  {
  }

  lemma ComplementMeans<T, C, A>(L: Lang<T, C, A>, kw: T, open: T, a: OrTree<T, C>, close: T, leaf: A -> bool)
    requires ValidOr(L, a) && L.isNot(kw) && L.isOpen(open) && L.isClose(close)
    ensures var d := Complement(kw, open, a, close);
            && ValidOr(L, d) && YieldOr(L, d) == [kw] + ([open] + YieldOr(L, a) + [close])
            && Eval(MeanOr(L, d), leaf) == !Eval(MeanOr(L, a), leaf)
  {
    hide ValidOr, YieldOr, TruthOr, ValidUnary, YieldUnary, TruthUnary, MeanOr;
    GroupMeans(L, open, a, close, leaf);
    NegationMeans(L, kw, Group(open, a, close), leaf);
    OnlyMeans(L, Negation(kw, Group(open, a, close)), leaf);
    MeaningOr(L, a, leaf);
    MeaningOr(L, Complement(kw, open, a, close), leaf);
  }

  /** One atom alone. */
  lemma AloneMeans<T, C, A>(L: Lang<T, C, A>, c: C, leaf: A -> bool)
    requires L.validAtom(c)
    ensures var d: OrTree<T, C> := Only(Atom(c));
            ValidOr(L, d) && YieldOr(L, d) == L.yieldAtom(c) && Eval(MeanOr(L, d), leaf) == leaf(L.meanAtom(c))
  {
    hide ValidOr, YieldOr, TruthOr, MeanOr;
    OnlyMeans(L, Atom(c), leaf);
    MeaningOr(L, Only(Atom(c)), leaf);
  }

  // ----- printing -----

  /** How an expression is written down: one token per keyword, one shape per atom. */
  datatype Style<T, C, !A> = Style(or: T, and: T, not: T, open: T, close: T, atom: A -> C)

  /** The style writes A's that satisfy `ok` in the language L, and L reads them back. */
  ghost predicate Faithful<T, C, A(!new)>(L: Lang<T, C, A>, S: Style<T, C, A>, ok: A -> bool) {
    L.isOr(S.or) && L.isAnd(S.and) && L.isNot(S.not) && L.isOpen(S.open) && L.isClose(S.close) &&
    forall a | ok(a) :: L.validAtom(S.atom(a)) && L.meanAtom(S.atom(a)) == a
  }

  /** What a parser can build: lists have at least two members. */
  ghost predicate WellFormed<A>(e: Expr<A>, ok: A -> bool) {
    match e
    case Or(xs) => |xs| >= 2 && forall x | x in xs :: WellFormed(x, ok)
    case And(xs) => |xs| >= 2 && forall x | x in xs :: WellFormed(x, ok)
    case Not(x) => WellFormed(x, ok)
    case Leaf(a) => ok(a)
  }

  /** Parentheses only where precedence asks for them. */
  function WriteOr<T, C, A>(S: Style<T, C, A>, e: Expr<A>, ok: A -> bool): OrTree<T, C>
    requires WellFormed(e, ok)
    decreases e, if e.Or? || e.And? then 2 else 5
  {
    match e
    case Or(xs) => OrTree(WriteAnd(S, xs[0], ok), WriteOrTail(S, xs, 1, ok))
    case _ => OrTree(WriteAnd(S, e, ok), OrEnd)
  }

  function WriteOrTail<T, C, A>(S: Style<T, C, A>, xs: seq<Expr<A>>, i: nat, ok: A -> bool): OrTail<T, C>
    requires i <= |xs| && forall x | x in xs :: WellFormed(x, ok)
    decreases xs, |xs| - i
  {
    if i == |xs| then OrEnd else OrMore(S.or, WriteAnd(S, xs[i], ok), WriteOrTail(S, xs, i + 1, ok))
  }

  function WriteAnd<T, C, A>(S: Style<T, C, A>, e: Expr<A>, ok: A -> bool): AndTree<T, C>
    requires WellFormed(e, ok)
    decreases e, if e.And? then 1 else 4
  {
    match e
    case And(xs) => AndTree(WriteUnary(S, xs[0], ok), WriteAndTail(S, xs, 1, ok))
    case _ => AndTree(WriteUnary(S, e, ok), AndEnd)
  }

  function WriteAndTail<T, C, A>(S: Style<T, C, A>, xs: seq<Expr<A>>, i: nat, ok: A -> bool): AndTail<T, C>
    requires i <= |xs| && forall x | x in xs :: WellFormed(x, ok)
    decreases xs, |xs| - i
  {
    if i == |xs| then AndEnd else AndMore(S.and, WriteUnary(S, xs[i], ok), WriteAndTail(S, xs, i + 1, ok))
  }

  function WriteUnary<T, C, A>(S: Style<T, C, A>, e: Expr<A>, ok: A -> bool): Unary<T, C>
    requires WellFormed(e, ok)
    decreases e, 3
  {
    match e
    case Not(x) => Negation(S.not, WriteUnary(S, x, ok))
    case Leaf(a) => Atom(S.atom(a))
    case _ => Group(S.open, WriteOr(S, e, ok), S.close)
  }

  lemma {:induction false} WriteOrFaithful<T, C, A(!new)>(L: Lang<T, C, A>, S: Style<T, C, A>, e: Expr<A>, ok: A -> bool)
    requires WellFormed(e, ok) && Faithful(L, S, ok)
    ensures ValidOr(L, WriteOr(S, e, ok)) && MeanOr(L, WriteOr(S, e, ok)) == e
    decreases e, if e.Or? || e.And? then 2 else 5
  {
    if e.Or? {
      WriteAndFaithful(L, S, e.args[0], ok);
      WriteOrTailFaithful(L, S, e.args, 1, ok);
      assert [e.args[0]] + e.args[1..] == e.args;
    } else {
      WriteAndFaithful(L, S, e, ok);
    }
  }

  lemma {:induction false} WriteOrTailFaithful<T, C, A(!new)>(L: Lang<T, C, A>, S: Style<T, C, A>, xs: seq<Expr<A>>, i: nat, ok: A -> bool)
    requires i <= |xs| && (forall x | x in xs :: WellFormed(x, ok)) && Faithful(L, S, ok)
    ensures ValidOrTail(L, WriteOrTail(S, xs, i, ok)) && MeanOrTail(L, WriteOrTail(S, xs, i, ok)) == xs[i..]
    decreases xs, |xs| - i
  {
    if i < |xs| {
      WriteAndFaithful(L, S, xs[i], ok);
      WriteOrTailFaithful(L, S, xs, i + 1, ok);
    }
  }

  lemma {:induction false} WriteAndFaithful<T, C, A(!new)>(L: Lang<T, C, A>, S: Style<T, C, A>, e: Expr<A>, ok: A -> bool)
    requires WellFormed(e, ok) && Faithful(L, S, ok)
    ensures ValidAnd(L, WriteAnd(S, e, ok)) && MeanAnd(L, WriteAnd(S, e, ok)) == e
    decreases e, if e.And? then 1 else 4
  {
    if e.And? {
      WriteUnaryFaithful(L, S, e.args[0], ok);
      WriteAndTailFaithful(L, S, e.args, 1, ok);
      assert [e.args[0]] + e.args[1..] == e.args;
    } else {
      WriteUnaryFaithful(L, S, e, ok);
    }
  }

  lemma {:induction false} WriteAndTailFaithful<T, C, A(!new)>(L: Lang<T, C, A>, S: Style<T, C, A>, xs: seq<Expr<A>>, i: nat, ok: A -> bool)
    requires i <= |xs| && (forall x | x in xs :: WellFormed(x, ok)) && Faithful(L, S, ok)
    ensures ValidAndTail(L, WriteAndTail(S, xs, i, ok)) && MeanAndTail(L, WriteAndTail(S, xs, i, ok)) == xs[i..]
    decreases xs, |xs| - i
  {
    if i < |xs| {
      WriteUnaryFaithful(L, S, xs[i], ok);
      WriteAndTailFaithful(L, S, xs, i + 1, ok);
    }
  }

  lemma {:induction false} WriteUnaryFaithful<T, C, A(!new)>(L: Lang<T, C, A>, S: Style<T, C, A>, e: Expr<A>, ok: A -> bool)
    requires WellFormed(e, ok) && Faithful(L, S, ok)
    ensures ValidUnary(L, WriteUnary(S, e, ok)) && MeanUnary(L, WriteUnary(S, e, ok)) == e
    decreases e, 3
  {
    match e {
      case Not(x) => WriteUnaryFaithful(L, S, x, ok);
      case Leaf(_) =>
      case _ => WriteOrFaithful(L, S, e, ok);
    }
  }

  /** Writing an expression down and parsing the tokens gives the expression back. */
  lemma WriteThenParse<T(!new), C(!new), A(!new)>(L: Lang<T, C, A>, S: Style<T, C, A>, e: Expr<A>, ok: A -> bool)
    requires WellFormed(e, ok) && Lawful(L) && Faithful(L, S, ok)
    ensures Parse(L, YieldOr(L, WriteOr(S, e, ok))).Some?
    ensures MeanOr(L, Parse(L, YieldOr(L, WriteOr(S, e, ok))).value) == e
  {
    WriteOrFaithful(L, S, e, ok);
    ParseIsExact(L, YieldOr(L, WriteOr(S, e, ok)), WriteOr(S, e, ok));
  }

  // ----- facts about every derivation -----

  /** A property of all keywords and all tokens of valid atoms holds along any derivation. */
  ghost predicate Everywhere<T(!new), C(!new), A>(L: Lang<T, C, A>, p: T -> bool) {
    && (forall t: T :: L.isOr(t) || L.isAnd(t) || L.isNot(t) || L.isOpen(t) || L.isClose(t) ==> p(t))
    && (forall c: C, t: T | L.validAtom(c) && t in L.yieldAtom(c) :: p(t))
  }

  lemma {:induction false} OrTokens<T(!new), C(!new), A>(L: Lang<T, C, A>, d: OrTree<T, C>, p: T -> bool)
    requires ValidOr(L, d) && Everywhere(L, p)
    ensures forall t | t in YieldOr(L, d) :: p(t)
    decreases d, 1
  {
    AndTokens(L, d.head, p);
    OrTailTokens(L, d.tail, p);
  }

  lemma {:induction false} OrTailTokens<T(!new), C(!new), A>(L: Lang<T, C, A>, d: OrTail<T, C>, p: T -> bool)
    requires ValidOrTail(L, d) && Everywhere(L, p)
    ensures forall t | t in YieldOrTail(L, d) :: p(t)
    decreases d, 0
  {
    if d.OrMore? {
      AndTokens(L, d.next, p);
      OrTailTokens(L, d.tail, p);
    }
  }

  lemma {:induction false} AndTokens<T(!new), C(!new), A>(L: Lang<T, C, A>, d: AndTree<T, C>, p: T -> bool)
    requires ValidAnd(L, d) && Everywhere(L, p)
    ensures forall t | t in YieldAnd(L, d) :: p(t)
    decreases d, 1
  {
    UnaryTokens(L, d.head, p);
    AndTailTokens(L, d.tail, p);
  }

  lemma {:induction false} AndTailTokens<T(!new), C(!new), A>(L: Lang<T, C, A>, d: AndTail<T, C>, p: T -> bool)
    requires ValidAndTail(L, d) && Everywhere(L, p)
    ensures forall t | t in YieldAndTail(L, d) :: p(t)
    decreases d, 0
  {
    if d.AndMore? {
      UnaryTokens(L, d.next, p);
      AndTailTokens(L, d.tail, p);
    }
  }

  lemma {:induction false} UnaryTokens<T(!new), C(!new), A>(L: Lang<T, C, A>, d: Unary<T, C>, p: T -> bool)
    requires ValidUnary(L, d) && Everywhere(L, p)
    ensures forall t | t in YieldUnary(L, d) :: p(t)
    decreases d, 0
  {
    match d {
      case Negation(_, inner) => UnaryTokens(L, inner, p);
      case Group(_, body, _) => OrTokens(L, body, p);
      case Atom(_) =>
    }
  }

  /** A derivation opens with a negation, a group or an atom. */
  lemma OrFirst<T(!new), C(!new), A>(L: Lang<T, C, A>, d: OrTree<T, C>)
    requires ValidOr(L, d) && Lawful(L)
    ensures YieldOr(L, d) != []
    ensures var t := YieldOr(L, d)[0];
            L.isNot(t) || L.isOpen(t) || exists c | L.validAtom(c) :: L.yieldAtom(c) != [] && t == L.yieldAtom(c)[0]
  {
    var u := d.head.head;
    assert ValidAnd(L, d.head) && ValidUnary(L, u);
    assert u.Atom? ==> AtomStart(L, u.atom);
    assert YieldUnary(L, u) != [];
    assert YieldAnd(L, d.head) == YieldUnary(L, u) + YieldAndTail(L, d.head.tail);
    assert YieldOr(L, d)[0] == YieldAnd(L, d.head)[0] == YieldUnary(L, u)[0];
  }

  /** Everything a parser returns is well formed. */
  lemma {:induction false} OrWellFormed<T(!new), C(!new), A>(L: Lang<T, C, A>, d: OrTree<T, C>, ok: A -> bool)
    requires ValidOr(L, d) && forall c | L.validAtom(c) :: ok(L.meanAtom(c))
    ensures WellFormed(MeanOr(L, d), ok)
    decreases d, 1
  {
    AndWellFormed(L, d.head, ok);
    OrTailWellFormed(L, d.tail, ok);
  }

  lemma {:induction false} OrTailWellFormed<T(!new), C(!new), A>(L: Lang<T, C, A>, d: OrTail<T, C>, ok: A -> bool)
    requires ValidOrTail(L, d) && forall c | L.validAtom(c) :: ok(L.meanAtom(c))
    ensures forall x | x in MeanOrTail(L, d) :: WellFormed(x, ok)
    decreases d, 0
  {
    if d.OrMore? {
      AndWellFormed(L, d.next, ok);
      OrTailWellFormed(L, d.tail, ok);
    }
  }

  lemma {:induction false} AndWellFormed<T(!new), C(!new), A>(L: Lang<T, C, A>, d: AndTree<T, C>, ok: A -> bool)
    requires ValidAnd(L, d) && forall c | L.validAtom(c) :: ok(L.meanAtom(c))
    ensures WellFormed(MeanAnd(L, d), ok)
    decreases d, 1
  {
    UnaryWellFormed(L, d.head, ok);
    AndTailWellFormed(L, d.tail, ok);
  }

  lemma {:induction false} AndTailWellFormed<T(!new), C(!new), A>(L: Lang<T, C, A>, d: AndTail<T, C>, ok: A -> bool)
    requires ValidAndTail(L, d) && forall c | L.validAtom(c) :: ok(L.meanAtom(c))
    ensures forall x | x in MeanAndTail(L, d) :: WellFormed(x, ok)
    decreases d, 0
  {
    if d.AndMore? {
      UnaryWellFormed(L, d.next, ok);
      AndTailWellFormed(L, d.tail, ok);
    }
  }

  lemma {:induction false} UnaryWellFormed<T(!new), C(!new), A>(L: Lang<T, C, A>, d: Unary<T, C>, ok: A -> bool)
    requires ValidUnary(L, d) && forall c | L.validAtom(c) :: ok(L.meanAtom(c))
    ensures WellFormed(MeanUnary(L, d), ok)
    decreases d, 0
  {
    match d {
      case Negation(_, inner) => UnaryWellFormed(L, inner, ok);
      case Group(_, body, _) => OrWellFormed(L, body, ok);
      case Atom(_) =>
    }
  }

  // ----- what a parsing loop still has to add to the list it grows -----

  function Prefixed<X, R>(out: seq<X>, r: Option<(seq<X>, R)>): Option<(seq<X>, R)> {
    match r
    case None => None
    case Some((xs, rest)) => Some((out + xs, rest))
  }

  lemma PrefixedTwice<X, R>(a: seq<X>, b: seq<X>, r: Option<(seq<X>, R)>)
    ensures Prefixed(a, Prefixed(b, r)) == Prefixed(a + b, r)
  {
    if r.Some? {
      assert a + (b + r.value.0) == a + b + r.value.0;
    }
  }

  lemma PrefixedNone<X, R>(r: Option<(seq<X>, R)>)
    ensures Prefixed([], r) == r
  {
    if r.Some? {
      assert [] + r.value.0 == r.value.0;
    }
  }

  function OrRest<T, C, A>(L: Lang<T, C, A>, ts: seq<T>): Option<(seq<Expr<A>>, seq<T>)> {
    match ParseOrTail(L, ts)
    case None => None
    case Some((d, rest)) => Some((MeanOrTail(L, d), rest))
  }

  function AndRest<T, C, A>(L: Lang<T, C, A>, ts: seq<T>): Option<(seq<Expr<A>>, seq<T>)> {
    match ParseAndTail(L, ts)
    case None => None
    case Some((d, rest)) => Some((MeanAndTail(L, d), rest))
  }

  lemma OrRestStep<T, C, A>(L: Lang<T, C, A>, ts: seq<T>, out: seq<Expr<A>>)
    requires Starts(ts, L.isOr)
    ensures Prefixed(out, OrRest(L, ts)) ==
            var next := ParseAnd(L, ts[1..]);
            if next.None? then None else Prefixed(out + [MeanAnd(L, next.value.0)], OrRest(L, next.value.1))
  {
    var next := ParseAnd(L, ts[1..]);
    if next.Some? {
      PrefixedTwice(out, [MeanAnd(L, next.value.0)], OrRest(L, next.value.1));
    }
  }

  lemma AndRestStep<T, C, A>(L: Lang<T, C, A>, ts: seq<T>, out: seq<Expr<A>>)
    requires Starts(ts, L.isAnd)
    ensures Prefixed(out, AndRest(L, ts)) ==
            var next := ParseUnary(L, ts[1..]);
            if next.None? then None else Prefixed(out + [MeanUnary(L, next.value.0)], AndRest(L, next.value.1))
  {
    var next := ParseUnary(L, ts[1..]);
    if next.Some? {
      PrefixedTwice(out, [MeanUnary(L, next.value.0)], AndRest(L, next.value.1));
    }
  }
}
