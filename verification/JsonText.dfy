/** JSON text (RFC 8259) read by a parser that knows nothing of the printer, and what it makes of
    printed text. Numbers are integers here. */
module JsonText {
  import opened Text
  import opened JsonValue
  import opened Jsonx
  import opened Order

  // ----- a parser for RFC 8259 -----

  predicate IsBlank(c: char) {
    c == ' ' || c == '\t' || c == '\n' || c == '\r'
  }

  function SkipBlanks(s: string): (r: string)
    ensures |r| <= |s| && (r != "" ==> !IsBlank(r[0]))
  {
    if s != "" && IsBlank(s[0]) then SkipBlanks(s[1..]) else s
  }

  function HexDigitValue(c: char): Option<nat> {
    if '0' <= c <= '9' then Some(c as int - '0' as int)
    else if 'a' <= c <= 'f' then Some(c as int - 'a' as int + 10)
    else if 'A' <= c <= 'F' then Some(c as int - 'A' as int + 10)
    else None
  }

  /** The character of a \uXXXX escape; surrogates are left out. */
  function FourHex(s: string): (r: Option<char>) {
    if |s| < 4 || HexDigitValue(s[0]).None? || HexDigitValue(s[1]).None? || HexDigitValue(s[2]).None? || HexDigitValue(s[3]).None? then None
    else
      var n := 4096 * HexDigitValue(s[0]).value + 256 * HexDigitValue(s[1]).value + 16 * HexDigitValue(s[2]).value + HexDigitValue(s[3]).value;
      if n < 0xD800 then Some(n as char) else None
  }

  function SimpleEscape(c: char): Option<char> {
    if c == '"' || c == '\\' || c == '/' then Some(c)
    else if c == 'b' then Some('\U{08}')
    else if c == 'f' then Some('\U{0C}')
    else if c == 'n' then Some('\n')
    else if c == 'r' then Some('\r')
    else if c == 't' then Some('\t')
    else None
  }

  function Prepended(c: char, r: Option<(string, string)>): Option<(string, string)> {
    match r
    case None => None
    case Some((text, rest)) => Some(([c] + text, rest))
  }

  /** The rest of a string after its opening quote. */
  function ParseChars(s: string): (r: Option<(string, string)>)
    ensures r.Some? ==> |r.value.1| < |s|
  {
    if s == "" || s[0] < ' ' then None
    else if s[0] == '"' then Some(("", s[1..]))
    else if s[0] != '\\' then Prepended(s[0], ParseChars(s[1..]))
    else if |s| < 2 then None
    else if s[1] == 'u' then
      var c := FourHex(s[2..]);
      if c.None? then None else Prepended(c.value, ParseChars(s[6..]))
    else
      var c := SimpleEscape(s[1]);
      if c.None? then None else Prepended(c.value, ParseChars(s[2..]))
  }

  predicate IsDigit(c: char) {
    '0' <= c <= '9'
  }

  function DigitRun(s: string): (n: nat)
    ensures n <= |s| && AllDigits(s[..n])
  {
    if s != "" && IsDigit(s[0]) then
      var n := DigitRun(s[1..]);
      assert s[..n + 1] == [s[0]] + s[1..][..n];
      n + 1
    else 0
  }

  /** An integer: no leading zero, no fraction, no exponent. */
  function ParseNumber(s: string): (r: Option<(int, string)>)
    ensures r.Some? ==> |r.value.1| < |s|
  {
    var negative := s != "" && s[0] == '-';
    var t := if negative then s[1..] else s;
    var n := DigitRun(t);
    if n == 0 || (t[0] == '0' && n > 1) || (n < |t| && t[n] in ".eE") then None
    else Some((if negative then 0 - Number(t[..n]) else Number(t[..n]), t[n..]))
  }

  function Read<T>(r: Option<(T, string)>, build: T -> Value): Option<(Value, string)> {
    if r.None? then None else Some((build(r.value.0), r.value.1))
  }

  /** One value, with nothing before it. */
  function ParseValue(s: string): (r: Option<(Value, string)>)
    ensures r.Some? ==> |r.value.1| < |s|
    decreases |s|, 0
  {
    if HasPrefix(s, "null") then Some((Null, s[4..]))
    else if HasPrefix(s, "true") then Some((Bool(true), s[4..]))
    else if HasPrefix(s, "false") then Some((Bool(false), s[5..]))
    else if s == "" then None
    else if s[0] == '"' then Read(ParseChars(s[1..]), (text: string) => Str(text))
    else if s[0] == '[' then
      var t := SkipBlanks(s[1..]);
      if t != "" && t[0] == ']' then Some((Arr([]), t[1..])) else Read(ParseItems(t), (items: seq<Value>) => Arr(items))
    else if s[0] == '{' then
      var t := SkipBlanks(s[1..]);
      if t != "" && t[0] == '}' then Some((Obj([]), t[1..])) else Read(ParseFields(t), (fields: seq<Field>) => Obj(fields))
    else Read(ParseNumber(s), (n: int) => Int(n))
  }

  /** One or more values, up to the closing bracket. */
  function ParseItems(s: string): (r: Option<(seq<Value>, string)>)
    ensures r.Some? ==> |r.value.1| < |s|
    decreases |s|, 1
  {
    match ParseValue(s)
    case None => None
    case Some((v, rest)) =>
      var t := SkipBlanks(rest);
      if t == "" then None
      else if t[0] == ']' then Some(([v], t[1..]))
      else if t[0] != ',' then None
      else
        match ParseItems(SkipBlanks(t[1..]))
        case None => None
        case Some((vs, after)) => Some(([v] + vs, after))
  }

  /** One or more name-value pairs, up to the closing brace. */
  function ParseFields(s: string): (r: Option<(seq<Field>, string)>)
    ensures r.Some? ==> |r.value.1| < |s|
    decreases |s|, 1
  {
    if s == "" || s[0] != '"' then None
    else
      match ParseChars(s[1..])
      case None => None
      case Some((name, afterName)) =>
        var colon := SkipBlanks(afterName);
        if colon == "" || colon[0] != ':' then None
        else
          match ParseValue(SkipBlanks(colon[1..]))
          case None => None
          case Some((v, rest)) =>
            var t := SkipBlanks(rest);
            if t == "" then None
            else if t[0] == '}' then Some(([Field(name, v)], t[1..]))
            else if t[0] != ',' then None
            else
              match ParseFields(SkipBlanks(t[1..]))
              case None => None
              case Some((fields, after)) => Some(([Field(name, v)] + fields, after))
  }

  // ----- what printed text stands for -----

  /** Go maps become objects with sorted names, and arrays of one object where they are elements. */
  function Shape(v: Value): Value
    decreases Depth(v), 2, 0
  {
    Below(v);
    match v
    case Arr(items) => Arr(ShapeItems(items, Depth(v)))
    case Obj(fields) => Obj(ShapeFields(fields, Depth(v)))
    case Map(entries) => Obj(ShapeFields(FromMap(entries), Depth(v)))
    case _ => v
  }

  function ShapeElement(e: Value): Value
    decreases Depth(e), 3, 0
  {
    if e.Map? then Arr([Shape(e)]) else Shape(e)
  }

  function ShapeItems(items: seq<Value>, ghost d: nat): (r: seq<Value>)
    requires ItemsBelow(items, d)
    ensures |r| == |items| && forall i | 0 <= i < |r| :: r[i] == ShapeElement(items[i])
    decreases d, 1, |items|
  {
    if items == [] then [] else [ShapeElement(items[0])] + ShapeItems(items[1..], d)
  }

  function ShapeFields(fields: seq<Field>, ghost d: nat): (r: seq<Field>)
    requires FieldsBelow(fields, d)
    ensures |r| == |fields| && forall i | 0 <= i < |r| :: r[i] == Field(fields[i].name, Shape(fields[i].value))
    decreases d, 1, |fields|
  {
    if fields == [] then [] else [Field(fields[0].name, Shape(fields[0].value))] + ShapeFields(fields[1..], d)
  }

  // ----- strings and numbers read back -----

  lemma HexReads(n: nat)
    requires n < 16
    ensures HexDigitValue(HexChar(n)) == Some(n)
  {
  }

  lemma HexSum(n: nat)
    requires n < 0x10000
    ensures n == 4096 * (n / 4096) + 256 * (n / 256 % 16) + 16 * (n / 16 % 16) + n % 16
  {
    assert n / 256 == 16 * (n / 4096) + n / 256 % 16;
    assert n / 16 == 16 * (n / 256) + n / 16 % 16;
  }

  lemma FourRead(a: nat, b: nat, c: nat, d: nat, t: string)
    requires a < 16 && b < 16 && c < 16 && d < 16 && 4096 * a + 256 * b + 16 * c + d < 0xD800
    requires |t| >= 4 && t[0] == HexChar(a) && t[1] == HexChar(b) && t[2] == HexChar(c) && t[3] == HexChar(d)
    ensures FourHex(t) == Some((4096 * a + 256 * b + 16 * c + d) as char)
  {
    hide HexChar, HexDigitValue;
    HexReads(a);
    HexReads(b);
    HexReads(c);
    HexReads(d);
  }

  lemma UnicodeReads(n: nat, rest: string)
    requires n < 0xD800
    ensures var s := UnicodeEscape(n) + rest; |s| >= 6 && FourHex(s[2..]) == Some(n as char) && s[6..] == rest
  {
    hide FourHex, HexChar;
    var t := (UnicodeEscape(n) + rest)[2..];
    HexSum(n);
    assert t[0] == HexChar(n / 4096) && t[1] == HexChar(n / 256 % 16) && t[2] == HexChar(n / 16 % 16) && t[3] == HexChar(n % 16);
    FourRead(n / 4096, n / 256 % 16, n / 16 % 16, n % 16, t);
  }

  /** One escaped character is read as that character. */
  lemma CharReads(c: char, rest: string)
    ensures ParseChars(EscapeChar(c) + rest) == Prepended(c, ParseChars(rest))
  {
    hide FourHex;
    var s := EscapeChar(c) + rest;
    if c == '"' || c == '\\' || c == '\U{08}' || c == '\U{0C}' || c == '\n' || c == '\r' || c == '\t' {
      assert s[0] == '\\' && s[1] == EscapeChar(c)[1] && s[2..] == rest;
    } else if c < ' ' || c == '\U{2028}' || c == '\U{2029}' {
      UnicodeReads(c as int, rest);
      assert s[0] == '\\' && s[1] == 'u';
    } else {
      assert s[1..] == rest;
    }
  }

  lemma {:induction false} QuotedReads(s: string, rest: string)
    ensures ParseChars(Escaped(s) + "\"" + rest) == Some((s, rest))
  {
    hide EscapeChar, ParseChars;
    if s == "" {
      assert Escaped(s) + "\"" + rest == "\"" + rest;
      EndOfString(rest);
    } else {
      var tail := Escaped(s[1..]) + "\"" + rest;
      assert Escaped(s) + "\"" + rest == EscapeChar(s[0]) + tail;
      CharReads(s[0], tail);
      QuotedReads(s[1..], rest);
      assert [s[0]] + s[1..] == s;
    }
  }

  lemma EndOfString(rest: string)
    ensures ParseChars("\"" + rest) == Some(("", rest))
  {
    assert ("\"" + rest)[1..] == rest;
  }

  lemma {:induction false} RunOf(w: string, rest: string)
    requires AllDigits(w) && (rest == "" || !IsDigit(rest[0]))
    ensures DigitRun(w + rest) == |w|
  {
    if w == "" {
      assert w + rest == rest;
    } else {
      assert (w + rest)[1..] == w[1..] + rest;
      RunOf(w[1..], rest);
    }
  }

  lemma {:induction false} NoLeadingZero(n: nat)
    ensures Digits(n)[0] == '0' ==> n == 0
  {
    if n >= 10 {
      NoLeadingZero(n / 10);
    }
  }

  /** What may follow a value: the end, a comma, a blank. */
  predicate Ends(rest: string) {
    rest == "" || rest[0] == ',' || rest[0] == '\n' || rest[0] == ' '
  }

  lemma DigitsRead(m: nat, rest: string)
    requires Ends(rest)
    ensures var t := Digits(m) + rest; var k := |Digits(m)|;
            && DigitRun(t) == k && t[..k] == Digits(m) && t[k..] == rest && Number(t[..k]) == m
            && !(t[0] == '0' && k > 1) && !(k < |t| && t[k] in ".eE")
  {
    hide Digits, Number;
    RunOf(Digits(m), rest);
    NumberOfDigits(m);
    NoLeadingZero(m);
    SingleZero();
    var t := Digits(m) + rest;
    assert t[..|Digits(m)|] == Digits(m) && t[|Digits(m)|..] == rest;
    assert t[0] == Digits(m)[0];
  }

  lemma DigitsReadBack(m: nat, rest: string)
    requires Ends(rest)
    ensures ParseNumber(Digits(m) + rest) == Some((m as int, rest)) && ParseNumber("-" + (Digits(m) + rest)) == Some((0 - m, rest))
  {
    hide Digits, Number, DigitRun;
    DigitsRead(m, rest);
    var t := Digits(m) + rest;
    assert t[0] == Digits(m)[0] && '0' <= Digits(m)[0] <= '9';
    assert ("-" + t)[0] == '-' && ("-" + t)[1..] == t;
  }

  lemma NumberReads(n: int, rest: string)
    requires Ends(rest)
    ensures ParseNumber(Itoa(n) + rest) == Some((n, rest))
  {
    hide Digits, ParseNumber;
    var m: nat := if n < 0 then -n else n;
    DigitsReadBack(m, rest);
    assert n < 0 ==> Itoa(n) + rest == "-" + (Digits(m) + rest);
  }

  lemma SingleZero()
    ensures Digits(0) == "0"
  {
  }

  lemma {:induction false} SkipIndent(n: nat, t: string)
    ensures SkipBlanks(Indent(n) + t) == SkipBlanks(t)
  {
    if n == 0 {
      assert Indent(0) + t == t;
    } else {
      assert (Indent(n) + t)[1..][1..] == Indent(n - 1) + t;
      SkipIndent(n - 1, t);
    }
  }

  lemma SkipNothing(t: string)
    requires t != "" && !IsBlank(t[0])
    ensures SkipBlanks(t) == t
  {
  }

  lemma SkipOne(c: char, t: string)
    requires IsBlank(c)
    ensures SkipBlanks([c] + t) == SkipBlanks(t)
  {
    assert ([c] + t)[1..] == t;
  }

  // ----- values read back -----

  lemma NoWord(s: string, c: char)
    requires s != "" && s[0] == c && c != 'n' && c != 't' && c != 'f'
    ensures !HasPrefix(s, "null") && !HasPrefix(s, "true") && !HasPrefix(s, "false")
  {
    OtherStart(s, "null");
    OtherStart(s, "true");
    OtherStart(s, "false");
  }

  lemma OtherStart(s: string, w: string)
    requires s != "" && w != "" && s[0] != w[0]
    ensures !HasPrefix(s, w)
  {
    assert |w| <= |s| ==> s[..|w|][0] == s[0];
  }

  lemma OpensObject(s: string)
    requires s != "" && s[0] == '{'
    ensures var t := SkipBlanks(s[1..]);
            ParseValue(s) == if t != "" && t[0] == '}' then Some((Obj([]), t[1..])) else Read(ParseFields(t), (fields: seq<Field>) => Obj(fields))
  {
    hide SkipBlanks, ParseFields, HasPrefix;
    NoWord(s, '{');
  }

  lemma OpensArray(s: string)
    requires s != "" && s[0] == '['
    ensures var t := SkipBlanks(s[1..]);
            ParseValue(s) == if t != "" && t[0] == ']' then Some((Arr([]), t[1..])) else Read(ParseItems(t), (items: seq<Value>) => Arr(items))
  {
    hide SkipBlanks, ParseItems, HasPrefix;
    NoWord(s, '[');
  }

  lemma OpensString(s: string)
    requires s != "" && s[0] == '"'
    ensures ParseValue(s) == Read(ParseChars(s[1..]), (text: string) => Str(text))
  {
    hide ParseChars, HasPrefix;
    NoWord(s, '"');
  }

  lemma OpensNumber(s: string)
    requires s != "" && (s[0] == '-' || IsDigit(s[0]))
    ensures ParseValue(s) == Read(ParseNumber(s), (n: int) => Int(n))
  {
    hide ParseNumber, HasPrefix, ParseItems, ParseFields, ParseChars;
    NoWord(s, s[0]);
  }

  /** Printed text starts with what the parser branches on: never a blank or a closing mark. */
  predicate Starts(s: string) {
    s != "" && !IsBlank(s[0]) && s[0] != ']' && s[0] != '}'
  }

  lemma RenderStarts(v: Value, level: nat)
    ensures Starts(Render(v, level))
  {
    hide Depth, SortBy, RestItems, RestLines, Element, Line, Digits;
    if v.Int? {
      assert '0' <= Digits(if v.n < 0 then -v.n else v.n)[0] <= '9';
    }
  }

  lemma ElementStarts(e: Value, level: nat)
    ensures Starts(Element(e, level))
  {
    hide Depth, SortBy, RestLines, Line, Render;
    RenderStarts(e, level + 1);
  }

  lemma StartsWith(s: string, t: string)
    requires Starts(s)
    ensures SkipBlanks(s + t) == s + t && (s + t)[0] == s[0]
  {
    assert (s + t)[0] == s[0];
  }

  /** A fields body, from the first name to past the closing brace. */
  function FieldsText(fields: seq<Field>, level: nat, d: nat, rest: string): string
    requires fields != [] && FieldsBelow(fields, d)
  {
    Quote(fields[0].name) + " : " + Render(fields[0].value, level + 1) + AfterField(fields[1..], level, d, rest)
  }

  function AfterField(fields: seq<Field>, level: nat, d: nat, rest: string): string
    requires FieldsBelow(fields, d)
  {
    RestLines(fields, level, d) + "\n" + Indent(level) + "}" + rest
  }

  lemma LineText(fields: seq<Field>, level: nat, d: nat, rest: string)
    requires fields != [] && FieldsBelow(fields, d)
    ensures Line(fields[0], level, d) + AfterField(fields[1..], level, d, rest) == Indent(level + 1) + FieldsText(fields, level, d, rest)
    ensures SkipBlanks(['\n'] + (Indent(level + 1) + FieldsText(fields, level, d, rest))) == FieldsText(fields, level, d, rest)
  {
    hide Depth, Render, AfterField, SkipBlanks, Indent, Escaped;
    var t := FieldsText(fields, level, d, rest);
    SkipOne('\n', Indent(level + 1) + t);
    SkipIndent(level + 1, t);
    SkipNothing(t);
  }

  lemma ClosingText(level: nat, rest: string)
    ensures SkipBlanks(['\n'] + (Indent(level) + ("}" + rest))) == "}" + rest
  {
    hide SkipBlanks, Indent;
    SkipOne('\n', Indent(level) + ("}" + rest));
    SkipIndent(level, "}" + rest);
    SkipNothing("}" + rest);
  }

  lemma BracesText(fields: seq<Field>, level: nat, d: nat, rest: string)
    requires FieldsBelow(fields, d)
    ensures var s := Braces(fields, level, d) + rest;
            && s != "" && s[0] == '{'
            && SkipBlanks(s[1..]) == if fields == [] then "}" + rest else FieldsText(fields, level, d, rest)
  {
    hide Depth, Line, RestLines, SkipBlanks, Indent, FieldsText;
    var s := Braces(fields, level, d) + rest;
    if fields == [] {
      var t := ['\n'] + (Indent(level) + ("}" + rest));
      assert s[1..] == ['\n'] + t;
      SkipOne('\n', t);
      ClosingText(level, rest);
    } else {
      LineText(fields, level, d, rest);
      assert s[1..] == ['\n'] + (Line(fields[0], level, d) + AfterField(fields[1..], level, d, rest));
    }
  }

  lemma AfterFieldSkips(fields: seq<Field>, level: nat, d: nat, rest: string)
    requires FieldsBelow(fields, d)
    ensures var s := AfterField(fields, level, d, rest); var t := SkipBlanks(s);
            && Ends(s) && t != ""
            && (fields == [] ==> t == "}" + rest)
            && (fields != [] ==> t[0] == ',' && SkipBlanks(t[1..]) == FieldsText(fields, level, d, rest))
  {
    hide Depth, Line, SkipBlanks, Indent, FieldsText;
    var s := AfterField(fields, level, d, rest);
    if fields == [] {
      assert s == ['\n'] + (Indent(level) + ("}" + rest));
      ClosingText(level, rest);
    } else {
      LineText(fields, level, d, rest);
      var t := ['\n'] + (Line(fields[0], level, d) + AfterField(fields[1..], level, d, rest));
      assert s == [','] + t;
      SkipNothing(s);
      assert s[1..] == t;
    }
  }

  lemma {:induction false} BracesRead(fields: seq<Field>, level: nat, d: nat, rest: string)
    requires FieldsBelow(fields, d)
    ensures ParseValue(Braces(fields, level, d) + rest) == Some((Obj(ShapeFields(fields, d)), rest))
    decreases d, 1, |fields| + 1
  {
    hide Depth, Braces, ParseFields, ParseValue, SkipBlanks, FieldsText;
    BracesText(fields, level, d, rest);
    OpensObject(Braces(fields, level, d) + rest);
    if fields == [] {
      assert ("}" + rest)[1..] == rest;
    } else {
      FieldsRead(fields, level, d, rest);
      FieldsTextStarts(fields, level, d, rest);
    }
  }

  lemma FieldsTextStarts(fields: seq<Field>, level: nat, d: nat, rest: string)
    requires fields != [] && FieldsBelow(fields, d)
    ensures var s := FieldsText(fields, level, d, rest);
            s != "" && s[0] == '"' &&
            s[1..] == Escaped(fields[0].name) + "\"" + (" : " + (Render(fields[0].value, level + 1) + AfterField(fields[1..], level, d, rest)))
  {
    hide Depth, Render, AfterField, Escaped;
  }

  lemma ColonSkips(value: string, rest: string)
    requires Starts(value)
    ensures var t := SkipBlanks(" : " + (value + rest)); t != "" && t[0] == ':' && SkipBlanks(t[1..]) == value + rest
  {
    hide SkipBlanks;
    var u := value + rest;
    assert " : " + u == [' '] + (": " + u);
    SkipOne(' ', ": " + u);
    SkipNothing(": " + u);
    assert (": " + u)[1..] == [' '] + u;
    SkipOne(' ', u);
    StartsWith(value, rest);
  }

  lemma {:induction false} FieldsRead(fields: seq<Field>, level: nat, d: nat, rest: string)
    requires fields != [] && FieldsBelow(fields, d)
    ensures ParseFields(FieldsText(fields, level, d, rest)) == Some((ShapeFields(fields, d), rest))
    decreases d, 1, |fields|
  {
    hide Depth, Render, ParseChars, ParseValue, SkipBlanks, FieldsText, AfterField, Shape, Escaped;
    var f, tail := fields[0], fields[1..];
    var after := AfterField(tail, level, d, rest);
    var value := Render(f.value, level + 1);
    FieldsTextStarts(fields, level, d, rest);
    QuotedReads(f.name, " : " + (value + after));
    RenderStarts(f.value, level + 1);
    ColonSkips(value, after);
    AfterFieldSkips(tail, level, d, rest);
    ValueReads(f.value, level + 1, after);
    if tail != [] {
      FieldsRead(tail, level, d, rest);
    } else {
      assert ("}" + rest)[1..] == rest;
      assert ShapeFields(fields, d) == [Field(f.name, Shape(f.value))];
    }
  }

  function AfterItem(items: seq<Value>, level: nat, d: nat, rest: string): string
    requires ItemsBelow(items, d)
  {
    RestItems(items, level, d) + " ]" + rest
  }

  lemma AfterItemSkips(items: seq<Value>, level: nat, d: nat, rest: string)
    requires ItemsBelow(items, d)
    ensures var s := AfterItem(items, level, d, rest); var t := SkipBlanks(s);
            && Ends(s) && t != ""
            && (items == [] ==> t == "]" + rest)
            && (items != [] ==> t[0] == ',' && SkipBlanks(t[1..]) == Element(items[0], level) + AfterItem(items[1..], level, d, rest))
  {
    hide Depth, Element, SkipBlanks;
    var s := AfterItem(items, level, d, rest);
    if items == [] {
      assert s == [' '] + ("]" + rest);
      SkipOne(' ', "]" + rest);
      SkipNothing("]" + rest);
    } else {
      var e, after := Element(items[0], level), AfterItem(items[1..], level, d, rest);
      assert s == [','] + ([' '] + (e + after));
      SkipNothing(s);
      assert s[1..] == [' '] + (e + after);
      SkipOne(' ', e + after);
      ElementStarts(items[0], level);
      StartsWith(e, after);
    }
  }

  lemma {:induction false} ItemsRead(items: seq<Value>, level: nat, d: nat, rest: string)
    requires items != [] && ItemsBelow(items, d)
    ensures ParseItems(Element(items[0], level) + AfterItem(items[1..], level, d, rest)) == Some((ShapeItems(items, d), rest))
    decreases d, 1, |items|
  {
    hide Depth, Element, ParseValue, SkipBlanks, AfterItem, ShapeElement;
    var after := AfterItem(items[1..], level, d, rest);
    AfterItemSkips(items[1..], level, d, rest);
    ElementReads(items[0], level, after);
    if items[1..] != [] {
      ItemsRead(items[1..], level, d, rest);
    } else {
      assert ("]" + rest)[1..] == rest;
      assert ShapeItems(items, d) == [ShapeElement(items[0])];
    }
  }

  lemma {:induction false} ElementReads(e: Value, level: nat, rest: string)
    requires Ends(rest)
    ensures ParseValue(Element(e, level) + rest) == Some((ShapeElement(e), rest))
    decreases Depth(e), 3, 0
  {
    hide Depth, SortBy, Braces, ParseValue, Render, SkipBlanks;
    Below(e);
    if e.Obj? {
      BracesRead(e.fields, level, Depth(e), rest);
    } else if e.Map? {
      BracesText(FromMap(e.entries), level, Depth(e), "");
      assert Braces(FromMap(e.entries), level, Depth(e)) + "" == Braces(FromMap(e.entries), level, Depth(e));
      BracesRead(FromMap(e.entries), level, Depth(e), " ]" + rest);
      WrappedReads(Braces(FromMap(e.entries), level, Depth(e)), Shape(e), rest);
      assert Element(e, level) == "[ " + Braces(FromMap(e.entries), level, Depth(e)) + " ]";
    } else {
      ValueReads(e, level + 1, rest);
    }
  }

  /** One value in brackets. */
  lemma WrappedReads(text: string, v: Value, rest: string)
    requires text != "" && text[0] == '{' && ParseValue(text + (" ]" + rest)) == Some((v, " ]" + rest))
    ensures ParseValue("[ " + text + " ]" + rest) == Some((Arr([v]), rest))
  {
    hide SkipBlanks, ParseValue;
    OpensArray("[ " + text + " ]" + rest);
    var s := "[ " + text + " ]" + rest;
    var body := text + (" ]" + rest);
    assert s[0] == '[' && s[1..] == [' '] + body;
    SkipOne(' ', body);
    SkipNothing(body);
    assert " ]" + rest == [' '] + ("]" + rest);
    SkipOne(' ', "]" + rest);
    SkipNothing("]" + rest);
    assert ("]" + rest)[1..] == rest;
    assert ParseItems(body) == Some(([v], rest));
  }

  /** At any nesting and indentation, printed text followed by anything a value may be followed by
      is read as the value it stands for. */
  lemma {:induction false} ValueReads(v: Value, level: nat, rest: string)
    requires Ends(rest)
    ensures ParseValue(Render(v, level) + rest) == Some((Shape(v), rest))
    decreases Depth(v), 2, 0
  {
    hide Depth, SortBy, Braces, RestItems, Element, ParseValue, ParseChars, ParseNumber, Escaped, Digits;
    Below(v);
    match v
    case Obj(fields) => ObjectReads(fields, level, Depth(v), rest);
    case Map(entries) => ObjectReads(FromMap(entries), level, Depth(v), rest);
    case Arr(items) => ArrayReads(items, level, Depth(v), rest);
    case Str(s) =>
      QuotedReads(s, rest);
      OpensString(Quote(s) + rest);
      assert (Quote(s) + rest)[1..] == Escaped(s) + "\"" + rest;
    case Int(n) =>
      NumberReads(n, rest);
      NumberText(n, rest);
    case _ => WordReads(v, level, rest);
  }

  lemma WordReads(v: Value, level: nat, rest: string)
    requires v.Null? || v.Bool?
    ensures ParseValue(Render(v, level) + rest) == Some((v, rest))
  {
    var s := Render(v, level) + rest;
    assert |Render(v, level)| <= |s| && s[|Render(v, level)|..] == rest && s[..|Render(v, level)|] == Render(v, level);
    assert s[0] == Render(v, level)[0];
  }

  lemma NumberText(n: int, rest: string)
    ensures ParseValue(Itoa(n) + rest) == Read(ParseNumber(Itoa(n) + rest), (m: int) => Int(m))
  {
    hide Digits, ParseNumber, ParseValue;
    var s := Itoa(n) + rest;
    var digits := Digits(if n < 0 then -n else n);
    assert '0' <= digits[0] <= '9';
    assert s[0] == '-' || s[0] == digits[0];
    OpensNumber(s);
  }

  lemma {:induction false} ObjectReads(fields: seq<Field>, level: nat, d: nat, rest: string)
    requires FieldsBelow(fields, d)
    ensures ParseValue((if fields == [] then "{ }" else Braces(fields, level, d)) + rest) == Some((Obj(ShapeFields(fields, d)), rest))
    decreases d, 1, |fields| + 2
  {
    hide Depth, Braces, ParseFields, ParseValue, SkipBlanks;
    if fields == [] {
      var s := "{ }" + rest;
      OpensObject(s);
      assert s[1..] == [' '] + ("}" + rest);
      SkipOne(' ', "}" + rest);
      SkipNothing("}" + rest);
      assert ("}" + rest)[1..] == rest;
    } else {
      BracesRead(fields, level, d, rest);
    }
  }

  lemma {:induction false} ArrayReads(items: seq<Value>, level: nat, d: nat, rest: string)
    requires ItemsBelow(items, d)
    ensures var text := if items == [] then "[ ]" else "[ " + Element(items[0], level) + RestItems(items[1..], level, d) + " ]";
            ParseValue(text + rest) == Some((Arr(ShapeItems(items, d)), rest))
    decreases d, 1, |items| + 1
  {
    hide Depth, Element, RestItems, ParseItems, ParseValue, SkipBlanks, ShapeItems;
    if items == [] {
      var s := "[ ]" + rest;
      OpensArray(s);
      assert s[1..] == [' '] + ("]" + rest);
      SkipOne(' ', "]" + rest);
      SkipNothing("]" + rest);
      assert ("]" + rest)[1..] == rest;
    } else {
      var body := Element(items[0], level) + AfterItem(items[1..], level, d, rest);
      var s := "[ " + Element(items[0], level) + RestItems(items[1..], level, d) + " ]" + rest;
      OpensArray(s);
      assert s == "[ " + body && s[1..] == [' '] + body;
      SkipOne(' ', body);
      ElementStarts(items[0], level);
      StartsWith(Element(items[0], level), AfterItem(items[1..], level, d, rest));
      ItemsRead(items, level, d, rest);
    }
  }

  /** Whatever is rendered is JSON text, read back as what it stands for. */
  lemma RenderReadsBack(v: Value)
    ensures ParseValue(Render(v, 0)) == Some((Shape(v), ""))
  {
    hide Render, ParseValue, Shape;
    ValueReads(v, 0, "");
    assert Render(v, 0) + "" == Render(v, 0);
  }

  // ----- when it stands for the value itself -----

  /** The value with every Go map as an object with sorted names. */
  function Natural(v: Value): Value
    decreases Depth(v), 2, 0
  {
    Below(v);
    match v
    case Arr(items) => Arr(NaturalItems(items, Depth(v)))
    case Obj(fields) => Obj(NaturalFields(fields, Depth(v)))
    case Map(entries) => Obj(NaturalFields(FromMap(entries), Depth(v)))
    case _ => v
  }

  function NaturalItems(items: seq<Value>, ghost d: nat): (r: seq<Value>)
    requires ItemsBelow(items, d)
    ensures |r| == |items| && forall i | 0 <= i < |r| :: r[i] == Natural(items[i])
    decreases d, 1, |items|
  {
    if items == [] then [] else [Natural(items[0])] + NaturalItems(items[1..], d)
  }

  function NaturalFields(fields: seq<Field>, ghost d: nat): (r: seq<Field>)
    requires FieldsBelow(fields, d)
    ensures |r| == |fields| && forall i | 0 <= i < |r| :: r[i] == Field(fields[i].name, Natural(fields[i].value))
    decreases d, 1, |fields|
  {
    if fields == [] then [] else [Field(fields[0].name, Natural(fields[0].value))] + NaturalFields(fields[1..], d)
  }

  /** No array, at any depth, has a Go map among its elements. */
  ghost predicate NoMapElements(v: Value)
    decreases Depth(v)
  {
    Below(v);
    match v
    case Arr(items) => forall e | e in items :: !e.Map? && NoMapElements(e)
    case Obj(fields) => forall f | f in fields :: NoMapElements(f.value)
    case Map(entries) => forall f | f in entries :: NoMapElements(f.value)
    case _ => true
  }

  /** The text stands for the value itself exactly when no array holds a Go map. */
  lemma {:induction false} ShapeIsNatural(v: Value)
    ensures Shape(v) == Natural(v) <==> NoMapElements(v)
    decreases Depth(v)
  {
    hide Depth, SortBy;
    Below(v);
    match v
    case Arr(items) =>
      forall e | e in items
        ensures ShapeElement(e) == Natural(e) <==> !e.Map? && NoMapElements(e)
      {
        ShapeIsNatural(e);
      }
      ItemsAgree(items, Depth(v));
    case Obj(fields) =>
      forall f | f in fields
        ensures Shape(f.value) == Natural(f.value) <==> NoMapElements(f.value)
      {
        ShapeIsNatural(f.value);
      }
      FieldsAgree(fields, Depth(v));
    case Map(entries) =>
      SortKeeps(FromMap(entries), entries, NameOf);
      forall f | f in entries
        ensures Shape(f.value) == Natural(f.value) <==> NoMapElements(f.value)
      {
        ShapeIsNatural(f.value);
      }
      FieldsAgree(FromMap(entries), Depth(v));
    case _ =>
  }

  lemma ItemsAgree(items: seq<Value>, d: nat)
    requires ItemsBelow(items, d)
    ensures ShapeItems(items, d) == NaturalItems(items, d) <==> forall e | e in items :: ShapeElement(e) == Natural(e)
  {
    hide Depth, ShapeItems, NaturalItems, ShapeElement, Natural;
    if ShapeItems(items, d) == NaturalItems(items, d) {
      forall e | e in items
        ensures ShapeElement(e) == Natural(e)
      {
        var i :| 0 <= i < |items| && items[i] == e;
        assert ShapeItems(items, d)[i] == NaturalItems(items, d)[i];
      }
    }
    if forall e | e in items :: ShapeElement(e) == Natural(e) {
      assert forall i | 0 <= i < |items| :: items[i] in items && ShapeItems(items, d)[i] == NaturalItems(items, d)[i];
    }
  }

  lemma FieldsAgree(fields: seq<Field>, d: nat)
    requires FieldsBelow(fields, d)
    ensures ShapeFields(fields, d) == NaturalFields(fields, d) <==> forall f | f in fields :: Shape(f.value) == Natural(f.value)
  {
    hide Depth, ShapeFields, NaturalFields, Shape, Natural;
    if ShapeFields(fields, d) == NaturalFields(fields, d) {
      forall f | f in fields
        ensures Shape(f.value) == Natural(f.value)
      {
        var i :| 0 <= i < |fields| && fields[i] == f;
        assert ShapeFields(fields, d)[i] == NaturalFields(fields, d)[i];
      }
    }
    if forall f | f in fields :: Shape(f.value) == Natural(f.value) {
      assert forall i | 0 <= i < |fields| :: fields[i] in fields && ShapeFields(fields, d)[i] == NaturalFields(fields, d)[i];
    }
  }

  /** An array with a Go map in it reads back with one more array around the map. */
  lemma MapInArrayFails()
    ensures var v := Arr([Map([])]);
            Natural(v) == Arr([Obj([])]) && ParseValue(Render(v, 0)) == Some((Arr([Arr([Obj([])])]), ""))
  {
    hide ParseValue, Render;
    var v := Arr([Map([])]);
    RenderReadsBack(v);
    assert FromMap([]) == [];
    assert Natural(Map([])) == Obj([]) && Shape(Map([])) == Obj([]);
    assert ShapeElement(Map([])) == Arr([Obj([])]);
    assert Shape(v).items == [Arr([Obj([])])];
  }
}
