/** The pretty printer: text in the style of Jackson, objects in insertion order. */
module Jsonx {
  import opened Text
  import opened JsonValue
  import opened Order

  // ----- strings -----

  function HexChar(n: nat): (c: char)
    requires n < 16
  {
    if n < 10 then ('0' as int + n) as char else ('a' as int + n - 10) as char
  }

  function UnicodeEscape(n: nat): string
    requires n < 0x10000
  {
    ['\\', 'u', HexChar(n / 4096), HexChar(n / 256 % 16), HexChar(n / 16 % 16), HexChar(n % 16)]
  }

  function EscapeChar(c: char): (r: string)
    ensures r != ""
  {
    if c == '"' then "\\\"" else if c == '\\' then "\\\\"
    else if c == '\U{08}' then "\\b" else if c == '\U{0C}' then "\\f"
    else if c == '\n' then "\\n" else if c == '\r' then "\\r" else if c == '\t' then "\\t"
    else if c < ' ' || c == '\U{2028}' || c == '\U{2029}' then UnicodeEscape(c as int)
    else [c]
  }

  function Escaped(s: string): string {
    if s == "" then "" else EscapeChar(s[0]) + Escaped(s[1..])
  }

  function Quote(s: string): string {
    "\"" + Escaped(s) + "\""
  }

  // ----- sizes -----

  function Max(a: nat, b: nat): nat {
    if a < b then b else a
  }

  function Depth(v: Value): nat
    decreases v, 1, 0
  {
    match v
    case Arr(items) => 1 + ItemDepth(v, |items|)
    case Obj(fields) => 1 + FieldDepth(v, |fields|)
    case Map(entries) => 1 + FieldDepth(v, |entries|)
    case _ => 0
  }

  function ItemDepth(v: Value, n: nat): (d: nat)
    requires v.Arr? && n <= |v.items|
    ensures forall i | 0 <= i < n :: Depth(v.items[i]) <= d
    decreases v, 0, n
  {
    if n == 0 then 0 else Max(Depth(v.items[n - 1]), ItemDepth(v, n - 1))
  }

  function FieldsOf(v: Value): seq<Field>
    requires v.Obj? || v.Map?
  {
    if v.Obj? then v.fields else v.entries
  }

  function FieldDepth(v: Value, n: nat): (d: nat)
    requires (v.Obj? || v.Map?) && n <= |FieldsOf(v)|
    ensures forall i | 0 <= i < n :: Depth(FieldsOf(v)[i].value) <= d
    decreases v, 0, n
  {
    if n == 0 then 0 else Max(Depth(FieldsOf(v)[n - 1].value), FieldDepth(v, n - 1))
  }

  ghost predicate ItemsBelow(items: seq<Value>, d: nat) {
    forall e | e in items :: Depth(e) < d
  }

  ghost predicate FieldsBelow(fields: seq<Field>, d: nat) {
    forall f | f in fields :: Depth(f.value) < d
  }

  lemma Below(v: Value)
    ensures v.Arr? ==> ItemsBelow(v.items, Depth(v))
    ensures v.Obj? ==> FieldsBelow(v.fields, Depth(v))
    ensures v.Map? ==> FieldsBelow(v.entries, Depth(v)) && FieldsBelow(FromMap(v.entries), Depth(v))
  {
    if v.Arr? {
      assert forall e | e in v.items :: exists i | 0 <= i < |v.items| :: v.items[i] == e;
    } else if v.Obj? || v.Map? {
      assert forall f | f in FieldsOf(v) :: exists i | 0 <= i < |FieldsOf(v)| :: FieldsOf(v)[i] == f;
      if v.Map? {
        SortKeeps(FromMap(v.entries), v.entries, NameOf);
      }
    }
  }

  // ----- the text -----

  function NameOf(f: Field): string {
    f.name
  }

  /** A Go map as an object with sorted keys. */
  function FromMap(entries: seq<Field>): seq<Field> {
    SortBy(entries, NameOf)
  }

  function Indent(n: nat): string {
    if n == 0 then "" else "  " + Indent(n - 1)
  }

  function Render(v: Value, level: nat): string
    decreases Depth(v), 2, 0
  {
    Below(v);
    match v
    case Null => "null"
    case Bool(b) => if b then "true" else "false"
    case Int(n) => Itoa(n)
    case Str(s) => Quote(s)
    case Obj(fields) => if fields == [] then "{ }" else Braces(fields, level, Depth(v))
    case Map(entries) => if FromMap(entries) == [] then "{ }" else Braces(FromMap(entries), level, Depth(v))
    case Arr(items) => if items == [] then "[ ]" else "[ " + Element(items[0], level) + RestItems(items[1..], level, Depth(v)) + " ]"
  }

  /** Object elements keep their brace on the bracket line and do not indent once more; a Go map
      element is wrapped in an array of its own. */
  function Element(e: Value, level: nat): string
    decreases Depth(e), 3, 0
  {
    Below(e);
    if e.Obj? then Braces(e.fields, level, Depth(e))
    else if e.Map? then "[ " + Braces(FromMap(e.entries), level, Depth(e)) + " ]"
    else Render(e, level + 1)
  }

  function RestItems(items: seq<Value>, level: nat, ghost d: nat): string
    requires ItemsBelow(items, d)
    decreases d, 1, |items|
  {
    if items == [] then "" else ", " + Element(items[0], level) + RestItems(items[1..], level, d)
  }

  function Braces(fields: seq<Field>, level: nat, ghost d: nat): string
    requires FieldsBelow(fields, d)
    decreases d, 1, |fields| + 1
  {
    "{\n" + (if fields == [] then "" else Line(fields[0], level, d) + RestLines(fields[1..], level, d)) + "\n" + Indent(level) + "}"
  }

  function Line(f: Field, level: nat, ghost d: nat): string
    requires Depth(f.value) < d
    decreases d, 0, 0
  {
    Indent(level + 1) + Quote(f.name) + " : " + Render(f.value, level + 1)
  }

  function RestLines(fields: seq<Field>, level: nat, ghost d: nat): string
    requires FieldsBelow(fields, d)
    decreases d, 1, |fields|
  {
    if fields == [] then "" else ",\n" + Line(fields[0], level, d) + RestLines(fields[1..], level, d)
  }

  // ----- the printer -----

  class Builder {
    var text: string

    constructor ()
      ensures text == ""
    {
      text := "";
    }

    method Write(s: string)
      modifies this
      ensures text == old(text) + s
    {
      text := text + s;
    }
  }

  lemma {:induction false} RestItemsSnoc(items: seq<Value>, e: Value, level: nat, d: nat)
    requires ItemsBelow(items, d) && Depth(e) < d
    ensures RestItems(items + [e], level, d) == RestItems(items, level, d) + ", " + Element(e, level)
  {
    hide Element, Depth;
    if items == [] {
      assert [] + [e] == [e] && [e][1..] == [];
    } else {
      assert (items + [e])[1..] == items[1..] + [e] && (items + [e])[0] == items[0];
      RestItemsSnoc(items[1..], e, level, d);
    }
  }

  lemma {:induction false} RestLinesSnoc(fields: seq<Field>, f: Field, level: nat, d: nat)
    requires FieldsBelow(fields, d) && Depth(f.value) < d
    ensures RestLines(fields + [f], level, d) == RestLines(fields, level, d) + ",\n" + Line(f, level, d)
  {
    hide Line, Depth;
    if fields == [] {
      assert [] + [f] == [f] && [f][1..] == [];
    } else {
      assert (fields + [f])[1..] == fields[1..] + [f] && (fields + [f])[0] == fields[0];
      RestLinesSnoc(fields[1..], f, level, d);
    }
  }

  method Repeat(n: nat) returns (s: string)
    ensures s == Indent(n)
  {
    s := "";
    for i := 0 to n
      invariant s == Indent(i)
    {
      s := "  " + s;
    }
  }

  method RenderValue(b: Builder, v: Value, level: nat)
    modifies b
    ensures b.text == old(b.text) + Render(v, level)
    decreases Depth(v), 2, 0
  {
    hide Depth, SortBy, Braces, RestItems;
    Below(v);
    match v
    case Obj(fields) => RenderObj(b, fields, level, Depth(v));
    case Map(entries) => RenderObj(b, FromMap(entries), level, Depth(v));
    case Arr(items) => RenderArr(b, items, level, Depth(v));
    case Null => b.Write("null");
    case Str(s) => b.Write(Quote(s));
    case Bool(t) => b.Write(if t then "true" else "false");
    case Int(n) => b.Write(Itoa(n));
  }

  method RenderObj(b: Builder, fields: seq<Field>, level: nat, ghost d: nat)
    requires FieldsBelow(fields, d)
    modifies b
    ensures b.text == old(b.text) + if fields == [] then "{ }" else Braces(fields, level, d)
    decreases d, 1, |fields| + 2
  {
    hide Depth;
    if fields == [] {
      b.Write("{ }");
      return;
    }
    RenderBraces(b, fields, level, d);
  }

  method RenderBraces(b: Builder, fields: seq<Field>, level: nat, ghost d: nat)
    requires FieldsBelow(fields, d)
    modifies b
    ensures b.text == old(b.text) + Braces(fields, level, d)
    decreases d, 1, |fields| + 1
  {
    hide Depth, Line, RestLines, Indent, Quote;
    b.Write("{\n");
    ghost var lines := "";
    for i := 0 to |fields|
      invariant lines == if i == 0 then "" else Line(fields[0], level, d) + RestLines(fields[1..i], level, d)
      invariant b.text == old(b.text) + "{\n" + lines
    {
      NextLine(fields, i, level, d);
      if i > 0 {
        b.Write(",\n");
        lines := lines + ",\n";
      }
      RenderLine(b, fields[i], level, d);
      lines := lines + Line(fields[i], level, d);
    }
    b.Write("\n");
    var indent := Repeat(level);
    b.Write(indent);
    b.Write("}");
    assert fields != [] ==> fields[1..|fields|] == fields[1..];
  }

  method RenderLine(b: Builder, f: Field, level: nat, ghost d: nat)
    requires Depth(f.value) < d
    modifies b
    ensures b.text == old(b.text) + Line(f, level, d)
    decreases d, 0, 0
  {
    hide Depth, Render, Indent, Quote;
    var indent := Repeat(level + 1);
    b.Write(indent);
    b.Write(Quote(f.name));
    b.Write(" : ");
    RenderValue(b, f.value, level + 1);
  }

  lemma NextLine(fields: seq<Field>, i: nat, level: nat, d: nat)
    requires i < |fields| && FieldsBelow(fields, d)
    ensures fields[i] in fields
    ensures i > 0 ==> RestLines(fields[1..i + 1], level, d) == RestLines(fields[1..i], level, d) + ",\n" + Line(fields[i], level, d)
    ensures RestLines([], level, d) == "" && fields[1..1] == []
  {
    hide Depth, Line;
    if i > 0 {
      assert fields[1..i + 1] == fields[1..i] + [fields[i]];
      RestLinesSnoc(fields[1..i], fields[i], level, d);
    }
  }

  method RenderArr(b: Builder, items: seq<Value>, level: nat, ghost d: nat)
    requires ItemsBelow(items, d)
    modifies b
    ensures b.text == old(b.text) + if items == [] then "[ ]" else "[ " + Element(items[0], level) + RestItems(items[1..], level, d) + " ]"
    decreases d, 1, |items| + 1
  {
    hide Depth, Element, RestItems;
    if items == [] {
      b.Write("[ ]");
      return;
    }
    b.Write("[ ");
    ghost var parts := "";
    ghost var before := b.text;
    for i := 0 to |items|
      invariant parts == if i == 0 then "" else Element(items[0], level) + RestItems(items[1..i], level, d)
      invariant b.text == before + parts
    {
      NextItem(items, i, level, d);
      if i > 0 {
        b.Write(", ");
        parts := parts + ", ";
      }
      RenderElement(b, items[i], level);
      parts := parts + Element(items[i], level);
    }
    b.Write(" ]");
    assert items[1..|items|] == items[1..];
  }

  lemma NextItem(items: seq<Value>, i: nat, level: nat, d: nat)
    requires i < |items| && ItemsBelow(items, d)
    ensures items[i] in items
    ensures i > 0 ==> RestItems(items[1..i + 1], level, d) == RestItems(items[1..i], level, d) + ", " + Element(items[i], level)
    ensures RestItems([], level, d) == "" && items[1..1] == []
  {
    hide Depth, Element;
    if i > 0 {
      assert items[1..i + 1] == items[1..i] + [items[i]];
      RestItemsSnoc(items[1..i], items[i], level, d);
    }
  }

  method RenderElement(b: Builder, e: Value, level: nat)
    modifies b
    ensures b.text == old(b.text) + Element(e, level)
    decreases Depth(e), 3, 0
  {
    hide Depth, Render, SortBy, Braces;
    Below(e);
    if e.Obj? {
      RenderBraces(b, e.fields, level, Depth(e));
    } else if e.Map? {
      b.Write("[ ");
      RenderBraces(b, FromMap(e.entries), level, Depth(e));
      b.Write(" ]");
    } else {
      RenderValue(b, e, level + 1);
    }
  }

  method RenderText(v: Value) returns (text: string)
    ensures text == Render(v, 0)
  {
    hide Render;
    var b := new Builder();
    RenderValue(b, v, 0);
    text := b.text;
  }

  /** The order a Go map is ranged over does not show. */
  lemma MapOrderDoesNotShow(a: seq<Field>, b: seq<Field>)
    requires multiset(a) == multiset(b) && DistinctKeys(a, NameOf) && DistinctKeys(b, NameOf)
    ensures FromMap(a) == FromMap(b)
  {
    hide SortBy;
    DistinctStay(FromMap(a), a, NameOf);
    DistinctStay(FromMap(b), b, NameOf);
    SortIsUnique(FromMap(a), FromMap(b), NameOf);
  }

  // ----- the layout -----

  function Blanks(n: nat): (s: string)
    ensures |s| == n && forall i | 0 <= i < n :: s[i] == ' '
  {
    seq(n, i => ' ')
  }

  lemma {:induction false} IndentIsBlank(n: nat)
    ensures Indent(n) == Blanks(2 * n)
  {
    if n > 0 {
      IndentIsBlank(n - 1);
      assert "  " + Blanks(2 * (n - 1)) == Blanks(2 * n);
    }
  }

  /** The parts with sep between them. */
  function Between(parts: seq<string>, sep: string): string {
    if parts == [] then "" else if |parts| == 1 then parts[0] else parts[0] + sep + Between(parts[1..], sep)
  }

  /** A member: indented by two blanks a level, its name, its value. */
  function Member(f: Field, level: nat): string {
    Blanks(2 * level + 2) + Quote(f.name) + " : " + Render(f.value, level + 1)
  }

  function Members(fields: seq<Field>, level: nat): (r: seq<string>)
    ensures |r| == |fields| && forall i | 0 <= i < |r| :: r[i] == Member(fields[i], level)
  {
    seq(|fields|, i requires 0 <= i < |fields| => Member(fields[i], level))
  }

  lemma LineIsMember(f: Field, level: nat, d: nat)
    requires Depth(f.value) < d
    ensures Line(f, level, d) == Member(f, level)
  {
    hide Depth, Render, Quote;
    IndentIsBlank(level + 1);
  }

  lemma {:induction false} LinesBetween(fields: seq<Field>, level: nat, d: nat)
    requires FieldsBelow(fields, d) && fields != []
    ensures Line(fields[0], level, d) + RestLines(fields[1..], level, d) == Between(Members(fields, level), ",\n")
  {
    hide Depth, Line, Member;
    LineIsMember(fields[0], level, d);
    if |fields| > 1 {
      assert Members(fields, level)[1..] == Members(fields[1..], level);
      LinesBetween(fields[1..], level, d);
    }
  }

  /** An object: its members on lines of their own, in order, two blanks further in than its braces. */
  lemma ObjectLayout(fields: seq<Field>, level: nat)
    requires fields != []
    ensures Render(Obj(fields), level) == "{\n" + Between(Members(fields, level), ",\n") + "\n" + Blanks(2 * level) + "}"
  {
    hide Depth, Line, RestLines, Between, Members;
    Below(Obj(fields));
    IndentIsBlank(level);
    LinesBetween(fields, level, Depth(Obj(fields)));
  }

  /** An element: an object as if it stood in the array's place, a Go map bracketed once more, other
      values one level further in. */
  function Item(e: Value, level: nat): string {
    if e.Obj? && e.fields != [] then Render(e, level)
    else if e.Map? && e.entries != [] then "[ " + Render(e, level) + " ]"
    else if e.Obj? || e.Map? then (if e.Obj? then "" else "[ ") + "{\n\n" + Blanks(2 * level) + "}" + (if e.Obj? then "" else " ]")
    else Render(e, level + 1)
  }

  function Items(items: seq<Value>, level: nat): (r: seq<string>)
    ensures |r| == |items| && forall i | 0 <= i < |r| :: r[i] == Item(items[i], level)
  {
    seq(|items|, i requires 0 <= i < |items| => Item(items[i], level))
  }

  lemma ElementIsItem(e: Value, level: nat)
    ensures Element(e, level) == Item(e, level)
  {
    hide Depth, Line, RestLines, SortBy;
    Below(e);
    IndentIsBlank(level);
    if e.Map? {
      SortKeeps(FromMap(e.entries), e.entries, NameOf);
    }
  }

  lemma {:induction false} ItemsBetween(items: seq<Value>, level: nat, d: nat)
    requires ItemsBelow(items, d) && items != []
    ensures Element(items[0], level) + RestItems(items[1..], level, d) == Between(Items(items, level), ", ")
  {
    hide Depth, Element, Item;
    ElementIsItem(items[0], level);
    if |items| > 1 {
      assert Items(items, level)[1..] == Items(items[1..], level);
      ItemsBetween(items[1..], level, d);
    }
  }

  /** An array: its elements on one line within its brackets. */
  lemma ArrayLayout(items: seq<Value>, level: nat)
    requires items != []
    ensures Render(Arr(items), level) == "[ " + Between(Items(items, level), ", ") + " ]"
  {
    hide Depth, Element, RestItems, Between, Items;
    Below(Arr(items));
    ItemsBetween(items, level, Depth(Arr(items)));
  }
}
