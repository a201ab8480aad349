/** Request mappings: the first one the token request matches contributes its claims, templated with
    the request's parameters. */
module Mappings {
  import opened Text
  import opened Template

  datatype ClaimValue = Str(s: string) | Other(id: nat)

  type Claims = map<string, ClaimValue>

  type Form = map<string, seq<string>>

  /** Regular expressions, ideal: which patterns compile, and what they match in full. */
  datatype Regexes = Regexes(compiles: string -> bool, matches: (string, string) -> bool)

  function Compiled(re: Regexes, pattern: string): Option<string> {
    if pattern != "*" && re.compiles(pattern) then Some(pattern) else None
  }

  /** The values a mapping looks at: the form's, else the client id, else the extra ones. */
  function ValuesOf(param: string, form: Form, clientId: string, extra: map<string, string>): seq<string> {
    if param in form && form[param] != [] then form[param]
    else if param == "client_id" then if clientId != "" then [clientId] else []
    else if param in extra then [extra[param]]
    else []
  }

  predicate Accepts(re: Regexes, pattern: string, v: string) {
    pattern == "*" || pattern == v || (re.compiles(pattern) && re.matches(pattern, v))
  }

  /** The request gives the mapping's parameter a value that it accepts. */
  ghost predicate Matches(re: Regexes, m: Mapping, form: Form, clientId: string, extra: map<string, string>) {
    exists v | v in ValuesOf(m.param, form, clientId, extra) :: Accepts(re, m.pattern, v)
  }

  class Mapping {
    const param: string
    const pattern: string
    const claims: Claims
    const typeHeader: string
    var regex: Option<string>
    var tried: bool

    /** The cache, once filled, holds the compiled pattern. */
    ghost predicate Valid(re: Regexes)
      reads this
    {
      tried ==> regex == Compiled(re, pattern)
    }

    constructor (param: string, pattern: string, claims: Claims, typeHeader: string, ghost re: Regexes)
      ensures this.param == param && this.pattern == pattern && this.claims == claims && this.typeHeader == typeHeader && Valid(re)
    {
      this.param, this.pattern, this.claims, this.typeHeader := param, pattern, claims, typeHeader;
      regex, tried := None, false;
    }

    method Regex(re: Regexes) returns (r: Option<string>)
      requires Valid(re)
      modifies this
      ensures Valid(re) && r == Compiled(re, pattern)
    {
      if !tried {
        tried := true;
        regex := None;
        if pattern != "*" {
          if re.compiles(pattern) {
            regex := Some(pattern);
          }
        }
      }
      return regex;
    }

    /** The verdict does not depend on what is cached. */
    method IsMatch(re: Regexes, form: Form, clientId: string, extra: map<string, string>) returns (ok: bool)
      requires Valid(re)
      modifies this
      ensures Valid(re)
      ensures ok == Matches(re, this, form, clientId, extra)
    {
      var values := ValuesOf(param, form, clientId, extra);
      for i := 0 to |values|
        invariant Valid(re) && forall j | 0 <= j < i :: !Accepts(re, pattern, values[j])
      {
        if pattern == "*" || pattern == values[i] {
          assert values[i] in values;
          return true;
        }
        var r := Regex(re);
        if r.Some? && re.matches(r.value, values[i]) {
          assert values[i] in values;
          return true;
        }
      }
      return false;
    }
  }

  function Joined(vs: seq<string>): string {
    if vs == [] then "" else Join(vs, ' ')
  }

  /** Precedence: extra, then the form, then the client id. */
  function TemplateParams(form: Form, clientId: string, extra: map<string, string>): Params {
    (extra + map k | k in form :: Joined(form[k]))["clientId" := clientId]["client_id" := clientId]
  }

  method BuildParams(form: Form, clientId: string, extra: map<string, string>) returns (params: Params)
    ensures params == TemplateParams(form, clientId, extra)
  {
    hide Joined;
    params := extra;
    var todo := form.Keys;
    while todo != {}
      invariant todo <= form.Keys && params == extra + map k | k in form && k !in todo :: Joined(form[k])
      decreases todo
    {
      var k :| k in todo;
      todo := todo - {k};
      params := params[k := Joined(form[k])];
    }
    params := params["clientId" := clientId];
    params := params["client_id" := clientId];
  }

  /** The client id wins over the form, the form over what is added; a form value is its entries with
      blanks between them. */
  lemma Precedence(form: Form, clientId: string, extra: map<string, string>, name: string)
    ensures var p := TemplateParams(form, clientId, extra);
            && (name in p <==> name == "clientId" || name == "client_id" || name in form || name in extra)
            && (name == "clientId" || name == "client_id" ==> p[name] == clientId)
            && (name != "clientId" && name != "client_id" && name in form ==> p[name] == Joined(form[name]))
            && (name != "clientId" && name != "client_id" && name !in form && name in extra ==> p[name] == extra[name])
  {
    hide Joined;
  }

  lemma OneEntryIsItself(v: string)
    ensures Joined([v]) == v && Joined([]) == ""
  {
  }

  /** A mapping looks at the form's values, else at the client id if that is its parameter, else at
      what is added; a pattern is a star, the value itself, or an expression that matches it. */
  lemma MatchedBy(re: Regexes, m: Mapping, form: Form, clientId: string, extra: map<string, string>)
    ensures m.param in form && form[m.param] != [] ==>
              (Matches(re, m, form, clientId, extra) <==> exists v | v in form[m.param] :: Suits(re, m.pattern, v))
    ensures (m.param !in form || form[m.param] == []) && m.param == "client_id" ==>
              (Matches(re, m, form, clientId, extra) <==> clientId != "" && Suits(re, m.pattern, clientId))
    ensures (m.param !in form || form[m.param] == []) && m.param != "client_id" ==>
              (Matches(re, m, form, clientId, extra) <==> m.param in extra && Suits(re, m.pattern, extra[m.param]))
  {
    var vs := ValuesOf(m.param, form, clientId, extra);
    assert forall v :: Accepts(re, m.pattern, v) <==> Suits(re, m.pattern, v);
    assert vs == [clientId] ==> clientId in vs;
    assert m.param in extra && vs == [extra[m.param]] ==> extra[m.param] in vs;
  }

  predicate Suits(re: Regexes, pattern: string, v: string) {
    pattern == "*" || v == pattern || (re.compiles(pattern) && re.matches(pattern, v))
  }

  /** out is s after one pass per parameter in some order: the simultaneous substitution, where the
      order does not show. */
  ghost predicate Templated(s: string, params: Params, out: string) {
    (exists order :: Enumerates(order, params) && out == Fold(s, order, params))
    && (PlainParams(params) && NothingSpelled(s, params) ==> out == Subst(s, params))
  }

  lemma OrderTemplates(s: string, params: Params, out: string)
    requires exists order :: Enumerates(order, params) && out == Fold(s, order, params)
    ensures Templated(s, params, out)
  {
    hide Fold, Subst, PlainParams, NothingSpelled;
    if PlainParams(params) {
      AnyOrderExactly(s, params);
    }
  }

  /** templateValues: strings are templated, each with an order of its own; the rest is kept. */
  method TemplateValues(claims: Claims, params: Params) returns (out: Claims)
    ensures out.Keys == claims.Keys
    ensures forall k | k in claims && claims[k].Other? :: out[k] == claims[k]
    ensures forall k | k in claims && claims[k].Str? ::
              out[k].Str? && Templated(claims[k].s, params, out[k].s)
  {
    hide Templated;
    out := map[];
    var todo := claims.Keys;
    while todo != {}
      invariant todo <= claims.Keys && out.Keys == claims.Keys - todo
      invariant forall k | k in out && claims[k].Other? :: out[k] == claims[k]
      invariant forall k | k in out && claims[k].Str? ::
        out[k].Str? && Templated(claims[k].s, params, out[k].s)
      decreases todo
    {
      var k :| k in todo;
      todo := todo - {k};
      if claims[k].Str? {
        var s := TemplateValue(claims[k].s, params);
        OrderTemplates(claims[k].s, params, s);
        out := out[k := Str(s)];
      } else {
        out := out[k := claims[k]];
      }
    }
  }

  /** found is the first mapping the request matches, if any. */
  ghost predicate First(re: Regexes, mappings: seq<Mapping>, form: Form, clientId: string, extra: map<string, string>, found: Option<nat>) {
    && (found.Some? ==> found.value < |mappings| && Matches(re, mappings[found.value], form, clientId, extra))
    && forall i | 0 <= i < (if found.Some? then found.value else |mappings|) ::
         !Matches(re, mappings[i], form, clientId, extra)
  }

  method FirstMatch(re: Regexes, mappings: seq<Mapping>, form: Form, clientId: string, extra: map<string, string>)
    returns (found: Option<nat>)
    requires forall m | m in mappings :: m.Valid(re)
    modifies mappings
    ensures (forall m | m in mappings :: m.Valid(re)) && First(re, mappings, form, clientId, extra, found)
  {
    for i := 0 to |mappings|
      invariant forall m | m in mappings :: m.Valid(re)
      invariant forall j | 0 <= j < i :: !Matches(re, mappings[j], form, clientId, extra)
    {
      var ok := mappings[i].IsMatch(re, form, clientId, extra);
      if ok {
        return Some(i);
      }
    }
    return None;
  }

  /** The first matching mapping contributes its claims, templated, and its type; what the regex
      caches hold does not matter, so a later call answers alike. */
  method Resolve(re: Regexes, mappings: seq<Mapping>, form: Form, clientId: string, extra: map<string, string>)
    returns (claims: Claims, typ: string, found: Option<nat>)
    requires forall m | m in mappings :: m.Valid(re)
    modifies mappings
    ensures (forall m | m in mappings :: m.Valid(re)) && First(re, mappings, form, clientId, extra, found)
    ensures found.None? ==> claims == map[] && typ == "JWT"
    ensures found.Some? ==>
              var m := mappings[found.value]; var params := TemplateParams(form, clientId, extra);
              && typ == (if m.typeHeader != "" then m.typeHeader else "JWT") && claims.Keys == m.claims.Keys
              && (forall k | k in m.claims && m.claims[k].Other? :: claims[k] == m.claims[k])
              && forall k | k in m.claims && m.claims[k].Str? ::
                   claims[k].Str? && Templated(m.claims[k].s, params, claims[k].s)
  {
    hide Templated, TemplateParams, First;
    found := FirstMatch(re, mappings, form, clientId, extra);
    var raw := if found.Some? then mappings[found.value].claims else map[];
    var params := BuildParams(form, clientId, extra);
    claims := TemplateValues(raw, params);
    typ := if found.Some? && mappings[found.value].typeHeader != "" then mappings[found.value].typeHeader else "JWT";
  }
}
