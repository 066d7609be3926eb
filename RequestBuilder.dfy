/** The Python request-builder renderer's decisions for one HTTP method: the
    keyword arguments of the generated method, the endpoint template with path
    variables read from `self`, the query-parameter argument, the request-body
    expression, and the `if`/`elif` chain that handles response status codes. */
module PyRequestBuilder {
  import opened Files
  import Text

  // ---------------------------------------------------------------------------
  // URI templates
  // ---------------------------------------------------------------------------

  /** Index of the first `c` in `s`, or `|s|` when there is none. */
  function IndexOf(s: string, c: char): (k: nat)
    ensures k <= |s|
    ensures forall i :: 0 <= i < k ==> s[i] != c
    ensures k < |s| ==> s[k] == c
  {
    if s == [] then 0 else if s[0] == c then 0 else 1 + IndexOf(s[1..], c)
  }

  /** The first groups of the matches of `\{([^}]+)}` found left to right: a '{'
      followed by at least one character other than '}' and then a '}'. */
  function Placeholders(s: string): seq<string>
    decreases |s|
  {
    if s == [] then []
    else if s[0] == '{' then
      var k := IndexOf(s[1..], '}');
      if 0 < k < |s| - 1 then [s[1..1 + k]] + Placeholders(s[k + 2..])
      else Placeholders(s[1..])
    else Placeholders(s[1..])
  }

  function Braced(name: string): string
  {
    "{" + name + "}"
  }

  /** The name a path variable is read under inside the generated class. */
  function SelfName(name: string, snake: string -> string): string
  {
    "self._" + snake(name)
  }

  /** The `forEach` of `transformUriTemplate`: for each matched name in turn, every
      `{name}` of the current text becomes `{self._<snake name>}`. */
  function ReplaceEach(s: string, names: seq<string>, snake: string -> string): string
    decreases |names|
  {
    if names == [] then s
    else ReplaceEach(Text.ReplaceAll(s, Braced(names[0]), Braced(SelfName(names[0], snake))), names[1..], snake)
  }

  /** `transformUriTemplate`: rewrite the placeholders one matched name at a time. */
  method TransformUriTemplate(template: string, snake: string -> string) returns (result: string)
    ensures result == ReplaceEach(template, Placeholders(template), snake)
    ensures Placeholders(template) == [] ==> result == template
  {
    var names := Placeholders(template);
    result := template;
    for i := 0 to |names|
      invariant ReplaceEach(result, names[i..], snake) == ReplaceEach(template, names, snake)
    {
      assert names[i..][0] == names[i] && names[i..][1..] == names[i + 1..];
      result := Text.ReplaceAll(result, Braced(names[i]), Braced(SelfName(names[i], snake)));
    }
  }

  /** A URI template read as literal text and `{variable}` placeholders. */
  datatype Segment = Lit(text: string) | Var(name: string)

  function Render(segs: seq<Segment>): string
  {
    if segs == [] then []
    else (match segs[0] case Lit(t) => t case Var(n) => Braced(n)) + Render(segs[1..])
  }

  /** The template with every variable read from `self`. */
  function Rewritten(segs: seq<Segment>, snake: string -> string): seq<Segment>
  {
    Text.Map((g: Segment) => if g.Var? then Var(SelfName(g.name, snake)) else g, segs)
  }

  function VarNames(segs: seq<Segment>): seq<string>
  {
    if segs == [] then [] else (if segs[0].Var? then [segs[0].name] else []) + VarNames(segs[1..])
  }

  predicate NoBraces(s: string)
  {
    '{' !in s && '}' !in s
  }

  /** Literals and names carry no braces, names are non-empty and are not already of
      the `self._` form, and the case conversion introduces no braces. */
  predicate WellFormed(segs: seq<Segment>, snake: string -> string)
  {
    forall g :: g in segs ==>
      match g
      case Lit(t) => NoBraces(t)
      case Var(n) => n != [] && NoBraces(n) && NoBraces(snake(n)) && !Text.StartsWith(n, "self._")
  }

  /** The template text with the variables in `done` already rewritten. */
  function RenderPartly(segs: seq<Segment>, done: set<string>, snake: string -> string): string
  {
    if segs == [] then []
    else
      (match segs[0]
       case Lit(t) => t
       case Var(n) => Braced(if n in done then SelfName(n, snake) else n))
      + RenderPartly(segs[1..], done, snake)
  }

  lemma {:induction false} RenderPartlyNone(segs: seq<Segment>, snake: string -> string)
    ensures RenderPartly(segs, {}, snake) == Render(segs)
    decreases |segs|
  {
    if segs != [] { RenderPartlyNone(segs[1..], snake); }
  }

  lemma {:induction false} RenderPartlyAll(segs: seq<Segment>, done: set<string>, snake: string -> string)
    requires forall n :: n in VarNames(segs) ==> n in done
    ensures RenderPartly(segs, done, snake) == Render(Rewritten(segs, snake))
    decreases |segs|
  {
    if segs != [] {
      RenderPartlyAll(segs[1..], done, snake);
      assert Rewritten(segs, snake)[1..] == Rewritten(segs[1..], snake);
    }
  }

  lemma {:induction false} PlaceholdersSkip(t: string, rest: string)
    requires '{' !in t
    ensures Placeholders(t + rest) == Placeholders(rest)
    decreases |t|
  {
    if t != [] {
      assert (t + rest)[1..] == t[1..] + rest;
      PlaceholdersSkip(t[1..], rest);
    } else {
      assert t + rest == rest;
    }
  }

  lemma PlaceholdersVar(n: string, rest: string)
    requires n != [] && '}' !in n
    ensures Placeholders(Braced(n) + rest) == [n] + Placeholders(rest)
  {
    var s := Braced(n) + rest;
    var t := s[1..];
    assert t == n + ("}" + rest);
    IndexOfAfter(n, '}', "}" + rest);
    PlaceholdersAt(s, |n|);
    assert s[1..1 + |n|] == n;
    assert s[|n| + 2..] == rest;
  }

  /** A '{' followed by a non-empty name and its '}' at `1 + k` opens a placeholder. */
  lemma PlaceholdersAt(s: string, k: nat)
    requires s != [] && s[0] == '{'
    requires 0 < k < |s| - 1 && IndexOf(s[1..], '}') == k
    ensures Placeholders(s) == [s[1..1 + k]] + Placeholders(s[k + 2..])
  {
  }

  /** The first `c` in `a + b` is the first of `b` when `a` has none and `b` starts with one. */
  lemma {:induction false} IndexOfAfter(a: string, c: char, b: string)
    requires c !in a && b != [] && b[0] == c
    ensures IndexOf(a + b, c) == |a|
    decreases |a|
  {
    if a == [] {
      assert a + b == b;
    } else {
      assert (a + b)[1..] == a[1..] + b;
      IndexOfAfter(a[1..], c, b);
    }
  }

  /** The placeholders found in a well-formed template are its variables, in order. */
  lemma {:induction false} PlaceholdersOfRender(segs: seq<Segment>, snake: string -> string)
    requires WellFormed(segs, snake)
    ensures Placeholders(Render(segs)) == VarNames(segs)
    decreases |segs|
  {
    if segs != [] {
      assert segs[0] in segs;
      assert WellFormed(segs[1..], snake) by {
        forall g | g in segs[1..] ensures g in segs { }
      }
      PlaceholdersOfRender(segs[1..], snake);
      match segs[0]
      case Lit(t) => PlaceholdersSkip(t, Render(segs[1..]));
      case Var(n) => PlaceholdersVar(n, Render(segs[1..]));
    }
  }

  /** A placeholder `{m}` cannot start where a different placeholder `{x}` does. */
  lemma NoOtherMatch(x: string, m: string, rest: string)
    requires '}' !in x && '}' !in m && x != m
    ensures !Text.StartsWith(Braced(x) + rest, Braced(m))
  {
    var s := Braced(x) + rest;
    var p := Braced(m);
    if |p| <= |s| {
      var t := s[..|p|];
      if |m| < |x| {
        assert t[|m| + 1] == x[|m|];
        assert t[|m| + 1] != p[|m| + 1];
      } else if |m| > |x| {
        assert t[|x| + 1] == '}';
        assert p[|x| + 1] == m[|x|];
      } else {
        var i :| 0 <= i < |m| && m[i] != x[i];
        assert t[i + 1] == x[i];
        assert p[i + 1] == m[i];
      }
    }
  }

  /** Replacing `{m}` in a text that starts with the placeholder `{x}`: the
      placeholder is replaced when it is `{m}` and kept otherwise. */
  lemma ReplacePlaceholder(x: string, m: string, rest: string, rep: string)
    requires NoBraces(x) && m != [] && '}' !in m
    ensures Text.ReplaceAll(Braced(x) + rest, Braced(m), rep)
         == (if x == m then rep else Braced(x)) + Text.ReplaceAll(rest, Braced(m), rep)
  {
    var s := Braced(x) + rest;
    var pat := Braced(m);
    if x == m {
      assert s[..|pat|] == pat;
      assert s[|pat|..] == rest;
    } else {
      NoOtherMatch(x, m, rest);
      assert s[1..] == (x + "}") + rest;
      Text.ReplaceAllSkip(x + "}", rest, pat, rep);
    }
  }

  predicate GoodName(m: string)
  {
    m != [] && NoBraces(m) && !Text.StartsWith(m, "self._")
  }

  /** One step of the `forEach`: replacing `{m}` rewrites exactly the occurrences of
      the variable `m` and nothing else. */
  lemma {:induction false} ReplaceStep(segs: seq<Segment>, done: set<string>, m: string, snake: string -> string)
    requires WellFormed(segs, snake) && GoodName(m)
    ensures Text.ReplaceAll(RenderPartly(segs, done, snake), Braced(m), Braced(SelfName(m, snake)))
         == RenderPartly(segs, done + {m}, snake)
    decreases |segs|
  {
    if segs != [] {
      var pat := Braced(m);
      var rep := Braced(SelfName(m, snake));
      var rest := RenderPartly(segs[1..], done, snake);
      assert segs[0] in segs;
      assert WellFormed(segs[1..], snake) by {
        forall g | g in segs[1..] ensures g in segs { }
      }
      ReplaceStep(segs[1..], done, m, snake);
      match segs[0]
      case Lit(t) =>
        Text.ReplaceAllSkip(t, rest, pat, rep);
      case Var(n) =>
        var x := if n in done then SelfName(n, snake) else n;
        assert NoBraces(x) by {
          if n in done {
            assert x == "self._" + snake(n);
            assert forall i :: 0 <= i < |x| ==> x[i] in "self._" || x[i] in snake(n);
          }
        }
        ReplacePlaceholder(x, m, rest, rep);
        if n in done {
          assert x[..6] == "self._";
          assert x != m;
        }
    }
  }

  lemma {:induction false} ReplaceEachPartly(segs: seq<Segment>, done: set<string>, names: seq<string>, snake: string -> string)
    requires WellFormed(segs, snake)
    requires forall n :: n in names ==> GoodName(n)
    ensures ReplaceEach(RenderPartly(segs, done, snake), names, snake)
         == RenderPartly(segs, done + (set n | n in names), snake)
    decreases |names|
  {
    if names != [] {
      assert names[0] in names;
      assert forall n :: n in names[1..] ==> n in names;
      ReplaceStep(segs, done, names[0], snake);
      ReplaceEachPartly(segs, done + {names[0]}, names[1..], snake);
      NamesCons(names);
      assert done + {names[0]} + (set n | n in names[1..]) == done + (set n | n in names);
      var step := Text.ReplaceAll(RenderPartly(segs, done, snake), Braced(names[0]), Braced(SelfName(names[0], snake)));
      assert ReplaceEach(RenderPartly(segs, done, snake), names, snake) == ReplaceEach(step, names[1..], snake);
      assert step == RenderPartly(segs, done + {names[0]}, snake);
    } else {
      assert done + (set n | n in names) == done;
    }
  }

  /** The names of a non-empty list are its first name and the names of the rest. */
  lemma NamesCons(names: seq<string>)
    requires names != []
    ensures (set n | n in names) == {names[0]} + (set n | n in names[1..])
  {
    assert names == [names[0]] + names[1..];
  }

  lemma {:induction false} VarNamesGood(segs: seq<Segment>, snake: string -> string)
    requires WellFormed(segs, snake)
    ensures forall n :: n in VarNames(segs) ==> GoodName(n) && Var(n) in segs
    decreases |segs|
  {
    if segs != [] {
      assert segs[0] in segs;
      assert WellFormed(segs[1..], snake) by {
        forall g | g in segs[1..] ensures g in segs { }
      }
      VarNamesGood(segs[1..], snake);
    }
  }

  /** `transformUriTemplate` on a well-formed template rewrites every `{name}` to
      `{self._<snake name>}` and leaves all literal text alone. */
  lemma TransformRendered(segs: seq<Segment>, snake: string -> string)
    requires WellFormed(segs, snake)
    ensures ReplaceEach(Render(segs), Placeholders(Render(segs)), snake) == Render(Rewritten(segs, snake))
  {
    PlaceholdersOfRender(segs, snake);
    VarNamesGood(segs, snake);
    RenderPartlyNone(segs, snake);
    var names := VarNames(segs);
    ReplaceEachPartly(segs, {}, names, snake);
    RenderPartlyAll(segs, {} + (set n | n in names), snake);
  }

  /** A template without '{' has no placeholders and so is returned unchanged. */
  lemma {:induction false} NoBraceNoPlaceholder(s: string)
    requires '{' !in s
    ensures Placeholders(s) == []
    decreases |s|
  {
    if s != [] { NoBraceNoPlaceholder(s[1..]); }
  }

  // ---------------------------------------------------------------------------
  // The method model
  // ---------------------------------------------------------------------------

  /** A query parameter. `paramName` and `typeName` are what the renderer's helpers
      (`paramName()`, `pyTypeName()`) return for it; `template` is its `template()`. */
  datatype QueryParam = QueryParam(
    name: string, required: bool, pattern: bool, paramName: string, typeName: string, template: string)

  /** The request body's type and its Python type name. */
  datatype Body = Body(vrapType: VrapType, pyTypeName: string)

  /** A response: its status code and, when it has bodies, `simplePyName` of the
      first body's type. */
  datatype Response = Response(statusCode: int, bodyClass: Option<string>)

  datatype Method = Method(
    methodName: string,
    body: Option<Body>,
    queryParameters: seq<QueryParam>,
    responses: seq<Response>,
    returnTypeName: string,
    uriTemplate: string)

  const HeadersKwarg := "headers: typing.Dict[str, str] = None"
  const OptionsKwarg := "options: typing.Dict[str, typing.Any] = None"

  function KwargOf(p: QueryParam, snake: string -> string): string
  {
    var decl :=
      if p.pattern then p.paramName + ": typing.Dict[str, " + p.typeName + "]"
      else snake(p.name) + ": " + p.typeName;
    if p.required then decl else decl + " = None"
  }

  function BodySlot(body: Option<Body>): string
  {
    if body.Some? then "body: " + body.value.pyTypeName else ""
  }

  predicate NonEmpty(k: string)
  {
    k != ""
  }

  function ParamKwargs(params: seq<QueryParam>, snake: string -> string): seq<string>
  {
    Text.Map((p: QueryParam) => KwargOf(p, snake), params)
  }

  /** The keyword-argument list, before it is joined with ", ". */
  function MethodKwargs(m: Method, snake: string -> string): seq<string>
  {
    Text.Filter(NonEmpty,
      ["self", BodySlot(m.body), "*"] + ParamKwargs(m.queryParameters, snake) + [HeadersKwarg, OptionsKwarg])
  }

  /** The filter only ever removes the missing body slot: the list is "self", the
      body slot when there is a body, "*", one entry per query parameter in order,
      then headers and options. */
  lemma KwargsShape(m: Method, snake: string -> string)
    ensures MethodKwargs(m, snake) ==
      ["self"] + (if m.body.Some? then ["body: " + m.body.value.pyTypeName] else []) + ["*"]
      + ParamKwargs(m.queryParameters, snake) + [HeadersKwarg, OptionsKwarg]
    ensures var k := MethodKwargs(m, snake);
      && k[0] == "self" && "*" in k
      && k[|k| - 2] == HeadersKwarg && k[|k| - 1] == OptionsKwarg
      && |k| == |m.queryParameters| + (if m.body.Some? then 5 else 4)
  {
    var slot := BodySlot(m.body);
    var head := ["self", slot, "*"];
    var ps := ParamKwargs(m.queryParameters, snake);
    var tail := [HeadersKwarg, OptionsKwarg];
    forall i | 0 <= i < |ps| ensures NonEmpty(ps[i]) {
      KwargNonEmpty(m.queryParameters[i], snake);
    }
    KeepAll(ps);
    KeepAll(tail);
    HeadFilter(slot);
    Text.FilterAppend(NonEmpty, head + ps, tail);
    Text.FilterAppend(NonEmpty, head, ps);
    assert slot == "" <==> m.body.None?;
  }

  lemma KwargNonEmpty(p: QueryParam, snake: string -> string)
    ensures NonEmpty(KwargOf(p, snake))
  {
    var decl :=
      if p.pattern then p.paramName + ": typing.Dict[str, " + p.typeName + "]"
      else snake(p.name) + ": " + p.typeName;
    assert |decl| >= 2;
  }

  lemma HeadFilter(slot: string)
    ensures Text.Filter(NonEmpty, ["self", slot, "*"]) == ["self"] + (if slot == "" then [] else [slot]) + ["*"]
  {
    Text.FilterCons(NonEmpty, "*", []);
    Text.FilterCons(NonEmpty, slot, ["*"]);
    Text.FilterCons(NonEmpty, "self", [slot, "*"]);
    assert [slot] + ["*"] == [slot, "*"];
    assert ["self"] + [slot, "*"] == ["self", slot, "*"];
  }

  lemma {:induction false} KeepAll(s: seq<string>)
    requires forall i :: 0 <= i < |s| ==> NonEmpty(s[i])
    ensures Text.Filter(NonEmpty, s) == s
    decreases |s|
  {
    if s != [] {
      KeepAll(s[1..]);
      assert s == [s[0]] + s[1..];
    }
  }

  /** `bodyExpr`: a binary body is read, an object body is serialised, any other
      body (or none) adds nothing. */
  function BodyExpr(body: Option<Body>): string
  {
    if body.Some? && body.value.vrapType.Scalar? && body.value.vrapType.scalarType == "typing.BinaryIO"
    then "data=body.read(),"
    else if body.Some? && body.value.vrapType.Object? then "json=body.serialize(),"
    else ""
  }

  /** The call passes a body only when the signature declares one. */
  lemma BodySentOnlyWhenDeclared(m: Method, snake: string -> string)
    ensures BodyExpr(m.body) != "" ==> m.body.Some? && "body: " + m.body.value.pyTypeName in MethodKwargs(m, snake)
    ensures BodyExpr(m.body) != "" <==>
      m.body.Some? && (m.body.value.vrapType.Object? || m.body.value.vrapType == Scalar("typing.BinaryIO"))
  {
    KwargsShape(m, snake);
    if BodyExpr(m.body) != "" {
      assert MethodKwargs(m, snake)[1] == "body: " + m.body.value.pyTypeName;
    }
  }

  predicate IsPattern(p: QueryParam)
  {
    p.pattern
  }

  predicate IsPlain(p: QueryParam)
  {
    !p.pattern
  }

  /** The dictionary literal of the plain (non-pattern) query parameters. */
  function ParamsDict(params: seq<QueryParam>, snake: string -> string): string
  {
    "{" + Text.Join(Text.Map((p: QueryParam) => "\"" + p.name + "\": " + snake(p.name),
                             Text.Filter(IsPlain, params)), ", ") + "}"
  }

  /** One `<paramName> and params.update(<template>)` line per pattern parameter. */
  function PatternUpdates(params: seq<QueryParam>): seq<string>
  {
    Text.Map((p: QueryParam) => p.paramName + " and params.update(" + p.template + ")",
             Text.Filter(IsPattern, params))
  }

  /** The `params=` argument of the client call: the dictionary itself, or the local
      `params` built before the call when there are pattern parameters. */
  function ParamsArgument(params: seq<QueryParam>, snake: string -> string): string
  {
    if PatternUpdates(params) == [] then "params=" + ParamsDict(params, snake) else "params=params"
  }

  /** The `params = <dict>` line before the call, written when some parameter is
      a pattern. */
  function ParamsLocal(params: seq<QueryParam>, snake: string -> string): Option<string>
  {
    if PatternUpdates(params) == [] then None else Some("params = " + ParamsDict(params, snake))
  }

  /** The local `params` is declared exactly when the call passes it and exactly
      when some parameter is a pattern, and it holds the dictionary literal. */
  lemma ParamsLocalShape(params: seq<QueryParam>, snake: string -> string)
    ensures ParamsLocal(params, snake).Some? <==> ParamsArgument(params, snake) == "params=params"
    ensures ParamsLocal(params, snake).Some? <==> exists p :: p in params && p.pattern
    ensures ParamsLocal(params, snake).Some? ==> Text.StartsWith(ParamsLocal(params, snake).value, "params = {")
  {
    ParamsArgumentChoice(params, snake);
    assert |PatternUpdates(params)| == |Text.Filter(IsPattern, params)|;
    if PatternUpdates(params) != [] {
      var dict := ParamsDict(params, snake);
      assert dict == "{" + dict[1..];
      assert "params = " + dict == "params = {" + dict[1..];
      Text.AppendEnds("params = {", dict[1..]);
    } else {
      assert ("params=" + ParamsDict(params, snake))[7] == '{';
    }
  }

  /** One update line per pattern parameter, in order, each guarded by that
      parameter's own name. */
  lemma PatternUpdatesShape(params: seq<QueryParam>)
    ensures |PatternUpdates(params)| == |Text.Filter(IsPattern, params)|
    ensures forall i :: 0 <= i < |PatternUpdates(params)| ==>
      Text.StartsWith(PatternUpdates(params)[i], Text.Filter(IsPattern, params)[i].paramName + " and params.update(")
  {
    var patterns := Text.Filter(IsPattern, params);
    forall i | 0 <= i < |PatternUpdates(params)|
      ensures Text.StartsWith(PatternUpdates(params)[i], patterns[i].paramName + " and params.update(")
    {
      var head := patterns[i].paramName + " and params.update(";
      assert PatternUpdates(params)[i] == head + (patterns[i].template + ")");
      Text.AppendEnds(head, patterns[i].template + ")");
    }
  }

  lemma ParamsCount(params: seq<QueryParam>)
    ensures |Text.Filter(IsPattern, params)| + |Text.Filter(IsPlain, params)| == |params|
  {
    forall i | 0 <= i < |params| ensures IsPlain(params[i]) <==> !IsPattern(params[i]) {
    }
    Text.FilterComplement(IsPattern, IsPlain, params);
  }

  /** Every query parameter is either a dictionary entry or a pattern update, never
      both; the local `params` is used exactly when some parameter is a pattern. */
  lemma ParamsPartition(params: seq<QueryParam>, snake: string -> string)
    ensures |Text.Filter(IsPlain, params)| + |PatternUpdates(params)| == |params|
    ensures forall p :: p in Text.Filter(IsPlain, params) <==> p in params && !p.pattern
    ensures ParamsArgument(params, snake) == "params=params" <==> exists p :: p in params && p.pattern
  {
    ParamsCount(params);
    Text.FilterMembers(IsPlain, params);
    ParamsArgumentChoice(params, snake);
  }

  lemma ParamsArgumentChoice(params: seq<QueryParam>, snake: string -> string)
    ensures ParamsArgument(params, snake) == "params=params" <==> exists p :: p in params && p.pattern
  {
    Text.FilterMembers(IsPattern, params);
    var patterns := Text.Filter(IsPattern, params);
    if patterns != [] {
      assert patterns[0] in patterns;
    } else {
      assert ParamsDict(params, snake)[0] == '{';
      assert ("params=" + ParamsDict(params, snake))[7] == '{';
    }
  }


  // ---------------------------------------------------------------------------
  // Response handling
  // ---------------------------------------------------------------------------

  function ClassName(r: Response): string
  {
    r.bodyClass.GetOr("None")
  }

  predicate IsSuccess(code: int)
  {
    200 <= code <= 299
  }

  /** The grouping key: the body class (or "None") and whether the status is a success. */
  datatype Key = Key(className: string, success: bool)

  function KeyOf(r: Response): Key
  {
    Key(ClassName(r), IsSuccess(r.statusCode))
  }

  datatype Keyword = If | Elif

  datatype Condition = Eq(code: int) | In(codes: seq<int>)

  datatype Action = ReturnNone | Deserialize(className: string) | Raise(className: string)

  datatype Branch = Branch(keyword: Keyword, condition: Condition, action: Action)

  function Statuses(rs: seq<Response>): seq<int>
  {
    Text.Map((r: Response) => r.statusCode, rs)
  }

  function CodesOf(c: Condition): seq<int>
  {
    match c
    case Eq(x) => [x]
    case In(cs) => cs
  }

  /** The branch rendered for the `idx`-th group. */
  function BranchFor(idx: nat, g: Text.Group<Key, Response>): Branch
  {
    var codes := Statuses(g.members);
    Branch(
      if idx == 0 then If else Elif,
      if |codes| == 1 then Eq(codes[0]) else In(codes),
      if g.key.className == "None" then ReturnNone
      else if g.key.success then Deserialize(g.key.className)
      else Raise(g.key.className))
  }

  function Groups(responses: seq<Response>): seq<Text.Group<Key, Response>>
  {
    Text.GroupBy(responses, KeyOf)
  }

  /** The branch list: one per group, in group order. */
  function Branches(responses: seq<Response>): (bs: seq<Branch>)
  {
    var gs := Groups(responses);
    seq(|gs|, i requires 0 <= i < |gs| => BranchFor(i, gs[i]))
  }

  predicate HasBodylessResponse(responses: seq<Response>)
  {
    exists r :: r in responses && ClassName(r) == "None"
  }

  /** The grouping, specialised to responses: distinct keys, every response in the
      one group of its key, no empty group. */
  lemma GroupsPartition(responses: seq<Response>)
    ensures var gs := Groups(responses);
      && (forall i, j :: 0 <= i < j < |gs| ==> gs[i].key != gs[j].key)
      && (forall r :: r in responses ==> exists i :: 0 <= i < |gs| && gs[i].key == KeyOf(r))
      && (forall i :: 0 <= i < |gs| ==> gs[i].members != [])
      && (forall i, r :: 0 <= i < |gs| && r in gs[i].members ==> r in responses && KeyOf(r) == gs[i].key)
      && (forall i, r :: 0 <= i < |gs| && r in responses && KeyOf(r) == gs[i].key ==> r in gs[i].members)
  {
    Text.GroupByPartition(responses, KeyOf);
  }

  /** Some of the first `n` groups is keyed "None". */
  predicate NoneGroupBefore(gs: seq<Text.Group<Key, Response>>, n: nat)
  {
    exists j :: 0 <= j < n && j < |gs| && gs[j].key.className == "None"
  }

  /** One more group: it is keyed "None", or the earlier ones decide. */
  lemma NoneGroupStep(gs: seq<Text.Group<Key, Response>>, n: nat)
    requires n < |gs|
    ensures NoneGroupBefore(gs, n + 1) <==> NoneGroupBefore(gs, n) || gs[n].key.className == "None"
  {
  }

  /** One more branch, built for the next group, keeps the branches matching the groups. */
  lemma BranchesStep(gs: seq<Text.Group<Key, Response>>, bs: seq<Branch>, b: Branch)
    requires |bs| < |gs|
    requires forall i :: 0 <= i < |bs| ==> bs[i] == BranchFor(i, gs[i])
    requires b == BranchFor(|bs|, gs[|bs|])
    ensures forall i :: 0 <= i < |bs + [b]| ==> (bs + [b])[i] == BranchFor(i, gs[i])
  {
  }

  /** Some group is keyed "None" exactly when some response has the class name
      `None`, as a response without a body does. */
  lemma BodylessGroup(responses: seq<Response>)
    ensures var gs := Groups(responses);
      NoneGroupBefore(gs, |gs|) <==> HasBodylessResponse(responses)
  {
    var gs := Groups(responses);
    GroupsPartition(responses);
    if j :| 0 <= j < |gs| && gs[j].key.className == "None" {
      var r := gs[j].members[0];
      assert r in gs[j].members;
      assert r in responses && ClassName(r) == "None";
    }
    if HasBodylessResponse(responses) {
      var r :| r in responses && ClassName(r) == "None";
      var j :| 0 <= j < |gs| && gs[j].key == KeyOf(r);
      assert gs[j].key.className == "None";
    }
  }

  /** The `map` over the groups in `renderMethod`, with its `idx` counter and the
      `returnTypeOptional` flag it raises for every bodiless group. */
  method RenderResponseHandler(responses: seq<Response>) returns (branches: seq<Branch>, optional: bool)
    ensures branches == Branches(responses)
    ensures optional <==> HasBodylessResponse(responses)
  {
    var groups := Groups(responses);
    var idx := 0;
    optional := false;
    branches := [];
    while idx < |groups|
      invariant 0 <= idx <= |groups|
      invariant |branches| == idx
      invariant forall i :: 0 <= i < idx ==> branches[i] == BranchFor(i, groups[i])
      invariant optional <==> NoneGroupBefore(groups, idx)
    {
      var g := groups[idx];
      var codes := Statuses(g.members);
      assert |codes| > 0 by { GroupsPartition(responses); }
      var condition := if |codes| > 1 then In(codes) else Eq(codes[0]);
      var keyword := if idx == 0 then If else Elif;
      var action: Action;
      if g.key.success {
        if g.key.className == "None" {
          optional := true;
          action := ReturnNone;
        } else {
          action := Deserialize(g.key.className);
        }
      } else {
        if g.key.className == "None" {
          optional := true;
          action := ReturnNone;
        } else {
          action := Raise(g.key.className);
        }
      }
      assert Branch(keyword, condition, action) == BranchFor(idx, g);
      BranchesStep(groups, branches, Branch(keyword, condition, action));
      NoneGroupStep(groups, idx);
      branches := branches + [Branch(keyword, condition, action)];
      idx := idx + 1;
    }
    BodylessGroup(responses);
  }

  /** The `i`-th branch: `if` first and `elif` after, `== code` for a single status
      and `in (…)` for several, exactly the group's statuses, and an action that
      matches the group: return None without a body, deserialise on success, raise
      on failure. */
  lemma BranchShape(responses: seq<Response>, i: nat)
    requires i < |Groups(responses)|
    ensures var b := Branches(responses)[i];
      var g := Groups(responses)[i];
      && (b.keyword == If <==> i == 0)
      && (b.condition.In? <==> |g.members| > 1)
      && CodesOf(b.condition) == Statuses(g.members)
      && (b.action.Deserialize? ==> forall c :: c in CodesOf(b.condition) ==> IsSuccess(c))
      && (b.action.Raise? ==> forall c :: c in CodesOf(b.condition) ==> !IsSuccess(c))
      && (b.action.ReturnNone? <==> forall r :: r in g.members ==> ClassName(r) == "None")
      && (!b.action.ReturnNone? ==> forall r :: r in g.members ==> r.bodyClass == Some(b.action.className))
  {
    BranchCondition(responses, i);
    BranchAction(responses, i);
  }

  lemma BranchCondition(responses: seq<Response>, i: nat)
    requires i < |Groups(responses)|
    ensures var b := Branches(responses)[i];
      var g := Groups(responses)[i];
      && (b.keyword == If <==> i == 0)
      && (b.condition.In? <==> |g.members| > 1)
      && CodesOf(b.condition) == Statuses(g.members)
  {
    var g := Groups(responses)[i];
    GroupsPartition(responses);
    var codes := Statuses(g.members);
    if |codes| == 1 { assert codes == [codes[0]]; }
  }

  lemma BranchAction(responses: seq<Response>, i: nat)
    requires i < |Groups(responses)|
    ensures var b := Branches(responses)[i];
      var g := Groups(responses)[i];
      && (b.action.Deserialize? ==> forall c :: c in Statuses(g.members) ==> IsSuccess(c))
      && (b.action.Raise? ==> forall c :: c in Statuses(g.members) ==> !IsSuccess(c))
      && (b.action.ReturnNone? <==> forall r :: r in g.members ==> ClassName(r) == "None")
      && (!b.action.ReturnNone? ==> forall r :: r in g.members ==> r.bodyClass == Some(b.action.className))
  {
    var g := Groups(responses)[i];
    GroupsPartition(responses);
    var codes := Statuses(g.members);
    forall c | c in codes ensures IsSuccess(c) == g.key.success {
      var k :| 0 <= k < |codes| && codes[k] == c;
      assert g.members[k] in g.members;
    }
    assert g.members[0] in g.members;
  }


  /** Every response belongs to exactly one branch, the one of its (class, success)
      key, and that branch's condition lists its status. */
  lemma ResponseHandledOnce(responses: seq<Response>, r: Response)
    requires r in responses
    ensures var bs := Branches(responses);
      var gs := Groups(responses);
      exists i :: 0 <= i < |bs| && gs[i].key == KeyOf(r) && r.statusCode in CodesOf(bs[i].condition)
        && forall j :: 0 <= j < |bs| && j != i ==> gs[j].key != KeyOf(r)
  {
    var gs := Groups(responses);
    GroupsPartition(responses);
    var i :| 0 <= i < |gs| && gs[i].key == KeyOf(r);
    assert r in gs[i].members;
    var k :| 0 <= k < |gs[i].members| && gs[i].members[k] == r;
    assert Statuses(gs[i].members)[k] == r.statusCode;
    BranchShape(responses, i);
  }

  /** The opening of the client call: `self._client._` and the lower-cased HTTP
      method name. */
  function ClientCall(methodName: string): string
  {
    "self._client._" + Text.LowerAscii(methodName) + "("
  }

  /** The call goes through `self._client`, to the helper named after the HTTP
      method with every ASCII upper-case letter lowered and nothing else changed;
      a name already in lower case is used as it is. */
  lemma ClientCallShape(methodName: string)
    ensures Text.StartsWith(ClientCall(methodName), "self._client._")
    ensures Text.EndsWith(ClientCall(methodName), "(")
    ensures |ClientCall(methodName)| == 15 + |methodName|
    ensures forall i :: 0 <= i < |methodName| ==>
      && !Text.IsUpperAscii(ClientCall(methodName)[14 + i])
      && (Text.IsUpperAscii(methodName[i]) ==> ClientCall(methodName)[14 + i] as int == methodName[i] as int + 32)
      && (!Text.IsUpperAscii(methodName[i]) ==> ClientCall(methodName)[14 + i] == methodName[i])
    ensures (forall i :: 0 <= i < |methodName| ==> !Text.IsUpperAscii(methodName[i])) ==>
      ClientCall(methodName) == "self._client._" + methodName + "("
  {
    var verb := Text.LowerAscii(methodName);
    Text.AppendEnds("self._client._", verb + "(");
    Text.AppendEnds("self._client._" + verb, "(");
    forall i | 0 <= i < |methodName|
      ensures ClientCall(methodName)[14 + i] == Text.LowerChar(methodName[i])
    {
      VerbAt(methodName, i);
    }
    if forall i :: 0 <= i < |methodName| ==> !Text.IsUpperAscii(methodName[i]) {
      assert verb == methodName;
    }
  }

  lemma VerbAt(methodName: string, i: nat)
    requires i < |methodName|
    ensures ClientCall(methodName)[14 + i] == Text.LowerChar(methodName[i])
  {
    var verb := Text.LowerAscii(methodName);
    assert ClientCall(methodName) == "self._client._" + (verb + "(");
    assert (verb + "(")[i] == verb[i];
  }

  /** What `renderMethod` decides for one method. */
  datatype RenderedMethod = RenderedMethod(
    name: string,
    kwargs: seq<string>,
    returnAnnotation: string,
    paramsLocal: Option<string>,
    patternUpdates: seq<string>,
    clientCall: string,
    endpoint: string,
    paramsArgument: string,
    bodyExpr: string,
    branches: seq<Branch>)

  /** `renderMethod`: the return annotation is wrapped in `typing.Optional[…]` exactly
      when some response, successful or not, has the class name `None`; the local
      `params` and its pattern updates precede the client call. */
  method RenderMethod(m: Method, snake: string -> string) returns (r: RenderedMethod)
    ensures r.name == m.methodName
    ensures r.kwargs == MethodKwargs(m, snake)
    ensures r.returnAnnotation ==
      if HasBodylessResponse(m.responses) then "typing.Optional[" + m.returnTypeName + "]" else m.returnTypeName
    ensures r.paramsLocal == ParamsLocal(m.queryParameters, snake)
    ensures r.patternUpdates == PatternUpdates(m.queryParameters)
    ensures r.clientCall == ClientCall(m.methodName)
    ensures r.endpoint == ReplaceEach(m.uriTemplate, Placeholders(m.uriTemplate), snake)
    ensures r.paramsArgument == ParamsArgument(m.queryParameters, snake)
    ensures r.bodyExpr == BodyExpr(m.body)
    ensures r.branches == Branches(m.responses)
  {
    var kwargs := MethodKwargs(m, snake);
    var branches, returnTypeOptional := RenderResponseHandler(m.responses);
    var methodReturn := m.returnTypeName;
    if returnTypeOptional {
      methodReturn := "typing.Optional[" + methodReturn + "]";
    }
    var endpoint := TransformUriTemplate(m.uriTemplate, snake);
    var bodyExpr := "";
    if m.body.Some? && m.body.value.vrapType.Scalar? && m.body.value.vrapType.scalarType == "typing.BinaryIO" {
      bodyExpr := "data=body.read(),";
    } else if m.body.Some? && m.body.value.vrapType.Object? {
      bodyExpr := "json=body.serialize(),";
    }
    var paramsPatternDicts := PatternUpdates(m.queryParameters);
    var paramsLocal := if paramsPatternDicts != [] then Some("params = " + ParamsDict(m.queryParameters, snake)) else None;
    r := RenderedMethod(m.methodName, kwargs, methodReturn, paramsLocal, paramsPatternDicts,
                        ClientCall(m.methodName), endpoint, ParamsArgument(m.queryParameters, snake), bodyExpr, branches);
  }
}
