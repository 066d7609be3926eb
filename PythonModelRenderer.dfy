/** `PythonModuleRenderer`: one Python module per model module name, holding the
    `__all__` export list and a class per object type and string enum of that module. */
module PyModel {
  import opened Files
  import opened PyTypes
  import Text

  // ---------------------------------------------------------------------------
  // Module files
  // ---------------------------------------------------------------------------

  /** The module name's '.'-segments joined with '/', plus ".py". */
  function ModulePath(moduleName: string): string
  {
    Text.Join(Text.Split(moduleName, {'.'}), "/") + ".py"
  }

  /** The module path is the module name with every '.' turned into '/', plus ".py". */
  lemma ModulePathIsReplace(moduleName: string)
    ensures ModulePath(moduleName) == Text.ReplaceChar(moduleName, '.', '/') + ".py"
  {
    Text.JoinSplitIsReplace(moduleName, '.', '/');
  }

  /** Two module names without '/' share a path only when they are the same name, so
      the modules of different names never overwrite each other. */
  lemma ModulePathInjective(a: string, b: string)
    requires '/' !in a && '/' !in b
    ensures ModulePath(a) == ModulePath(b) ==> a == b
  {
    ModulePathIsReplace(a);
    ModulePathIsReplace(b);
    var ra := Text.ReplaceChar(a, '.', '/');
    var rb := Text.ReplaceChar(b, '.', '/');
    if ModulePath(a) == ModulePath(b) {
      assert ra == (ra + ".py")[..|ra|] == (rb + ".py")[..|rb|] == rb;
      forall i | 0 <= i < |a| ensures a[i] == b[i] {
        assert a[i] != '/' && b[i] != '/';
        assert ra[i] == rb[i];
      }
    }
  }

  /** `'<simplePyName>'` for one type. */
  function Quoted(d: TypeDecl): string { "'" + d.pyName + "'" }

  /** `getExportedVariables`: the quoted names of the module's types, sorted. */
  function ExportedVariables(types: seq<TypeDecl>): seq<string>
  {
    Text.Sort(Text.Map(Quoted, types))
  }

  /** `__all__` lists every type of the module once per type, in ascending order;
      when the Python names differ it is strictly ascending. */
  lemma ExportedVariablesSorted(types: seq<TypeDecl>)
    ensures multiset(ExportedVariables(types)) == multiset(Text.Map(Quoted, types))
    ensures Text.SortedBy(ExportedVariables(types), Text.Identity)
    ensures Text.NoDuplicates(Text.Map(Quoted, types)) ==> Text.NoDuplicates(ExportedVariables(types))
  {
    Text.SortBySorted(Text.Map(Quoted, types), Text.Identity);
    if Text.NoDuplicates(Text.Map(Quoted, types)) {
      Text.SortedDistinctStrict(Text.Map(Quoted, types));
    }
  }

  // ---------------------------------------------------------------------------
  // Type annotations
  // ---------------------------------------------------------------------------

  /** `renderTypeExpr`: `typing.Union[…]` for unions, members joined with " & " for
      intersections, `None` for nil, and the type's Python type name otherwise. */
  function RenderTypeExpr(t: TypeRef): string
    decreases t, 1
  {
    match t.kind
    case UnionKind(ms) => "typing.Union[" + Text.Join(RenderAll(ms), ", ") + "]"
    case IntersectionKind(ms) => Text.Join(RenderAll(ms), " & ")
    case NilKind => "None"
    case _ => t.pyTypeName
  }

  function RenderAll(ms: seq<TypeRef>): (r: seq<string>)
    ensures |r| == |ms|
    decreases ms, 0
  {
    if ms == [] then [] else [RenderTypeExpr(ms[0])] + RenderAll(ms[1..])
  }

  /** As many '[' as ']'. */
  predicate Balanced(s: string)
  {
    Text.CountIn(s, {'['}) == Text.CountIn(s, {']'})
  }

  /** Every Python type name the annotation falls back to is balanced. */
  predicate NamesBalanced(t: TypeRef)
    decreases t, 1
  {
    match t.kind
    case UnionKind(ms) => AllNamesBalanced(ms)
    case IntersectionKind(ms) => AllNamesBalanced(ms)
    case NilKind => true
    case _ => Balanced(t.pyTypeName)
  }

  predicate AllNamesBalanced(ms: seq<TypeRef>)
    decreases ms, 0
  {
    ms == [] || (NamesBalanced(ms[0]) && AllNamesBalanced(ms[1..]))
  }

  lemma BalancedAppend(a: string, b: string)
    requires Balanced(a) && Balanced(b)
    ensures Balanced(a + b)
  {
    Text.CountInAppend(a, b, {'['});
    Text.CountInAppend(a, b, {']'});
  }

  lemma {:induction false} JoinBalanced(parts: seq<string>, sep: string)
    requires Balanced(sep)
    requires forall k :: 0 <= k < |parts| ==> Balanced(parts[k])
    ensures Balanced(Text.Join(parts, sep))
    decreases |parts|
  {
    if |parts| > 1 {
      JoinBalanced(parts[1..], sep);
      BalancedAppend(parts[0], sep);
      BalancedAppend(parts[0] + sep, Text.Join(parts[1..], sep));
    } else if |parts| == 0 {
      assert Text.Join(parts, sep) == [];
    }
  }

  /** The annotation opens as many brackets as it closes whenever the Python type
      names it falls back to do: every `typing.Union[` is closed. */
  lemma {:induction false} RenderTypeExprBalanced(t: TypeRef)
    requires NamesBalanced(t)
    ensures Balanced(RenderTypeExpr(t))
    decreases t, 1
  {
    match t.kind
    case UnionKind(ms) =>
      RenderAllBalanced(ms);
      JoinBalanced(RenderAll(ms), ", ");
      var inner := Text.Join(RenderAll(ms), ", ");
      BalancedOpenClose(inner);
    case IntersectionKind(ms) =>
      RenderAllBalanced(ms);
      JoinBalanced(RenderAll(ms), " & ");
    case NilKind =>
      assert Text.CountIn("None", {'['}) == 0 == Text.CountIn("None", {']'});
    case _ =>
  }

  lemma BalancedOpenClose(inner: string)
    requires Balanced(inner)
    ensures Balanced("typing.Union[" + inner + "]")
  {
    var open := "typing.Union[";
    OpenCounts();
    CharCounts(']');
    Text.CountInAppend(open, inner, {'['});
    Text.CountInAppend(open, inner, {']'});
    Text.CountInAppend(open + inner, "]", {'['});
    Text.CountInAppend(open + inner, "]", {']'});
  }

  lemma UnionPrefixClean()
    ensures Text.NoneOf("typing.Union", {'['})
    ensures Text.NoneOf("typing.Union", {']'})
  {
    forall i | 0 <= i < |"typing.Union"| ensures "typing.Union"[i] != '[' && "typing.Union"[i] != ']' {
    }
  }

  lemma CharCounts(c: char)
    ensures Text.CountIn([c], {'['}) == (if c == '[' then 1 else 0)
    ensures Text.CountIn([c], {']'}) == (if c == ']' then 1 else 0)
  {
    assert [c][1..] == [];
  }

  lemma OpenCounts()
    ensures Text.CountIn("typing.Union[", {'['}) == 1
    ensures Text.CountIn("typing.Union[", {']'}) == 0
  {
    var pre := "typing.Union";
    UnionPrefixClean();
    Text.CountInNone(pre, {'['});
    Text.CountInNone(pre, {']'});
    CharCounts('[');
    Text.CountInAppend(pre, "[", {'['});
    Text.CountInAppend(pre, "[", {']'});
    assert pre + "[" == "typing.Union[";
  }

  lemma {:induction false} RenderAllBalanced(ms: seq<TypeRef>)
    requires AllNamesBalanced(ms)
    ensures forall k :: 0 <= k < |RenderAll(ms)| ==> Balanced(RenderAll(ms)[k])
    decreases ms, 0
  {
    if ms != [] {
      RenderTypeExprBalanced(ms[0]);
      RenderAllBalanced(ms[1..]);
    }
  }

  /** A one-member intersection is rendered as that member alone, and a one-member
      union wraps that member's annotation. */
  lemma SingleMember(t: TypeRef, m: TypeRef)
    ensures t.kind == IntersectionKind([m]) ==> RenderTypeExpr(t) == RenderTypeExpr(m)
    ensures t.kind == UnionKind([m]) ==> RenderTypeExpr(t) == "typing.Union[" + RenderTypeExpr(m) + "]"
  {
    assert RenderAll([m]) == [RenderTypeExpr(m)] + RenderAll([]);
  }

  // ---------------------------------------------------------------------------
  // Classes
  // ---------------------------------------------------------------------------

  /** `allProperties.all { it.isPatternProperty() }`: true also when there are none. */
  predicate IsDict(ps: seq<Property>)
  {
    forall i :: 0 <= i < |ps| ==> ps[i].pattern
  }

  /** `renderExtendsExpr`: the parent's Python name, or `_BaseType` at the root. */
  function ExtendsExpr(d: TypeDecl): string
  {
    "(" + d.parentPyName.GetOr("_BaseType") + ")"
  }

  /** One keyword parameter of `__init__`. */
  function Kwarg(p: Property, snake: string -> string): string
  {
    snake(p.name) + ": " + KwargType(p)
  }

  /** The annotation of a keyword parameter, with its `None` default when optional. */
  function KwargType(p: Property): string
  {
    if p.required then RenderTypeExpr(p.propType)
    else "typing.Optional[" + RenderTypeExpr(p.propType) + "] = None"
  }

  function KwargOf(snake: string -> string): Property -> string
  {
    p => Kwarg(p, snake)
  }

  /** `self`, then `*` and the keyword parameters when the class has properties. */
  function Attributes(d: TypeDecl, snake: string -> string): seq<string>
  {
    var kwargs := Text.Map(KwargOf(snake), d.classProperties);
    ["self"] + (if |kwargs| > 0 then ["*"] + kwargs else [])
  }

  /** `self.<name> = <name>` for each of the class's own properties. */
  function Assignments(d: TypeDecl, snake: string -> string): seq<string>
  {
    Text.Map((p: Property) => "self." + snake(p.name) + " = " + snake(p.name), d.ownProperties)
  }

  /** The inherited properties, passed on to the parent's `__init__`. */
  function PassProperties(d: TypeDecl): seq<Property>
  {
    Text.Minus(d.classProperties, d.ownProperties)
  }

  function PassArg(p: Property, snake: string -> string): string
  {
    snake(p.name) + "=" + snake(p.name)
  }

  function PassArgOf(snake: string -> string): Property -> string
  {
    p => PassArg(p, snake)
  }

  /** The discriminator value as Python code: the enum constant when the property's
      type is an enum, a quoted string otherwise. */
  function DiscriminatorLiteral(prop: DiscriminatorProperty, value: string, upper: string -> string): string
  {
    match prop.enumClassName
    case Some(c) => c + "." + upper(value)
    case None => "\"" + value + "\""
  }

  /** The type's discriminator value, if it is an object type that has one. */
  function DiscriminatorValueOf(d: TypeDecl): Option<string>
  {
    if d.ref.kind.ObjectKind? then d.ref.kind.discriminatorValue else None
  }

  /** The argument fixing the discriminator, when the type has both a discriminator
      property and a discriminator value. */
  function DiscriminatorArg(d: TypeDecl, snake: string -> string, upper: string -> string): Option<string>
  {
    match (d.discriminatorProperty, DiscriminatorValueOf(d))
    case (Some(prop), Some(v)) => Some(snake(prop.name) + "=" + DiscriminatorLiteral(prop, v, upper))
    case _ => None
  }

  /** The arguments of the `super().__init__(…)` call. */
  function SuperArgs(d: TypeDecl, snake: string -> string, upper: string -> string): seq<string>
  {
    Text.Map(PassArgOf(snake), PassProperties(d))
    + (match DiscriminatorArg(d, snake, upper) case Some(a) => [a] case None => [])
  }

  /** The rendered `__init__`: its parameters, its assignments and the arguments it
      passes to the parent's `__init__`. */
  datatype InitFunction = InitFunction(attributes: seq<string>, assignments: seq<string>, superArgs: seq<string>)

  function InitFunctionOf(d: TypeDecl, snake: string -> string, upper: string -> string): InitFunction
  {
    InitFunction(Attributes(d, snake), Assignments(d, snake), SuperArgs(d, snake, upper))
  }

  /** The loop of `renderInitFunction` collecting one argument per inherited
      property. */
  method CollectPassArgs(passProperties: seq<Property>, snake: string -> string) returns (initArgs: seq<string>)
    ensures initArgs == Text.Map(PassArgOf(snake), passProperties)
  {
    initArgs := [];
    for i := 0 to |passProperties|
      invariant initArgs == Text.Map(PassArgOf(snake), passProperties[..i])
    {
      Text.MapSnoc(PassArgOf(snake), passProperties, i);
      initArgs := initArgs + [PassArg(passProperties[i], snake)];
    }
    assert passProperties[..|passProperties|] == passProperties;
  }

  /** `renderInitFunction`: the arguments for the parent are collected one inherited
      property at a time, then the discriminator argument is appended. */
  method RenderInitFunction(d: TypeDecl, snake: string -> string, upper: string -> string)
    returns (f: InitFunction)
    ensures f == InitFunctionOf(d, snake, upper)
  {
    var attributes := ["self"];
    var kwargs := Text.Map(KwargOf(snake), d.classProperties);
    if |kwargs| > 0 {
      attributes := attributes + ["*"];
      attributes := attributes + kwargs;
    }
    var initArgs := CollectPassArgs(PassProperties(d), snake);
    if d.discriminatorProperty.Some? && DiscriminatorValueOf(d).Some? {
      var prop := d.discriminatorProperty.value;
      var dVal := DiscriminatorLiteral(prop, DiscriminatorValueOf(d).value, upper);
      initArgs := initArgs + [snake(prop.name) + "=" + dVal];
    }
    f := InitFunction(attributes, Assignments(d, snake), initArgs);
  }

  /** `__init__` takes `self` first; it takes nothing else exactly when the class has
      no properties, and otherwise `*` followed by one keyword parameter per
      property, in order, where an optional property defaults to `None`. */
  lemma InitSignature(d: TypeDecl, snake: string -> string)
    ensures var a := Attributes(d, snake);
      && a[0] == "self"
      && (|a| == 1 <==> d.classProperties == [])
      && (d.classProperties != [] ==>
            && |a| == 2 + |d.classProperties|
            && a[1] == "*"
            && forall i :: 0 <= i < |d.classProperties| ==>
                 && Text.StartsWith(a[i + 2], snake(d.classProperties[i].name) + ": ")
                 && (!d.classProperties[i].required ==> Text.EndsWith(a[i + 2], "] = None")))
  {
    var a := Attributes(d, snake);
    var kwargs := Text.Map(KwargOf(snake), d.classProperties);
    assert |kwargs| == |d.classProperties|;
    forall i | 0 <= i < |d.classProperties|
      ensures Text.StartsWith(a[i + 2], snake(d.classProperties[i].name) + ": ")
      ensures !d.classProperties[i].required ==> Text.EndsWith(a[i + 2], "] = None")
    {
      AttributeAt(d, snake, i);
      assert KwargOf(snake)(d.classProperties[i]) == Kwarg(d.classProperties[i], snake);
      KwargShape(d.classProperties[i], snake);
    }
  }

  /** After `self` and `*`, the `i`-th keyword parameter is the `i`-th property's. */
  lemma AttributeAt(d: TypeDecl, snake: string -> string, i: nat)
    requires i < |d.classProperties|
    ensures |Attributes(d, snake)| == 2 + |d.classProperties|
    ensures Attributes(d, snake)[i + 2] == KwargOf(snake)(d.classProperties[i])
  {
    var kwargs := Text.Map(KwargOf(snake), d.classProperties);
    assert Attributes(d, snake) == ["self"] + (["*"] + kwargs);
    AfterTwo("self", "*", kwargs, i);
  }

  lemma AfterTwo<T>(x: T, y: T, ks: seq<T>, i: nat)
    requires i < |ks|
    ensures |[x] + ([y] + ks)| == 2 + |ks|
    ensures ([x] + ([y] + ks))[i + 2] == ks[i]
  {
  }

  lemma KwargShape(p: Property, snake: string -> string)
    ensures Text.StartsWith(Kwarg(p, snake), snake(p.name) + ": ")
    ensures !p.required ==> Text.EndsWith(Kwarg(p, snake), "] = None")
  {
    var head := snake(p.name) + ": ";
    Text.AppendEnds(head, KwargType(p));
    if !p.required {
      var open := head + "typing.Optional[" + RenderTypeExpr(p.propType);
      assert Kwarg(p, snake) == open + "] = None";
      Text.AppendEnds(open, "] = None");
    }
  }

  /** The annotation of a declared attribute: the property's type, inside
      `typing.Optional[…]` when the property is not required. */
  function DeclType(p: Property): string
  {
    if p.required then RenderTypeExpr(p.propType)
    else "typing.Optional[" + RenderTypeExpr(p.propType) + "]"
  }

  /** The declaration line of one attribute in the class body. */
  function PropertyDecl(p: Property, snake: string -> string): string
  {
    snake(p.name) + ": " + DeclType(p)
  }

  function PropertyDeclOf(snake: string -> string): Property -> string
  {
    p => PropertyDecl(p, snake)
  }

  /** `renderPropertyDecls`: one declaration per property of the type itself
      (`PyClassProperties(false)`), in order. */
  function PropertyDecls(d: TypeDecl, snake: string -> string): seq<string>
  {
    Text.Map(PropertyDeclOf(snake), d.ownProperties)
  }

  /** A declared attribute carries the same annotation as its `__init__` parameter,
      which only adds the `None` default when the property is optional. */
  lemma DeclMatchesKwarg(p: Property, snake: string -> string)
    ensures Kwarg(p, snake) == PropertyDecl(p, snake) + (if p.required then "" else " = None")
  {
    if !p.required {
      var head := snake(p.name) + ": ";
      var decl := "typing.Optional[" + RenderTypeExpr(p.propType) + "]";
      assert KwargType(p) == decl + " = None";
      assert head + (decl + " = None") == (head + decl) + " = None";
    }
  }

  /** The class body declares one attribute per property of the type itself, in
      order: each line starts with the property's name and a colon, an optional
      property's annotation is closed by `]`, and every line is the matching
      `__init__` parameter without its `None` default. */
  lemma PropertyDeclsShape(d: TypeDecl, snake: string -> string)
    ensures |PropertyDecls(d, snake)| == |d.ownProperties|
    ensures forall i :: 0 <= i < |d.ownProperties| ==>
      var p := d.ownProperties[i];
      && Text.StartsWith(PropertyDecls(d, snake)[i], snake(p.name) + ": ")
      && (!p.required ==> Text.EndsWith(PropertyDecls(d, snake)[i], "]"))
      && Kwarg(p, snake) == PropertyDecls(d, snake)[i] + (if p.required then "" else " = None")
  {
    forall i | 0 <= i < |d.ownProperties|
      ensures var p := d.ownProperties[i];
        && Text.StartsWith(PropertyDecls(d, snake)[i], snake(p.name) + ": ")
        && (!p.required ==> Text.EndsWith(PropertyDecls(d, snake)[i], "]"))
        && Kwarg(p, snake) == PropertyDecls(d, snake)[i] + (if p.required then "" else " = None")
    {
      var p := d.ownProperties[i];
      assert PropertyDecls(d, snake)[i] == PropertyDecl(p, snake);
      DeclShape(p, snake);
      DeclMatchesKwarg(p, snake);
    }
  }

  lemma DeclShape(p: Property, snake: string -> string)
    ensures Text.StartsWith(PropertyDecl(p, snake), snake(p.name) + ": ")
    ensures !p.required ==> Text.EndsWith(PropertyDecl(p, snake), "]")
  {
    var head := snake(p.name) + ": ";
    Text.AppendEnds(head, DeclType(p));
    if !p.required {
      var open := head + "typing.Optional[" + RenderTypeExpr(p.propType);
      assert PropertyDecl(p, snake) == open + "]";
      Text.AppendEnds(open, "]");
    }
  }

  /** The parent's `__init__` receives exactly the inherited properties, each under
      its own name, in order; the discriminator argument comes last, and is there
      exactly when the type has both a discriminator property and a value. */
  lemma SuperArgsForwardInherited(d: TypeDecl, snake: string -> string, upper: string -> string)
    ensures var s := SuperArgs(d, snake, upper);
      var pass := PassProperties(d);
      && (forall p :: p in pass <==> p in d.classProperties && p !in d.ownProperties)
      && |s| == |pass| + (if d.discriminatorProperty.Some? && DiscriminatorValueOf(d).Some? then 1 else 0)
      && (forall i :: 0 <= i < |pass| ==> s[i] == snake(pass[i].name) + "=" + snake(pass[i].name))
      && (d.discriminatorProperty.Some? && DiscriminatorValueOf(d).Some? ==>
            var prop := d.discriminatorProperty.value;
            var v := DiscriminatorValueOf(d).value;
            s[|s| - 1] == snake(prop.name) + "=" +
              (if prop.enumClassName.Some? then prop.enumClassName.value + "." + upper(v) else "\"" + v + "\""))
  {
  }

  // ---------------------------------------------------------------------------
  // Enums
  // ---------------------------------------------------------------------------

  /** The values of the string members of an enum list, in order. */
  function StringValues(instances: seq<Instance>): (r: seq<string>)
    ensures |r| <= |instances|
  {
    if instances == [] then []
    else
      (match instances[0]
       case StringInstance(Some(v)) => [v]
       case _ => [])
      + StringValues(instances[1..])
  }

  /** `enumValues()`: no enum list means no values. */
  function EnumValues(e: Option<seq<Instance>>): seq<string>
  {
    match e
    case None => []
    case Some(instances) => StringValues(instances)
  }

  /** A value is an enum value exactly when the type has an enum list holding a string
      instance with that value; other instances and null strings are skipped. */
  lemma EnumValuesMembers(e: Option<seq<Instance>>)
    ensures forall v :: v in EnumValues(e) <==> e.Some? && StringInstance(Some(v)) in e.value
    ensures e.Some? ==> |EnumValues(e)| <= |e.value|
  {
    if e.Some? {
      StringValuesMembers(e.value);
    }
  }

  lemma {:induction false} StringValuesMembers(instances: seq<Instance>)
    ensures forall v :: v in StringValues(instances) <==> StringInstance(Some(v)) in instances
    decreases |instances|
  {
    if instances != [] {
      StringValuesMembers(instances[1..]);
      assert instances == [instances[0]] + instances[1..];
    }
  }

  datatype EnumMember = EnumMember(constant: string, value: string)

  function MemberOf(upper: string -> string): string -> EnumMember
  {
    v => EnumMember(upper(v), v)
  }

  // ---------------------------------------------------------------------------
  // Rendering a module
  // ---------------------------------------------------------------------------

  /** What a type is rendered as. */
  datatype ModelClass =
    | DictClass(name: string)
    | ObjectClass(name: string, base: string, decls: seq<string>, init: InitFunction)
    | EnumClass(className: string, members: seq<EnumMember>)

  /** The message of the failed cast of a string type's model type to an enum type. */
  const NotAnEnum := "cannot be cast to VrapEnumType"

  /** The message for a type that is neither an object type nor a string type. */
  const Unhandled := "unhandled case"

  /** `renderAnyType`: object types become a plain dict class when every property is a
      pattern property, and otherwise a class declaring its own attributes and
      defining an `__init__`; string types
      become enums, which fails when their model type is not an enum type. */
  function RenderAnyType(d: TypeDecl, snake: string -> string, upper: string -> string): Result<ModelClass>
  {
    match d.ref.kind
    case ObjectKind(_, _, _) =>
      if IsDict(d.allProperties) then Ok(DictClass(d.ref.name))
      else Ok(ObjectClass(d.ref.name, ExtendsExpr(d), PropertyDecls(d, snake), InitFunctionOf(d, snake, upper)))
    case StringKind(_) =>
      if d.ref.modelVrap.Enum? then
        Ok(EnumClass(d.ref.modelVrap.simpleClassName, Text.Map(MemberOf(upper), EnumValues(d.enumValues))))
      else Thrown(NotAnEnum)
    case _ => Thrown(Unhandled)
  }

  /** One rendered module: its path, its `__all__` list and its classes. */
  datatype ModuleFile = ModuleFile(relativePath: string, exported: seq<string>, classes: seq<ModelClass>)

  function RenderOf(snake: string -> string, upper: string -> string): TypeDecl -> Result<ModelClass>
  {
    d => RenderAnyType(d, snake, upper)
  }

  /** `buildModule`. */
  function BuildModule(moduleName: string, types: seq<TypeDecl>, snake: string -> string, upper: string -> string)
    : Result<ModuleFile>
  {
    match AllOk(Text.Map(RenderOf(snake, upper), types))
    case Ok(classes) => Ok(ModuleFile(ModulePath(moduleName), ExportedVariables(types), classes))
    case Thrown(m) => Thrown(m)
  }

  /** The selected types, grouped by module name in order of first appearance. */
  function Groups(types: seq<TypeDecl>): seq<Text.Group<string, TypeDecl>>
  {
    Text.GroupBy(Text.Filter(Selected, types), ModuleNameOf)
  }

  function BuildGroup(snake: string -> string, upper: string -> string)
    : Text.Group<string, TypeDecl> -> Result<ModuleFile>
  {
    (g: Text.Group<string, TypeDecl>) => BuildModule(g.key, g.members, snake, upper)
  }

  /** `produceFiles`. */
  function ProduceFiles(types: seq<TypeDecl>, snake: string -> string, upper: string -> string)
    : Result<seq<ModuleFile>>
  {
    AllOk(Text.Map(BuildGroup(snake, upper), Groups(types)))
  }

  /** A selected string type whose model type is not an enum type. */
  predicate BadEnum(d: TypeDecl)
  {
    Selected(d) && d.ref.kind.StringKind? && !d.ref.modelVrap.Enum?
  }

  /** A module renders exactly when none of its types is a string type whose model
      type is not an enum, and then it holds one class per type, in order. */
  lemma BuildModuleOutcome(moduleName: string, types: seq<TypeDecl>, snake: string -> string, upper: string -> string)
    requires forall d :: d in types ==> Selected(d)
    ensures BuildModule(moduleName, types, snake, upper).Ok? <==> forall d :: d in types ==> !BadEnum(d)
    ensures BuildModule(moduleName, types, snake, upper).Thrown? ==>
      BuildModule(moduleName, types, snake, upper).message == NotAnEnum
    ensures BuildModule(moduleName, types, snake, upper).Ok? ==>
      var f := BuildModule(moduleName, types, snake, upper).value;
      && f.relativePath == ModulePath(moduleName)
      && f.exported == ExportedVariables(types)
      && |f.classes| == |types|
      && forall i :: 0 <= i < |types| ==> Ok(f.classes[i]) == RenderAnyType(types[i], snake, upper)
  {
    var rs := Text.Map(RenderOf(snake, upper), types);
    AllOkSucceeds(rs);
    forall i | 0 <= i < |types| ensures rs[i].Thrown? <==> BadEnum(types[i]) {
      assert types[i] in types;
    }
    if AllOk(rs).Thrown? {
      var i :| 0 <= i < |rs| && rs[i].Thrown? && AllOk(rs).message == rs[i].message;
      assert types[i] in types;
    }
    if forall d :: d in types ==> !BadEnum(d) {
      forall i | 0 <= i < |types| ensures rs[i].Ok? {
        assert types[i] in types;
      }
    } else {
      var d :| d in types && BadEnum(d);
      var i :| 0 <= i < |types| && types[i] == d;
      assert rs[i].Thrown?;
    }
  }

  /** Each group's module renders exactly when none of its types is a bad enum, and
      then lies at its module's path and exports its types. */
  lemma GroupOutcomes(types: seq<TypeDecl>, snake: string -> string, upper: string -> string)
    ensures var gs := Groups(types);
      var ms := Text.Map(BuildGroup(snake, upper), gs);
      forall i :: 0 <= i < |gs| ==>
        && (ms[i].Ok? <==> forall d :: d in gs[i].members ==> !BadEnum(d))
        && (ms[i].Ok? ==>
              ms[i].value.relativePath == ModulePath(gs[i].key) && ms[i].value.exported == ExportedVariables(gs[i].members))
  {
    var selected := Text.Filter(Selected, types);
    var gs := Groups(types);
    var ms := Text.Map(BuildGroup(snake, upper), gs);
    Text.FilterMembers(Selected, types);
    Text.GroupByPartition(selected, ModuleNameOf);
    forall i | 0 <= i < |gs|
      ensures ms[i].Ok? <==> forall d :: d in gs[i].members ==> !BadEnum(d)
      ensures ms[i].Ok? ==>
        ms[i].value.relativePath == ModulePath(gs[i].key) && ms[i].value.exported == ExportedVariables(gs[i].members)
    {
      BuildModuleOutcome(gs[i].key, gs[i].members, snake, upper);
    }
  }

  /** The files are produced exactly when no selected type is a bad enum. */
  lemma ProduceFilesSucceeds(types: seq<TypeDecl>, snake: string -> string, upper: string -> string)
    ensures ProduceFiles(types, snake, upper).Ok? <==> forall d :: d in types ==> !BadEnum(d)
  {
    var ms := Text.Map(BuildGroup(snake, upper), Groups(types));
    AllOkSucceeds(ms);
    if forall d :: d in types ==> !BadEnum(d) {
      AllGroupsRender(types, snake, upper);
    } else {
      var d :| d in types && BadEnum(d);
      BadEnumFailsGroup(types, snake, upper, d);
    }
  }

  lemma AllGroupsRender(types: seq<TypeDecl>, snake: string -> string, upper: string -> string)
    requires forall d :: d in types ==> !BadEnum(d)
    ensures forall i :: 0 <= i < |Groups(types)| ==> Text.Map(BuildGroup(snake, upper), Groups(types))[i].Ok?
  {
    var gs := Groups(types);
    var ms := Text.Map(BuildGroup(snake, upper), gs);
    GroupOutcomes(types, snake, upper);
    Text.GroupByPartition(Text.Filter(Selected, types), ModuleNameOf);
    Text.FilterMembers(Selected, types);
    forall i | 0 <= i < |gs| ensures ms[i].Ok? {
    }
  }

  lemma BadEnumFailsGroup(types: seq<TypeDecl>, snake: string -> string, upper: string -> string, d: TypeDecl)
    requires d in types && BadEnum(d)
    ensures exists i :: 0 <= i < |Groups(types)| && Text.Map(BuildGroup(snake, upper), Groups(types))[i].Thrown?
  {
    var selected := Text.Filter(Selected, types);
    var gs := Groups(types);
    var ms := Text.Map(BuildGroup(snake, upper), gs);
    GroupOutcomes(types, snake, upper);
    Text.GroupByPartition(selected, ModuleNameOf);
    Text.FilterMembers(Selected, types);
    assert d in selected;
    var i :| 0 <= i < |gs| && gs[i].key == ModuleNameOf(d);
    assert d in gs[i].members;
    assert ms[i].Thrown?;
  }


  /** The files are produced exactly when no selected type is a string type whose
      model type is not an enum; then there is one file per module name of a
      selected type, in order of first appearance, each holding that module's types. */
  lemma ProduceFilesOutcome(types: seq<TypeDecl>, snake: string -> string, upper: string -> string)
    ensures ProduceFiles(types, snake, upper).Ok? <==> forall d :: d in types ==> !BadEnum(d)
    ensures ProduceFiles(types, snake, upper).Ok? ==>
      var files := ProduceFiles(types, snake, upper).value;
      var gs := Groups(types);
      && |files| == |gs|
      && (forall i :: 0 <= i < |gs| ==>
            && files[i].relativePath == ModulePath(gs[i].key)
            && files[i].exported == ExportedVariables(gs[i].members)
            && (forall d :: d in gs[i].members <==> d in types && Selected(d) && d.moduleName == gs[i].key))
      && (forall d :: d in types && Selected(d) ==>
            exists i :: 0 <= i < |files| && files[i].relativePath == ModulePath(d.moduleName))
  {
    ProduceFilesSucceeds(types, snake, upper);
    if ProduceFiles(types, snake, upper).Ok? {
      var selected := Text.Filter(Selected, types);
      AllOkSucceeds(Text.Map(BuildGroup(snake, upper), Groups(types)));
      GroupOutcomes(types, snake, upper);
      Text.FilterMembers(Selected, types);
      Text.GroupByPartition(selected, ModuleNameOf);
      EveryTypeHasFile(types, ProduceFiles(types, snake, upper).value);
    }
  }

  lemma EveryTypeHasFile(types: seq<TypeDecl>, files: seq<ModuleFile>)
    requires |files| == |Groups(types)|
    requires forall i :: 0 <= i < |files| ==> files[i].relativePath == ModulePath(Groups(types)[i].key)
    ensures forall d :: d in types && Selected(d) ==>
      exists i :: 0 <= i < |files| && files[i].relativePath == ModulePath(d.moduleName)
  {
    var selected := Text.Filter(Selected, types);
    var gs := Groups(types);
    Text.FilterMembers(Selected, types);
    Text.GroupByPartition(selected, ModuleNameOf);
    forall d | d in types && Selected(d)
      ensures exists i :: 0 <= i < |files| && files[i].relativePath == ModulePath(d.moduleName)
    {
      assert d in selected;
      var i :| 0 <= i < |gs| && gs[i].key == ModuleNameOf(d);
      assert files[i].relativePath == ModulePath(d.moduleName);
    }
  }


}
