/** `PythonSchemaRenderer`: one marshmallow schema module per schema module name, with
    a dictionary field class for every dictionary-like object type and a schema class,
    holding one marshmallow field per own property, for every other object type. */
module PySchema {
  import opened Files
  import opened PyTypes
  import Text

  // ---------------------------------------------------------------------------
  // Field classes and their keyword arguments
  // ---------------------------------------------------------------------------

  const AllowNone := "allow_none=True"
  const Exclude := "unknown=marshmallow.EXCLUDE"
  const ByValue := "by_value=True"
  const Many := "many=True"

  /** The messages of the exceptions the field renderers raise. */
  const InvalidObject := "Invalid state"
  const InvalidArray := "invalid state"
  const NoChildSchemas := "Expected child schemas"

  /** An array item rendered as a lazily nested schema: an object type that is not
      dictionary-like and that either has no discriminator or has a discriminator value. */
  predicate NestedItem(items: TypeRef)
  {
    && items.kind.ObjectKind?
    && !items.kind.isDict
    && (items.kind.discriminator.None? ||
        (items.kind.discriminatorValue.Some? && items.kind.discriminatorValue.value != ""))
  }

  /** `PyMarshmallowFieldClass`: the marshmallow field class for a type. */
  function FieldClass(t: TypeRef): Result<string>
  {
    match t.schemaVrap
    case Object(_, _) =>
      if t.kind.ObjectKind? && t.kind.isDict then Ok(t.name + "Field")
      else if t.discriminated then Ok("helpers.Discriminator")
      else Ok("helpers.LazyNestedField")
    case Array(_) =>
      if !t.kind.ArrayKind? then Thrown(InvalidArray)
      else if NestedItem(t.kind.items) then Ok("helpers.LazyNestedField")
      else Ok("marshmallow.fields.List")
    case _ => Ok(t.schemaName)
  }

  /** A subtype that names a (non-empty) discriminator value. */
  predicate HasValue(s: SubType)
  {
    s.discriminatorValue.Some? && s.discriminatorValue.value != ""
  }

  function ValuedSubtypes(t: TypeRef): seq<SubType>
  {
    Text.Filter(HasValue, t.subtypes)
  }

  /** `"<value>": helpers.absmod(__name__, "<relative schema name>")`. */
  function SubSchemaEntry(s: SubType, rel: string -> string): string
  {
    "\"" + s.discriminatorValue.GetOr("") + "\": helpers.absmod(__name__, \"" + rel(s.schemaName) + "\")"
  }

  function SubSchemaEntryOf(rel: string -> string): SubType -> string
  {
    s => SubSchemaEntry(s, rel)
  }

  /** The entries of the `discriminator_schemas` map: one per valued subtype, in
      order. */
  function SchemaEntries(t: TypeRef, rel: string -> string): seq<string>
  {
    Text.Map(SubSchemaEntryOf(rel), ValuedSubtypes(t))
  }

  /** `nested=helpers.absmod(__name__, "<relative schema name>")`. */
  function Nested(t: TypeRef, rel: string -> string): string
  {
    "nested=helpers.absmod(__name__, \"" + rel(t.schemaName) + "\")"
  }

  function DiscriminatorField(t: TypeRef, snake: string -> string): string
  {
    var d := if t.kind.ObjectKind? then t.kind.discriminator.GetOr("null") else "null";
    "discriminator_field=(\"" + d + "\", \"" + snake(d) + "\")"
  }

  /** `PyMarshmallowFieldKwargs`: the keyword arguments of a type's marshmallow
      field. `rel` turns a schema name into the name relative to the schema module
      being rendered. */
  function FieldKwargs(t: TypeRef, rel: string -> string, snake: string -> string): Result<seq<string>>
    decreases t
  {
    match t.schemaVrap
    case Scalar(_) => Ok([AllowNone])
    case Object(_, _) =>
      if !t.kind.ObjectKind? then Thrown(InvalidObject)
      else if t.kind.isDict then Ok([AllowNone])
      else if t.discriminated then
        var subs := ValuedSubtypes(t);
        if subs == [] then Thrown(NoChildSchemas)
        else
          Ok([AllowNone, DiscriminatorField(t, snake),
              "discriminator_schemas={" + Text.Join(SchemaEntries(t, rel), ",\n") + "}"])
      else Ok([Nested(t, rel), AllowNone, Exclude])
    case Enum(_, _) => Ok([t.modelPyName, ByValue, AllowNone])
    case Array(_) =>
      if !t.kind.ArrayKind? then Thrown(InvalidArray)
      else if NestedItem(t.kind.items) then Ok([Nested(t, rel), AllowNone, Many, Exclude])
      else
        (match FieldKwargs(t.kind.items, rel, snake)
         case Thrown(m) => Thrown(m)
         case Ok(nested) =>
           (match FieldClass(t.kind.items)
            case Thrown(m) => Thrown(m)
            case Ok(c) => Ok([c + "(" + Text.Join(nested, ", ") + ")", AllowNone])))
    case _ => Ok([])
  }

  /** The schema type is a scalar, object, enum or array type. */
  predicate Known(t: TypeRef)
  {
    t.schemaVrap.Scalar? || t.schemaVrap.Object? || t.schemaVrap.Enum? || t.schemaVrap.Array?
  }

  /** Only the three invalid states raise; every type the schema knows as a scalar,
      object, enum or array type allows `None`; enums pass their model class first
      and compare by value; an object type fails exactly when it is not an object
      type in RAML, or when it is discriminated and no subtype names a value. */
  lemma {:induction false} FieldKwargsOutcome(t: TypeRef, rel: string -> string, snake: string -> string)
    ensures var r := FieldKwargs(t, rel, snake);
      && (r.Thrown? ==> r.message in {InvalidObject, InvalidArray, NoChildSchemas})
      && (r.Ok? && Known(t) ==> AllowNone in r.value)
      && (!Known(t) ==> r == Ok([]))
      && (t.schemaVrap.Enum? ==> r.Ok? && r.value[0] == t.modelPyName && r.value[1] == ByValue)
      && (t.schemaVrap.Object? ==>
            (r.Thrown? <==> !t.kind.ObjectKind? ||
                            (!t.kind.isDict && t.discriminated && ValuedSubtypes(t) == [])))
      && (t.schemaVrap.Object? && r.Thrown? && t.kind.ObjectKind? ==> r.message == NoChildSchemas)
    decreases t
  {
    if t.schemaVrap.Array? && t.kind.ArrayKind? && !NestedItem(t.kind.items) {
      FieldKwargsOutcome(t.kind.items, rel, snake);
    }
  }

  /** A scalar that is not an object type in RAML, or an array (of arrays …) of one. */
  predicate ScalarArrays(t: TypeRef)
    decreases t
  {
    (t.schemaVrap.Scalar? && !t.kind.ObjectKind?)
    || (t.schemaVrap.Array? && t.kind.ArrayKind? && ScalarArrays(t.kind.items))
  }

  /** Scalars and arrays of them, nested to any depth, always get their keyword
      arguments, and the nested field is a `marshmallow.fields.List` for each inner
      array level. */
  lemma {:induction false} ScalarArraysSucceed(t: TypeRef, rel: string -> string, snake: string -> string)
    requires ScalarArrays(t)
    ensures FieldKwargs(t, rel, snake).Ok?
    ensures FieldClass(t).Ok?
    ensures t.schemaVrap.Array? ==> FieldClass(t) == Ok("marshmallow.fields.List")
    decreases t
  {
    if t.schemaVrap.Array? {
      ScalarArraysSucceed(t.kind.items, rel, snake);
    }
  }

  /** An object type's field class never fails and agrees with its keyword
      arguments: a dict-like type is its own `<Name>Field` taking only `allow_none`,
      a discriminated one is a `helpers.Discriminator` over the subtype schemas, and
      any other one is a `helpers.LazyNestedField` naming its nested schema first. */
  lemma ObjectFieldClass(t: TypeRef, rel: string -> string, snake: string -> string)
    requires t.schemaVrap.Object? && t.kind.ObjectKind?
    ensures FieldClass(t).Ok?
    ensures t.kind.isDict ==> FieldClass(t) == Ok(t.name + "Field") && FieldKwargs(t, rel, snake) == Ok([AllowNone])
    ensures !t.kind.isDict && t.discriminated ==>
      && FieldClass(t) == Ok("helpers.Discriminator")
      && (FieldKwargs(t, rel, snake).Ok? <==> ValuedSubtypes(t) != [])
    ensures !t.kind.isDict && !t.discriminated ==>
      && FieldClass(t) == Ok("helpers.LazyNestedField")
      && FieldKwargs(t, rel, snake) == Ok([Nested(t, rel), AllowNone, Exclude])
  {
  }

  /** A discriminated object type with valued subtypes gets `allow_none`, the
      discriminator field, and the `discriminator_schemas` map of `SchemaEntries`
      joined with ",\n"; the map draws exactly on the subtypes naming a non-empty
      discriminator value (see `SchemaEntriesShape` for its entries). */
  lemma DiscriminatedEntries(t: TypeRef, rel: string -> string, snake: string -> string)
    requires t.schemaVrap.Object? && t.kind.ObjectKind? && !t.kind.isDict && t.discriminated
    requires ValuedSubtypes(t) != []
    ensures FieldKwargs(t, rel, snake).Ok?
    ensures var v := FieldKwargs(t, rel, snake).value;
      && |v| == 3 && v[0] == AllowNone && v[1] == DiscriminatorField(t, snake)
      && Text.StartsWith(v[2], "discriminator_schemas={")
      && v[2] == "discriminator_schemas={" + Text.Join(SchemaEntries(t, rel), ",\n") + "}"
    ensures forall s :: s in ValuedSubtypes(t) <==> s in t.subtypes && HasValue(s)
  {
    Text.FilterMembers(HasValue, t.subtypes);
    var v := FieldKwargs(t, rel, snake).value;
    var entries := SchemaEntries(t, rel);
    Text.AppendEnds("discriminator_schemas={", Text.Join(entries, ",\n") + "}");
    assert v[2] == "discriminator_schemas={" + (Text.Join(entries, ",\n") + "}");
  }

  /** The map has one entry per valued subtype, in order; each maps that subtype's
      discriminator value, quoted, to its schema name relative to the module being
      rendered. */
  lemma SchemaEntriesShape(t: TypeRef, rel: string -> string)
    ensures |SchemaEntries(t, rel)| == |ValuedSubtypes(t)|
    ensures forall i :: 0 <= i < |ValuedSubtypes(t)| ==>
      && HasValue(ValuedSubtypes(t)[i])
      && Text.StartsWith(SchemaEntries(t, rel)[i],
           "\"" + ValuedSubtypes(t)[i].discriminatorValue.value + "\": helpers.absmod(__name__, \"")
      && Text.EndsWith(SchemaEntries(t, rel)[i], rel(ValuedSubtypes(t)[i].schemaName) + "\")")
  {
    forall i | 0 <= i < |ValuedSubtypes(t)|
      ensures && HasValue(ValuedSubtypes(t)[i])
        && Text.StartsWith(SchemaEntries(t, rel)[i],
             "\"" + ValuedSubtypes(t)[i].discriminatorValue.value + "\": helpers.absmod(__name__, \"")
        && Text.EndsWith(SchemaEntries(t, rel)[i], rel(ValuedSubtypes(t)[i].schemaName) + "\")")
    {
      SchemaEntryAt(t, rel, i);
    }
  }

  lemma SchemaEntryAt(t: TypeRef, rel: string -> string, i: nat)
    requires i < |ValuedSubtypes(t)|
    ensures HasValue(ValuedSubtypes(t)[i])
    ensures SchemaEntries(t, rel)[i] == SubSchemaEntry(ValuedSubtypes(t)[i], rel)
    ensures Text.StartsWith(SchemaEntries(t, rel)[i],
      "\"" + ValuedSubtypes(t)[i].discriminatorValue.value + "\": helpers.absmod(__name__, \"")
    ensures Text.EndsWith(SchemaEntries(t, rel)[i], rel(ValuedSubtypes(t)[i].schemaName) + "\")")
  {
    var s := ValuedSubtypes(t)[i];
    Text.FilterMembers(HasValue, t.subtypes);
    assert s in ValuedSubtypes(t);
    var head := "\"" + s.discriminatorValue.value + "\": helpers.absmod(__name__, \"";
    var tail := rel(s.schemaName) + "\")";
    assert SubSchemaEntry(s, rel) == head + tail;
    Text.AppendEnds(head, tail);
  }

  // ---------------------------------------------------------------------------
  // Field declarations
  // ---------------------------------------------------------------------------

  const OmitEmpty := "metadata={'omit_empty': True}"
  const MissingNone := "missing=None"

  function DataKey(name: string): string { "data_key=\"" + name + "\"" }

  /** A property's marshmallow field: a `RegexField` over the nested schema for a
      pattern property, otherwise the field class with its keyword arguments. */
  datatype Field = RegexField(nested: string) | TypedField(fieldClass: string, kwargs: seq<string>)

  /** What `renderFieldDecl` appends to the type's keyword arguments. */
  function DeclSuffix(p: Property, snake: string -> string): seq<string>
  {
    (if !p.required then [OmitEmpty] else []) + [MissingNone]
    + (if p.name != snake(p.name) then [DataKey(p.name)] else [])
  }

  /** `renderFieldDecl`. */
  function FieldDeclOf(p: Property, rel: string -> string, snake: string -> string): Result<Field>
  {
    if p.pattern then Ok(RegexField(rel(p.propType.schemaName)))
    else
      match FieldKwargs(p.propType, rel, snake)
      case Thrown(m) => Thrown(m)
      case Ok(kwargs) =>
        (match FieldClass(p.propType)
         case Thrown(m) => Thrown(m)
         case Ok(c) => Ok(TypedField(c, kwargs + DeclSuffix(p, snake))))
  }

  /** `renderFieldDecl` as written: the keyword list is extended in place. */
  method RenderFieldDecl(p: Property, rel: string -> string, snake: string -> string)
    returns (r: Result<Field>)
    ensures r == FieldDeclOf(p, rel, snake)
  {
    if p.pattern {
      return Ok(RegexField(rel(p.propType.schemaName)));
    }
    var base := FieldKwargs(p.propType, rel, snake);
    if base.Thrown? {
      return Thrown(base.message);
    }
    var kwargs := base.value;
    if !p.required {
      kwargs := kwargs + [OmitEmpty];
    }
    kwargs := kwargs + [MissingNone];
    if p.name != snake(p.name) {
      kwargs := kwargs + [DataKey(p.name)];
    }
    assert kwargs == base.value + DeclSuffix(p, snake);
    var c := FieldClass(p.propType);
    if c.Thrown? {
      return Thrown(c.message);
    }
    r := Ok(TypedField(c.value, kwargs));
  }

  /** After the type's own keyword arguments come: `omit_empty` exactly for optional
      properties, then `missing=None` always, then `data_key` exactly when the
      snake-cased name differs from the RAML name. */
  lemma DeclSuffixFlags(p: Property, snake: string -> string)
    ensures var s := DeclSuffix(p, snake);
      && (OmitEmpty in s <==> !p.required)
      && MissingNone in s
      && (DataKey(p.name) in s <==> p.name != snake(p.name))
      && (p.name != snake(p.name) ==> s[|s| - 1] == DataKey(p.name))
      && (!p.required ==> s[0] == OmitEmpty)
  {
    var s := DeclSuffix(p, snake);
    assert DataKey(p.name)[0] == 'd';
    assert OmitEmpty[0] == 'm' && MissingNone[0] == 'm' && OmitEmpty[1] == 'e' && MissingNone[1] == 'i';
    assert DataKey(p.name) != OmitEmpty && DataKey(p.name) != MissingNone && OmitEmpty != MissingNone;
    var a: seq<string> := if !p.required then [OmitEmpty] else [];
    var c: seq<string> := if p.name != snake(p.name) then [DataKey(p.name)] else [];
    assert s == a + [MissingNone] + c;
    assert OmitEmpty in s <==> OmitEmpty in a;
    assert DataKey(p.name) in s <==> DataKey(p.name) in c;
  }

  /** A non-pattern property's field fails exactly when its type's keyword arguments
      or field class do, with the first exception raised; otherwise it keeps the
      type's keyword arguments in front. */
  lemma FieldDeclOutcome(p: Property, rel: string -> string, snake: string -> string)
    ensures p.pattern ==> FieldDeclOf(p, rel, snake).Ok? && FieldDeclOf(p, rel, snake).value.RegexField?
    ensures !p.pattern ==>
      (FieldDeclOf(p, rel, snake).Ok? <==> FieldKwargs(p.propType, rel, snake).Ok? && FieldClass(p.propType).Ok?)
    ensures !p.pattern && FieldKwargs(p.propType, rel, snake).Thrown? ==>
      FieldDeclOf(p, rel, snake) == Thrown(FieldKwargs(p.propType, rel, snake).message)
    ensures !p.pattern && FieldDeclOf(p, rel, snake).Ok? ==>
      var f := FieldDeclOf(p, rel, snake).value;
      var base := FieldKwargs(p.propType, rel, snake).value;
      && f.TypedField?
      && |f.kwargs| == |base| + |DeclSuffix(p, snake)|
      && f.kwargs[..|base|] == base
      && f.kwargs[|base|..] == DeclSuffix(p, snake)
  {
  }

  // ---------------------------------------------------------------------------
  // Schema classes
  // ---------------------------------------------------------------------------

  /** A schema attribute: `_regex` for the pattern property, the snake-cased name otherwise. */
  function AttributeName(p: Property, snake: string -> string): string
  {
    if p.pattern then "_regex" else snake(p.name)
  }

  datatype NamedField = NamedField(attribute: string, field: Field)

  function NamedFieldOf(p: Property, rel: string -> string, snake: string -> string): Result<NamedField>
  {
    match FieldDeclOf(p, rel, snake)
    case Ok(f) => Ok(NamedField(AttributeName(p, snake), f))
    case Thrown(m) => Thrown(m)
  }

  /** What a type is rendered as in a schema module; string types render nothing. */
  datatype SchemaItem =
    | DictField(className: string)
    | SchemaClass(className: string, base: string, fields: seq<NamedField>)
    | NoItem

  /** `renderExtendsExpr`: the parent's schema, or `helpers.BaseSchema` at the root. */
  function ExtendsExpr(d: TypeDecl): string
  {
    "(" + d.parentSchemaRef.GetOr("helpers.BaseSchema") + ")"
  }

  const Unhandled := "unhandled case"

  /** `toRelativePackageName(...)` from the schema module of `d`. */
  function RelativeTo(d: TypeDecl, relative: (string, string) -> string): string -> string
  {
    s => relative(s, d.schemaModuleName)
  }

  function FieldsOf(d: TypeDecl, relative: (string, string) -> string, snake: string -> string)
    : seq<Result<NamedField>>
  {
    Text.Map((p: Property) => NamedFieldOf(p, RelativeTo(d, relative), snake), d.ownProperties)
  }

  /** `renderAnyType`: a `<Name>Field` dictionary class for dictionary-like object
      types, a `<Name>Schema` class with one field per own property for the other
      object types, nothing for string types. */
  function RenderSchemaType(d: TypeDecl, relative: (string, string) -> string, snake: string -> string)
    : Result<SchemaItem>
  {
    match d.ref.kind
    case ObjectKind(isDict, _, _) =>
      if isDict then Ok(DictField(d.ref.name + "Field"))
      else
        (match AllOk(FieldsOf(d, relative, snake))
         case Ok(fields) => Ok(SchemaClass(d.ref.name + "Schema", ExtendsExpr(d), fields))
         case Thrown(m) => Thrown(m))
    case StringKind(_) => Ok(NoItem)
    case _ => Thrown(Unhandled)
  }

  /** A schema class has one field per own property, in order, named `_regex` for a
      pattern property and by the snake-cased name otherwise; it renders exactly
      when every own property's field does. */
  lemma SchemaClassFields(d: TypeDecl, relative: (string, string) -> string, snake: string -> string)
    requires d.ref.kind.ObjectKind? && !d.ref.kind.isDict
    ensures RenderSchemaType(d, relative, snake).Ok? <==>
      forall i :: 0 <= i < |d.ownProperties| ==> FieldDeclOf(d.ownProperties[i], RelativeTo(d, relative), snake).Ok?
    ensures RenderSchemaType(d, relative, snake).Ok? ==>
      var c := RenderSchemaType(d, relative, snake).value;
      && c.SchemaClass?
      && c.className == d.ref.name + "Schema"
      && |c.fields| == |d.ownProperties|
      && forall i :: 0 <= i < |c.fields| ==>
           && c.fields[i].attribute == AttributeName(d.ownProperties[i], snake)
           && Ok(c.fields[i].field) == FieldDeclOf(d.ownProperties[i], RelativeTo(d, relative), snake)
  {
    var rel := RelativeTo(d, relative);
    var rs := FieldsOf(d, relative, snake);
    AllOkSucceeds(rs);
    forall i | 0 <= i < |rs|
      ensures rs[i] == NamedFieldOf(d.ownProperties[i], rel, snake)
      ensures rs[i].Ok? <==> FieldDeclOf(d.ownProperties[i], rel, snake).Ok?
    {
    }
  }

  // ---------------------------------------------------------------------------
  // Modules
  // ---------------------------------------------------------------------------

  /** The "# Fields" section: dictionary-like object types. */
  predicate IsFieldType(d: TypeDecl)
  {
    d.ref.kind.ObjectKind? && d.ref.kind.isDict
  }

  /** The "# Marshmallow Schemas" section: every other type except unions. */
  predicate IsSchemaType(d: TypeDecl)
  {
    !d.ref.kind.UnionKind? && !(d.ref.kind.ObjectKind? && d.ref.kind.isDict)
  }

  /** Every rendered type lands in exactly one of the two sections. */
  lemma SectionsPartition(types: seq<TypeDecl>)
    requires forall d :: d in types ==> Selected(d)
    ensures |Text.Filter(IsFieldType, types)| + |Text.Filter(IsSchemaType, types)| == |types|
    ensures forall d :: d in types ==> (d in Text.Filter(IsFieldType, types) <==> d !in Text.Filter(IsSchemaType, types))
  {
    forall i | 0 <= i < |types| ensures IsSchemaType(types[i]) <==> !IsFieldType(types[i]) {
      assert types[i] in types;
    }
    Text.FilterComplement(IsFieldType, IsSchemaType, types);
    Text.FilterMembers(IsFieldType, types);
    Text.FilterMembers(IsSchemaType, types);
  }

  /** One schema module: its path and the items of its two sections. */
  datatype SchemaModule = SchemaModule(relativePath: string, fields: seq<SchemaItem>, schemas: seq<SchemaItem>)

  /** The module name's '.'-segments joined with '/', plus ".py". */
  function ModulePath(moduleName: string): string
  {
    Text.Join(Text.Split(moduleName, {'.'}), "/") + ".py"
  }

  function RenderOf(relative: (string, string) -> string, snake: string -> string): TypeDecl -> Result<SchemaItem>
  {
    d => RenderSchemaType(d, relative, snake)
  }

  /** `buildModule`: the fields section is rendered before the schemas section. */
  function BuildModule(moduleName: string, types: seq<TypeDecl>, relative: (string, string) -> string,
                       snake: string -> string): Result<SchemaModule>
  {
    match AllOk(Text.Map(RenderOf(relative, snake), Text.Filter(IsFieldType, types)))
    case Thrown(m) => Thrown(m)
    case Ok(fields) =>
      (match AllOk(Text.Map(RenderOf(relative, snake), Text.Filter(IsSchemaType, types)))
       case Thrown(m) => Thrown(m)
       case Ok(schemas) => Ok(SchemaModule(ModulePath(moduleName), fields, schemas)))
  }

  /** The fields section never fails: it holds one `<Name>Field` class per
      dictionary-like object type, in order. */
  lemma FieldsSectionRenders(types: seq<TypeDecl>, relative: (string, string) -> string, snake: string -> string)
    ensures var rs := Text.Map(RenderOf(relative, snake), Text.Filter(IsFieldType, types));
      && AllOk(rs).Ok?
      && forall i :: 0 <= i < |rs| ==>
           AllOk(rs).value[i] == DictField(Text.Filter(IsFieldType, types)[i].ref.name + "Field")
  {
    var fs := Text.Filter(IsFieldType, types);
    var rs := Text.Map(RenderOf(relative, snake), fs);
    Text.FilterMembers(IsFieldType, types);
    forall i | 0 <= i < |rs| ensures rs[i] == Ok(DictField(fs[i].ref.name + "Field")) {
      assert fs[i] in fs;
      assert IsFieldType(fs[i]);
    }
    AllOkSucceeds(rs);
  }

  /** The selected types, grouped by schema module name in order of first appearance. */
  function Groups(types: seq<TypeDecl>): seq<Text.Group<string, TypeDecl>>
  {
    Text.GroupBy(Text.Filter(Selected, types), SchemaModuleNameOf)
  }

  function BuildGroup(relative: (string, string) -> string, snake: string -> string)
    : Text.Group<string, TypeDecl> -> Result<SchemaModule>
  {
    (g: Text.Group<string, TypeDecl>) => BuildModule(g.key, g.members, relative, snake)
  }

  /** `produceFiles`. */
  function ProduceFiles(types: seq<TypeDecl>, relative: (string, string) -> string, snake: string -> string)
    : Result<seq<SchemaModule>>
  {
    AllOk(Text.Map(BuildGroup(relative, snake), Groups(types)))
  }

  /** A module renders exactly when each of its types does. */
  lemma BuildModuleOutcome(moduleName: string, types: seq<TypeDecl>, relative: (string, string) -> string,
                           snake: string -> string)
    requires forall d :: d in types ==> Selected(d)
    ensures BuildModule(moduleName, types, relative, snake).Ok? <==>
      forall d :: d in types ==> RenderSchemaType(d, relative, snake).Ok?
    ensures BuildModule(moduleName, types, relative, snake).Ok? ==>
      var m := BuildModule(moduleName, types, relative, snake).value;
      && m.relativePath == ModulePath(moduleName)
      && |m.fields| + |m.schemas| == |types|
  {
    var rsch := Text.Map(RenderOf(relative, snake), Text.Filter(IsSchemaType, types));
    SectionsPartition(types);
    FieldsSectionRenders(types, relative, snake);
    AllOkSucceeds(rsch);
    if forall d :: d in types ==> RenderSchemaType(d, relative, snake).Ok? {
      Text.FilterMembers(IsSchemaType, types);
      forall i | 0 <= i < |rsch| ensures rsch[i].Ok? {
        assert Text.Filter(IsSchemaType, types)[i] in types;
      }
    } else {
      var d :| d in types && !RenderSchemaType(d, relative, snake).Ok?;
      FailingTypeFailsSection(types, relative, snake, d);
    }
  }

  lemma FailingTypeFailsSection(types: seq<TypeDecl>, relative: (string, string) -> string, snake: string -> string,
                                d: TypeDecl)
    requires d in types && Selected(d) && !RenderSchemaType(d, relative, snake).Ok?
    ensures exists i ::
      && 0 <= i < |Text.Filter(IsSchemaType, types)|
      && !Text.Map(RenderOf(relative, snake), Text.Filter(IsSchemaType, types))[i].Ok?
  {
    var ss := Text.Filter(IsSchemaType, types);
    var rsch := Text.Map(RenderOf(relative, snake), ss);
    Text.FilterMembers(IsSchemaType, types);
    assert !IsFieldType(d);
    assert d in ss;
    var i :| 0 <= i < |ss| && ss[i] == d;
    assert !rsch[i].Ok?;
  }


  /** Each group's module renders exactly when each of its types does, and then lies
      at its module's path. */
  lemma GroupOutcomes(types: seq<TypeDecl>, relative: (string, string) -> string, snake: string -> string)
    ensures var gs := Groups(types);
      var ms := Text.Map(BuildGroup(relative, snake), gs);
      forall i :: 0 <= i < |gs| ==>
        && (ms[i].Ok? <==> forall d :: d in gs[i].members ==> RenderSchemaType(d, relative, snake).Ok?)
        && (ms[i].Ok? ==> ms[i].value.relativePath == ModulePath(gs[i].key))
  {
    var selected := Text.Filter(Selected, types);
    var gs := Groups(types);
    var ms := Text.Map(BuildGroup(relative, snake), gs);
    Text.FilterMembers(Selected, types);
    Text.GroupByPartition(selected, SchemaModuleNameOf);
    forall i | 0 <= i < |gs|
      ensures ms[i].Ok? <==> forall d :: d in gs[i].members ==> RenderSchemaType(d, relative, snake).Ok?
      ensures ms[i].Ok? ==> ms[i].value.relativePath == ModulePath(gs[i].key)
    {
      BuildModuleOutcome(gs[i].key, gs[i].members, relative, snake);
    }
  }

  /** The schema files are produced exactly when every selected type renders; then
      there is one file per schema module name, each at that module's path. */
  lemma ProduceFilesOutcome(types: seq<TypeDecl>, relative: (string, string) -> string, snake: string -> string)
    ensures ProduceFiles(types, relative, snake).Ok? <==>
      forall d :: d in types && Selected(d) ==> RenderSchemaType(d, relative, snake).Ok?
    ensures ProduceFiles(types, relative, snake).Ok? ==>
      var files := ProduceFiles(types, relative, snake).value;
      var gs := Groups(types);
      && |files| == |gs|
      && forall i :: 0 <= i < |gs| ==> files[i].relativePath == ModulePath(gs[i].key)
  {
    var ms := Text.Map(BuildGroup(relative, snake), Groups(types));
    AllOkSucceeds(ms);
    GroupOutcomes(types, relative, snake);
    if forall d :: d in types && Selected(d) ==> RenderSchemaType(d, relative, snake).Ok? {
      AllGroupsRender(types, relative, snake);
    } else {
      var d :| d in types && Selected(d) && !RenderSchemaType(d, relative, snake).Ok?;
      FailingTypeFailsGroup(types, relative, snake, d);
    }
  }

  lemma AllGroupsRender(types: seq<TypeDecl>, relative: (string, string) -> string, snake: string -> string)
    requires forall d :: d in types && Selected(d) ==> RenderSchemaType(d, relative, snake).Ok?
    ensures forall i :: 0 <= i < |Groups(types)| ==> Text.Map(BuildGroup(relative, snake), Groups(types))[i].Ok?
  {
    var gs := Groups(types);
    var ms := Text.Map(BuildGroup(relative, snake), gs);
    GroupOutcomes(types, relative, snake);
    Text.GroupByPartition(Text.Filter(Selected, types), SchemaModuleNameOf);
    Text.FilterMembers(Selected, types);
    forall i | 0 <= i < |gs| ensures ms[i].Ok? {
    }
  }

  lemma FailingTypeFailsGroup(types: seq<TypeDecl>, relative: (string, string) -> string, snake: string -> string,
                              d: TypeDecl)
    requires d in types && Selected(d) && !RenderSchemaType(d, relative, snake).Ok?
    ensures exists i :: 0 <= i < |Groups(types)| && Text.Map(BuildGroup(relative, snake), Groups(types))[i].Thrown?
  {
    var selected := Text.Filter(Selected, types);
    var gs := Groups(types);
    var ms := Text.Map(BuildGroup(relative, snake), gs);
    GroupOutcomes(types, relative, snake);
    Text.GroupByPartition(selected, SchemaModuleNameOf);
    Text.FilterMembers(Selected, types);
    assert d in selected;
    var i :| 0 <= i < |gs| && gs[i].key == SchemaModuleNameOf(d);
    assert d in gs[i].members;
    assert ms[i].Thrown?;
  }
}
