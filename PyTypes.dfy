/** The parts of a RAML type the Python renderers consult, with the results of the
    type-provider and naming helpers they call on it precomputed as fields. */
module PyTypes {
  import opened Files

  /** The RAML metatype of a type, with what the renderers read from it. */
  datatype Kind =
    | ObjectKind(isDict: bool, discriminator: Option<string>, discriminatorValue: Option<string>)
    | StringKind(pattern: Option<string>)
    | ArrayKind(items: TypeRef)
    | UnionKind(oneOf: seq<TypeRef>)
    | IntersectionKind(allOf: seq<TypeRef>)
    | NilKind
    | OtherKind

  /** An object type that inherits from a discriminated type, as listed by
      `getTypeInheritance`, with its discriminator value and schema name. */
  datatype SubType = SubType(discriminatorValue: Option<string>, schemaName: string)

  /** A type as a property or an array refers to it. */
  datatype TypeRef = TypeRef(
    name: string,
    kind: Kind,
    /** `toVrapType()` and its `pyTypeName()` / `simplePyName()`. */
    modelVrap: VrapType,
    pyTypeName: string,
    modelPyName: string,
    /** `toSchemaVrapType()` and its `PySchemaName()`. */
    schemaVrap: VrapType,
    schemaName: string,
    /** `isDiscriminated()`. */
    discriminated: bool,
    /** `getTypeInheritance(this).filterIsInstance<ObjectType>()`. */
    subtypes: seq<SubType>)

  /** A property: `isPatternProperty()` is `pattern`. */
  datatype Property = Property(name: string, required: bool, pattern: bool, propType: TypeRef)

  /** `discriminatorProperty()`: the property's name and, when its type maps to an
      enum, the enum's simple class name. */
  datatype DiscriminatorProperty = DiscriminatorProperty(name: string, enumClassName: Option<string>)

  /** An enum member of a string type. */
  datatype Instance = StringInstance(value: Option<string>) | OtherInstance

  /** A type declared in the API, as the model, schema and `__init__` producers see it. */
  datatype TypeDecl = TypeDecl(
    ref: TypeRef,
    moduleName: string,
    schemaModuleName: string,
    /** `toPythonVrapType().simplePyName()`. */
    pyName: string,
    /** The parent type's `toVrapType().simplePyName()`, and its schema reference. */
    parentPyName: Option<string>,
    parentSchemaRef: Option<string>,
    allProperties: seq<Property>,
    /** `PyClassProperties(true)` and `PyClassProperties(false)`. */
    classProperties: seq<Property>,
    ownProperties: seq<Property>,
    discriminatorProperty: Option<DiscriminatorProperty>,
    enumValues: Option<seq<Instance>>)

  /** The types the model, schema and `__init__` producers render: object types, and
      string types without a pattern. */
  predicate Selected(d: TypeDecl)
  {
    d.ref.kind.ObjectKind? || (d.ref.kind.StringKind? && d.ref.kind.pattern.None?)
  }

  function ModuleNameOf(d: TypeDecl): string { d.moduleName }

  function SchemaModuleNameOf(d: TypeDecl): string { d.schemaModuleName }
}
