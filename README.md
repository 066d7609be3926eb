# rmf-codegen core, modelled in Dafny

rmf-codegen reads a RAML API description and renders source files for several
target languages. This project models the part of it that decides *what* is
generated:

- **Generation** (`CoreCodeGenerator.dfy`) models the generation driver
  `CoreCodeGenerator.generate()`. It cleans the data sink, builds the ordered list of
  template-file publishers (a `gen.properties` metadata unit first, then every
  registered generator's publishers in `flatMap` order), writes each unit the
  concatenated stream yields, and calls `postClean()` once the blocking subscription
  returns. `DataSink` is a class with a file map and a ghost event trace
  (`Clean`, `Write(unit)`, `PostClean`). The parallel write stage is a loop that
  picks any unit not yet written.
- **JavaTypes** (`JavaVrapExtensions.dfy`) models `simpleName`, `fullClassName`,
  `toJavaVType` and `toJavaPackage` over the `VrapType` sum type.
- **PyRequestBuilder** (`RequestBuilder.dfy`) models the Python request builder:
  - `transformUriTemplate` (a loop over the placeholders);
  - `renderMethod`: the keyword parameters, the `params` argument, the body
    expression, the grouping of responses into `if`/`elif` branches, and the
    `typing.Optional` return type.
- **PySubResources** (`PythonRenderer.dfy`) models the sub-resource accessors, which
  forward path variables to the sub-resource's builder.
- **PyRequestBuilderInit** (`RequestBuilderInit.dfy`) models the `__init__.py` path
  of a request-builder package.
- **PyModel** (`PythonModelRenderer.dfy`) models the Python model modules:
  - module paths and the `__all__` list;
  - dict, object and enum classes;
  - the `__init__` signature and its `super().__init__` arguments;
  - type annotations.
- **PySchema** (`PythonSchemaRenderer.dfy`) models the marshmallow schema modules:
  - the split of each module into a fields section and a schemas section;
  - the field classes and keyword arguments, with their error cases;
  - the field declarations.
- **PyInitFile** (`InitFileProducer.dfy`) models `models/__init__.py` and its
  import lines.
- **PhpMethod** (`PhpMethodRenderer.dfy`) models the PHP request class:
  - the result types, the sorted and distinct imports, and the return types;
  - the `mapFromResponse` switch;
  - the body handling and the output path.
- **RamlDoc** (`RamlObjectTypeRenderer.dfy`) models the RAML data-type document:
  - property selection under a discriminator;
  - the sorted example list, including the `postman` example built as a fresh
    object;
  - example include paths, `(oneOf)`, property blocks and the output path.
- **GroovyDsl** (`GroovyDslRenderer.dfy`) models the Groovy DSL interface: its text
  line by line and its path.

Three modules hold shared definitions:

- `Files` holds `TemplateFile`, `Result`, `Option`, `VrapType` and `AllOk`.
- `PyTypes` holds the Python type records.
- `Text` holds Kotlin's `split`, `joinToString`, `replace`, `distinct`, `sorted`,
  `sortedWith`, `groupBy`, `filter`, `map` and list difference, together with
  their lemmas.

External helpers become arrow-typed parameters. These are `snakeCase`,
`StringCaseFormat.*`, `toNamespaceName`, `escapeAll` and `toRelativePackageName`.
What the type provider and the metamodel compute for a type becomes a field of
the input record. Examples are `moduleName`, `simplePyName`, `isDict`,
`discriminatorProperty`, `PyClassProperties`, `packageDir` and
`toVrapType`/`toSchemaVrapType`.

Renderers produce records of the structural choices rather than full text. A
record holds the lists, the conditions, the order and the names. The exceptions
are GroovyDsl and PyInitFile, whose content is modelled as text.

`TemplateFile` is declared in codegen-core's I/O package (`io.vrap.rmf.codegen.io`), which is not modelled. The Python renderers build it
positionally as `TemplateFile(content, path)`, and the model reads the first
argument as the content.

## Model

| member | source | states |
|---|---|---|
| Generation.CollectPublishersOutcome | codegen-core/src/main/kotlin/io/vrap/rmf/codegen/rendring/CoreCodeGenerator.kt:83 | `generators.flatMap { it.generate() }` throws exactly when some generator throws, with the message of the first thrower; otherwise it is every generator's publishers concatenated in order |
| Generation.EnumeratedComplete | codegen-core/src/main/kotlin/io/vrap/rmf/codegen/rendring/CoreCodeGenerator.kt:85 | with no failing publisher, `Flowable.concat` yields every item of every publisher, in publisher order |
| Generation.EnumeratedPrefix | codegen-core/src/main/kotlin/io/vrap/rmf/codegen/rendring/CoreCodeGenerator.kt:85 | whatever fails, the concatenated stream yields a prefix of all published items |
| Generation.UnitsComposition | codegen-core/src/main/kotlin/io/vrap/rmf/codegen/rendring/CoreCodeGenerator.kt:77-85 | the first unit is `gen.properties` with content `hash=` + git hash; the generators' units follow in order; with no failing publisher there are exactly 1 + (all items) units |
| Generation.LifecycleOrder | codegen-core/src/main/kotlin/io/vrap/rmf/codegen/rendring/CoreCodeGenerator.kt:71-95 | in the trace a completed `generate()` leaves, the run after the earlier events is one `Clean` first, one `PostClean` last, and between them only the writes, in the order they happened |
| Generation.DataSink.constructor | codegen-core/src/main/kotlin/io/vrap/rmf/codegen/rendring/CoreCodeGenerator.kt:21 | a sink starts with no files and an empty trace |
| Generation.DataSink.Clean | codegen-core/src/main/kotlin/io/vrap/rmf/codegen/rendring/CoreCodeGenerator.kt:71-75 | `clean()` reports its success, empties the files only when it succeeds, and appends `Clean` to the trace |
| Generation.DataSink.Write | codegen-core/src/main/kotlin/io/vrap/rmf/codegen/rendring/CoreCodeGenerator.kt:88 | `write(unit)` stores the unit's content at its path unless that path fails, and appends `Write(unit)` to the trace |
| Generation.DataSink.PostClean | codegen-core/src/main/kotlin/io/vrap/rmf/codegen/rendring/CoreCodeGenerator.kt:95 | `postClean()` leaves the files unchanged and appends `PostClean` to the trace |
| Generation.WriteUnits | codegen-core/src/main/kotlin/io/vrap/rmf/codegen/rendring/CoreCodeGenerator.kt:85-93 | the parallel write stage writes a sub-multiset of the units in some order and leaves the sink holding `Persisted` of those writes; only the last write may hit a failing path; with no failing write and no stream error, every unit is written exactly once |
| Generation.PersistedPaths | codegen-core/src/main/kotlin/io/vrap/rmf/codegen/rendring/CoreCodeGenerator.kt:88 | after a run of writes the sink holds exactly the paths it held before plus the writable paths of the units written |
| Generation.PersistedLastWrite | codegen-core/src/main/kotlin/io/vrap/rmf/codegen/rendring/CoreCodeGenerator.kt:88 | a writable path holds the content of the last unit written to it |
| Generation.CoreCodeGenerator.constructor | codegen-core/src/main/kotlin/io/vrap/rmf/codegen/rendring/CoreCodeGenerator.kt:21-67 | the driver holds the injected sink and the optional `generators` and `gitHash` |
| Generation.CoreCodeGenerator.Generate | codegen-core/src/main/kotlin/io/vrap/rmf/codegen/rendring/CoreCodeGenerator.kt:69-98 | `generate()` throws exactly when `gitHash` or `generators` was never injected or a generator throws, and then the sink has seen only `Clean`; otherwise the trace is `Clean`, then the writes, then `PostClean`, even when the stream errors; without errors every unit is written exactly once; the files are those left by the pre-clean, then by the writes |
| JavaTypes.SimpleNameNested | languages/javalang/java-base/src/main/kotlin/io/vrap/codegen/languages/java/base/extensions/JavaVrapExtensions.kt:6-15 | `simpleName` throws exactly when the innermost type of the array nest is nil; otherwise it wraps the innermost name in `List<`…`>` once per array level |
| JavaTypes.FullClassNameNested | languages/javalang/java-base/src/main/kotlin/io/vrap/codegen/languages/java/base/extensions/JavaVrapExtensions.kt:17-26 | `fullClassName` is total: it wraps the innermost name in `java.util.List<`…`>` once per array level, qualifies enums and objects by package, and gives `void` for nil |
| JavaTypes.ToJavaVTypeShape | languages/javalang/java-base/src/main/kotlin/io/vrap/codegen/languages/java/base/extensions/JavaVrapExtensions.kt:28-44 | `toJavaVType` keeps the array depth, the variant and the class name, rewrites only the innermost package, and returns scalar, any and nil types unchanged |
| JavaTypes.SimpleNameOfJavaVType | languages/javalang/java-base/src/main/kotlin/io/vrap/codegen/languages/java/base/extensions/JavaVrapExtensions.kt:6-44 | `simpleName(toJavaVType(t))` equals `simpleName(t)`, including whether it throws |
| JavaTypes.ToJavaPackageSegments | languages/javalang/java-base/src/main/kotlin/io/vrap/codegen/languages/java/base/extensions/JavaVrapExtensions.kt:47-53 | `toJavaPackage` maps each `.`/`/` segment through the case function and rejoins with `.`; the segment count is 1 + the number of separators |
| PyRequestBuilder.TransformUriTemplate | languages/python/src/main/kotlin/io/vrap/codegen/languages/python/client/RequestBuilder.kt:245-254 | the loop performs one replacement per matched placeholder, in match order; a template without placeholders comes back unchanged |
| PyRequestBuilder.TransformRendered | languages/python/src/main/kotlin/io/vrap/codegen/languages/python/client/RequestBuilder.kt:245-254 | on a well-formed template, the result is the template with every `{name}` rewritten to `{self._<snake name>}` and the literal text untouched |
| PyRequestBuilder.PlaceholdersOfRender | languages/python/src/main/kotlin/io/vrap/codegen/languages/python/client/RequestBuilder.kt:246-250 | the regex `\{([^}]+)}` finds exactly the template's variables, in order |
| PyRequestBuilder.ReplaceEachPartly | languages/python/src/main/kotlin/io/vrap/codegen/languages/python/client/RequestBuilder.kt:250-252 | replacing the placeholders of a list of names one after another rewrites exactly the variables with those names |
| PyRequestBuilder.KwargsShape | languages/python/src/main/kotlin/io/vrap/codegen/languages/python/client/RequestBuilder.kt:112-139 | the parameters are `self`, the body slot only when there is a body, `*`, one per query parameter, then `headers` and `options`; the empty slot is filtered out |
| PyRequestBuilder.BodySentOnlyWhenDeclared | languages/python/src/main/kotlin/io/vrap/codegen/languages/python/client/RequestBuilder.kt:219-225 | a body expression is emitted exactly for an object body or a `typing.BinaryIO` body, and only when the method declares a body parameter |
| PyRequestBuilder.ParamsLocalShape | languages/python/src/main/kotlin/io/vrap/codegen/languages/python/client/RequestBuilder.kt:141-153 | the `params = {…}` line is written exactly when the call passes `params=params`, which is exactly when some query parameter is a pattern |
| PyRequestBuilder.PatternUpdatesShape | languages/python/src/main/kotlin/io/vrap/codegen/languages/python/client/RequestBuilder.kt:148-153 | one update line per pattern parameter, in order, each starting with that parameter's name and ` and params.update(` |
| PyRequestBuilder.ClientCallShape | languages/python/src/main/kotlin/io/vrap/codegen/languages/python/client/RequestBuilder.kt:233 | the call goes to `self._client._` plus the HTTP method name with each ASCII upper-case letter lowered and nothing else changed; a lower-case name is kept as it is |
| PyRequestBuilder.ParamsPartition | languages/python/src/main/kotlin/io/vrap/codegen/languages/python/client/RequestBuilder.kt:141-153 | every query parameter goes either into the literal dict or into a pattern update, never both |
| PyRequestBuilder.ParamsArgumentChoice | languages/python/src/main/kotlin/io/vrap/codegen/languages/python/client/RequestBuilder.kt:230-235 | the call passes `params=params` exactly when some query parameter is a pattern parameter |
| PyRequestBuilder.GroupsPartition | languages/python/src/main/kotlin/io/vrap/codegen/languages/python/client/RequestBuilder.kt:158-174 | the groups have distinct keys (class name, 2xx), none is empty, and each response lies in exactly the group of its key |
| PyRequestBuilder.ResponseHandledOnce | languages/python/src/main/kotlin/io/vrap/codegen/languages/python/client/RequestBuilder.kt:168-211 | every response's status code is tested by exactly one branch |
| PyRequestBuilder.BranchShape | languages/python/src/main/kotlin/io/vrap/codegen/languages/python/client/RequestBuilder.kt:175-211 | the first branch is `if` and the rest `elif`; a branch uses `in (…)` exactly for several codes; it deserializes only for success codes, raises only for error codes, and returns `None` exactly for body-less groups |
| PyRequestBuilder.BranchCondition | languages/python/src/main/kotlin/io/vrap/codegen/languages/python/client/RequestBuilder.kt:176-181 | the keyword and the condition of each branch, and the codes it tests |
| PyRequestBuilder.BranchAction | languages/python/src/main/kotlin/io/vrap/codegen/languages/python/client/RequestBuilder.kt:183-209 | the action of each branch against the success flag and the body class of its group |
| PyRequestBuilder.BodylessGroup | languages/python/src/main/kotlin/io/vrap/codegen/languages/python/client/RequestBuilder.kt:161-166 | a group keyed `None` exists exactly when some response's class name is `None`, as it is for a response without a body |
| PyRequestBuilder.RenderResponseHandler | languages/python/src/main/kotlin/io/vrap/codegen/languages/python/client/RequestBuilder.kt:155-211 | the loop yields one branch per group and sets `returnTypeOptional` exactly when some response, success or not, has the class name `None`, as a response without a body does |
| PyRequestBuilder.RenderMethod | languages/python/src/main/kotlin/io/vrap/codegen/languages/python/client/RequestBuilder.kt:111-243 | the method's name and parameters; its return annotation, wrapped in `typing.Optional` exactly when some response's class name is `None`; the `params = …` line and the pattern-update lines before the call; the `self._client._<verb>(` call with its endpoint, params argument and body expression; and the response branches |
| PySubResources.ArgsSelfAlone | languages/python/src/main/kotlin/io/vrap/codegen/languages/python/client/PythonRenderer.kt:13-19 | the accessor takes `self` alone exactly when the relative URI has no variables, and otherwise starts with `self, ` |
| PySubResources.ForwardsPartition | languages/python/src/main/kotlin/io/vrap/codegen/languages/python/client/PythonRenderer.kt:21-30 | relative variables are forwarded first from the arguments, then the full-URI-only variables from `self`; every full-URI variable is forwarded, and none both ways |
| PySubResources.SubResourcesShape | languages/python/src/main/kotlin/io/vrap/codegen/languages/python/client/PythonRenderer.kt:10-42 | one accessor per sub-resource, in order, named by the snake-cased method name, returning the builder, passing `client=clientName`, with one assignment per forwarded variable |
| PyRequestBuilderInit.RenderShape | languages/python/src/main/kotlin/io/vrap/codegen/languages/python/client/RequestBuilderInit.kt:24-35 | the path ends with `__init__.py`, is exactly `__init__.py` for a single-segment module, and the content is empty |
| PyRequestBuilderInit.InitDirectories | languages/python/src/main/kotlin/io/vrap/codegen/languages/python/client/RequestBuilderInit.kt:27-32 | the path's directories are the module's segments without the last one |
| PyRequestBuilderInit.SiblingsShareInit | languages/python/src/main/kotlin/io/vrap/codegen/languages/python/client/RequestBuilderInit.kt:30 | the last module segment never affects the path |
| PyModel.ModulePathIsReplace | languages/python/src/main/kotlin/io/vrap/codegen/languages/python/model/PythonModelRenderer.kt:56-57 | the file path is the module name with `.` turned into `/`, plus `.py` |
| PyModel.ModulePathInjective | languages/python/src/main/kotlin/io/vrap/codegen/languages/python/model/PythonModelRenderer.kt:56-57 | distinct module names without `/` give distinct files |
| PyModel.ExportedVariablesSorted | languages/python/src/main/kotlin/io/vrap/codegen/languages/python/model/PythonModelRenderer.kt:68-73 | `__all__` is a sorted permutation of the quoted type names, and is duplicate-free when the names are |
| PyModel.RenderTypeExprBalanced | languages/python/src/main/kotlin/io/vrap/codegen/languages/python/model/PythonModelRenderer.kt:227-234 | a rendered annotation has as many `[` as `]` when the type names do |
| PyModel.SingleMember | languages/python/src/main/kotlin/io/vrap/codegen/languages/python/model/PythonModelRenderer.kt:229-230 | a one-member intersection renders as its member, and a one-member union as `typing.Union[` member `]` |
| PyModel.InitSignature | languages/python/src/main/kotlin/io/vrap/codegen/languages/python/model/PythonModelRenderer.kt:131-143 | `__init__` takes `self`; `*` and one keyword per property follow only when there are properties; optional ones default to `None` |
| PyModel.KwargShape | languages/python/src/main/kotlin/io/vrap/codegen/languages/python/model/PythonModelRenderer.kt:132-138 | each keyword starts with the snake-cased name, and an optional one ends with `] = None` |
| PyModel.PropertyDeclsShape | languages/python/src/main/kotlin/io/vrap/codegen/languages/python/model/PythonModelRenderer.kt:111-128 | the class body declares one attribute per property of the type itself, in order; each starts with the snake-cased name and a colon, an optional one is closed by `]`, and each equals its `__init__` keyword without the `None` default |
| PyModel.DeclMatchesKwarg | languages/python/src/main/kotlin/io/vrap/codegen/languages/python/model/PythonModelRenderer.kt:111-138 | an attribute's declaration and its `__init__` keyword carry the same annotation; the keyword adds ` = None` exactly when the property is optional |
| PyModel.SuperArgsForwardInherited | languages/python/src/main/kotlin/io/vrap/codegen/languages/python/model/PythonModelRenderer.kt:145-160 | `super().__init__` receives exactly the inherited-minus-own properties, then the discriminator only when both its property and value exist, as an enum constant or a quoted string |
| PyModel.CollectPassArgs | languages/python/src/main/kotlin/io/vrap/codegen/languages/python/model/PythonModelRenderer.kt:145-149 | the `forEach` loop adds one `name=name` argument per inherited property, in order |
| PyModel.RenderInitFunction | languages/python/src/main/kotlin/io/vrap/codegen/languages/python/model/PythonModelRenderer.kt:130-168 | the imperative rendering computes the parameters, assignments and parent arguments that `InitSignature` and `SuperArgsForwardInherited` describe |
| PyModel.EnumValuesMembers | languages/python/src/main/kotlin/io/vrap/codegen/languages/python/model/PythonModelRenderer.kt:248-254 | the enum values are exactly the non-null string instances of the enum list, and there are none without one |
| PyModel.BuildModuleOutcome | languages/python/src/main/kotlin/io/vrap/codegen/languages/python/model/PythonModelRenderer.kt:42-66 | a module renders exactly when none of its types is a string type whose model type is not an enum, and then holds one class per type plus the path and `__all__` |
| PyModel.GroupOutcomes | languages/python/src/main/kotlin/io/vrap/codegen/languages/python/model/PythonModelRenderer.kt:33-38 | each module group renders or fails by the same rule, at its module's path |
| PyModel.ProduceFilesSucceeds | languages/python/src/main/kotlin/io/vrap/codegen/languages/python/model/PythonModelRenderer.kt:31-40 | the producer fails exactly when some selected string type's model type is not an enum |
| PyModel.ProduceFilesOutcome | languages/python/src/main/kotlin/io/vrap/codegen/languages/python/model/PythonModelRenderer.kt:31-40 | one file per distinct module name of the object and pattern-less string types; each file's types are exactly those of its module name; every selected type has its file |
| PyModel.EveryTypeHasFile | languages/python/src/main/kotlin/io/vrap/codegen/languages/python/model/PythonModelRenderer.kt:32-38 | every selected type's module path is among the produced paths |
| PySchema.FieldKwargsOutcome | languages/python/src/main/kotlin/io/vrap/codegen/languages/python/model/PythonSchemaRenderer.kt:231-290 | the keyword arguments throw only `Invalid state`, `invalid state` or `Expected child schemas`; they always hold `allow_none=True` for a known kind and are empty otherwise; for enums they start with the class name then `by_value=True`; an object field throws exactly for a non-object type or a discriminated type with no valued subtypes |
| PySchema.ScalarArraysSucceed | languages/python/src/main/kotlin/io/vrap/codegen/languages/python/model/PythonSchemaRenderer.kt:204-286 | arrays nested down to scalars get both a field class and keyword arguments, and arrays get `marshmallow.fields.List` |
| PySchema.ObjectFieldClass | languages/python/src/main/kotlin/io/vrap/codegen/languages/python/model/PythonSchemaRenderer.kt:204-262 | an object type's field class never fails: a dict-like type is `<Name>Field` with only `allow_none`, a discriminated one is `helpers.Discriminator` and gets its kwargs exactly when some subtype has a value, any other is `helpers.LazyNestedField` with `nested=…` first |
| PySchema.DiscriminatedEntries | languages/python/src/main/kotlin/io/vrap/codegen/languages/python/model/PythonSchemaRenderer.kt:243-256 | a discriminated object with valued subtypes gets exactly three kwargs: `allow_none`, its discriminator field, and `discriminator_schemas={…}` holding the map entries joined with `,\n`; the entries are drawn from exactly the subtypes with a non-empty discriminator value |
| PySchema.SchemaEntriesShape | languages/python/src/main/kotlin/io/vrap/codegen/languages/python/model/PythonSchemaRenderer.kt:245-250 | one map entry per valued subtype, in order; each starts with that subtype's quoted discriminator value and `: helpers.absmod(__name__, "` and ends with its relative schema name and `")` |
| PySchema.RenderFieldDecl | languages/python/src/main/kotlin/io/vrap/codegen/languages/python/model/PythonSchemaRenderer.kt:163-194 | the imperative rendering of a field declaration, appending to the keyword list, computes the declaration `FieldDeclOutcome` describes |
| PySchema.DeclSuffixFlags | languages/python/src/main/kotlin/io/vrap/codegen/languages/python/model/PythonSchemaRenderer.kt:180-186 | `omit_empty` appears exactly for optional properties and comes first; `missing=None` always appears; `data_key` appears exactly when the name differs from its snake case, and comes last |
| PySchema.FieldDeclOutcome | languages/python/src/main/kotlin/io/vrap/codegen/languages/python/model/PythonSchemaRenderer.kt:163-194 | a pattern property becomes a regex field; any other property gets the type's keyword arguments followed by the suffix, and fails exactly when they or the field class fail |
| PySchema.SchemaClassFields | languages/python/src/main/kotlin/io/vrap/codegen/languages/python/model/PythonSchemaRenderer.kt:94-161 | a non-dict object renders exactly when all its own properties' fields do, as `<Name>Schema` with one field per property, in order, named `_regex` for pattern properties |
| PySchema.SectionsPartition | languages/python/src/main/kotlin/io/vrap/codegen/languages/python/model/PythonSchemaRenderer.kt:40-53 | every selected type falls into exactly one of the fields section and the schemas section |
| PySchema.FieldsSectionRenders | languages/python/src/main/kotlin/io/vrap/codegen/languages/python/model/PythonSchemaRenderer.kt:84-92 | dict object types always render, as `<Name>Field` |
| PySchema.BuildModuleOutcome | languages/python/src/main/kotlin/io/vrap/codegen/languages/python/model/PythonSchemaRenderer.kt:39-74 | a schema module renders exactly when all its types do, at the module path, with one item per type across the two sections |
| PySchema.FailingTypeFailsSection | languages/python/src/main/kotlin/io/vrap/codegen/languages/python/model/PythonSchemaRenderer.kt:45-69 | a type that fails to render fails the schemas section |
| PySchema.GroupOutcomes | languages/python/src/main/kotlin/io/vrap/codegen/languages/python/model/PythonSchemaRenderer.kt:28-33 | each schema-module group renders exactly when all its types do, at its path |
| PySchema.ProduceFilesOutcome | languages/python/src/main/kotlin/io/vrap/codegen/languages/python/model/PythonSchemaRenderer.kt:26-37 | the producer succeeds exactly when every selected type renders, with one file per distinct schema module name |
| PyInitFile.ImportLineOutcome | languages/python/src/main/kotlin/io/vrap/codegen/languages/python/model/InitFileProducer.kt:37-38 | a module name has an import line exactly when it contains `.`, and the line names its second segment |
| PyInitFile.ModuleNamesDistinct | languages/python/src/main/kotlin/io/vrap/codegen/languages/python/model/InitFileProducer.kt:32-36 | the listed module names are exactly those of the selected types, each once |
| PyInitFile.ProduceFilesOutcome | languages/python/src/main/kotlin/io/vrap/codegen/languages/python/model/InitFileProducer.kt:20-41 | the file is produced exactly when every selected module name has a second segment, as the single `models/__init__.py` with one import line per module name; otherwise the index error is raised |
| PyInitFile.ImportLinesSucceed | languages/python/src/main/kotlin/io/vrap/codegen/languages/python/model/InitFileProducer.kt:36-39 | all import lines exist exactly when every selected type's module name contains `.` |
| PyInitFile.ContentLines | languages/python/src/main/kotlin/io/vrap/codegen/languages/python/model/InitFileProducer.kt:23-27 | read line by line, the file is an empty line, the header, an empty line, then the import lines |
| PhpMethod.MethodReturnTypeFirst | languages/php/src/main/kotlin/io/vrap/codegen/languages/php/model/PhpMethodRenderer.kt:164-178 | `Method.returnType()`: the first body's type of the first 2xx response with bodies, and the nil type when there is none; `render` does not call it, and only commented-out code at lines 305-329 does |
| PhpMethod.ModelClassesAppendModel | languages/php/src/main/kotlin/io/vrap/codegen/languages/php/model/PhpMethodRenderer.kt:180-218 | each model class name is its interface class name followed by `Model` |
| PhpMethod.ImportTypesShape | languages/php/src/main/kotlin/io/vrap/codegen/languages/php/model/PhpMethodRenderer.kt:42-47 | the imports are strictly sorted, contain both fixed `JsonObject` lines, and are otherwise exactly the model and interface imports of responses with a JSON body |
| PhpMethod.ImportCandidatesMembers | languages/php/src/main/kotlin/io/vrap/codegen/languages/php/model/PhpMethodRenderer.kt:43-46 | the import candidates are the two fixed lines and the imports of the JSON responses |
| PhpMethod.ReturnTypesShape | languages/php/src/main/kotlin/io/vrap/codegen/languages/php/model/PhpMethodRenderer.kt:48-50 | the return types are strictly sorted, contain `JsonObject`, and are otherwise exactly the classes of responses with a JSON body |
| PhpMethod.ReturnTypeCandidatesMembers | languages/php/src/main/kotlin/io/vrap/codegen/languages/php/model/PhpMethodRenderer.kt:48-49 | the return-type candidates are `JsonObject` and the classes of the JSON responses |
| PhpMethod.WrittenCaseMissesJsonType | languages/php/src/main/kotlin/io/vrap/codegen/languages/php/model/PhpMethodRenderer.kt:95-99 | for a response whose first body is not JSON, the written case names a class that is neither imported nor documented |
| PhpMethod.WrittenCaseAt | languages/php/src/main/kotlin/io/vrap/codegen/languages/php/model/PhpMethodRenderer.kt:95-99 | the written switch has one case per result type, in order; each result type is a JSON-bodied response of the method with at least one body, and its case carries its status code and the model class of its first body's type |
| PhpMethod.SwitchCasesDocumented | languages/php/src/main/kotlin/io/vrap/codegen/languages/php/model/PhpMethodRenderer.kt:95-99 | the corrected switch has one case per result type, with its status code, and names the model class of a documented return type |
| PhpMethod.BodyHandlingAgrees | languages/php/src/main/kotlin/io/vrap/codegen/languages/php/model/PhpMethodRenderer.kt:144-162 | a file body, and only a file body, gets the upload import, the `UploadedFileInterface` hint, the content-type block and stream serialization; any other body gets `json_encode` |
| PhpMethod.RelativePathShape | languages/php/src/main/kotlin/io/vrap/codegen/languages/php/model/PhpMethodRenderer.kt:136-137 | the path starts with `src/`, ends with `/Resource/<request name>.php`, and has no backslash in its namespace part |
| PhpMethod.NamespaceDirectories | languages/php/src/main/kotlin/io/vrap/codegen/languages/php/model/PhpMethodRenderer.kt:136 | the namespace part is the namespace with the base prefix removed and `\` turned into `/`, then `/Resource` |
| PhpMethod.InsideBasePackage | languages/php/src/main/kotlin/io/vrap/codegen/languages/php/model/PhpMethodRenderer.kt:136 | a namespace under the base prefix keeps only the rest of its directories |
| PhpMethod.OutsideBasePackage | languages/php/src/main/kotlin/io/vrap/codegen/languages/php/model/PhpMethodRenderer.kt:136 | a namespace outside the base prefix keeps all of its directories |
| PhpMethod.RenderShape | languages/php/src/main/kotlin/io/vrap/codegen/languages/php/model/PhpMethodRenderer.kt:39-137 | the rendered class lies under `src/` at `/Resource/<request name>.php`; its imports are strictly sorted and hold both fixed `JsonObject` lines; its return types are strictly sorted and hold `JsonObject`; its switch, as written, has one case per result type with that response's status code; it streams, hints and labels an upload exactly when the first body is a file |
| PhpMethod.NoJsonResponses | languages/php/src/main/kotlin/io/vrap/codegen/languages/php/model/PhpMethodRenderer.kt:42-104 | with no JSON response only the default case remains, in the written and the corrected switch, `JsonObject` is the only return type, and only the two fixed lines are imported |
| RamlDoc.TrimShape | languages/ramldoc/src/main/kotlin/io/vrap/codegen/languages/ramldoc/model/RamlObjectTypeRenderer.kt:61 | `trim()` keeps one slice of the text, drops only whitespace before and after it, and that slice neither starts nor ends with whitespace |
| RamlDoc.TrimBlank | languages/ramldoc/src/main/kotlin/io/vrap/codegen/languages/ramldoc/model/RamlObjectTypeRenderer.kt:54-61 | trimming leaves nothing exactly for a blank text |
| RamlDoc.RenderedPropertiesShape | languages/ramldoc/src/main/kotlin/io/vrap/codegen/languages/ramldoc/model/RamlObjectTypeRenderer.kt:27-34 | without a discriminator value the properties are all properties; with one they are the own properties, preceded by the discriminator property exactly when it exists and no own property has its name |
| RamlDoc.DiscriminatorListed | languages/ramldoc/src/main/kotlin/io/vrap/codegen/languages/ramldoc/model/RamlObjectTypeRenderer.kt:27-31 | with a discriminator value and property, some rendered property carries the discriminator's name |
| RamlDoc.ExampleObject.constructor | languages/ramldoc/src/main/kotlin/io/vrap/codegen/languages/ramldoc/model/RamlObjectTypeRenderer.kt:38 | a fresh example object has no name and no `strict` |
| RamlDoc.NewPostmanExample | languages/ramldoc/src/main/kotlin/io/vrap/codegen/languages/ramldoc/model/RamlObjectTypeRenderer.kt:37-46 | the annotation's example is a fresh object named `postman` whose fresh `strict` holds `true` |
| RamlDoc.BuildExamples | languages/ramldoc/src/main/kotlin/io/vrap/codegen/languages/ramldoc/model/RamlObjectTypeRenderer.kt:36-47 | the built example list is the sorted list that `SortedExamplesShape` describes |
| RamlDoc.SortedExamplesShape | languages/ramldoc/src/main/kotlin/io/vrap/codegen/languages/ramldoc/model/RamlObjectTypeRenderer.kt:47 | the examples are sorted by name and are a permutation of the type's examples plus `postman` exactly when the annotation is present |
| RamlDoc.ExampleIncludeShape | languages/ramldoc/src/main/kotlin/io/vrap/codegen/languages/ramldoc/model/RamlObjectTypeRenderer.kt:72-77 | the entry is named `default` exactly for an unnamed (or `default`) example; the path climbs `../..` exactly when the package directory is non-empty, and ends with `/examples/<dir><Class>-<entry>.json` |
| RamlDoc.ExampleLabelShape | languages/ramldoc/src/main/kotlin/io/vrap/codegen/languages/ramldoc/model/RamlObjectTypeRenderer.kt:74-76 | an entry name is never empty, and is `default` exactly for an unnamed example |
| RamlDoc.Render | languages/ramldoc/src/main/kotlin/io/vrap/codegen/languages/ramldoc/model/RamlObjectTypeRenderer.kt:25-70 | `render` builds the postman example in place and returns the document that `RamlFileShape` describes |
| RamlDoc.OneOfShape | languages/ramldoc/src/main/kotlin/io/vrap/codegen/languages/ramldoc/model/RamlObjectTypeRenderer.kt:55-57 | `(oneOf)` lists the non-inline subtypes' names sorted, and is empty exactly when every subtype is inline |
| RamlDoc.RamlFileShape | languages/ramldoc/src/main/kotlin/io/vrap/codegen/languages/ramldoc/model/RamlObjectTypeRenderer.kt:49-103 | the path is `types/<dir><Class>.raml`; `displayName` and `type` fall back to the class name and `object`; the discriminator lines appear by their conditions; each property block keeps name, `required` and default, and gets an enum line exactly for the discriminator with a non-blank value |
| GroovyDsl.DecapitalizeShape | kt-code-generators/src/main/kotlin/io/vrap/codegen/kt/languages/java/groovy/dsl/GroovyDslRenderer.kt:38-42 | `decapitalize` changes at most the first character, lowering an upper-case letter, and keeps other names |
| GroovyDsl.RelativePathShape | kt-code-generators/src/main/kotlin/io/vrap/codegen/kt/languages/java/groovy/dsl/GroovyDslRenderer.kt:48-50 | the path ends with `Dsl.java` and has no `.` before it; it ends with `/<Class>Dsl.java`, and its directories are the package segments, when the names allow |
| GroovyDsl.PathSegments | kt-code-generators/src/main/kotlin/io/vrap/codegen/kt/languages/java/groovy/dsl/GroovyDslRenderer.kt:49 | the path's `/`-segments are the package's `.`-segments followed by the class name |
| GroovyDsl.ContentOpensWithPackage | kt-code-generators/src/main/kotlin/io/vrap/codegen/kt/languages/java/groovy/dsl/GroovyDslRenderer.kt:19-20 | the content starts with `package <package>;` on a line of its own |
| GroovyDsl.ContentDeclaresInterface | kt-code-generators/src/main/kotlin/io/vrap/codegen/kt/languages/java/groovy/dsl/GroovyDslRenderer.kt:19-31 | the `public interface <Class>Dsl {` line stands on its own between the header and the factory method |
| GroovyDsl.ContentDeclaresFactory | kt-code-generators/src/main/kotlin/io/vrap/codegen/kt/languages/java/groovy/dsl/GroovyDslRenderer.kt:32-44 | the factory signature, named by the decapitalized type name, stands on its own between its doc comment and its body |

## Left out

- Parallelism: `observeOn`, `parallel(100)`, `sequential` and `blockingSubscribe` run on RxJava threads. The model writes one unit at a time in an order it does not fix, chosen nondeterministically. It does not model concurrent writes into the sink.
- When a write raises, the whole stream fails. There is no per-unit isolation, and the error callback only logs. Other writes already under way on other rails are not modelled; the model stops after the failing write.
- Generation.DataSink: an in-memory stand-in for the injected `DataSink`. Its `clean()` reports success or failure but never raises, and its `postClean()` never raises and does not touch the files; a sink whose `clean()` or `postClean()` raises, or whose `postClean()` rewrites files, is not modelled.
- Logging (SLF4J) and dependency injection (Guice) are left out. The injected `lateinit` fields `generators` and `gitHash` are `Option` fields. The other injected renderer sets are not read by `generate()`.
- Whitespace, `trimMargin`, `keepIndentation`, `keepAngleIndent`, `prependIndent` and `escapeAll` are left out. The renderers are modelled as records of their structural choices. Only GroovyDsl, PyInitFile and the `gen.properties` unit are modelled as text.
- `sortedByTopology` (PyModel, PySchema) is an external ordering by supertypes. The model keeps the input order of each module's types.
- The external helpers are arrow-typed parameters with no properties assumed unless a lemma states its own requirement. They are `snakeCase`, `StringCaseFormat.*`, `toNamespaceName`, `toRelativePackageName`, `escapeAll`, `renderType`, `toDocString`, `toLineComment` and `JavaSubTemplates.generatedAnnotation`.
- Precomputed input fields stand for what the type provider and the RAML metamodel compute. These are `moduleName`, `schemaModuleName`, `simplePyName`, `pyTypeName`, `isDict`, `isPatternProperty`, `discriminatorProperty`, `PyClassProperties`, `getTypeInheritance`, `packageDir`, `simpleClassName` and `fullClassName`.
- `doSwitch(...) as VrapObjectType` casts in the renderers are taken to succeed. The casts in PyModel's enum rendering and PySchema's array and object kwargs are modelled as errors.
- The status code of a response is an integer. `toInt()` parsing of a non-numeric status code is not modelled.
- `Char.isWhitespace`, `decapitalize` and `toLowerCase` are modelled on ASCII only.
- RAML metamodel objects are compared by value, not by EMF identity. This matters for list difference (`-`) and `distinct`.
- Type references are finite trees. Recursive RAML types that would make `renderTypeExpr` or the schema kwargs loop are not modelled.
- `renderSerializationMethods`, `renderPostLoad`, the doc strings, the `toLineComment` comment above each attribute declaration, and the `getImportsForModule`/`getSchemaImportsForModule` lines are left out. They are text around external helpers.
- RequestBuilder: the class text around `renderMethod` (constructor, imports, `methods()` joining) and the media-type header are left out. They are fixed text or external helpers.
- PhpMethodRenderer: the request-class text beyond the imports, return types, switch cases, body handling and path is left out. The constructor's URI template, default headers and query-parameter methods are fixed text over external helpers.
- GroovyDsl.ContentDeclaresFactory: does not prove that each line of the content is free of line breaks. That depends on the names and the generated annotation.
- PyModel.RenderTypeExprBalanced: covers only the bracket balance of the annotation, not its full text. The member names are external.

## Findings

| source | as written | input that shows it | evidently intended | confidence | as-written member | corrected member |
|---|---|---|---|---|---|---|
| languages/php/src/main/kotlin/io/vrap/codegen/languages/php/model/PhpMethodRenderer.kt:95-99 | each `mapFromResponse` case takes the model class from `response.bodies[0]`, whatever its media type | a 200 response whose first body is XML of type `Foo` and whose second is JSON of type `Bar`: the case names `FooModel`, while only `Bar` and `BarModel` are imported and documented | take the class from the first JSON body, as the imports and return types at lines 42-50 do | low, not executed | PhpMethod.WrittenCaseMissesJsonType | PhpMethod.SwitchCasesDocumented |
