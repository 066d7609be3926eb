/** `PhpMethodRenderer`: one PHP request class per API method. The model covers
    what the class is built from: which responses it maps, the `use` lines and
    the documented return types, the switch that picks a result class per status
    code, how the request body is sent, and where the file goes. */
module PhpMethod {
  import opened Files
  import Text

  /** A body type as the renderer consults it: `toVrapType()`, what `isScalar()`,
      `simpleName()` and `fullClassName()` give for it, and whether the RAML type
      is a `FileType`. */
  datatype PhpType = PhpType(
    vrap: VrapType,
    scalar: bool,
    simpleName: string,
    fullClassName: string,
    isFile: bool)

  /** A response body: whether `application/json; charset=utf-8` lies in its
      media-type range, and its type (RAML leaves it unset when the API does not
      declare one). */
  datatype Body = Body(json: bool, bodyType: Option<PhpType>)

  datatype Response = Response(statusCode: int, bodies: seq<Body>)

  /** A method: the package of its request type, `toRequestName()`, its responses
      and `firstBody()`. */
  datatype Method = Method(
    package: string,
    requestName: string,
    responses: seq<Response>,
    firstBody: Option<Body>)

  /** The injected package names, the namespace and escaping helpers, and what the
      type provider makes of a fresh nil type. */
  datatype Settings = Settings(
    sharedPackage: string,
    basePackagePrefix: string,
    namespaceOf: string -> string,
    escape: string -> string,
    nilType: PhpType)

  const ResourcePackage := "Resource"

  // ---------------------------------------------------------------------------
  // Return types
  // ---------------------------------------------------------------------------

  /** `isSuccessfull()`: a 2xx status code. */
  predicate IsSuccessful(r: Response)
  {
    200 <= r.statusCode <= 299
  }

  predicate HasBodies(r: Response)
  {
    r.bodies != []
  }

  /** A response that `Method.returnType()` may take its type from. */
  predicate Candidate(r: Response)
  {
    IsSuccessful(r) && HasBodies(r)
  }

  /** `Body.returnType()`: the declared type, or the nil type. */
  function BodyReturnType(b: Body, nilType: PhpType): PhpType
  {
    b.bodyType.GetOr(nilType)
  }

  /** `Method.returnType()`: the first body type of the first successful response
      with bodies, or the nil type. `render` itself does not call it; only
      commented-out helpers of the renderer do. */
  function MethodReturnType(m: Method, nilType: PhpType): PhpType
  {
    var candidates := Text.Filter(HasBodies, Text.Filter(IsSuccessful, m.responses));
    Text.FilterMembers(HasBodies, Text.Filter(IsSuccessful, m.responses));
    if candidates == [] then nilType
    else assert candidates[0] in candidates; BodyReturnType(candidates[0].bodies[0], nilType)
  }

  /** `rs[i]` is the earliest successful response with bodies. */
  predicate FirstCandidate(rs: seq<Response>, i: int)
  {
    0 <= i < |rs| && Candidate(rs[i]) && forall j :: 0 <= j < i ==> !Candidate(rs[j])
  }

  /** The return type comes from the earliest successful response that has bodies;
      without one it is the nil type. */
  lemma MethodReturnTypeFirst(m: Method, nilType: PhpType)
    ensures (forall i :: 0 <= i < |m.responses| ==> !Candidate(m.responses[i])) ==>
      MethodReturnType(m, nilType) == nilType
    ensures forall i :: FirstCandidate(m.responses, i) ==>
      MethodReturnType(m, nilType) == BodyReturnType(m.responses[i].bodies[0], nilType)
  {
    var rs := m.responses;
    Text.FilterFilter(IsSuccessful, HasBodies, Candidate, rs);
    if forall i :: 0 <= i < |rs| ==> !Candidate(rs[i]) {
      Text.FilterNone(Candidate, rs);
    }
    forall i | FirstCandidate(rs, i)
      ensures MethodReturnType(m, nilType) == BodyReturnType(rs[i].bodies[0], nilType)
    {
      Text.FilterFirst(Candidate, rs, i);
    }
  }

  // ---------------------------------------------------------------------------
  // Result types and the class names derived from them
  // ---------------------------------------------------------------------------

  predicate IsJson(b: Body)
  {
    b.json
  }

  predicate HasJsonBody(r: Response)
  {
    Text.Filter(IsJson, r.bodies) != []
  }

  /** `resultTypes`: the responses with at least one JSON body, in order. */
  function ResultTypes(m: Method): seq<Response>
  {
    Text.Filter(HasJsonBody, m.responses)
  }

  /** The return type of a response's first JSON body. Only result types are
      asked, and they always have one; the nil type stands in otherwise. */
  function JsonType(r: Response, nilType: PhpType): PhpType
  {
    var js := Text.Filter(IsJson, r.bodies);
    if js == [] then nilType else BodyReturnType(js[0], nilType)
  }

  function JsonTypeOf(nilType: PhpType): Response -> PhpType
  {
    r => JsonType(r, nilType)
  }

  /** The types the result types map to, in response order. */
  function ResultBodyTypes(s: Settings, m: Method): seq<PhpType>
  {
    Text.Map(JsonTypeOf(s.nilType), ResultTypes(m))
  }

  /** `returnTypeClass()`: an object type's simple name, `JsonObject` otherwise. */
  function ReturnTypeClass(t: PhpType): string
  {
    if t.scalar then "JsonObject"
    else if t.vrap.Object? then t.simpleName
    else "JsonObject"
  }

  /** `returnTypeModelClass()`. */
  function ReturnTypeModelClass(t: PhpType): string
  {
    if t.scalar then "JsonObjectModel"
    else if t.vrap.Object? then t.simpleName + "Model"
    else "JsonObjectModel"
  }

  /** The shared `Base` class with the given simple name. */
  function BaseClass(s: Settings, name: string): string
  {
    s.namespaceOf(s.sharedPackage) + "\\Base\\" + name
  }

  /** `returnTypeFullClass()`. */
  function ReturnTypeFullClass(s: Settings, t: PhpType): string
  {
    if t.scalar then BaseClass(s, "JsonObject")
    else if t.vrap.Object? then t.fullClassName
    else BaseClass(s, "JsonObject")
  }

  /** `returnTypeModelFullClass()`. */
  function ReturnTypeModelFullClass(s: Settings, t: PhpType): string
  {
    if t.scalar then BaseClass(s, "JsonObjectModel")
    else if t.vrap.Object? then t.fullClassName + "Model"
    else BaseClass(s, "JsonObjectModel")
  }

  /** Every model class is its interface class with `Model` appended, both as a
      simple and as a fully qualified name. */
  lemma ModelClassesAppendModel(s: Settings, t: PhpType)
    ensures ReturnTypeModelClass(t) == ReturnTypeClass(t) + "Model"
    ensures ReturnTypeModelFullClass(s, t) == ReturnTypeFullClass(s, t) + "Model"
  {
    var ns := s.namespaceOf(s.sharedPackage);
    assert BaseClass(s, "JsonObjectModel") == BaseClass(s, "JsonObject") + "Model";
  }

  // ---------------------------------------------------------------------------
  // `use` lines and documented return types
  // ---------------------------------------------------------------------------

  function ModelImport(s: Settings, t: PhpType): string
  {
    "use " + s.escape(ReturnTypeModelFullClass(s, t)) + ";"
  }

  function InterfaceImport(s: Settings, t: PhpType): string
  {
    "use " + s.escape(ReturnTypeFullClass(s, t)) + ";"
  }

  function ModelImportOf(s: Settings): PhpType -> string
  {
    t => ModelImport(s, t)
  }

  function InterfaceImportOf(s: Settings): PhpType -> string
  {
    t => InterfaceImport(s, t)
  }

  /** The two `use` lines every request class has. */
  function JsonObjectImport(s: Settings): string
  {
    s.escape("use " + BaseClass(s, "JsonObject") + ";")
  }

  function JsonObjectModelImport(s: Settings): string
  {
    s.escape("use " + BaseClass(s, "JsonObjectModel") + ";")
  }

  /** The `use` lines before `distinct().sorted()`. */
  function ImportCandidates(s: Settings, m: Method): seq<string>
  {
    var ts := ResultBodyTypes(s, m);
    Text.Map(ModelImportOf(s), ts) + Text.Map(InterfaceImportOf(s), ts)
    + [JsonObjectImport(s), JsonObjectModelImport(s)]
  }

  /** `importTypes`. */
  function ImportTypes(s: Settings, m: Method): seq<string>
  {
    Text.Sort(Text.Distinct(ImportCandidates(s, m)))
  }

  /** The class names `returnTypes` is built from, before duplicates go and the
      list is sorted. */
  function ReturnTypeCandidates(s: Settings, m: Method): seq<string>
  {
    Text.Map(ReturnTypeClass, ResultBodyTypes(s, m)) + ["JsonObject"]
  }

  /** `returnTypes`. */
  function ReturnTypes(s: Settings, m: Method): seq<string>
  {
    Text.Sort(Text.Distinct(ReturnTypeCandidates(s, m)))
  }

  /** `x` is the interface class of the type the response `r` is mapped to. */
  predicate ReturnsTypeOf(s: Settings, x: string, r: Response)
  {
    x == ReturnTypeClass(JsonType(r, s.nilType))
  }

  /** `x` is a `use` line for the model or the interface class of the type `r` is
      mapped to. */
  predicate ImportsTypeOf(s: Settings, x: string, r: Response)
  {
    x == ModelImport(s, JsonType(r, s.nilType)) || x == InterfaceImport(s, JsonType(r, s.nilType))
  }

  /** A line occurs in the imports exactly when it is one of the two fixed lines
      or imports the model or interface class of a JSON-bodied response's type;
      the list is strictly increasing, so each line occurs once. */
  lemma ImportTypesShape(s: Settings, m: Method)
    ensures var imports := ImportTypes(s, m);
      && JsonObjectImport(s) in imports
      && JsonObjectModelImport(s) in imports
      && Text.NoDuplicates(imports)
      && (forall i, j :: 0 <= i < j < |imports| ==> Text.LexLe(imports[i], imports[j]) && imports[i] != imports[j])
      && forall x :: x in imports <==>
           || x == JsonObjectImport(s)
           || x == JsonObjectModelImport(s)
           || exists r :: r in m.responses && HasJsonBody(r) && ImportsTypeOf(s, x, r)
  {
    Text.SortDistinct(ImportCandidates(s, m));
    ImportCandidatesMembers(s, m);
  }

  lemma ImportCandidatesMembers(s: Settings, m: Method)
    ensures forall x :: x in ImportCandidates(s, m) <==>
      || x == JsonObjectImport(s)
      || x == JsonObjectModelImport(s)
      || exists r :: r in m.responses && HasJsonBody(r) && ImportsTypeOf(s, x, r)
  {
    var ts := ResultBodyTypes(s, m);
    var ms := Text.Map(ModelImportOf(s), ts);
    var ifs := Text.Map(InterfaceImportOf(s), ts);
    assert ImportCandidates(s, m) == ms + ifs + [JsonObjectImport(s), JsonObjectModelImport(s)];
    forall x | x in ms + ifs
      ensures exists r :: r in m.responses && HasJsonBody(r) && ImportsTypeOf(s, x, r)
    {
      ImportHasResponse(s, m, x);
    }
    forall x, r | r in m.responses && HasJsonBody(r) && ImportsTypeOf(s, x, r)
      ensures x in ms + ifs
    {
      ResponseHasImports(s, m, r);
    }
  }

  lemma ImportHasResponse(s: Settings, m: Method, x: string)
    requires x in Text.Map(ModelImportOf(s), ResultBodyTypes(s, m)) + Text.Map(InterfaceImportOf(s), ResultBodyTypes(s, m))
    ensures exists r :: r in m.responses && HasJsonBody(r) && ImportsTypeOf(s, x, r)
  {
    var ts := ResultBodyTypes(s, m);
    var ms := Text.Map(ModelImportOf(s), ts);
    var ifs := Text.Map(InterfaceImportOf(s), ts);
    var rts := ResultTypes(m);
    if x in ms {
      var i :| 0 <= i < |ms| && ms[i] == x;
      ResultTypeAt(s, m, i);
      assert ms[i] == ModelImport(s, ts[i]);
      assert ImportsTypeOf(s, x, rts[i]);
    } else {
      assert x in ifs;
      var i :| 0 <= i < |ifs| && ifs[i] == x;
      ResultTypeAt(s, m, i);
      assert ifs[i] == InterfaceImport(s, ts[i]);
      assert ImportsTypeOf(s, x, rts[i]);
    }
  }

  /** The `i`-th result type is a JSON-bodied response of the method, and the `i`-th
      body type is its type. */
  lemma ResultTypeAt(s: Settings, m: Method, i: nat)
    requires i < |ResultBodyTypes(s, m)|
    ensures |ResultTypes(m)| == |ResultBodyTypes(s, m)|
    ensures ResultTypes(m)[i] in m.responses && HasJsonBody(ResultTypes(m)[i])
    ensures ResultBodyTypes(s, m)[i] == JsonType(ResultTypes(m)[i], s.nilType)
  {
    var rts := ResultTypes(m);
    Text.FilterMembers(HasJsonBody, m.responses);
    assert rts[i] in rts;
  }

  lemma ResponseHasImports(s: Settings, m: Method, r: Response)
    requires r in m.responses && HasJsonBody(r)
    ensures ModelImport(s, JsonType(r, s.nilType)) in Text.Map(ModelImportOf(s), ResultBodyTypes(s, m))
    ensures InterfaceImport(s, JsonType(r, s.nilType)) in Text.Map(InterfaceImportOf(s), ResultBodyTypes(s, m))
  {
    var ts := ResultBodyTypes(s, m);
    var rts := ResultTypes(m);
    Text.FilterMembers(HasJsonBody, m.responses);
    var i :| 0 <= i < |rts| && rts[i] == r;
    assert Text.Map(ModelImportOf(s), ts)[i] == ModelImport(s, JsonType(r, s.nilType));
    assert Text.Map(InterfaceImportOf(s), ts)[i] == InterfaceImport(s, JsonType(r, s.nilType));
  }


  /** A class name is documented as a return type exactly when it is `JsonObject`
      or the interface class of a JSON-bodied response's type; the list is strictly
      increasing. */
  lemma ReturnTypesShape(s: Settings, m: Method)
    ensures "JsonObject" in ReturnTypes(s, m)
    ensures Text.NoDuplicates(ReturnTypes(s, m))
    ensures forall i, j :: 0 <= i < j < |ReturnTypes(s, m)| ==>
      Text.LexLe(ReturnTypes(s, m)[i], ReturnTypes(s, m)[j]) && ReturnTypes(s, m)[i] != ReturnTypes(s, m)[j]
    ensures forall x :: x in ReturnTypes(s, m) <==>
      x == "JsonObject" || exists r :: r in m.responses && HasJsonBody(r) && ReturnsTypeOf(s, x, r)
  {
    ReturnTypesOrdered(s, m);
    ReturnTypesMembers(s, m);
    ReturnTypeCandidatesMembers(s, m);
    assert "JsonObject" in ReturnTypeCandidates(s, m);
    forall x ensures x in ReturnTypes(s, m) <==>
      x == "JsonObject" || exists r :: r in m.responses && HasJsonBody(r) && ReturnsTypeOf(s, x, r)
    {
      assert x in ReturnTypes(s, m) <==> x in ReturnTypeCandidates(s, m);
    }
  }

  lemma ReturnTypesOrdered(s: Settings, m: Method)
    ensures Text.NoDuplicates(ReturnTypes(s, m))
    ensures forall i, j :: 0 <= i < j < |ReturnTypes(s, m)| ==>
      Text.LexLe(ReturnTypes(s, m)[i], ReturnTypes(s, m)[j]) && ReturnTypes(s, m)[i] != ReturnTypes(s, m)[j]
  {
    Text.SortDistinct(ReturnTypeCandidates(s, m));
  }

  lemma ReturnTypesMembers(s: Settings, m: Method)
    ensures forall x :: x in ReturnTypes(s, m) <==> x in ReturnTypeCandidates(s, m)
  {
    Text.SortDistinct(ReturnTypeCandidates(s, m));
  }

  lemma ReturnTypeCandidatesMembers(s: Settings, m: Method)
    ensures forall x :: x in ReturnTypeCandidates(s, m) <==>
      x == "JsonObject" || exists r :: r in m.responses && HasJsonBody(r) && ReturnsTypeOf(s, x, r)
  {
    var cs := Text.Map(ReturnTypeClass, ResultBodyTypes(s, m));
    assert ReturnTypeCandidates(s, m) == cs + ["JsonObject"];
    forall x | x in cs
      ensures exists r :: r in m.responses && HasJsonBody(r) && ReturnsTypeOf(s, x, r)
    {
      ReturnTypeHasResponse(s, m, x);
    }
    forall x, r | r in m.responses && HasJsonBody(r) && ReturnsTypeOf(s, x, r)
      ensures x in cs
    {
      ResponseHasReturnType(s, m, r);
    }
  }

  lemma ReturnTypeHasResponse(s: Settings, m: Method, x: string)
    requires x in Text.Map(ReturnTypeClass, ResultBodyTypes(s, m))
    ensures exists r :: r in m.responses && HasJsonBody(r) && ReturnsTypeOf(s, x, r)
  {
    var cs := Text.Map(ReturnTypeClass, ResultBodyTypes(s, m));
    var rts := ResultTypes(m);
    var i :| 0 <= i < |cs| && cs[i] == x;
    Text.FilterMembers(HasJsonBody, m.responses);
    assert rts[i] in rts;
  }

  lemma ResponseHasReturnType(s: Settings, m: Method, r: Response)
    requires r in m.responses && HasJsonBody(r)
    ensures ReturnTypeClass(JsonType(r, s.nilType)) in Text.Map(ReturnTypeClass, ResultBodyTypes(s, m))
  {
    var cs := Text.Map(ReturnTypeClass, ResultBodyTypes(s, m));
    var rts := ResultTypes(m);
    Text.FilterMembers(HasJsonBody, m.responses);
    var i :| 0 <= i < |rts| && rts[i] == r;
    assert cs[i] == ReturnTypeClass(JsonType(r, s.nilType));
  }



  // ---------------------------------------------------------------------------
  // The status-code switch of `mapFromResponse`
  // ---------------------------------------------------------------------------

  /** One `case`: a status code and the model class its response is mapped to. */
  datatype SwitchCase = SwitchCase(statusCode: int, resultClass: string)

  /** The case as written: from the response's first body, whatever its media type.
      Result types always have a body; the nil type stands in otherwise. */
  function FirstBodyCase(r: Response, nilType: PhpType): SwitchCase
  {
    var t := if r.bodies == [] then nilType else BodyReturnType(r.bodies[0], nilType);
    SwitchCase(r.statusCode, ReturnTypeModelClass(t))
  }

  function FirstBodyCaseOf(nilType: PhpType): Response -> SwitchCase
  {
    r => FirstBodyCase(r, nilType)
  }

  /** The switch as written: one case per result type. */
  function WrittenSwitchCases(s: Settings, m: Method): seq<SwitchCase>
  {
    Text.Map(FirstBodyCaseOf(s.nilType), ResultTypes(m))
  }

  /** The case taken from the first JSON body, whose classes are the ones imported. */
  function JsonBodyCase(r: Response, nilType: PhpType): SwitchCase
  {
    SwitchCase(r.statusCode, ReturnTypeModelClass(JsonType(r, nilType)))
  }

  function JsonBodyCaseOf(nilType: PhpType): Response -> SwitchCase
  {
    r => JsonBodyCase(r, nilType)
  }

  /** The switch with one case per result type, each naming the model class of that
      response's JSON body type. */
  function SwitchCases(s: Settings, m: Method): seq<SwitchCase>
  {
    Text.Map(JsonBodyCaseOf(s.nilType), ResultTypes(m))
  }

  /** A response whose first body is XML and whose second is JSON: the written case
      maps it to the model class of the XML type, while the imports and the
      documented return types are those of the JSON type. */
  lemma WrittenCaseMissesJsonType()
    ensures var foo := PhpType(Object("Models", "Foo"), false, "Foo", "Models\\Foo", false);
      var bar := PhpType(Object("Models", "Bar"), false, "Bar", "Models\\Bar", false);
      var nilType := PhpType(Nil, false, "", "", false);
      var r := Response(200, [Body(false, Some(foo)), Body(true, Some(bar))]);
      var s := Settings("Shared", "Base", (p: string) => p, (x: string) => x, nilType);
      var m := Method("Api", "ByKeyGet", [r], None);
      && WrittenSwitchCases(s, m) == [SwitchCase(200, "FooModel")]
      && SwitchCases(s, m) == [SwitchCase(200, "BarModel")]
      && ResultBodyTypes(s, m) == [bar]
  {
    var foo := PhpType(Object("Models", "Foo"), false, "Foo", "Models\\Foo", false);
    var bar := PhpType(Object("Models", "Bar"), false, "Bar", "Models\\Bar", false);
    var nilType := PhpType(Nil, false, "", "", false);
    var r := Response(200, [Body(false, Some(foo)), Body(true, Some(bar))]);
    var s := Settings("Shared", "Base", (p: string) => p, (x: string) => x, nilType);
    var m := Method("Api", "ByKeyGet", [r], None);
    assert r.bodies[1..] == [Body(true, Some(bar))];
    Text.FilterCons(IsJson, Body(true, Some(bar)), []);
    Text.FilterCons(IsJson, Body(false, Some(foo)), r.bodies[1..]);
    assert [Body(false, Some(foo))] + r.bodies[1..] == r.bodies;
    assert Text.Filter(IsJson, r.bodies) == [Body(true, Some(bar))];
    assert HasJsonBody(r);
    Text.FilterCons(HasJsonBody, r, []);
    assert [r] + [] == [r];
    assert ResultTypes(m) == [r];
    assert JsonType(r, nilType) == bar;
    assert FirstBodyCase(r, nilType) == SwitchCase(200, "FooModel");
    assert JsonBodyCase(r, nilType) == SwitchCase(200, "BarModel");
  }

  /** One case per result type, in order, each with the response's status code and
      the model class of a documented return type. */
  lemma SwitchCasesDocumented(s: Settings, m: Method)
    ensures var cases := SwitchCases(s, m);
      && |cases| == |ResultTypes(m)|
      && forall i :: 0 <= i < |cases| ==>
           && cases[i].statusCode == ResultTypes(m)[i].statusCode
           && exists c :: c in ReturnTypes(s, m) && cases[i].resultClass == c + "Model"
  {
    var cases := SwitchCases(s, m);
    var rts := ResultTypes(m);
    ReturnTypesShape(s, m);
    Text.FilterMembers(HasJsonBody, m.responses);
    forall i | 0 <= i < |cases|
      ensures exists c :: c in ReturnTypes(s, m) && cases[i].resultClass == c + "Model"
    {
      var t := JsonType(rts[i], s.nilType);
      ModelClassesAppendModel(s, t);
      assert rts[i] in rts;
      assert ReturnTypeClass(t) in ReturnTypes(s, m);
    }
  }

  // ---------------------------------------------------------------------------
  // The request body
  // ---------------------------------------------------------------------------

  const StreamBody := "!is_null($body) ? $body->getStream() : null"
  const JsonBody := "!is_null($body) ? json_encode($body) : null"

  /** How the constructor takes and sends the body. */
  datatype BodyHandling = BodyHandling(
    /** The `use` line for `UploadedFileInterface`, or the empty line. */
    uploadImport: string,
    /** The `@param` type of `$body`. */
    docType: string,
    /** The type hint before `$body`. */
    paramType: string,
    /** Whether `ensureContentType()` copies the upload's media type to the headers. */
    setsContentType: bool,
    /** The expression handed to the parent constructor. */
    serialization: string)

  /** `firstBody()?.type is FileType`. */
  predicate FileUpload(m: Method)
  {
    m.firstBody.Some? && m.firstBody.value.bodyType.Some? && m.firstBody.value.bodyType.value.isFile
  }

  /** `Body.serialize()`, and the default when the method has no body. */
  function Serialization(b: Option<Body>): string
  {
    match b
    case Some(body) => if body.bodyType.Some? && body.bodyType.value.isFile then StreamBody else JsonBody
    case None => JsonBody
  }

  /** `Body.ensureContentType()` is not empty, and the default when the method has no body. */
  predicate SetsContentType(b: Option<Body>)
  {
    match b
    case Some(body) => body.bodyType.Some? && body.bodyType.value.isFile
    case None => false
  }

  function RenderBodyHandling(s: Settings, m: Method): BodyHandling
  {
    BodyHandling(
      if FileUpload(m) then s.escape("use Psr\\Http\\Message\\UploadedFileInterface;") else "",
      if FileUpload(m) then "?UploadedFileInterface " else "?object",
      if FileUpload(m) then "UploadedFileInterface " else "",
      SetsContentType(m.firstBody),
      Serialization(m.firstBody))
  }

  /** A method whose first body is a file streams it, takes an
      `UploadedFileInterface` and copies its media type to the headers; every other
      method, with or without a body, JSON-encodes it and does none of that. */
  lemma BodyHandlingAgrees(s: Settings, m: Method)
    ensures var h := RenderBodyHandling(s, m);
      && (h.serialization == StreamBody <==> FileUpload(m))
      && (h.serialization == JsonBody <==> !FileUpload(m))
      && (h.setsContentType <==> FileUpload(m))
      && (h.paramType == "UploadedFileInterface " <==> FileUpload(m))
      && (h.paramType == "" <==> !FileUpload(m))
  {
    assert StreamBody != JsonBody by { assert StreamBody[18] != JsonBody[18]; }
  }

  // ---------------------------------------------------------------------------
  // Where the file goes
  // ---------------------------------------------------------------------------

  function BasePrefix(s: Settings): string
  {
    s.namespaceOf(s.basePackagePrefix) + "\\"
  }

  /** `relativeTypeNamespace`: the request package's namespace without the base
      prefix, with `/` for `\`, under `Resource`. */
  function RelativeTypeNamespace(s: Settings, m: Method): string
  {
    Text.ReplaceChar(Text.ReplaceAll(s.namespaceOf(m.package), BasePrefix(s), ""), '\\', '/') + "/" + ResourcePackage
  }

  /** `relativePath`. */
  function RelativePath(s: Settings, m: Method): string
  {
    "src/" + RelativeTypeNamespace(s, m) + "/" + m.requestName + ".php"
  }

  /** The file lies under `src/`, in a `Resource` directory, named after the request,
      and no namespace separator is left in its directories. */
  lemma RelativePathShape(s: Settings, m: Method)
    ensures Text.StartsWith(RelativePath(s, m), "src/")
    ensures Text.EndsWith(RelativePath(s, m), "/Resource/" + m.requestName + ".php")
    ensures '\\' !in RelativeTypeNamespace(s, m)
  {
    var dirs := Text.ReplaceChar(Text.ReplaceAll(s.namespaceOf(m.package), BasePrefix(s), ""), '\\', '/');
    NamespaceDirectories(s, m);
    Text.AppendEnds("src/", RelativeTypeNamespace(s, m) + "/" + m.requestName + ".php");
    assert RelativePath(s, m) == "src/" + dirs + ("/Resource/" + m.requestName + ".php");
    Text.AppendEnds("src/" + dirs, "/Resource/" + m.requestName + ".php");
  }

  lemma NamespaceDirectories(s: Settings, m: Method)
    ensures RelativeTypeNamespace(s, m) ==
      Text.ReplaceChar(Text.ReplaceAll(s.namespaceOf(m.package), BasePrefix(s), ""), '\\', '/') + "/Resource"
    ensures '\\' !in RelativeTypeNamespace(s, m)
  {
    var stripped := Text.ReplaceAll(s.namespaceOf(m.package), BasePrefix(s), "");
    Text.ReplaceCharRemoves(stripped, '\\', '/');
    assert '\\' !in "/Resource";
  }


  /** A package inside the base package loses the base prefix. */
  lemma InsideBasePackage(s: Settings, m: Method, rest: string)
    requires s.namespaceOf(m.package) == BasePrefix(s) + rest
    requires !Text.Occurs(rest, BasePrefix(s))
    ensures RelativeTypeNamespace(s, m) == Text.ReplaceChar(rest, '\\', '/') + "/Resource"
  {
    Text.ReplaceAllLeading(BasePrefix(s), rest, "");
    Text.ReplaceAllAbsent(rest, BasePrefix(s), "");
  }

  /** A package outside the base package keeps its whole namespace. */
  lemma OutsideBasePackage(s: Settings, m: Method)
    requires !Text.Occurs(s.namespaceOf(m.package), BasePrefix(s))
    ensures RelativeTypeNamespace(s, m) == Text.ReplaceChar(s.namespaceOf(m.package), '\\', '/') + "/Resource"
  {
    Text.ReplaceAllAbsent(s.namespaceOf(m.package), BasePrefix(s), "");
  }

  // ---------------------------------------------------------------------------
  // The request class
  // ---------------------------------------------------------------------------

  /** What `render(method)` decides, before the text is laid out. */
  datatype RequestClass = RequestClass(
    relativePath: string,
    imports: seq<string>,
    returnTypes: seq<string>,
    cases: seq<SwitchCase>,
    body: BodyHandling)

  /** The class as written: its switch takes each case from the response's first
      body (see `WrittenSwitchCases`). */
  function Render(s: Settings, m: Method): RequestClass
  {
    RequestClass(RelativePath(s, m), ImportTypes(s, m), ReturnTypes(s, m), WrittenSwitchCases(s, m), RenderBodyHandling(s, m))
  }

  /** The `i`-th written case belongs to the `i`-th result type, a JSON-bodied
      response of the method: it carries that response's status code and the model
      class of the type of its first body, whatever that body's media type. */
  lemma WrittenCaseAt(s: Settings, m: Method, i: nat)
    requires i < |WrittenSwitchCases(s, m)|
    ensures |WrittenSwitchCases(s, m)| == |ResultTypes(m)|
    ensures ResultTypes(m)[i] in m.responses && HasJsonBody(ResultTypes(m)[i])
    ensures ResultTypes(m)[i].bodies != []
    ensures WrittenSwitchCases(s, m)[i] ==
      SwitchCase(ResultTypes(m)[i].statusCode, ReturnTypeModelClass(BodyReturnType(ResultTypes(m)[i].bodies[0], s.nilType)))
  {
    var rts := ResultTypes(m);
    Text.FilterMembers(HasJsonBody, m.responses);
    assert rts[i] in rts;
  }

  /** The rendered class: its file lies under `src/` in the `Resource` directory
      of its package, named after the request; its `use` lines hold the two fixed
      `JsonObject` imports and are strictly sorted; its documented return types hold
      `JsonObject` and are strictly sorted; its switch has one case per result type;
      and it streams, types and labels an uploaded file exactly when the first body
      is a file. */
  lemma RenderShape(s: Settings, m: Method)
    ensures var c := Render(s, m);
      && Text.StartsWith(c.relativePath, "src/")
      && Text.EndsWith(c.relativePath, "/Resource/" + m.requestName + ".php")
    ensures var c := Render(s, m);
      && JsonObjectImport(s) in c.imports && JsonObjectModelImport(s) in c.imports
      && forall i, j :: 0 <= i < j < |c.imports| ==> Text.LexLe(c.imports[i], c.imports[j]) && c.imports[i] != c.imports[j]
    ensures var c := Render(s, m);
      && "JsonObject" in c.returnTypes
      && forall i, j :: 0 <= i < j < |c.returnTypes| ==>
           Text.LexLe(c.returnTypes[i], c.returnTypes[j]) && c.returnTypes[i] != c.returnTypes[j]
    ensures var c := Render(s, m);
      && |c.cases| == |ResultTypes(m)|
      && forall i :: 0 <= i < |c.cases| ==> c.cases[i].statusCode == ResultTypes(m)[i].statusCode
    ensures var c := Render(s, m);
      && (c.body.serialization == StreamBody <==> FileUpload(m))
      && (c.body.setsContentType <==> FileUpload(m))
      && (c.body.paramType == "UploadedFileInterface " <==> FileUpload(m))
  {
    RelativePathShape(s, m);
    ImportTypesShape(s, m);
    ReturnTypesShape(s, m);
    BodyHandlingAgrees(s, m);
    forall i | 0 <= i < |WrittenSwitchCases(s, m)|
      ensures WrittenSwitchCases(s, m)[i].statusCode == ResultTypes(m)[i].statusCode
    {
      WrittenCaseAt(s, m, i);
    }
  }

  /** Only responses with a JSON body are mapped: a method with none gets the default
      case alone, documents `JsonObject` alone and imports the two fixed lines. */
  lemma NoJsonResponses(s: Settings, m: Method)
    requires forall i :: 0 <= i < |m.responses| ==> !HasJsonBody(m.responses[i])
    ensures SwitchCases(s, m) == [] && WrittenSwitchCases(s, m) == []
    ensures ReturnTypes(s, m) == ["JsonObject"]
    ensures forall x :: x in ImportTypes(s, m) <==> x == JsonObjectImport(s) || x == JsonObjectModelImport(s)
  {
    Text.FilterNone(HasJsonBody, m.responses);
    NoJsonImports(s, m);
    var ms := Text.Map(ReturnTypeClass, ResultBodyTypes(s, m));
    assert ms == [];
    assert ms + ["JsonObject"] == ["JsonObject"];
    assert Text.Distinct(["JsonObject"]) == ["JsonObject"];
    assert Text.SortBy(["JsonObject"], Text.Identity) == ["JsonObject"];
  }

  lemma NoJsonImports(s: Settings, m: Method)
    requires forall i :: 0 <= i < |m.responses| ==> !HasJsonBody(m.responses[i])
    ensures forall x :: x in ImportTypes(s, m) <==> x == JsonObjectImport(s) || x == JsonObjectModelImport(s)
  {
    ImportTypesShape(s, m);
    forall r | r in m.responses ensures !HasJsonBody(r) {
      var i :| 0 <= i < |m.responses| && m.responses[i] == r;
    }
  }
}
