/** `RamlObjectTypeRenderer`: one RAML data-type document per object type. The
    model covers which properties are listed, the example list and its include
    paths, what each property block holds, the header fields and where the file
    goes. */
module RamlDoc {
  import opened Files
  import Text

  /** A property: its name, `type.renderType()`, the type's default value (when it
      declares one) and `required`. */
  datatype RamlProperty = RamlProperty(name: string, renderedType: string, default: Option<string>, required: bool)

  datatype SubTypeRef = SubTypeRef(name: string, isInline: bool)

  /** An example: its name (empty when the API leaves it unnamed) and `strict`. */
  datatype Example = Example(name: string, strict: Option<bool>)

  /** An object type as the renderer reads it. `simpleClassName` and `packageDir`
      come from the type provider and `packageDir(modelPackageName)`;
      `discriminatorProperty` is what `discriminatorProperty()` finds. */
  datatype ObjectType = ObjectType(
    simpleClassName: string,
    packageDir: string,
    displayName: Option<string>,
    superTypeName: Option<string>,
    discriminator: Option<string>,
    discriminatorProperty: Option<RamlProperty>,
    discriminatorValue: Option<string>,
    subTypes: seq<SubTypeRef>,
    examples: seq<Example>,
    postmanAnnotation: bool,
    description: Option<string>,
    properties: seq<RamlProperty>,
    allProperties: seq<RamlProperty>)

  // ---------------------------------------------------------------------------
  // Blank and trimmed text
  // ---------------------------------------------------------------------------

  /** `Char.isWhitespace()` on the ASCII range. */
  predicate IsWhitespace(c: char)
  {
    (9 <= c as int <= 13) || (28 <= c as int <= 32)
  }

  predicate IsBlank(s: string)
  {
    forall i :: 0 <= i < |s| ==> IsWhitespace(s[i])
  }

  /** `isNullOrBlank()`. */
  predicate IsNullOrBlank(s: Option<string>)
  {
    s.None? || IsBlank(s.value)
  }

  /** The first index at or after `i` that holds no whitespace, or `|s|`. */
  function SkipLeading(s: string, i: nat): (k: nat)
    requires i <= |s|
    ensures i <= k <= |s|
    ensures k < |s| ==> !IsWhitespace(s[k])
    ensures forall j :: i <= j < k ==> IsWhitespace(s[j])
    decreases |s| - i
  {
    if i < |s| && IsWhitespace(s[i]) then SkipLeading(s, i + 1) else i
  }

  /** The end of `s[..j]` once its trailing whitespace is dropped. */
  function SkipTrailing(s: string, j: nat): (k: nat)
    requires j <= |s|
    ensures k <= j
    ensures k > 0 ==> !IsWhitespace(s[k - 1])
    ensures forall m :: k <= m < j ==> IsWhitespace(s[m])
  {
    if j > 0 && IsWhitespace(s[j - 1]) then SkipTrailing(s, j - 1) else j
  }

  function TrimStart(s: string): string
  {
    s[SkipLeading(s, 0)..]
  }

  function TrimEnd(s: string): string
  {
    s[..SkipTrailing(s, |s|)]
  }

  /** `trim()`. */
  function Trim(s: string): string
  {
    TrimEnd(TrimStart(s))
  }

  /** Trimming keeps the slice `s[i..j]` of the text, drops only whitespace before
      and after it, and that slice neither starts nor ends with whitespace. */
  lemma TrimShape(s: string)
    ensures var i := SkipLeading(s, 0);
      var j := i + |Trim(s)|;
      && j <= |s|
      && Trim(s) == s[i..j]
      && IsBlank(s[..i]) && IsBlank(s[j..])
      && (Trim(s) == [] || (!IsWhitespace(Trim(s)[0]) && !IsWhitespace(Trim(s)[|Trim(s)| - 1])))
  {
    var i := SkipLeading(s, 0);
    var a := s[i..];
    var k := SkipTrailing(a, |a|);
    assert Trim(s) == a[..k];
    KeptSlice(s, i, k);
  }

  /** What trimming keeps and drops, once the two cut points `i` and `i + k` are known. */
  lemma KeptSlice(s: string, i: nat, k: nat)
    requires i <= |s| && k <= |s| - i
    requires forall m :: 0 <= m < i ==> IsWhitespace(s[m])
    requires i < |s| ==> !IsWhitespace(s[i])
    requires forall m :: k <= m < |s| - i ==> IsWhitespace(s[i..][m])
    requires k > 0 ==> !IsWhitespace(s[i..][k - 1])
    ensures s[i..][..k] == s[i..i + k]
    ensures IsBlank(s[..i]) && IsBlank(s[i + k..])
    ensures k == 0 || (!IsWhitespace(s[i..][..k][0]) && !IsWhitespace(s[i..][..k][k - 1]))
  {
    forall m | 0 <= m < i ensures IsWhitespace(s[..i][m]) {
      assert s[..i][m] == s[m];
    }
    var after := s[i + k..];
    forall m | 0 <= m < |after| ensures IsWhitespace(after[m]) {
      assert after[m] == s[i..][k + m];
    }
  }

  /** Trimming leaves nothing exactly when the text is blank. */
  lemma TrimBlank(s: string)
    ensures Trim(s) == [] <==> IsBlank(s)
  {
    TrimShape(s);
    var i := SkipLeading(s, 0);
    var j := i + |Trim(s)|;
    assert s == s[..i] + s[i..j] + s[j..];
    BlankConcat(s[..i] + s[i..j], s[j..]);
    BlankConcat(s[..i], s[i..j]);
  }

  /** Two texts together are blank exactly when each is. */
  lemma BlankConcat(a: string, b: string)
    ensures IsBlank(a + b) <==> IsBlank(a) && IsBlank(b)
  {
    if IsBlank(a + b) {
      forall m | 0 <= m < |a| ensures IsWhitespace(a[m]) {
        assert a[m] == (a + b)[m];
      }
      forall m | 0 <= m < |b| ensures IsWhitespace(b[m]) {
        assert b[m] == (a + b)[|a| + m];
      }
    }
  }

  // ---------------------------------------------------------------------------
  // Which properties are listed
  // ---------------------------------------------------------------------------

  /** `property.name == type.discriminatorProperty()?.name`. */
  predicate NamesDiscriminator(t: ObjectType, name: string)
  {
    t.discriminatorProperty.Some? && t.discriminatorProperty.value.name == name
  }

  /** Some own property already carries the discriminator's name. */
  predicate OwnsDiscriminator(t: ObjectType)
  {
    exists i :: 0 <= i < |t.properties| && NamesDiscriminator(t, t.properties[i].name)
  }

  /** A subtype with a discriminator value lists its own properties, led by the
      inherited discriminator property unless one of them has its name; any other
      type lists all its properties. */
  function RenderedProperties(t: ObjectType): seq<RamlProperty>
  {
    if t.discriminatorValue.Some? then
      if OwnsDiscriminator(t) then t.properties
      else (match t.discriminatorProperty
            case Some(d) => [d]
            case None => []) + t.properties
    else t.allProperties
  }

  /** Without a discriminator value all properties are listed. With one, the own
      properties are listed last and in order, preceded by the discriminator
      property exactly when the type has one that no own property names. */
  lemma RenderedPropertiesShape(t: ObjectType)
    ensures t.discriminatorValue.None? ==> RenderedProperties(t) == t.allProperties
    ensures t.discriminatorValue.Some? ==>
      var ps := RenderedProperties(t);
      && |ps| >= |t.properties|
      && ps[|ps| - |t.properties|..] == t.properties
      && (|ps| > |t.properties| <==> t.discriminatorProperty.Some? && !OwnsDiscriminator(t))
      && (|ps| > |t.properties| ==> ps[0] == t.discriminatorProperty.value)
  {
    var ps := RenderedProperties(t);
    if t.discriminatorValue.Some? {
      if !OwnsDiscriminator(t) && t.discriminatorProperty.Some? {
        assert ps == [t.discriminatorProperty.value] + t.properties;
      } else {
        assert ps == t.properties;
      }
    }
  }

  /** With a discriminator value, the discriminator property is always listed:
      inherited or as an own property of the same name. */
  lemma DiscriminatorListed(t: ObjectType)
    requires t.discriminatorValue.Some? && t.discriminatorProperty.Some?
    ensures exists i :: 0 <= i < |RenderedProperties(t)| && NamesDiscriminator(t, RenderedProperties(t)[i].name)
  {
    var ps := RenderedProperties(t);
    if OwnsDiscriminator(t) {
      var i :| 0 <= i < |t.properties| && NamesDiscriminator(t, t.properties[i].name);
      assert ps[i] == t.properties[i];
    } else {
      assert ps[0] == t.discriminatorProperty.value;
    }
  }

  // ---------------------------------------------------------------------------
  // Examples
  // ---------------------------------------------------------------------------

  /** A RAML `BooleanInstance`, created empty and then given its value. */
  class BooleanInstance {
    var value: bool

    constructor ()
      ensures !value
    {
      value := false;
    }
  }

  /** A RAML `Example` object as `TypesFactory.createExample()` makes it: unnamed
      and without `strict`. */
  class ExampleObject {
    var name: string
    var strict: BooleanInstance?

    constructor ()
      ensures name == [] && strict == null
    {
      name := [];
      strict := null;
    }

    /** The example as a value. */
    function Snapshot(): Example
      reads this, strict
    {
      Example(name, if strict == null then None else Some(strict.value))
    }
  }

  /** The example the `postman-example` annotation adds. */
  const Postman := Example("postman", Some(true))

  /** Builds the `postman` example: a fresh example object named `postman` whose
      `strict` is a fresh boolean instance holding `true`. */
  method NewPostmanExample() returns (example: ExampleObject)
    ensures fresh(example) && fresh(example.strict)
    ensures example.Snapshot() == Postman
  {
    example := new ExampleObject();
    var boolInstance := new BooleanInstance();
    boolInstance.value := true;
    example.name := "postman";
    example.strict := boolInstance;
  }

  function ExampleName(e: Example): string
  {
    e.name
  }

  /** `examples`: the type's examples and, when annotated, the `postman` one, sorted
      by name. */
  function SortedExamples(t: ObjectType): seq<Example>
  {
    Text.SortBy(t.examples + (if t.postmanAnnotation then [Postman] else []), ExampleName)
  }

  /** The example list as `render` builds it. */
  method BuildExamples(t: ObjectType) returns (examples: seq<Example>)
    ensures examples == SortedExamples(t)
  {
    var extra: seq<Example> := [];
    if t.postmanAnnotation {
      var postman := NewPostmanExample();
      extra := [postman.Snapshot()];
    }
    examples := Text.SortBy(t.examples + extra, ExampleName);
  }

  /** The examples are in name order, are the type's own examples plus `postman`
      when the annotation is present, and nothing else. */
  lemma SortedExamplesShape(t: ObjectType)
    ensures Text.SortedBy(SortedExamples(t), ExampleName)
    ensures multiset(SortedExamples(t)) == multiset(t.examples) + (if t.postmanAnnotation then multiset{Postman} else multiset{})
    ensures |SortedExamples(t)| == |t.examples| + (if t.postmanAnnotation then 1 else 0)
    ensures t.postmanAnnotation ==> Postman in SortedExamples(t)
  {
    var all := t.examples + (if t.postmanAnnotation then [Postman] else []);
    Text.SortBySorted(all, ExampleName);
    assert multiset(all) == multiset(t.examples) + multiset(if t.postmanAnnotation then [Postman] else []);
    if t.postmanAnnotation {
      assert Postman in multiset(SortedExamples(t));
    }
  }

  /** One `name: !include path` line of the examples block. */
  datatype ExampleInclude = ExampleInclude(entryName: string, path: string)

  /** An unnamed example is called `default`. */
  function ExampleLabel(e: Example): string
  {
    if e.name != [] then e.name else "default"
  }

  /** The example's file, relative to the examples folder: the type's package
      directory, its class name, a dash, the label and `.json`. */
  function ExampleFile(t: ObjectType, entryName: string): string
  {
    t.packageDir + t.simpleClassName + "-" + entryName + ".json"
  }

  /** `renderExample`: the example file lies under `examples/`, mirroring the type's
      package directory, one level further up when there is one. */
  function RenderExample(t: ObjectType, e: Example): ExampleInclude
  {
    var up := if t.packageDir != [] then "../.." else "..";
    ExampleInclude(ExampleLabel(e), up + "/examples/" + ExampleFile(t, ExampleLabel(e)))
  }

  function RenderExampleOf(t: ObjectType): Example -> ExampleInclude
  {
    e => RenderExample(t, e)
  }

  /** An include climbs two directories exactly when the type has a package
      directory, one otherwise; it names the type's example file for the example's
      label, and the label is never empty. */
  lemma ExampleIncludeShape(t: ObjectType, e: Example)
    ensures RenderExample(t, e).entryName != []
    ensures RenderExample(t, e).entryName == "default" <==> e.name == [] || e.name == "default"
    ensures Text.StartsWith(RenderExample(t, e).path, "../../examples/") <==> t.packageDir != []
    ensures Text.StartsWith(RenderExample(t, e).path, "../examples/") <==> t.packageDir == []
    ensures Text.EndsWith(RenderExample(t, e).path, "/examples/" + ExampleFile(t, RenderExample(t, e).entryName))
  {
    ExampleLabelShape(e);
    var tail := "/examples/" + ExampleFile(t, ExampleLabel(e));
    var up := if t.packageDir != [] then "../.." else "..";
    assert RenderExample(t, e).path == up + tail;
    Text.AppendEnds("/examples/", ExampleFile(t, ExampleLabel(e)));
    UpPrefix(tail);
    Text.AppendEnds(up, tail);
  }

  /** The label is never empty, and it is `default` exactly for an unnamed example
      or one named `default`. */
  lemma ExampleLabelShape(e: Example)
    ensures ExampleLabel(e) != []
    ensures ExampleLabel(e) == "default" <==> e.name == [] || e.name == "default"
  {
  }

  /** Two levels up and one level up lead into the examples folder, and neither
      prefix is mistaken for the other. */
  lemma UpPrefix(tail: string)
    requires Text.StartsWith(tail, "/examples/")
    ensures Text.StartsWith("../.." + tail, "../../examples/") && !Text.StartsWith("../.." + tail, "../examples/")
    ensures Text.StartsWith(".." + tail, "../examples/") && !Text.StartsWith(".." + tail, "../../examples/")
  {
    assert ("../.." + tail)[..15] == "../.." + tail[..10];
    assert ("../.." + tail)[3] != "../examples/"[3];
    assert (".." + tail)[..12] == ".." + tail[..10];
    assert |".." + tail| < 15 || (".." + tail)[3] != "../../examples/"[3];
  }


  // ---------------------------------------------------------------------------
  // Property blocks
  // ---------------------------------------------------------------------------

  /** One property block: its name, type, the `enum` pinning the discriminator
      value, the `default` and `required`. */
  datatype PropertyBlock = PropertyBlock(
    name: string,
    renderedType: string,
    enumValue: Option<string>,
    default: Option<string>,
    required: bool)

  /** `renderProperty`. */
  function RenderProperty(t: ObjectType, p: RamlProperty): PropertyBlock
  {
    PropertyBlock(
      p.name,
      p.renderedType,
      if NamesDiscriminator(t, p.name) && !IsNullOrBlank(t.discriminatorValue) then t.discriminatorValue else None,
      p.default,
      p.required)
  }

  function RenderPropertyOf(t: ObjectType): RamlProperty -> PropertyBlock
  {
    p => RenderProperty(t, p)
  }

  // ---------------------------------------------------------------------------
  // The document
  // ---------------------------------------------------------------------------

  /** The fields of the data-type document, in order. */
  datatype TypeDocument = TypeDocument(
    displayName: string,
    typeName: string,
    discriminator: Option<string>,
    discriminatorValue: Option<string>,
    oneOf: seq<string>,
    examples: seq<ExampleInclude>,
    description: Option<string>,
    properties: seq<PropertyBlock>)

  datatype RamlFile = RamlFile(relativePath: string, document: TypeDocument)

  predicate IsNamedSubType(s: SubTypeRef)
  {
    !s.isInline
  }

  function SubTypeName(s: SubTypeRef): string
  {
    s.name
  }

  /** The `(oneOf)` entries: the named subtypes, sorted by name. */
  function OneOf(t: ObjectType): seq<string>
  {
    Text.Map(SubTypeName, Text.SortBy(Text.Filter(IsNamedSubType, t.subTypes), SubTypeName))
  }

  /** `types/` + the package directory + the class name + `.raml`. */
  function OutputPath(t: ObjectType): string
  {
    "types/" + t.packageDir + t.simpleClassName + ".raml"
  }

  /** The document for a given example list. */
  function Document(t: ObjectType, examples: seq<Example>): TypeDocument
  {
    TypeDocument(
      t.displayName.GetOr(t.simpleClassName),
      t.superTypeName.GetOr("object"),
      if t.discriminator.Some? then Some(if t.discriminatorProperty.Some? then t.discriminatorProperty.value.name else "null") else None,
      if IsNullOrBlank(t.discriminatorValue) then None else t.discriminatorValue,
      OneOf(t),
      Text.Map(RenderExampleOf(t), examples),
      if t.description.Some? then Some(Trim(t.description.value)) else None,
      Text.Map(RenderPropertyOf(t), RenderedProperties(t)))
  }

  function RamlFileOf(t: ObjectType): RamlFile
  {
    RamlFile(OutputPath(t), Document(t, SortedExamples(t)))
  }

  /** `render(type)`. */
  method Render(t: ObjectType) returns (f: RamlFile)
    ensures f == RamlFileOf(t)
  {
    var examples := BuildExamples(t);
    f := RamlFile(OutputPath(t), Document(t, examples));
  }

  /** The `(oneOf)` list holds the names of the named subtypes, each as often as it
      occurs, in name order; it is empty exactly when every subtype is inline. */
  lemma OneOfShape(t: ObjectType)
    ensures forall i, j :: 0 <= i < j < |OneOf(t)| ==> Text.LexLe(OneOf(t)[i], OneOf(t)[j])
    ensures multiset(OneOf(t)) == multiset(Text.Map(SubTypeName, Text.Filter(IsNamedSubType, t.subTypes)))
    ensures OneOf(t) == [] <==> forall i :: 0 <= i < |t.subTypes| ==> t.subTypes[i].isInline
  {
    OneOfOrdered(t);
    OneOfCounts(t);
    OneOfEmpty(t);
  }

  lemma OneOfOrdered(t: ObjectType)
    ensures forall i, j :: 0 <= i < j < |OneOf(t)| ==> Text.LexLe(OneOf(t)[i], OneOf(t)[j])
  {
    var sorted := Text.SortBy(Text.Filter(IsNamedSubType, t.subTypes), SubTypeName);
    Text.SortBySorted(Text.Filter(IsNamedSubType, t.subTypes), SubTypeName);
    forall i, j | 0 <= i < j < |OneOf(t)| ensures Text.LexLe(OneOf(t)[i], OneOf(t)[j]) {
      assert OneOf(t)[i] == SubTypeName(sorted[i]) && OneOf(t)[j] == SubTypeName(sorted[j]);
    }
  }

  lemma OneOfCounts(t: ObjectType)
    ensures multiset(OneOf(t)) == multiset(Text.Map(SubTypeName, Text.Filter(IsNamedSubType, t.subTypes)))
  {
    var named := Text.Filter(IsNamedSubType, t.subTypes);
    Text.MapPreservesMultiset(SubTypeName, Text.SortBy(named, SubTypeName), named);
  }

  lemma OneOfEmpty(t: ObjectType)
    ensures OneOf(t) == [] <==> forall i :: 0 <= i < |t.subTypes| ==> t.subTypes[i].isInline
  {
    var named := Text.Filter(IsNamedSubType, t.subTypes);
    assert |OneOf(t)| == |named|;
    if exists i :: 0 <= i < |t.subTypes| && !t.subTypes[i].isInline {
      var i :| 0 <= i < |t.subTypes| && !t.subTypes[i].isInline;
      Text.FilterMembers(IsNamedSubType, t.subTypes);
      assert t.subTypes[i] in named;
    } else {
      Text.FilterNone(IsNamedSubType, t.subTypes);
    }
  }

  /** The file is `types/<package dir><class>.raml`; the display name falls back to
      the class name and the supertype to `object`; the discriminator value is shown
      only when it is not blank, and a property pins it with an `enum` exactly when
      it is the discriminator property; every listed property keeps its `required`
      and `default`. */
  lemma RamlFileShape(t: ObjectType)
    ensures var f := RamlFileOf(t);
      && Text.StartsWith(f.relativePath, "types/" + t.packageDir)
      && Text.EndsWith(f.relativePath, t.simpleClassName + ".raml")
      && (t.displayName.None? ==> f.document.displayName == t.simpleClassName)
      && (t.superTypeName.None? ==> f.document.typeName == "object")
      && (f.document.discriminator.Some? <==> t.discriminator.Some?)
      && (f.document.discriminatorValue.Some? <==> t.discriminatorValue.Some? && !IsBlank(t.discriminatorValue.value))
      && |f.document.examples| == |SortedExamples(t)|
      && |f.document.properties| == |RenderedProperties(t)|
      && forall i :: 0 <= i < |f.document.properties| ==>
           var p := RenderedProperties(t)[i];
           var b := f.document.properties[i];
           && b.name == p.name
           && b.required == p.required
           && b.default == p.default
           && (b.enumValue.Some? <==> NamesDiscriminator(t, p.name) && f.document.discriminatorValue.Some?)
           && (b.enumValue.Some? ==> b.enumValue == f.document.discriminatorValue)
  {
    var f := RamlFileOf(t);
    Text.AppendEnds("types/" + t.packageDir, t.simpleClassName + ".raml");
    assert f.relativePath == ("types/" + t.packageDir) + (t.simpleClassName + ".raml");
  }
}
