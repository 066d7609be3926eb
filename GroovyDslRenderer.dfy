/** `GroovyDslRenderer`: for each object type, a Java interface `<Class>Dsl` in the
    type's package with one default factory method that builds an instance through
    a Groovy closure. */
module GroovyDsl {
  import opened Files
  import Text

  /** An object type: its package and simple class name as the type switch gives
      them, and its RAML name. */
  datatype DslType = DslType(package: string, simpleClassName: string, name: string)

  /** `decapitalize()` on ASCII letters: an upper-case first letter is lowered. */
  function Decapitalize(s: string): string
  {
    if s != [] && Text.IsUpperAscii(s[0]) then [(s[0] as int + 32) as char] + s[1..] else s
  }

  /** Only the first character may change, and after the change it is not an
      upper-case letter; a name that does not start with one is kept. */
  lemma DecapitalizeShape(s: string)
    ensures |Decapitalize(s)| == |s|
    ensures s != [] ==> Decapitalize(s)[1..] == s[1..] && !Text.IsUpperAscii(Decapitalize(s)[0])
    ensures s != [] && Text.IsUpperAscii(s[0]) ==> Decapitalize(s)[0] as int == s[0] as int + 32
    ensures s == [] || !Text.IsUpperAscii(s[0]) ==> Decapitalize(s) == s
  {
  }

  /** The name of the generated interface. */
  function InterfaceName(v: DslType): string
  {
    v.simpleClassName + "Dsl"
  }

  /** The lines before the interface declaration: package, imports and the class
      comment, then the generated-code annotation. */
  function HeaderLines(v: DslType, generatedAnnotation: string): seq<string>
  {
    [ "package " + v.package + ";",
      "",
      "import " + v.package + "." + v.simpleClassName + ";",
      "import groovy.lang.Closure;",
      "import groovy.lang.DelegatesTo;",
      "import javax.annotation.Generated;",
      "",
      "/**",
      " * Provides a Groovy DSL to build instances of this type.",
      " */",
      generatedAnnotation ]
  }

  function InterfaceLine(v: DslType): string
  {
    "public interface " + InterfaceName(v) + " {"
  }

  /** The doc comment of the factory method. */
  const FactoryDoc: seq<string> :=
    [ "  /**",
      "   * Create a new instance of this type.",
      "   *",
      "   * @param closure the closure to initialize the fields of the new instance",
      "   * @return new instance intialized via the given closure",
      "   */" ]

  /** The factory method's signature, named after the decapitalized type name. */
  function FactoryLine(v: DslType): string
  {
    var cls := v.simpleClassName;
    "  default " + cls + " " + Decapitalize(v.name) + "(@DelegatesTo(" + cls + ".class) final Closure<" + cls + "> closure) {"
  }

  /** The factory method's body and the closing braces. */
  function FactoryBody(v: DslType): seq<string>
  {
    var cls := v.simpleClassName;
    var factory := Decapitalize(v.name);
    [ "    final " + cls + " " + factory + " = new " + cls + "();",
      "    closure.setDelegate(" + factory + ");",
      "    closure.call();",
      "    return " + factory + ";",
      "  }",
      "}" ]
  }

  /** The lines of the interface, after the margin is trimmed. */
  function Lines(v: DslType, generatedAnnotation: string): seq<string>
  {
    HeaderLines(v, generatedAnnotation) + [InterfaceLine(v)] + FactoryDoc + [FactoryLine(v)] + FactoryBody(v)
  }

  function Content(v: DslType, generatedAnnotation: string): string
  {
    Text.Join(Lines(v, generatedAnnotation), "\n")
  }

  /** The package and class as a dotted name with every `.` turned into `/`, then
      `Dsl.java`. */
  function RelativePath(v: DslType): string
  {
    Text.ReplaceChar(v.package + "." + v.simpleClassName, '.', '/') + "Dsl.java"
  }

  /** `render(type)`. */
  function Render(v: DslType, generatedAnnotation: string): TemplateFile
  {
    TemplateFile(RelativePath(v), Content(v, generatedAnnotation))
  }

  /** The path ends in `Dsl.java` and no `.` is left before it; with a class name
      free of `.` the file is named after the interface, and with names free of `/`
      its directories are the package's segments and its base name the class. */
  lemma RelativePathShape(v: DslType)
    ensures Text.EndsWith(RelativePath(v), "Dsl.java")
    ensures '.' !in Text.ReplaceChar(v.package + "." + v.simpleClassName, '.', '/')
    ensures '.' !in v.simpleClassName ==> Text.EndsWith(RelativePath(v), "/" + InterfaceName(v) + ".java")
    ensures '/' !in v.package && '/' !in v.simpleClassName && '.' !in v.simpleClassName ==>
      Text.Split(Text.ReplaceChar(v.package + "." + v.simpleClassName, '.', '/'), {'/'}) == Text.Split(v.package, {'.'}) + [v.simpleClassName]
  {
    var pkg := v.package;
    var cls := v.simpleClassName;
    var prefix := Text.ReplaceChar(pkg + "." + cls, '.', '/');
    Text.ReplaceCharRemoves(pkg + "." + cls, '.', '/');
    Text.ReplaceCharAppend(pkg + ".", cls, '.', '/');
    Text.ReplaceCharAppend(pkg, ".", '.', '/');
    assert Text.ReplaceChar(".", '.', '/') == "/";
    Text.AppendEnds(prefix, "Dsl.java");
    if '.' !in cls {
      Text.ReplaceCharAbsent(cls, '.', '/');
      assert RelativePath(v) == Text.ReplaceChar(pkg, '.', '/') + ("/" + InterfaceName(v) + ".java");
      Text.AppendEnds(Text.ReplaceChar(pkg, '.', '/'), "/" + InterfaceName(v) + ".java");
    }
    if '/' !in pkg && '/' !in cls && '.' !in cls {
      PathSegments(pkg, cls);
    }
  }

  lemma PathSegments(pkg: string, cls: string)
    requires '/' !in pkg && '/' !in cls && '.' !in cls
    ensures Text.Split(Text.ReplaceChar(pkg + "." + cls, '.', '/'), {'/'}) == Text.Split(pkg, {'.'}) + [cls]
  {
    var dotted := pkg + "." + cls;
    var parts := Text.Split(dotted, {'.'});
    Text.JoinSplitIsReplace(dotted, '.', '/');
    Text.SplitAround(pkg, '.', cls, {'.'});
    assert Text.NoneOf(cls, {'.'});
    Text.SplitNoDelimiter(cls, {'.'});
    assert parts == Text.Split(pkg, {'.'}) + [cls];
    assert '/' !in dotted;
    Text.SplitSegmentsWithout(dotted, {'.'}, '/');
    Text.SplitJoin(parts, '/');
  }

  /** The content opens with the package declaration on a line of its own. */
  lemma ContentOpensWithPackage(v: DslType, generatedAnnotation: string)
    ensures Text.StartsWith(Content(v, generatedAnnotation), "package " + v.package + ";\n")
  {
    var hs := HeaderLines(v, generatedAnnotation);
    var ls := Lines(v, generatedAnnotation);
    assert ls == hs + ([InterfaceLine(v)] + FactoryDoc + [FactoryLine(v)] + FactoryBody(v));
    assert ls[0] == hs[0];
    assert Content(v, generatedAnnotation) == ls[0] + "\n" + Text.Join(ls[1..], "\n");
    Text.AppendEnds(ls[0] + "\n", Text.Join(ls[1..], "\n"));
  }

  /** The interface declaration, named after the type, stands on a line of its own
      between the header and the factory method. */
  lemma ContentDeclaresInterface(v: DslType, generatedAnnotation: string)
    ensures Content(v, generatedAnnotation) ==
      Text.Join(HeaderLines(v, generatedAnnotation), "\n") + "\n" + InterfaceLine(v) + "\n"
      + Text.Join(FactoryDoc + [FactoryLine(v)] + FactoryBody(v), "\n")
  {
    var hs := HeaderLines(v, generatedAnnotation);
    var rest := FactoryDoc + [FactoryLine(v)] + FactoryBody(v);
    assert |hs| == 11;
    assert |rest| == 13;
    assert Lines(v, generatedAnnotation) == hs + [InterfaceLine(v)] + rest;
    Text.JoinBetween(hs, InterfaceLine(v), rest, "\n");
  }

  /** The factory method's signature stands on a line of its own between its doc
      comment and its body. */
  lemma ContentDeclaresFactory(v: DslType, generatedAnnotation: string)
    ensures Content(v, generatedAnnotation) ==
      Text.Join(HeaderLines(v, generatedAnnotation) + [InterfaceLine(v)] + FactoryDoc, "\n") + "\n"
      + FactoryLine(v) + "\n" + Text.Join(FactoryBody(v), "\n")
  {
    var front := HeaderLines(v, generatedAnnotation) + [InterfaceLine(v)] + FactoryDoc;
    assert |front| == 18;
    assert |FactoryBody(v)| == 6;
    Text.JoinBetween(front, FactoryLine(v), FactoryBody(v), "\n");
  }
}
