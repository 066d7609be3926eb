/** The Java naming extensions over `VrapType`: the simple and fully qualified class
    names a Java renderer prints for a type, and the rewrite of a type's package into
    a Java package name. */
module JavaTypes {
  import opened Files
  import Text

  /** The text of the `IllegalStateException` raised for the nil type; the leading
      part is the nil type's `toString()`, which is not part of this model. */
  const NoSimpleName := " has no simple class name."

  /** `simpleName()`: the unqualified name, `List<…>` around an array's item name,
      and an exception for the nil type, also when it is an array's (nested) item. */
  function SimpleName(t: VrapType): Result<string>
  {
    match t
    case Scalar(s) => Ok(s)
    case Enum(_, c) => Ok(c)
    case Object(_, c) => Ok(c)
    case Any(b) => Ok(b)
    case Array(item) =>
      (match SimpleName(item)
       case Ok(n) => Ok("List<" + n + ">")
       case Thrown(m) => Thrown(m))
    case Nil => Thrown(NoSimpleName)
  }

  /** `fullClassName()`: qualified by the package for enums and objects,
      `java.util.List<…>` around an array's item, `void` for the nil type. */
  function FullClassName(t: VrapType): string
  {
    match t
    case Any(b) => b
    case Scalar(s) => s
    case Enum(p, c) => p + "." + c
    case Object(p, c) => p + "." + c
    case Array(item) => "java.util.List<" + FullClassName(item) + ">"
    case Nil => "void"
  }

  /** `toJavaPackage()`: split on '.' and '/', put each segment through the case
      conversion (`StringCaseFormat.LOWER_UNDERSCORE_CASE`, supplied as `caseFn`),
      and rejoin with '.'. */
  function ToJavaPackage(s: string, caseFn: string -> string): string
  {
    Text.Join(Text.Map(caseFn, Text.Split(s, {'.', '/'})), ".")
  }

  /** `toJavaVType()`: rewrite the package of enums and objects, through arrays. */
  function ToJavaVType(t: VrapType, caseFn: string -> string): VrapType
  {
    match t
    case Object(p, c) => Object(ToJavaPackage(p, caseFn), c)
    case Enum(p, c) => Enum(ToJavaPackage(p, caseFn), c)
    case Array(item) => Array(ToJavaVType(item, caseFn))
    case _ => t
  }

  // ---------------------------------------------------------------------------
  // Array nesting
  // ---------------------------------------------------------------------------

  /** How many arrays wrap the innermost type. */
  function Depth(t: VrapType): nat
  {
    if t.Array? then 1 + Depth(t.itemType) else 0
  }

  /** The type inside all the arrays. */
  function Innermost(t: VrapType): VrapType
  {
    if t.Array? then Innermost(t.itemType) else t
  }

  /** `n` copies of `s`. */
  function Repeat(s: string, n: nat): string
  {
    if n == 0 then [] else s + Repeat(s, n - 1)
  }

  /** The package prefix `fullClassName` puts in front of the innermost simple name. */
  function Qualifier(t: VrapType): string
  {
    if t.Enum? || t.Object? then t.pkg + "." else []
  }

  /** `simpleName` fails exactly when the innermost type is nil; otherwise it is the
      innermost name wrapped in one `List<…>` per array level. */
  lemma {:induction false} SimpleNameNested(t: VrapType)
    ensures SimpleName(t).Thrown? <==> Innermost(t).Nil?
    ensures SimpleName(t).Thrown? ==> SimpleName(t).message == NoSimpleName
    ensures SimpleName(t).Ok? ==>
      SimpleName(Innermost(t)).Ok? &&
      SimpleName(t).value ==
        Repeat("List<", Depth(t)) + SimpleName(Innermost(t)).value + Repeat(">", Depth(t))
  {
    if t.Array? {
      SimpleNameNested(t.itemType);
      var d := Depth(t.itemType);
      if SimpleName(t).Ok? {
        var core := SimpleName(Innermost(t)).value;
        assert SimpleName(t).value
            == "List<" + (Repeat("List<", d) + core + Repeat(">", d)) + ">";
        WrapOnce("List<", ">", d, core);
      }
    }
  }

  lemma {:induction false} RepeatSuffix(s: string, n: nat)
    ensures Repeat(s, n + 1) == Repeat(s, n) + s
    decreases n
  {
    if n > 0 {
      RepeatSuffix(s, n - 1);
      assert Repeat(s, n + 1) == s + (Repeat(s, n - 1) + s);
    }
  }

  /** Wrapping a `d`-fold wrapped core once more gives the `d + 1`-fold wrapping. */
  lemma WrapOnce(open: string, close: string, d: nat, core: string)
    ensures open + (Repeat(open, d) + core + Repeat(close, d)) + close
         == Repeat(open, d + 1) + core + Repeat(close, d + 1)
  {
    RepeatSuffix(close, d);
    assert open + (Repeat(open, d) + core + Repeat(close, d)) + close
        == (open + Repeat(open, d)) + core + (Repeat(close, d) + close);
  }

  /** `fullClassName` is total: the innermost type's qualified name (`void` for nil)
      wrapped in one `java.util.List<…>` per array level; for enums and objects the
      qualified name is the package, a dot and the simple name. */
  lemma {:induction false} FullClassNameNested(t: VrapType)
    ensures FullClassName(t) ==
      Repeat("java.util.List<", Depth(t)) + FullClassName(Innermost(t)) + Repeat(">", Depth(t))
    ensures !Innermost(t).Nil? ==>
      SimpleName(Innermost(t)).Ok? &&
      FullClassName(Innermost(t)) == Qualifier(Innermost(t)) + SimpleName(Innermost(t)).value
    ensures Innermost(t).Nil? ==> FullClassName(Innermost(t)) == "void" && SimpleName(t).Thrown?
  {
    SimpleNameNested(t);
    if t.Array? {
      FullClassNameNested(t.itemType);
      var d := Depth(t.itemType);
      var core := FullClassName(Innermost(t));
      assert FullClassName(t)
          == "java.util.List<" + (Repeat("java.util.List<", d) + core + Repeat(">", d)) + ">";
      WrapOnce("java.util.List<", ">", d, core);
    }
  }

  /** `toJavaVType` keeps the array depth, the innermost variant and class name, maps
      the innermost package through `toJavaPackage`, and leaves scalar, any and nil
      types as they are. */
  lemma {:induction false} ToJavaVTypeShape(t: VrapType, caseFn: string -> string)
    ensures var r := ToJavaVType(t, caseFn);
      && Depth(r) == Depth(t)
      && (Innermost(t).Object? <==> Innermost(r).Object?)
      && (Innermost(t).Enum? <==> Innermost(r).Enum?)
      && ((Innermost(t).Object? || Innermost(t).Enum?) ==>
            Innermost(r).simpleClassName == Innermost(t).simpleClassName
            && Innermost(r).pkg == ToJavaPackage(Innermost(t).pkg, caseFn))
      && (!(Innermost(t).Object? || Innermost(t).Enum?) ==> Innermost(r) == Innermost(t))
      && ((t.Scalar? || t.Any? || t.Nil?) ==> r == t)
  {
    if t.Array? {
      ToJavaVTypeShape(t.itemType, caseFn);
    }
  }

  /** Rewriting packages never changes the simple name, nor whether it can be taken. */
  lemma {:induction false} SimpleNameOfJavaVType(t: VrapType, caseFn: string -> string)
    ensures SimpleName(ToJavaVType(t, caseFn)) == SimpleName(t)
  {
    if t.Array? {
      SimpleNameOfJavaVType(t.itemType, caseFn);
    }
  }

  /** `toJavaPackage` works segment by segment: when the case conversion puts no '.'
      into a segment, splitting the result on '.' gives exactly the converted
      segments of the input, one per '.'- or '/'-separated segment. */
  lemma ToJavaPackageSegments(s: string, caseFn: string -> string)
    requires forall seg :: seg in Text.Split(s, {'.', '/'}) ==> '.' !in caseFn(seg)
    ensures Text.Split(ToJavaPackage(s, caseFn), {'.'}) == Text.Map(caseFn, Text.Split(s, {'.', '/'}))
    ensures |Text.Split(ToJavaPackage(s, caseFn), {'.'})| == 1 + Text.CountIn(s, {'.', '/'})
  {
    var segs := Text.Split(s, {'.', '/'});
    var mapped := Text.Map(caseFn, segs);
    forall k | 0 <= k < |mapped| ensures '.' !in mapped[k] {
      assert segs[k] in segs;
    }
    Text.SplitJoin(mapped, '.');
    Text.SplitCount(s, {'.', '/'});
  }
}
