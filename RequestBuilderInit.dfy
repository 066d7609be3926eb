/** `RequestBuilderInit`: for every resource, the `__init__.py` of the package that
    holds its request-builder module, with empty content. */
module PyRequestBuilderInit {
  import opened Files
  import Text

  /** The module name split on '.', its last segment dropped, `__init__.py` appended,
      and the segments joined with '/'. */
  function InitPath(moduleName: string): string
  {
    var segs := Text.Split(moduleName, {'.'});
    Text.Join(segs[..|segs| - 1] + ["__init__.py"], "/")
  }

  /** `render(resource)`, given the resource's `pyRequestModuleName(pkg)`. */
  function Render(moduleName: string): TemplateFile
  {
    TemplateFile(InitPath(moduleName), "")
  }

  lemma JoinEndsWithLast(parts: seq<string>, last: string, sep: string)
    ensures Text.EndsWith(Text.Join(parts + [last], sep), last)
  {
    if parts == [] {
      assert parts + [last] == [last];
    } else {
      Text.JoinAppendOne(parts, last, sep);
    }
  }

  /** The file is always an `__init__.py` with empty content, and a module name
      without '.' gives the top-level `__init__.py`. */
  lemma RenderShape(moduleName: string)
    ensures Text.EndsWith(Render(moduleName).relativePath, "__init__.py")
    ensures Render(moduleName).content == ""
    ensures '.' !in moduleName ==> Render(moduleName).relativePath == "__init__.py"
  {
    var segs := Text.Split(moduleName, {'.'});
    JoinEndsWithLast(segs[..|segs| - 1], "__init__.py", "/");
    if '.' !in moduleName {
      Text.SplitNoDelimiter(moduleName, {'.'});
      assert segs[..|segs| - 1] + ["__init__.py"] == ["__init__.py"];
    }
  }

  /** When the module name has no '/', the directories of the path are exactly the
      package segments of the module name. */
  lemma InitDirectories(moduleName: string)
    requires '/' !in moduleName
    ensures var segs := Text.Split(moduleName, {'.'});
      Text.Split(InitPath(moduleName), {'/'}) == segs[..|segs| - 1] + ["__init__.py"]
  {
    var segs := Text.Split(moduleName, {'.'});
    var parts := segs[..|segs| - 1] + ["__init__.py"];
    Text.SplitSegmentsWithout(moduleName, {'.'}, '/');
    forall k | 0 <= k < |parts| ensures '/' !in parts[k] {
      if k < |segs| - 1 {
        assert parts[k] == segs[k];
      } else {
        assert parts[k] == "__init__.py";
      }
    }
    Text.SplitJoin(parts, '/');
  }

  /** Request modules of the same package share one `__init__.py`: the path depends
      only on the package, not on the last segment of the module name. */
  lemma SiblingsShareInit(pkg: string, a: string, b: string)
    requires '.' !in a && '.' !in b
    ensures InitPath(pkg + "." + a) == InitPath(pkg + "." + b)
    ensures InitPath(pkg + "." + a) == Text.Join(Text.Split(pkg, {'.'}) + ["__init__.py"], "/")
  {
    var p := Text.Split(pkg, {'.'});
    Text.SplitAround(pkg, '.', a, {'.'});
    Text.SplitAround(pkg, '.', b, {'.'});
    Text.SplitNoDelimiter(a, {'.'});
    Text.SplitNoDelimiter(b, {'.'});
    assert pkg + "." + a == pkg + ['.'] + a;
    assert pkg + "." + b == pkg + ['.'] + b;
    assert (p + [a])[..|p|] == p;
    assert (p + [b])[..|p|] == p;
  }
}
