/** `InitFileProducer`: the single `models/__init__.py`, which star-imports one
    sub-module per model module name. */
module PyInitFile {
  import opened Files
  import opened PyTypes
  import Text

  const InitPath := "models/__init__.py"

  /** The message of the `IndexOutOfBoundsException` raised when a module name has
      no second segment. */
  const NoSecondSegment := "Index 1 out of bounds for length 1"

  /** `from .<second segment of the module name> import *  # noqa`. */
  function ImportLine(moduleName: string): Result<string>
  {
    var segs := Text.Split(moduleName, {'.'});
    if |segs| < 2 then Thrown(NoSecondSegment)
    else Ok("from ." + segs[1] + " import *  # noqa")
  }

  /** The module names of the selected types, once each, in order of first appearance. */
  function ModuleNames(types: seq<TypeDecl>): seq<string>
  {
    Text.Map((g: Text.Group<string, TypeDecl>) => g.key, Text.GroupBy(Text.Filter(Selected, types), ModuleNameOf))
  }

  /** `exportModels()`: the import lines joined with newlines. */
  function ExportModels(types: seq<TypeDecl>): Result<string>
  {
    match AllOk(Text.Map(ImportLine, ModuleNames(types)))
    case Ok(lines) => Ok(Text.Join(lines, "\n"))
    case Thrown(m) => Thrown(m)
  }

  /** The file text: an empty first line, the generated-file header, an empty line,
      then the imports. */
  function Content(header: string, exports: string): string
  {
    "\n" + header + "\n" + "\n" + exports
  }

  /** `produceFiles()`. */
  function ProduceFiles(types: seq<TypeDecl>, header: string): Result<seq<TemplateFile>>
  {
    match ExportModels(types)
    case Ok(e) => Ok([TemplateFile(InitPath, Content(header, e))])
    case Thrown(m) => Thrown(m)
  }

  /** A module name has an import line exactly when it contains a '.'. */
  lemma ImportLineOutcome(moduleName: string)
    ensures ImportLine(moduleName).Ok? <==> '.' in moduleName
    ensures ImportLine(moduleName).Ok? ==>
      var segs := Text.Split(moduleName, {'.'});
      && ImportLine(moduleName).value == "from ." + segs[1] + " import *  # noqa"
      && '.' !in segs[1]
  {
    Text.SplitCount(moduleName, {'.'});
    Text.SplitSegmentsClean(moduleName, {'.'});
    if '.' in moduleName {
      var k :| 0 <= k < |moduleName| && moduleName[k] == '.';
      CountInPositive(moduleName, k, {'.'});
    } else {
      Text.SplitNoDelimiter(moduleName, {'.'});
    }
  }

  lemma {:induction false} CountInPositive(s: string, k: nat, cs: set<char>)
    requires k < |s| && s[k] in cs
    ensures Text.CountIn(s, cs) > 0
    decreases k
  {
    if k > 0 {
      CountInPositive(s[1..], k - 1, cs);
    }
  }

  /** The module names listed are exactly those of the selected types, each once. */
  lemma ModuleNamesDistinct(types: seq<TypeDecl>)
    ensures Text.NoDuplicates(ModuleNames(types))
    ensures forall m :: m in ModuleNames(types) <==> exists d :: d in types && Selected(d) && d.moduleName == m
  {
    var gs := Text.GroupBy(Text.Filter(Selected, types), ModuleNameOf);
    Text.GroupByPartition(Text.Filter(Selected, types), ModuleNameOf);
    forall m ensures m in ModuleNames(types) <==> exists d :: d in types && Selected(d) && d.moduleName == m {
      if m in ModuleNames(types) {
        ListedNameHasType(types, m);
      }
      if exists d :: d in types && Selected(d) && d.moduleName == m {
        var d :| d in types && Selected(d) && d.moduleName == m;
        TypeNameListed(types, d);
      }
    }
  }

  lemma ListedNameHasType(types: seq<TypeDecl>, m: string)
    requires m in ModuleNames(types)
    ensures exists d :: d in types && Selected(d) && d.moduleName == m
  {
    var selected := Text.Filter(Selected, types);
    var gs := Text.GroupBy(selected, ModuleNameOf);
    var names := ModuleNames(types);
    Text.GroupByPartition(selected, ModuleNameOf);
    Text.FilterMembers(Selected, types);
    var i :| 0 <= i < |names| && names[i] == m;
    var d := gs[i].members[0];
    assert d in gs[i].members;
  }

  lemma TypeNameListed(types: seq<TypeDecl>, d: TypeDecl)
    requires d in types && Selected(d)
    ensures d.moduleName in ModuleNames(types)
  {
    var selected := Text.Filter(Selected, types);
    var gs := Text.GroupBy(selected, ModuleNameOf);
    var names := ModuleNames(types);
    Text.GroupByPartition(selected, ModuleNameOf);
    Text.FilterMembers(Selected, types);
    assert d in selected;
    var i :| 0 <= i < |gs| && gs[i].key == ModuleNameOf(d);
    assert names[i] == d.moduleName;
  }


  /** The file is produced exactly when every selected type's module name has a '.';
      it is then the one file `models/__init__.py`, with one import line per module
      name, in order of first appearance. */
  lemma ProduceFilesOutcome(types: seq<TypeDecl>, header: string)
    ensures ProduceFiles(types, header).Ok? <==>
      forall d :: d in types && Selected(d) ==> '.' in d.moduleName
    ensures ProduceFiles(types, header).Thrown? ==> ProduceFiles(types, header).message == NoSecondSegment
    ensures ProduceFiles(types, header).Ok? ==>
      var files := ProduceFiles(types, header).value;
      var lines := AllOk(Text.Map(ImportLine, ModuleNames(types)));
      && |files| == 1
      && files[0].relativePath == InitPath
      && lines.Ok?
      && |lines.value| == |ModuleNames(types)|
      && files[0].content == Content(header, Text.Join(lines.value, "\n"))
  {
    var rs := Text.Map(ImportLine, ModuleNames(types));
    AllOkSucceeds(rs);
    ImportLinesSucceed(types);
    ImportLinesMessage(types);
  }

  /** The only error an import line raises is the missing second segment. */
  lemma ImportLinesMessage(types: seq<TypeDecl>)
    ensures AllOk(Text.Map(ImportLine, ModuleNames(types))).Thrown? ==>
      AllOk(Text.Map(ImportLine, ModuleNames(types))).message == NoSecondSegment
  {
    var names := ModuleNames(types);
    var rs := Text.Map(ImportLine, names);
    AllOkSucceeds(rs);
    if AllOk(rs).Thrown? {
      var i :| 0 <= i < |rs| && rs[i].Thrown? && AllOk(rs).message == rs[i].message;
      assert rs[i] == ImportLine(names[i]);
    }
  }

  /** Every module name has its import line exactly when every selected type's
      module name has a '.'. */
  lemma ImportLinesSucceed(types: seq<TypeDecl>)
    ensures (forall i :: 0 <= i < |ModuleNames(types)| ==> Text.Map(ImportLine, ModuleNames(types))[i].Ok?) <==>
      forall d :: d in types && Selected(d) ==> '.' in d.moduleName
  {
    var names := ModuleNames(types);
    var rs := Text.Map(ImportLine, names);
    ModuleNamesDistinct(types);
    forall i | 0 <= i < |names| ensures rs[i].Ok? <==> '.' in names[i] {
      ImportLineOutcome(names[i]);
    }
    if forall d :: d in types && Selected(d) ==> '.' in d.moduleName {
      forall i | 0 <= i < |names| ensures rs[i].Ok? {
        assert names[i] in names;
      }
    } else {
      var d :| d in types && Selected(d) && '.' !in d.moduleName;
      assert d.moduleName in names;
      var i :| 0 <= i < |names| && names[i] == d.moduleName;
      assert rs[i].Thrown?;
    }
  }


  /** Read line by line, the file is an empty line, the header, an empty line, and
      then the import lines (a last empty line when there are none), as long as the
      header and the import lines are single lines. */
  lemma ContentLines(header: string, lines: seq<string>)
    requires '\n' !in header
    requires forall k :: 0 <= k < |lines| ==> '\n' !in lines[k]
    ensures Text.Split(Content(header, Text.Join(lines, "\n")), {'\n'}) ==
      ["", header, ""] + (if lines == [] then [""] else lines)
  {
    var e := Text.Join(lines, "\n");
    var tail: seq<string> := if lines == [] then [""] else lines;
    if lines == [] {
      assert e == [];
      Text.SplitNoDelimiter(e, {'\n'});
    } else {
      Text.SplitJoin(lines, '\n');
    }
    LinesAfterHeader(header, e);
  }

  lemma LinesAfterHeader(header: string, e: string)
    requires '\n' !in header
    ensures Text.Split(Content(header, e), {'\n'}) == ["", header, ""] + Text.Split(e, {'\n'})
  {
    var r2 := "\n" + e;
    var r1 := header + "\n" + r2;
    assert Content(header, e) == "\n" + r1;
    NewlineFirst(r1);
    HeaderLine(header, r2);
    NewlineFirst(e);
  }

  /** A single-line header followed by a line break is the first line. */
  lemma HeaderLine(header: string, rest: string)
    requires '\n' !in header
    ensures Text.Split(header + "\n" + rest, {'\n'}) == [header] + Text.Split(rest, {'\n'})
  {
    Text.SplitAround(header, '\n', rest, {'\n'});
    Text.SplitNoDelimiter(header, {'\n'});
  }

  /** A leading line break starts with an empty line. */
  lemma NewlineFirst(s: string)
    ensures Text.Split("\n" + s, {'\n'}) == [""] + Text.Split(s, {'\n'})
  {
    Text.SplitAround([], '\n', s, {'\n'});
    assert [] + ['\n'] + s == "\n" + s;
  }
}
