/** From the assembly lines of a CDB file to the index: which file each module is taken for, and where its
    assembly lines are found again. */
module CdbFiles {
  import opened Text
  import opened Z80
  import opened SourceData
  import opened CdbParser
  import opened CdbTheorems
  import opened CdbContents
  import opened SourceIndex
  import opened SourceNames

  // ---- the file of a module ------------------------------------------------------------

  /** The file of the first of these lines that is not in `name.c`, or else `name.c`. */
  function FileFrom(name: string, lines: seq<Line>): string {
    if lines == [] then name + ".c"
    else if lines[0].file != name + ".c" then lines[0].file
    else FileFrom(name, lines[1..])
  }

  lemma {:induction false} FileFromNext(name: string, lines: seq<Line>, l: Line)
    ensures FileFrom(name, lines + [l]) == if FileFrom(name, lines) == name + ".c" then l.file else FileFrom(name, lines)
    decreases |lines|
  {
    var all := lines + [l];
    if lines == [] {
      assert all[1..] == [];
    } else {
      assert all[1..] == lines[1..] + [l];
      FileFromNext(name, lines[1..], l);
    }
  }

  ghost predicate FileOk(m: Module) { m.file == FileFrom(m.name, m.lines) }

  lemma {:induction false} FileStep(p: Parsed, r: Record, i: nat)
    requires i < |Apply(p, r).modules| && (i < |p.modules| ==> FileOk(p.modules[i]))
    ensures FileOk(Apply(p, r).modules[i])
  {
    if r.Source? && i < |p.modules| && i == Route(p, Owner(r.record.file)) {
      FileFromNext(p.modules[i].name, p.modules[i].lines, r.record);
    }
  }

  lemma {:induction false} ParsedFiles(rs: seq<Record>, i: nat)
    requires i < |ApplyAll(Start(), rs).modules|
    ensures FileOk(ApplyAll(Start(), rs).modules[i])
    decreases |rs|
  {
    var p := ApplyAll(Start(), rs[..|rs| - 1]);
    if i < |p.modules| {
      ParsedFiles(rs[..|rs| - 1], i);
    }
    FileStep(p, rs[|rs| - 1], i);
  }

  /** A declared module is taken for the file of its first source line that is not in `name.c`, and `name.c` without
      one; a module that is only known by its assembly lines for `name.s`. */
  lemma {:induction false} ModuleFiles(rs: seq<Record>, data: seq<Module>, i: nat)
    requires Result(rs, data) && i < |data|
    ensures data[i].file
      == if i < |Declared(rs)| then FileFrom(Declared(rs)[i], LinesOf(rs, i)) else data[i].name + ".s"
  {
    ParsedModules(rs);
    ModulesInOrder(rs, data);
    if i < |Declared(rs)| {
      ParsedFiles(rs, i);
      ContentsInOrder(rs, data, i);
    }
  }

  // ---- assembly lines in the index ---------------------------------------------------------

  ghost predicate Iterates(its: seq<Iterated>, data: seq<Module>) {
    |its| == |data| && forall i :: 0 <= i < |its| ==> its[i].info == data[i] && IteratesAll(its[i])
  }

  lemma FileNameSuffix(name: string, ext: string)
    requires '/' !in ext
    ensures FileName(name + ext) == FileName(name) + ext
  {
    var path, n := name + ext, AfterLast(name, '/');
    assert forall k :: n <= k < |path| ==> path[k] == if k < |name| then name[k] else ext[k - |name|];
    assert n > 0 ==> path[n - 1] == name[n - 1];
    assert AfterLast(path, '/') == n;
  }

  lemma {:induction false} StubIsAssembly(name: string)
    requires FileName(name) != ""
    ensures Extension(name + ".s") == ".s" && Stem(name + ".s") == FileName(name)
  {
    FileNameSuffix(name, ".s");
    assert FileName(name) + ".s" == FileName(name) + "." + "s";
    StemAndExtension(name + ".s", FileName(name), "s");
  }

  /** Every assembly line recorded is a line of the first module of its name. */
  lemma {:induction false} AsmLineHeld(rs: seq<Record>, data: seq<Module>, its: seq<Iterated>, name: string, line: int)
    requires Result(rs, data) && Iterates(its, data) && FirstAsm(rs, name, line).Some?
    ensures var k := FirstModule(data, name, 0);
      && k < |data| && data[k].name == name && its[k].info == data[k]
      && (Extension(data[k].file) in {".s", ".asm"} ==> HasAsmLine(its[k], line, FirstAsm(rs, name, line).value))
  {
    AsmLinesConserved(rs, data, name, line);
  }

  /** The assembly line `line` of module `name` is in the index at `a`, in the file that the module is taken for. */
  ghost predicate Indexed(resolve: Resolver, its: seq<Iterated>, file: string, name: string, line: int, a: word) {
    && Rec(a, Location(Resolved(resolve, file), line, true)) in CdbAsm(resolve, its)
    && Named(name, line, a) in CdbNames(resolve, its)
  }

  /** The lines of a module that is taken for an assembly file are indexed. */
  lemma {:induction false} AssemblyModuleIndexed(resolve: Resolver, rs: seq<Record>, data: seq<Module>, its: seq<Iterated>,
                                                 name: string, line: int)
    requires Result(rs, data) && Iterates(its, data) && FirstAsm(rs, name, line).Some?
    ensures var k := FirstModule(data, name, 0);
      k < |data| && (Extension(data[k].file) in {".s", ".asm"} ==>
        Indexed(resolve, its, data[k].file, name, line, FirstAsm(rs, name, line).value))
  {
    var k := FirstModule(data, name, 0);
    AsmLineHeld(rs, data, its, name, line);
    if Extension(data[k].file) in {".s", ".asm"} {
      AsmLineIsIndexed(resolve, its, k, line, FirstAsm(rs, name, line).value);
    }
  }

  /** So are those of a module that is not declared, as the start-up code of most programs is not. */
  lemma {:induction false} UndeclaredIsIndexed(resolve: Resolver, rs: seq<Record>, data: seq<Module>, its: seq<Iterated>,
                                               name: string, line: int)
    requires Result(rs, data) && Iterates(its, data) && FirstAsm(rs, name, line).Some?
    requires name !in Declared(rs) && FileName(name) != ""
    ensures Indexed(resolve, its, name + ".s", name, line, FirstAsm(rs, name, line).value)
  {
    var k := FirstModule(data, name, 0);
    AssemblyModuleIndexed(resolve, rs, data, its, name, line);
    ModulesInOrder(rs, data);
    assert k >= |Declared(rs)|;
    ModuleFiles(rs, data, k);
    StubIsAssembly(name);
  }

  ghost predicate IsFirstAsm(rs: seq<Record>, m: Iterated, line: int, a: word) {
    FirstAsm(rs, m.info.name, line) == Some(a)
  }

  /** The index holds assembly lines of assembly modules only, at the addresses recorded first. */
  lemma {:induction false} IndexedIsRecorded(resolve: Resolver, rs: seq<Record>, data: seq<Module>, its: seq<Iterated>, r: Rec)
    requires Result(rs, data) && Iterates(its, data) && r in CdbAsm(resolve, its)
    ensures exists i, line :: 0 <= i < |its| && IsAsmRecord(resolve, its[i], line, r) && IsFirstAsm(rs, its[i], line, r.address)
  {
    AsmRecordIsLine(resolve, its, r);
    var i, line :| 0 <= i < |its| && IsAsmRecord(resolve, its[i], line, r);
    AsmLinesConserved(rs, data, data[i].name, line);
  }

  ghost predicate AllUndeclaredIndexed(resolve: Resolver, rs: seq<Record>, its: seq<Iterated>) {
    forall name, line {:trigger FirstAsm(rs, name, line)} ::
      FirstAsm(rs, name, line).Some? && name !in Declared(rs) && FileName(name) != "" ==>
        Indexed(resolve, its, name + ".s", name, line, FirstAsm(rs, name, line).value)
  }

  lemma {:induction false} UndeclaredAreIndexed(resolve: Resolver, rs: seq<Record>, data: seq<Module>, its: seq<Iterated>)
    requires Result(rs, data) && Iterates(its, data)
    ensures AllUndeclaredIndexed(resolve, rs, its)
  {
    forall name, line | FirstAsm(rs, name, line).Some? && name !in Declared(rs) && FileName(name) != ""
      ensures Indexed(resolve, its, name + ".s", name, line, FirstAsm(rs, name, line).value)
    {
      UndeclaredIsIndexed(resolve, rs, data, its, name, line);
    }
  }

  /** What is indexed is found by its address, in an assembly file, where no C line is. */
  lemma {:induction false} FoundByAddress(resolve: Resolver, its: seq<Iterated>, file: string, name: string, line: int, a: word)
    requires (forall m :: m in its ==> IteratesAll(m)) && Indexed(resolve, its, file, name, line, a)
    ensures FirstRec(CdbAsm(resolve, its), a).Some? && FirstRec(CdbAsm(resolve, its), a).value.isAsm
  {
    RecFound(CdbAsm(resolve, its), Rec(a, Location(Resolved(resolve, file), line, true)));
    AsmLocationFound(resolve, its, a);
  }

  lemma {:induction false} FoundByStem(ns: seq<Named>, n: Named, path: string)
    requires n in ns && Stem(path) == n.name
    ensures ScanAddress(ns, path, n.line).Some?
  {
    NamedFound(ns, n);
  }

  /** And by its number in any file whose stem is the module's name. */
  lemma {:induction false} FoundByLine(resolve: Resolver, its: seq<Iterated>, more: seq<Named>, file: string, name: string,
                                       line: int, a: word, path: string)
    requires Indexed(resolve, its, file, name, line, a) && Stem(path) == name
    ensures ScanAddress(CdbNames(resolve, its) + more, path, line).Some?
  {
    var n, names := Named(name, line, a), CdbNames(resolve, its);
    assert n in names + more;
    FoundByStem(names + more, n, path);
  }
}
