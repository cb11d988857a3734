/** Conservation of CDB records over a whole file. */
module CdbTheorems {
  import opened Text
  import opened Z80
  import opened CdbParser
  import opened SourceData

  // ---- what the records say, read off in file order -----------------------------

  function Declared(rs: seq<Record>): seq<string> {
    if rs == [] then []
    else Declared(rs[..|rs| - 1]) + if rs[|rs| - 1].Declare? then [rs[|rs| - 1].name] else []
  }

  predicate IsAsmOf(r: Record, name: string, line: int) {
    r.Asm? && r.asmModule == name && r.asmLine == line
  }

  /** The first address recorded for an assembly line of a module. */
  function FirstAsm(rs: seq<Record>, name: string, line: int): Option<word> {
    if rs == [] then None
    else if FirstAsm(rs[..|rs| - 1], name, line).Some? then FirstAsm(rs[..|rs| - 1], name, line)
    else if IsAsmOf(rs[|rs| - 1], name, line) then Some(rs[|rs| - 1].asmAddress)
    else None
  }

  ghost predicate HasAsm(rs: seq<Record>, name: string) {
    exists i :: 0 <= i < |rs| && rs[i].Asm? && rs[i].asmModule == name
  }

  /** The source lines whose file stem names a module declared before them. */
  function Accepted(rs: seq<Record>): seq<Line> {
    if rs == [] then []
    else
      var before, r := rs[..|rs| - 1], rs[|rs| - 1];
      Accepted(before) + if r.Source? && Owner(r.record.file) in Declared(before) then [r.record] else []
  }

  // ---- where the parser has put them ---------------------------------------------------

  function Names(ms: seq<Module>): seq<string> {
    seq(|ms|, i requires 0 <= i < |ms| => ms[i].name)
  }

  ghost function LinesIn(ms: seq<Module>): multiset<Line> {
    if ms == [] then multiset{} else LinesIn(ms[..|ms| - 1]) + multiset(ms[|ms| - 1].lines)
  }

  ghost predicate Owned(m: Module) {
    forall l :: l in m.lines ==> Owner(l.file) == m.name
  }

  function AsmAt(asm: map<string, map<int, word>>, name: string, line: int): Option<word> {
    if line in AsmOf(asm, name) then Some(AsmOf(asm, name)[line]) else None
  }

  ghost predicate ModulesOk(p: Parsed, rs: seq<Record>) {
    && Names(p.modules) == Declared(rs)
    && (forall m :: m in p.modules ==> m.asmLines == map[] && Owned(m))
    && p.current == if p.modules == [] then None else Some(|p.modules| - 1)
  }

  ghost predicate AsmOk(p: Parsed, rs: seq<Record>) {
    && (forall name: string, line: int :: AsmAt(p.asm, name, line) == FirstAsm(rs, name, line))
    && (forall name: string :: name in p.asm <==> HasAsm(rs, name))
  }

  ghost predicate ParsedOk(p: Parsed, rs: seq<Record>) {
    ModulesOk(p, rs) && AsmOk(p, rs) && LinesIn(p.modules) == multiset(Accepted(rs))
  }

  lemma {:induction false} LinesPut(ms: seq<Module>, k: nat, m: Module, added: multiset<Line>)
    requires k < |ms| && multiset(m.lines) == multiset(ms[k].lines) + added
    ensures LinesIn(ms[k := m]) == LinesIn(ms) + added
    decreases |ms|
  {
    var init := ms[..|ms| - 1];
    if k == |ms| - 1 {
      assert ms[k := m][..|ms| - 1] == init;
    } else {
      LinesPut(init, k, m, added);
      assert ms[k := m][..|ms| - 1] == init[k := m];
    }
  }

  lemma NamesPut(ms: seq<Module>, k: nat, m: Module)
    requires k < |ms| && m.name == ms[k].name
    ensures Names(ms[k := m]) == Names(ms)
  {
  }

  lemma InNames(ms: seq<Module>, name: string)
    ensures name in Names(ms) <==> FirstModule(ms, name, 0) < |ms|
  {
    var k := FirstModule(ms, name, 0);
    if k < |ms| {
      assert Names(ms)[k] == name;
    }
  }

  lemma Routed(p: Parsed, rs: seq<Record>, name: string)
    requires ModulesOk(p, rs)
    ensures name in Declared(rs) <==> Route(p, name) < |p.modules|
    ensures Route(p, name) < |p.modules| ==> p.modules[Route(p, name)].name == name
  {
    InNames(p.modules, name);
    if p.current.Some? && p.modules[p.current.value].name == name {
      assert Names(p.modules)[p.current.value] == name;
    }
  }

  /** Modules, the line's owner and the number of lines after one module has been replaced. */
  lemma PutKeepsModules(p: Parsed, rs: seq<Record>, k: nat, m: Module)
    requires ModulesOk(p, rs) && k < |p.modules|
    requires m.name == p.modules[k].name && m.asmLines == map[] && Owned(m)
    ensures ModulesOk(p.(modules := p.modules[k := m]), rs)
  {
    NamesPut(p.modules, k, m);
  }

  lemma WithLineOwned(m: Module, l: Line)
    requires Owned(m) && Owner(l.file) == m.name
    ensures Owned(WithLine(m, l)) && multiset(WithLine(m, l).lines) == multiset(m.lines) + multiset{l}
  {
  }

  lemma SourceStep(p: Parsed, rs: seq<Record>, l: Line)
    requires ModulesOk(p, rs)
    ensures var p' := Apply(p, Source(l));
      ModulesOk(p', rs) && p'.asm == p.asm
      && LinesIn(p'.modules) ==
           LinesIn(p.modules) + if Owner(l.file) in Declared(rs) then multiset{l} else multiset{}
  {
    var k := Route(p, Owner(l.file));
    Routed(p, rs, Owner(l.file));
    if k < |p.modules| {
      assert p.modules[k] in p.modules;
      WithLineOwned(p.modules[k], l);
      PutKeepsModules(p, rs, k, WithLine(p.modules[k], l));
      LinesPut(p.modules, k, WithLine(p.modules[k], l), multiset{l});
    }
  }

  /** Records of functions, symbols, types and markers touch neither lines nor assembly lines. */
  lemma MemberStep(p: Parsed, rs: seq<Record>, r: Record)
    requires ModulesOk(p, rs) && (IsMember(r) || r.Mark?)
    ensures var p' := Apply(p, r);
      ModulesOk(p', rs) && p'.asm == p.asm && LinesIn(p'.modules) == LinesIn(p.modules)
  {
    var p' := Apply(p, r);
    if p' != p {
      var k := if r.Mark? then Marked(p.modules, r.markOwner, r.marked, 0) else p.current.value;
      assert p.modules[k] in p.modules;
      PutKeepsModules(p, rs, k, p'.modules[k]);
      LinesPut(p.modules, k, p'.modules[k], multiset{});
    }
  }

  lemma DeclareStep(p: Parsed, rs: seq<Record>, name: string)
    requires ModulesOk(p, rs)
    ensures var p' := Apply(p, Declare(name));
      ModulesOk(p', rs + [Declare(name)]) && p'.asm == p.asm && LinesIn(p'.modules) == LinesIn(p.modules)
  {
    var m := NewModule(name);
    assert (rs + [Declare(name)])[..|rs|] == rs;
    assert (p.modules + [m])[..|p.modules|] == p.modules;
    assert Names(p.modules + [m]) == Names(p.modules) + [name];
  }

  lemma AsmStep(p: Parsed, rs: seq<Record>, r: Record)
    requires AsmOk(p, rs) && r.Asm?
    ensures AsmOk(Apply(p, r), rs + [r])
  {
    var p', rs' := Apply(p, r), rs + [r];
    assert rs'[..|rs|] == rs;
    forall name: string, line: int ensures AsmAt(p'.asm, name, line) == FirstAsm(rs', name, line) {
      assert AsmAt(p.asm, name, line) == FirstAsm(rs, name, line);
    }
    forall name: string ensures name in p'.asm <==> HasAsm(rs', name) {
      HasAsmNext(rs, r, name);
    }
  }

  lemma HasAsmNext(rs: seq<Record>, r: Record, name: string)
    ensures HasAsm(rs + [r], name) <==> HasAsm(rs, name) || (r.Asm? && r.asmModule == name)
  {
    var rs' := rs + [r];
    if HasAsm(rs, name) {
      var i :| 0 <= i < |rs| && rs[i].Asm? && rs[i].asmModule == name;
      assert rs'[i] == rs[i];
    }
    assert rs'[|rs|] == r;
  }

  lemma AsmUntouched(p: Parsed, p': Parsed, rs: seq<Record>, r: Record)
    requires AsmOk(p, rs) && p'.asm == p.asm && !r.Asm?
    ensures AsmOk(p', rs + [r])
  {
    var rs' := rs + [r];
    assert rs'[..|rs|] == rs;
    forall name: string, line: int ensures AsmAt(p'.asm, name, line) == FirstAsm(rs', name, line) {
      assert AsmAt(p.asm, name, line) == FirstAsm(rs, name, line);
    }
    forall name: string ensures name in p'.asm <==> HasAsm(rs', name) {
      HasAsmNext(rs, r, name);
    }
  }

  lemma NextRecord(rs: seq<Record>, r: Record)
    ensures Declared(rs + [r]) == Declared(rs) + if r.Declare? then [r.name] else []
    ensures Accepted(rs + [r]) ==
      Accepted(rs) + if r.Source? && Owner(r.record.file) in Declared(rs) then [r.record] else []
  {
    assert (rs + [r])[..|rs|] == rs;
  }

  lemma ModulesStep(p: Parsed, rs: seq<Record>, r: Record)
    requires ModulesOk(p, rs)
    ensures var p' := Apply(p, r);
      ModulesOk(p', rs + [r]) && (!r.Asm? ==> p'.asm == p.asm)
      && LinesIn(p'.modules) == LinesIn(p.modules) +
           if r.Source? && Owner(r.record.file) in Declared(rs) then multiset{r.record} else multiset{}
  {
    NextRecord(rs, r);
    match r
    case Source(l) => SourceStep(p, rs, l);
    case Declare(name) => DeclareStep(p, rs, name);
    case Ignored =>
    case Asm(_, _, _) =>
    case _ => MemberStep(p, rs, r);
  }

  lemma RecordKeeps(p: Parsed, rs: seq<Record>, r: Record)
    requires ParsedOk(p, rs)
    ensures ParsedOk(Apply(p, r), rs + [r])
  {
    NextRecord(rs, r);
    ModulesStep(p, rs, r);
    if r.Asm? {
      AsmStep(p, rs, r);
    } else {
      AsmUntouched(p, Apply(p, r), rs, r);
    }
  }

  lemma {:induction false} ParseKeeps(rs: seq<Record>)
    ensures ParsedOk(ApplyAll(Start(), rs), rs)
    decreases |rs|
  {
    if rs != [] {
      ParseKeeps(rs[..|rs| - 1]);
      RecordKeeps(ApplyAll(Start(), rs[..|rs| - 1]), rs[..|rs| - 1], rs[|rs| - 1]);
      assert rs[..|rs| - 1] + [rs[|rs| - 1]] == rs;
    }
  }

  // ---- after merging -------------------------------------------------------------------------

  /** What `Parse` leaves for the records of a file. */
  ghost predicate Result(rs: seq<Record>, data: seq<Module>) {
    var p := ApplyAll(Start(), rs);
    MergedFor(p.modules, p.asm, p.asm.Keys, data)
  }

  /** Declared modules come first, in file order; behind them one stub, without source lines, for each
      name that has assembly lines and no declaration. */
  lemma ModulesInOrder(rs: seq<Record>, data: seq<Module>)
    requires Result(rs, data)
    ensures var n := |Declared(rs)|;
      && n <= |data|
      && (forall i :: 0 <= i < n ==> data[i].name == Declared(rs)[i])
      && (forall i :: n <= i < |data| ==>
            data[i].name !in Declared(rs) && HasAsm(rs, data[i].name) && data[i].lines == [])
      && (forall i, j :: n <= i < j < |data| ==> data[i].name != data[j].name)
  {
    ParseKeeps(rs);
    var before := ApplyAll(Start(), rs).modules;
    forall i | |before| <= i < |data| ensures data[i].name !in Names(before) {
      assert !Has(before, data[i].name);
    }
  }

  lemma HoldsAll(before: seq<Module>, asm: map<string, map<int, word>>, data: seq<Module>, name: string)
    requires MergedFor(before, asm, asm.Keys, data)
    requires forall m :: m in before ==> m.asmLines == map[]
    ensures name in asm ==> FirstModule(data, name, 0) < |data|
    ensures forall i :: 0 <= i < |data| && data[i].name == name ==>
      data[i].asmLines == if i == FirstModule(data, name, 0) then AsmOf(asm, name) else map[]
  {
    var k := FirstModule(data, name, 0);
    if name in asm {
      assert Has(data, name);
    }
    forall i | 0 <= i < |data| && data[i].name == name
      ensures data[i].asmLines == if i == k then AsmOf(asm, name) else map[]
    {
      if i < |before| {
        assert before[i] in before && before[i].name == name;
        if name in asm {
          EmplaceNothing(asm[name]);
        }
        assert IsFirst(before, i) <==> i == k by { FirstAgree(before, data, i, k); }
      } else {
        assert !Has(before, name);
        assert k == i;
      }
    }
  }

  lemma FirstAgree(before: seq<Module>, data: seq<Module>, i: nat, k: nat)
    requires |before| <= |data| && forall j :: 0 <= j < |before| ==> data[j].name == before[j].name
    requires i < |before| && k == FirstModule(data, before[i].name, 0)
    ensures IsFirst(before, i) <==> i == k
  {
    if k < i {
      assert before[k].name == before[i].name;
    }
    assert data[i].name == before[i].name;
  }

  /** Every assembly line that was recorded is in exactly one module, the first of its name, with the
      address recorded first; no other module of that name has any; and nothing else is in any module. */
  lemma AsmLinesConserved(rs: seq<Record>, data: seq<Module>, name: string, line: int)
    requires Result(rs, data)
    ensures var k := FirstModule(data, name, 0);
      && (FirstAsm(rs, name, line).Some? ==>
            k < |data| && line in data[k].asmLines && data[k].asmLines[line] == FirstAsm(rs, name, line).value)
      && (forall i :: 0 <= i < |data| && data[i].name == name && i != k ==> data[i].asmLines == map[])
      && (k < |data| && line in data[k].asmLines ==> FirstAsm(rs, name, line) == Some(data[k].asmLines[line]))
  {
    ParseKeeps(rs);
    var p := ApplyAll(Start(), rs);
    HoldsAll(p.modules, p.asm, data, name);
    assert AsmAt(p.asm, name, line) == FirstAsm(rs, name, line);
  }

  lemma {:induction false} MergeKeepsLines(before: seq<Module>, data: seq<Module>)
    requires |before| <= |data|
    requires forall i :: 0 <= i < |before| ==> data[i].lines == before[i].lines
    requires forall i :: |before| <= i < |data| ==> data[i].lines == []
    ensures LinesIn(data) == LinesIn(before)
    decreases |data|
  {
    if data != [] {
      var init := data[..|data| - 1];
      if |data| == |before| {
        MergeKeepsLines(before[..|before| - 1], init);
      } else {
        MergeKeepsLines(before, init);
      }
    }
  }

  /** Every accepted source line is in exactly one module, one its file names, as often as it was
      recorded; and the modules hold no other lines. */
  lemma SourceLinesConserved(rs: seq<Record>, data: seq<Module>)
    requires Result(rs, data)
    ensures LinesIn(data) == multiset(Accepted(rs))
    ensures forall i :: 0 <= i < |data| ==> Owned(data[i])
  {
    ParseKeeps(rs);
    var before := ApplyAll(Start(), rs).modules;
    MergeKeepsLines(before, data);
    forall i | 0 <= i < |data| ensures Owned(data[i]) {
      if i < |before| {
        assert before[i] in before;
        assert data[i].lines == before[i].lines && data[i].name == before[i].name;
      }
    }
  }
}
