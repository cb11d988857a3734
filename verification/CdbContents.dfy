/** What each module holds after a whole CDB file, item by item and in file order. */
module CdbContents {
  import opened Text
  import opened Z80
  import opened SourceData
  import opened CdbParser
  import opened CdbTheorems

  // ---- what the records say ----------------------------------------------------------

  /** Index of the first `name` from `i` on, or `|names|`. */
  function FirstName(names: seq<string>, name: string, i: nat): (k: nat)
    requires i <= |names|
    ensures i <= k <= |names| && (k < |names| ==> names[k] == name) && forall j :: i <= j < k ==> names[j] != name
    decreases |names| - i
  {
    if i == |names| || names[i] == name then i else FirstName(names, name, i + 1)
  }

  /** Among modules declared so far a source line prefers the last, and else takes the first of its name. */
  function RouteIn(names: seq<string>, name: string): nat {
    if names != [] && names[|names| - 1] == name then |names| - 1 else FirstName(names, name, 0)
  }

  /** The source lines for module `i`. */
  function LinesOf(rs: seq<Record>, i: nat): seq<Line> {
    if rs == [] then []
    else
      var before, r := rs[..|rs| - 1], rs[|rs| - 1];
      LinesOf(before, i) +
      if r.Source? && i < |Declared(before)| && RouteIn(Declared(before), Owner(r.record.file)) == i then [r.record] else []
  }

  /** The functions, symbols and types recorded between the declaration of module `i` and the next. */
  function MembersOf(rs: seq<Record>, i: nat): seq<Record> {
    if rs == [] then []
    else
      var before, r := rs[..|rs| - 1], rs[|rs| - 1];
      MembersOf(before, i) + if IsMember(r) && |Declared(before)| == i + 1 then [r] else []
  }

  function GlobalsOf(ms: seq<Record>): seq<Variable> {
    if ms == [] then []
    else GlobalsOf(ms[..|ms| - 1]) + if ms[|ms| - 1].Global? then [ms[|ms| - 1].global] else []
  }

  function TypesOf(ms: seq<Record>): seq<TypeInfo> {
    if ms == [] then []
    else TypesOf(ms[..|ms| - 1]) + if ms[|ms| - 1].Type? then [ms[|ms| - 1].info] else []
  }

  function FunctionsOf(ms: seq<Record>): seq<string> {
    if ms == [] then []
    else FunctionsOf(ms[..|ms| - 1]) + if ms[|ms| - 1].Define? then [ms[|ms| - 1].defined] else []
  }

  function ScopesOf(ms: seq<Record>): (scopes: seq<string>)
    ensures |scopes| == |FunctionsOf(ms)|
  {
    if ms == [] then []
    else ScopesOf(ms[..|ms| - 1]) + if ms[|ms| - 1].Define? then [ms[|ms| - 1].scope] else []
  }

  /** The local symbols of function `k`: those recorded for its name after it, when no earlier function has it. */
  function LocalsOf(ms: seq<Record>, k: nat): seq<Variable> {
    if ms == [] then []
    else
      var before, r := ms[..|ms| - 1], ms[|ms| - 1];
      LocalsOf(before, k) +
      if r.Local? && k < |FunctionsOf(before)| && FirstName(FunctionsOf(before), r.owner, 0) == k then [r.local] else []
  }

  /** `m` holds exactly these members; the addresses of functions are the subject of `CdbMarkers`. */
  ghost predicate HoldsMembers(m: Module, ms: seq<Record>) {
    && m.globals == GlobalsOf(ms) && m.types == TypesOf(ms)
    && |m.functions| == |FunctionsOf(ms)|
    && forall k :: 0 <= k < |m.functions| ==>
         && m.functions[k].name == FunctionsOf(ms)[k] && m.functions[k].scope == ScopesOf(ms)[k]
         && m.functions[k].locals == LocalsOf(ms, k)
  }

  ghost predicate Holds(m: Module, rs: seq<Record>, i: nat) {
    m.lines == LinesOf(rs, i) && HoldsMembers(m, MembersOf(rs, i))
  }

  // ---- one record -------------------------------------------------------------------------

  lemma {:induction false} FunctionNames(fs: seq<Function>, names: seq<string>, name: string, j: nat)
    requires |fs| == |names| && j <= |fs| && forall k :: 0 <= k < |fs| ==> fs[k].name == names[k]
    ensures FirstFunction(fs, name, j) == FirstName(names, name, j)
    decreases |fs| - j
  {
    if j < |fs| && fs[j].name != name {
      FunctionNames(fs, names, name, j + 1);
    }
  }

  lemma {:induction false} ModuleNames(ms: seq<Module>, name: string, j: nat)
    requires j <= |ms|
    ensures FirstModule(ms, name, j) == FirstName(Names(ms), name, j)
    decreases |ms| - j
  {
    if j < |ms| && ms[j].name != name {
      ModuleNames(ms, name, j + 1);
    }
  }

  lemma {:induction false} RouteIsIn(p: Parsed, rs: seq<Record>, name: string)
    requires ModulesOk(p, rs)
    ensures Route(p, name) == RouteIn(Declared(rs), name)
  {
    ModuleNames(p.modules, name, 0);
    if p.modules != [] {
      assert Names(p.modules)[|p.modules| - 1] == p.modules[|p.modules| - 1].name;
    }
  }

  lemma {:induction false} LinesNext(rs: seq<Record>, r: Record, i: nat)
    ensures LinesOf(rs + [r], i) ==
      if r.Source? && i < |Declared(rs)| && RouteIn(Declared(rs), Owner(r.record.file)) == i
      then LinesOf(rs, i) + [r.record] else LinesOf(rs, i)
  {
    assert (rs + [r])[..|rs|] == rs;
  }

  lemma {:induction false} MembersNext(rs: seq<Record>, r: Record, i: nat)
    ensures MembersOf(rs + [r], i)
      == if IsMember(r) && |Declared(rs)| == i + 1 then MembersOf(rs, i) + [r] else MembersOf(rs, i)
  {
    assert (rs + [r])[..|rs|] == rs;
  }

  lemma {:induction false} ProjectionsNext(ms: seq<Record>, r: Record)
    ensures GlobalsOf(ms + [r]) == GlobalsOf(ms) + (if r.Global? then [r.global] else [])
    ensures TypesOf(ms + [r]) == TypesOf(ms) + (if r.Type? then [r.info] else [])
    ensures FunctionsOf(ms + [r]) == FunctionsOf(ms) + (if r.Define? then [r.defined] else [])
    ensures ScopesOf(ms + [r]) == ScopesOf(ms) + (if r.Define? then [r.scope] else [])
  {
    assert (ms + [r])[..|ms|] == ms;
  }

  lemma {:induction false} LocalsNext(ms: seq<Record>, r: Record, k: nat)
    ensures LocalsOf(ms + [r], k) == LocalsOf(ms, k) +
      if r.Local? && k < |FunctionsOf(ms)| && FirstName(FunctionsOf(ms), r.owner, 0) == k then [r.local] else []
  {
    assert (ms + [r])[..|ms|] == ms;
  }

  /** A function that is not there yet has no locals. */
  lemma {:induction false} NoLocalsBefore(ms: seq<Record>, k: nat)
    requires k >= |FunctionsOf(ms)|
    ensures LocalsOf(ms, k) == []
  {
    if ms != [] {
      NoLocalsBefore(ms[..|ms| - 1], k);
    }
  }

  lemma {:induction false} LocalAdded(m: Module, ms: seq<Record>, r: Record)
    requires HoldsMembers(m, ms) && r.Local?
    ensures HoldsMembers(WithLocal(m, r.owner, r.local), ms + [r])
  {
    ProjectionsNext(ms, r);
    FunctionNames(m.functions, FunctionsOf(ms), r.owner, 0);
    var m' := WithLocal(m, r.owner, r.local);
    forall k | 0 <= k < |m'.functions|
      ensures m'.functions[k].name == FunctionsOf(ms)[k] && m'.functions[k].scope == ScopesOf(ms)[k]
      ensures m'.functions[k].locals == LocalsOf(ms + [r], k)
    {
      LocalsNext(ms, r, k);
    }
  }

  lemma {:induction false} FunctionAdded(m: Module, ms: seq<Record>, r: Record)
    requires HoldsMembers(m, ms) && r.Define?
    ensures HoldsMembers(WithMember(m, r), ms + [r])
  {
    ProjectionsNext(ms, r);
    NoLocalsBefore(ms, |FunctionsOf(ms)|);
    var m' := WithMember(m, r);
    forall k | 0 <= k < |m'.functions|
      ensures m'.functions[k].name == FunctionsOf(ms + [r])[k] && m'.functions[k].scope == ScopesOf(ms + [r])[k]
      ensures m'.functions[k].locals == LocalsOf(ms + [r], k)
    {
      LocalsNext(ms, r, k);
    }
  }

  lemma {:induction false} MemberAdded(m: Module, ms: seq<Record>, r: Record)
    requires HoldsMembers(m, ms) && IsMember(r)
    ensures HoldsMembers(WithMember(m, r), ms + [r])
  {
    if r.Local? {
      LocalAdded(m, ms, r);
    } else if r.Define? {
      FunctionAdded(m, ms, r);
    } else {
      ProjectionsNext(ms, r);
      forall k | 0 <= k < |m.functions| ensures LocalsOf(ms + [r], k) == LocalsOf(ms, k) {
        LocalsNext(ms, r, k);
      }
    }
  }

  /** A record that is neither a member nor a source line of module `i` adds nothing to it. */
  lemma {:induction false} NothingAdded(m: Module, rs: seq<Record>, r: Record, i: nat)
    requires Holds(m, rs, i)
    requires IsMember(r) ==> |Declared(rs)| != i + 1
    requires r.Source? ==> i >= |Declared(rs)| || RouteIn(Declared(rs), Owner(r.record.file)) != i
    ensures Holds(m, rs + [r], i)
  {
    LinesNext(rs, r, i);
    MembersNext(rs, r, i);
  }

  lemma {:induction false} LineAdded(m: Module, rs: seq<Record>, l: Line, i: nat)
    requires Holds(m, rs, i) && i < |Declared(rs)| && RouteIn(Declared(rs), Owner(l.file)) == i
    ensures Holds(WithLine(m, l), rs + [Source(l)], i)
  {
    LinesNext(rs, Source(l), i);
    MembersNext(rs, Source(l), i);
  }

  lemma {:induction false} MarkAdded(m: Module, rs: seq<Record>, r: Record, i: nat, j: nat)
    requires Holds(m, rs, i) && r.Mark? && j < |m.functions|
    ensures Holds(WithMark(m, j, r.at, r.isEnd), rs + [r], i)
  {
    NothingAdded(m, rs, r, i);
    var m' := WithMark(m, j, r.at, r.isEnd);
    assert forall k :: 0 <= k < |m.functions| ==>
      && m'.functions[k].name == m.functions[k].name && m'.functions[k].scope == m.functions[k].scope
      && m'.functions[k].locals == m.functions[k].locals;
  }

  lemma {:induction false} MemberOf(m: Module, rs: seq<Record>, r: Record, i: nat)
    requires Holds(m, rs, i) && IsMember(r) && |Declared(rs)| == i + 1
    ensures Holds(WithMember(m, r), rs + [r], i)
  {
    LinesNext(rs, r, i);
    MembersNext(rs, r, i);
    MemberAdded(m, MembersOf(rs, i), r);
    assert WithMember(m, r).lines == m.lines;
  }

  lemma {:induction false} SourceHolds(p: Parsed, rs: seq<Record>, l: Line, i: nat)
    requires ModulesOk(p, rs) && i < |p.modules| && Holds(p.modules[i], rs, i)
    ensures Holds(Apply(p, Source(l)).modules[i], rs + [Source(l)], i)
  {
    var k := Route(p, Owner(l.file));
    RouteIsIn(p, rs, Owner(l.file));
    assert |Declared(rs)| == |Names(p.modules)|;
    SourceApplies(p, l, i);
    if k == i {
      LineAdded(p.modules[i], rs, l, i);
    } else {
      NothingAdded(p.modules[i], rs, Source(l), i);
    }
  }

  lemma SourceApplies(p: Parsed, l: Line, i: nat)
    requires i < |p.modules| && Route(p, Owner(l.file)) <= |p.modules|
    ensures |Apply(p, Source(l)).modules| == |p.modules|
    ensures Apply(p, Source(l)).modules[i]
      == if Route(p, Owner(l.file)) == i then WithLine(p.modules[i], l) else p.modules[i]
  {
  }

  lemma {:induction false} MarkHolds(p: Parsed, rs: seq<Record>, r: Record, i: nat)
    requires r.Mark? && i < |p.modules| && Holds(p.modules[i], rs, i)
    ensures Holds(Apply(p, r).modules[i], rs + [r], i)
  {
    if Marked(p.modules, r.markOwner, r.marked, 0) == i {
      MarkAdded(p.modules[i], rs, r, i, FirstFunction(p.modules[i].functions, r.marked, 0));
    } else {
      NothingAdded(p.modules[i], rs, r, i);
    }
  }

  lemma {:induction false} MemberHolds(p: Parsed, rs: seq<Record>, r: Record, i: nat)
    requires ModulesOk(p, rs) && IsMember(r) && i < |p.modules| && Holds(p.modules[i], rs, i)
    ensures Holds(Apply(p, r).modules[i], rs + [r], i)
  {
    assert |Declared(rs)| == |Names(p.modules)|;
    if i == |p.modules| - 1 {
      MemberOf(p.modules[i], rs, r, i);
    } else {
      NothingAdded(p.modules[i], rs, r, i);
    }
  }

  lemma {:induction false} ModulesStay(p: Parsed, r: Record)
    ensures |p.modules| <= |Apply(p, r).modules|
    ensures !r.Declare? ==> |Apply(p, r).modules| == |p.modules|
    ensures r.Declare? ==> Apply(p, r).modules == p.modules + [NewModule(r.name)]
    ensures r.Ignored? || r.Asm? ==> Apply(p, r).modules == p.modules
  {
  }

  /** Module `i` after one more record. */
  lemma {:induction false} HoldsNext(p: Parsed, rs: seq<Record>, r: Record, i: nat)
    requires ModulesOk(p, rs) && i < |p.modules| && Holds(p.modules[i], rs, i)
    ensures |Apply(p, r).modules| > i && Holds(Apply(p, r).modules[i], rs + [r], i)
  {
    ModulesStay(p, r);
    if r.Source? {
      SourceHolds(p, rs, r.record, i);
    } else if r.Mark? {
      MarkHolds(p, rs, r, i);
    } else if IsMember(r) {
      MemberHolds(p, rs, r, i);
    } else {
      NothingAdded(p.modules[i], rs, r, i);
    }
  }

  lemma {:induction false} NothingBefore(rs: seq<Record>, i: nat)
    requires |Declared(rs)| <= i
    ensures LinesOf(rs, i) == [] && MembersOf(rs, i) == []
  {
    if rs != [] {
      NothingBefore(rs[..|rs| - 1], i);
    }
  }

  lemma {:induction false} NewModuleHolds(rs: seq<Record>, name: string)
    ensures var i := |Declared(rs)|; Holds(NewModule(name), rs + [Declare(name)], i)
  {
    var i := |Declared(rs)|;
    NothingBefore(rs, i);
    LinesNext(rs, Declare(name), i);
    MembersNext(rs, Declare(name), i);
  }

  // ---- the whole file ------------------------------------------------------------------------

  lemma {:induction false} ParsedModules(rs: seq<Record>)
    ensures var p := ApplyAll(Start(), rs); ModulesOk(p, rs) && |Declared(rs)| == |p.modules|
  {
    ParseKeeps(rs);
    assert |Declared(rs)| == |Names(ApplyAll(Start(), rs).modules)|;
  }

  lemma {:induction false} LastRecordHolds(p: Parsed, before: seq<Record>, r: Record, i: nat)
    requires ModulesOk(p, before) && |Declared(before)| == |p.modules| && i < |Apply(p, r).modules|
    requires i < |p.modules| ==> Holds(p.modules[i], before, i)
    ensures Holds(Apply(p, r).modules[i], before + [r], i)
  {
    ModulesStay(p, r);
    if i < |p.modules| {
      HoldsNext(p, before, r, i);
    } else {
      NewModuleHolds(before, r.name);
    }
  }

  lemma {:induction false} ParsedHolds(rs: seq<Record>, i: nat)
    requires i < |ApplyAll(Start(), rs).modules|
    ensures Holds(ApplyAll(Start(), rs).modules[i], rs, i)
    decreases |rs|
  {
    var before, r := rs[..|rs| - 1], rs[|rs| - 1];
    var p := ApplyAll(Start(), before);
    ParsedModules(before);
    if i < |p.modules| {
      ParsedHolds(before, i);
    }
    LastRecordHolds(p, before, r, i);
    assert before + [r] == rs;
  }

  /** Every declared module holds exactly the source lines routed to it and the functions, symbols and types
      of its own section of the file, each in file order; and stubs hold none. */
  lemma {:induction false} ContentsInOrder(rs: seq<Record>, data: seq<Module>, i: nat)
    requires Result(rs, data) && i < |data|
    ensures i < |Declared(rs)| ==> Holds(data[i], rs, i)
    ensures i >= |Declared(rs)| ==>
      data[i].lines == [] && data[i].functions == [] && data[i].globals == [] && data[i].types == []
  {
    ParseKeeps(rs);
    if i < |Declared(rs)| {
      ParsedHolds(rs, i);
    }
  }
}
