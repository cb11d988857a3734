/** Where functions begin and end after a whole CDB file: the last marker that routes to each of them. */
module CdbMarkers {
  import opened Text
  import opened Z80
  import opened SourceData
  import opened CdbParser
  import opened CdbTheorems
  import opened CdbContents

  /** The functions recorded so far for module `i`. */
  function FunctionsAt(rs: seq<Record>, i: nat): seq<string> { FunctionsOf(MembersOf(rs, i)) }

  predicate Takes(rs: seq<Record>, owner: string, name: string, i: nat)
    requires i < |Declared(rs)|
  {
    (owner == "" || Declared(rs)[i] == owner) && name in FunctionsAt(rs, i)
  }

  /** The first declared module, of that name unless the name is empty, with a function of that name. */
  function MarkedIn(rs: seq<Record>, owner: string, name: string, i: nat): (k: nat)
    requires i <= |Declared(rs)|
    ensures i <= k <= |Declared(rs)| && (k < |Declared(rs)| ==> Takes(rs, owner, name, k))
    ensures forall j :: i <= j < k ==> !Takes(rs, owner, name, j)
    decreases |Declared(rs)| - i
  {
    if i == |Declared(rs)| || Takes(rs, owner, name, i) then i else MarkedIn(rs, owner, name, i + 1)
  }

  /** The record marks function `k` of module `i`, given the records before it. */
  predicate Marks(before: seq<Record>, r: Record, i: nat, k: nat) {
    && r.Mark? && i < |Declared(before)| && MarkedIn(before, r.markOwner, r.marked, 0) == i
    && FirstName(FunctionsAt(before, i), r.marked, 0) == k
  }

  /** The address of the last start or end marker for function `k` of module `i`; without one, no address. */
  function AddressOf(rs: seq<Record>, i: nat, k: nat, isEnd: bool): word {
    if rs == [] then NO_ADDRESS
    else
      var before, r := rs[..|rs| - 1], rs[|rs| - 1];
      if Marks(before, r, i, k) && r.isEnd == isEnd then r.at else AddressOf(before, i, k, isEnd)
  }

  lemma {:induction false} AddressNext(rs: seq<Record>, r: Record, i: nat, k: nat, isEnd: bool)
    ensures AddressOf(rs + [r], i, k, isEnd)
      == if Marks(rs, r, i, k) && r.isEnd == isEnd then r.at else AddressOf(rs, i, k, isEnd)
  {
    assert (rs + [r])[..|rs|] == rs;
  }

  // ---- the parser's search is the one over the records ------------------------------------

  /** Every module holds what the records say. */
  ghost predicate AllHold(p: Parsed, rs: seq<Record>) {
    && Names(p.modules) == Declared(rs)
    && |p.modules| == |Declared(rs)|
    && forall i :: 0 <= i < |p.modules| ==> Holds(p.modules[i], rs, i)
  }

  lemma {:induction false} FunctionFound(m: Module, rs: seq<Record>, i: nat, name: string)
    requires Holds(m, rs, i)
    ensures FirstFunction(m.functions, name, 0) == FirstName(FunctionsAt(rs, i), name, 0)
    ensures FirstFunction(m.functions, name, 0) < |m.functions| <==> name in FunctionsAt(rs, i)
  {
    FunctionNames(m.functions, FunctionsAt(rs, i), name, 0);
    if name in FunctionsAt(rs, i) {
      var k :| 0 <= k < |FunctionsAt(rs, i)| && FunctionsAt(rs, i)[k] == name;
      assert m.functions[k].name == name;
    }
  }

  lemma {:induction false} TakesIs(p: Parsed, rs: seq<Record>, owner: string, name: string, i: nat)
    requires AllHold(p, rs) && i < |p.modules|
    ensures Takes(rs, owner, name, i) <==> (owner == "" || p.modules[i].name == owner) && HasFunction(p.modules[i], name)
  {
    assert Names(p.modules)[i] == p.modules[i].name;
    FunctionFound(p.modules[i], rs, i, name);
  }

  ghost predicate HasFunction(m: Module, name: string) { FirstFunction(m.functions, name, 0) < |m.functions| }

  lemma {:induction false} NotBeforeMarked(ms: seq<Module>, owner: string, name: string, i: nat)
    requires i < Marked(ms, owner, name, 0) && (owner == "" || ms[i].name == owner)
    ensures !HasFunction(ms[i], name)
  {
  }

  lemma {:induction false} MarkedIsIn(p: Parsed, rs: seq<Record>, owner: string, name: string)
    requires AllHold(p, rs)
    ensures Marked(p.modules, owner, name, 0) == MarkedIn(rs, owner, name, 0)
  {
    var k, l := Marked(p.modules, owner, name, 0), MarkedIn(rs, owner, name, 0);
    if k < l {
      TakesIs(p, rs, owner, name, k);
    } else if l < k {
      TakesIs(p, rs, owner, name, l);
      NotBeforeMarked(p.modules, owner, name, l);
    }
  }

  // ---- one record ---------------------------------------------------------------------------

  ghost predicate Addressed(f: Function, rs: seq<Record>, i: nat, k: nat) {
    f.start == AddressOf(rs, i, k, false) && f.end == AddressOf(rs, i, k, true)
  }

  ghost predicate AddressesOk(m: Module, rs: seq<Record>, i: nat) {
    forall k :: 0 <= k < |m.functions| ==> Addressed(m.functions[k], rs, i, k)
  }

  lemma {:induction false} FunctionsGrow(rs: seq<Record>, r: Record, i: nat)
    ensures |FunctionsAt(rs, i)| <= |FunctionsAt(rs + [r], i)|
  {
    MembersNext(rs, r, i);
    ProjectionsNext(MembersOf(rs, i), r);
  }

  /** A function that is not there yet has no addresses. */
  lemma {:induction false} NoAddressBefore(rs: seq<Record>, i: nat, k: nat, isEnd: bool)
    requires k >= |FunctionsAt(rs, i)|
    ensures AddressOf(rs, i, k, isEnd) == NO_ADDRESS
    decreases |rs|
  {
    if rs != [] {
      var before, r := rs[..|rs| - 1], rs[|rs| - 1];
      assert before + [r] == rs;
      FunctionsGrow(before, r, i);
      NoAddressBefore(before, i, k, isEnd);
      if Marks(before, r, i, k) {
        assert Takes(before, r.markOwner, r.marked, i);
        InFirstName(FunctionsAt(before, i), r.marked);
      }
    }
  }

  lemma {:induction false} InFirstName(names: seq<string>, name: string)
    requires name in names
    ensures FirstName(names, name, 0) < |names|
  {
    var k :| 0 <= k < |names| && names[k] == name;
  }

  /** A function whose addresses a record leaves alone. */
  lemma {:induction false} NotMarked(f: Function, f': Function, rs: seq<Record>, r: Record, i: nat, k: nat)
    requires Addressed(f, rs, i, k) && !Marks(rs, r, i, k) && f'.start == f.start && f'.end == f.end
    ensures Addressed(f', rs + [r], i, k)
  {
    AddressNext(rs, r, i, k, false);
    AddressNext(rs, r, i, k, true);
  }

  lemma {:induction false} MarkedFunction(m: Module, m': Module, rs: seq<Record>, r: Record, i: nat)
    requires Holds(m, rs, i) && r.Mark? && i < |Declared(rs)| && MarkedIn(rs, r.markOwner, r.marked, 0) == i
    requires AddressesOk(m, rs, i) && HasFunction(m, r.marked)
    requires m' == WithMark(m, FirstFunction(m.functions, r.marked, 0), r.at, r.isEnd)
    ensures AddressesOk(m', rs + [r], i)
  {
    FunctionFound(m, rs, i, r.marked);
    forall k | 0 <= k < |m'.functions| ensures Addressed(m'.functions[k], rs + [r], i, k) {
      assert Addressed(m.functions[k], rs, i, k);
      AddressNext(rs, r, i, k, false);
      AddressNext(rs, r, i, k, true);
    }
  }

  lemma {:induction false} ElsewhereMarked(m: Module, rs: seq<Record>, r: Record, i: nat)
    requires AddressesOk(m, rs, i) && i < |Declared(rs)| && r.Mark? && MarkedIn(rs, r.markOwner, r.marked, 0) != i
    ensures AddressesOk(m, rs + [r], i)
  {
    forall k | 0 <= k < |m.functions| ensures Addressed(m.functions[k], rs + [r], i, k) {
      NotMarked(m.functions[k], m.functions[k], rs, r, i, k);
    }
  }

  lemma {:induction false} MarkAddresses(p: Parsed, rs: seq<Record>, r: Record, i: nat)
    requires AllHold(p, rs) && r.Mark? && i < |p.modules| && AddressesOk(p.modules[i], rs, i)
    ensures AddressesOk(Apply(p, r).modules[i], rs + [r], i)
  {
    MarkedIsIn(p, rs, r.markOwner, r.marked);
    if MarkedIn(rs, r.markOwner, r.marked, 0) == i {
      TakesIs(p, rs, r.markOwner, r.marked, i);
      MarkedFunction(p.modules[i], Apply(p, r).modules[i], rs, r, i);
    } else {
      assert Apply(p, r).modules[i] == p.modules[i];
      ElsewhereMarked(p.modules[i], rs, r, i);
    }
  }

  lemma {:induction false} DefineAddresses(m: Module, rs: seq<Record>, r: Record, i: nat)
    requires Holds(m, rs, i) && r.Define? && AddressesOk(m, rs, i)
    ensures AddressesOk(WithMember(m, r), rs + [r], i)
  {
    var m' := WithMember(m, r);
    forall k | 0 <= k < |m'.functions| ensures Addressed(m'.functions[k], rs + [r], i, k) {
      if k < |m.functions| {
        NotMarked(m.functions[k], m'.functions[k], rs, r, i, k);
      } else {
        NoAddressBefore(rs, i, k, false);
        NoAddressBefore(rs, i, k, true);
        AddressNext(rs, r, i, k, false);
        AddressNext(rs, r, i, k, true);
      }
    }
  }

  /** The functions of a module are the same apart from their local symbols. */
  ghost predicate SameAddresses(m: Module, m': Module) {
    && |m'.functions| == |m.functions|
    && forall k :: 0 <= k < |m.functions| ==>
         m'.functions[k].start == m.functions[k].start && m'.functions[k].end == m.functions[k].end
  }

  lemma {:induction false} OtherAddresses(m: Module, m': Module, rs: seq<Record>, r: Record, i: nat)
    requires AddressesOk(m, rs, i) && !r.Mark? && SameAddresses(m, m')
    ensures AddressesOk(m', rs + [r], i)
  {
    forall k | 0 <= k < |m'.functions| ensures Addressed(m'.functions[k], rs + [r], i, k) {
      NotMarked(m.functions[k], m'.functions[k], rs, r, i, k);
    }
  }

  /** Only markers and definitions change the functions of a module apart from their local symbols. */
  lemma {:induction false} ApplyKeepsAddresses(p: Parsed, r: Record, i: nat)
    requires i < |p.modules| && !r.Mark? && (r.Define? ==> p.current != Some(i))
    ensures i < |Apply(p, r).modules| && SameAddresses(p.modules[i], Apply(p, r).modules[i])
  {
  }

  lemma {:induction false} AddressesNext(p: Parsed, rs: seq<Record>, r: Record, i: nat)
    requires AllHold(p, rs) && i < |p.modules| && AddressesOk(p.modules[i], rs, i)
    ensures i < |Apply(p, r).modules| && AddressesOk(Apply(p, r).modules[i], rs + [r], i)
  {
    if r.Mark? {
      MarkAddresses(p, rs, r, i);
    } else if r.Define? && p.current == Some(i) {
      DefineAddresses(p.modules[i], rs, r, i);
    } else {
      ApplyKeepsAddresses(p, r, i);
      OtherAddresses(p.modules[i], Apply(p, r).modules[i], rs, r, i);
    }
  }

  // ---- the whole file --------------------------------------------------------------------------

  lemma {:induction false} AllParsedHold(rs: seq<Record>)
    ensures AllHold(ApplyAll(Start(), rs), rs)
  {
    var p := ApplyAll(Start(), rs);
    ParsedModules(rs);
    forall i | 0 <= i < |p.modules| ensures Holds(p.modules[i], rs, i) {
      ParsedHolds(rs, i);
    }
  }

  lemma {:induction false} ParsedAddresses(rs: seq<Record>, i: nat)
    requires i < |ApplyAll(Start(), rs).modules|
    ensures AddressesOk(ApplyAll(Start(), rs).modules[i], rs, i)
    decreases |rs|
  {
    var before, r := rs[..|rs| - 1], rs[|rs| - 1];
    var p := ApplyAll(Start(), before);
    assert before + [r] == rs;
    ModulesStay(p, r);
    if i < |p.modules| {
      AllParsedHold(before);
      ParsedAddresses(before, i);
      AddressesNext(p, before, r, i);
    }
  }

  /** Every function of a declared module starts and ends where the last markers that route to it say, and
      nowhere if there are none: a marker goes to the first function of its name in the first module, of the
      name it gives if it gives one, that has such a function when the marker is read. */
  lemma {:induction false} AddressesAreLastMarkers(rs: seq<Record>, data: seq<Module>, i: nat, k: nat)
    requires Result(rs, data) && i < |Declared(rs)| && i < |data| && k < |data[i].functions|
    ensures data[i].functions[k].start == AddressOf(rs, i, k, false)
    ensures data[i].functions[k].end == AddressOf(rs, i, k, true)
  {
    ParsedModules(rs);
    ParsedAddresses(rs, i);
    ResultFunctions(rs, data, i);
    assert Addressed(data[i].functions[k], rs, i, k);
  }

  lemma {:induction false} ResultFunctions(rs: seq<Record>, data: seq<Module>, i: nat)
    requires Result(rs, data) && i < |Declared(rs)| && i < |data|
    ensures i < |ApplyAll(Start(), rs).modules| && data[i].functions == ApplyAll(Start(), rs).modules[i].functions
  {
    ParsedModules(rs);
  }
}
