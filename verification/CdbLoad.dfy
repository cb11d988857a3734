/** From the text of a CDB file to the answers of the source index. */
module CdbLoad {
  import opened Text
  import opened Z80
  import opened Util
  import opened SourceData
  import opened CdbParser
  import opened CdbTheorems
  import opened CdbContents
  import opened SourceIndex
  import opened CdbFiles
  import CdbText

  /** The lines of module `i`; the stubs behind the declared modules have none. */
  function ModuleLines(rs: seq<Record>, i: nat): seq<Line> {
    if i < |Declared(rs)| then LinesOf(rs, i) else []
  }

  /** The source lines of the first `n` modules, module by module and in file order in each. */
  function TextRecs(resolve: Resolver, rs: seq<Record>, n: nat): seq<Rec> {
    if n == 0 then [] else TextRecs(resolve, rs, n - 1) + LineRecs(resolve, ModuleLines(rs, n - 1))
  }

  lemma NoLines(resolve: Resolver, recs: seq<Rec>)
    ensures recs + LineRecs(resolve, []) == recs
  {
  }

  lemma {:induction false} LinesHeld(rs: seq<Record>, data: seq<Module>, i: nat)
    requires Result(rs, data) && i < |data|
    ensures data[i].lines == ModuleLines(rs, i)
  {
    ContentsInOrder(rs, data, i);
  }

  lemma {:induction false} StubsAddNothing(resolve: Resolver, rs: seq<Record>, n: nat)
    requires n >= |Declared(rs)|
    ensures TextRecs(resolve, rs, n) == TextRecs(resolve, rs, |Declared(rs)|)
    decreases n
  {
    if n > |Declared(rs)| {
      StubsAddNothing(resolve, rs, n - 1);
      NoLines(resolve, TextRecs(resolve, rs, n - 1));
    }
  }

  lemma {:induction false} IndexReadsText(resolve: Resolver, rs: seq<Record>, its: seq<Iterated>)
    requires forall i :: 0 <= i < |its| ==> its[i].info.lines == ModuleLines(rs, i)
    ensures CdbRecs(resolve, its) == TextRecs(resolve, rs, |its|)
    decreases |its|
  {
    if its != [] {
      IndexReadsText(resolve, rs, its[..|its| - 1]);
    }
  }

  /** What the index reads from the parsed modules is what the records of the file say. */
  lemma {:induction false} WholeIndexReadsText(resolve: Resolver, rs: seq<Record>, data: seq<Module>, its: seq<Iterated>)
    requires Result(rs, data) && Iterates(its, data)
    ensures CdbRecs(resolve, its) == TextRecs(resolve, rs, |Declared(rs)|)
  {
    ModulesInOrder(rs, data);
    forall i | 0 <= i < |its| ensures its[i].info.lines == ModuleLines(rs, i) {
      LinesHeld(rs, data, i);
    }
    IndexReadsText(resolve, rs, its);
    StubsAddNothing(resolve, rs, |its|);
  }

  /** A hash map hands out its keys in some order, each exactly once. */
  method KeysInSomeOrder<K(==, !new), V>(m: map<K, V>) returns (keys: seq<K>)
    ensures forall k :: k in m <==> k in keys
    ensures forall i, j :: 0 <= i < j < |keys| ==> keys[i] != keys[j]
  {
    keys := [];
    var left := m.Keys;
    while left != {}
      invariant left <= m.Keys
      invariant forall k :: k in keys <==> k in m && k !in left
      invariant forall i, j :: 0 <= i < j < |keys| ==> keys[i] != keys[j]
      decreases left
    {
      var key :| key in left;
      keys := keys + [key];
      left := left - {key};
    }
  }

  method IterateLines(m: Module) returns (it: Iterated)
    ensures it.info == m && IteratesAll(it)
  {
    var keys := KeysInSomeOrder(m.asmLines);
    it := Iterated(m, []);
    var i := 0;
    while i < |keys|
      invariant i <= |keys| && it.info == m && |it.asmLines| == i
      invariant forall k :: 0 <= k < i ==> it.asmLines[k] == AsmLine(keys[k], m.asmLines[keys[k]])
    {
      it := Iterated(m, it.asmLines + [AsmLine(keys[i], m.asmLines[keys[i]])]);
      i := i + 1;
    }
    forall k | k in m.asmLines ensures AsmLine(k, m.asmLines[k]) in it.asmLines {
      var p :| 0 <= p < |keys| && keys[p] == k;
      assert it.asmLines[p] == AsmLine(k, m.asmLines[k]);
    }
  }

  method IterateModules(data: seq<Module>) returns (its: seq<Iterated>)
    ensures Iterates(its, data)
  {
    its := [];
    var i := 0;
    while i < |data|
      invariant i <= |data| && |its| == i
      invariant forall k :: 0 <= k < i ==> its[k].info == data[k] && IteratesAll(its[k])
    {
      var it := IterateLines(data[i]);
      its := its + [it];
      i := i + 1;
    }
  }

  /** Launch: the CDB file is parsed and its modules handed to the index.  Afterwards a lookup gives the last
      source line at an address, in the order of the modules' declarations and of the file, and the MAP
      symbols where there is none; and the assembly lines of modules that are not declared are in the index. */
  method LoadCdb(parser: Parser, index: Index, lines: seq<string>)
    modifies parser, index
    ensures index.Valid() && index.symbols == old(index.symbols)
    ensures Result(ReadAll(lines), parser.data) && Iterates(index.modules, parser.data)
    ensures var rs := ReadAll(lines);
      SourceAgrees(index.sourceByAddr, TextRecs(index.resolve, rs, |Declared(rs)|), MapRecs(index.resolve, index.symbols))
    ensures AllUndeclaredIndexed(index.resolve, ReadAll(lines), index.modules)
  {
    parser.Parse(lines);
    var its := IterateModules(parser.data);
    index.SetCdbModules(its);
    WholeIndexReadsText(index.resolve, ReadAll(lines), parser.data, its);
    UndeclaredAreIndexed(index.resolve, ReadAll(lines), parser.data, its);
  }

  // ---- which addresses have a source line ----------------------------------------------------

  /** Some source line of the first `n` modules has the record `r`. */
  ghost predicate HasLine(resolve: Resolver, rs: seq<Record>, n: nat, r: Rec) {
    exists i, l :: 0 <= i < n && l in ModuleLines(rs, i) && r == LineRec(resolve, l)
  }

  lemma {:induction false} TextRecIsLine(resolve: Resolver, rs: seq<Record>, n: nat, r: Rec)
    ensures r in TextRecs(resolve, rs, n) <==> HasLine(resolve, rs, n, r)
    decreases n
  {
    if n > 0 {
      TextRecIsLine(resolve, rs, n - 1, r);
      LineRecIsLine(resolve, ModuleLines(rs, n - 1), r);
      if HasLine(resolve, rs, n - 1, r) {
        var i, l :| 0 <= i < n - 1 && l in ModuleLines(rs, i) && r == LineRec(resolve, l);
        assert 0 <= i < n && l in ModuleLines(rs, i);
      }
    }
  }

  lemma LineRecIsLine(resolve: Resolver, ls: seq<Line>, r: Rec)
    ensures r in LineRecs(resolve, ls) <==> exists l :: l in ls && r == LineRec(resolve, l)
  {
    var recs := LineRecs(resolve, ls);
    if r in recs {
      var k :| 0 <= k < |recs| && recs[k] == r;
      assert ls[k] in ls && r == LineRec(resolve, ls[k]);
    }
    if l :| l in ls && r == LineRec(resolve, l) {
      var k :| 0 <= k < |ls| && ls[k] == l;
      assert recs[k] == r;
    }
  }

  lemma {:induction false} RouteInFound(names: seq<string>, name: string)
    ensures name in names <==> RouteIn(names, name) < |names|
  {
    if name in names {
      var k :| 0 <= k < |names| && names[k] == name;
      assert FirstName(names, name, 0) <= k;
    } else if names != [] {
      assert names[|names| - 1] in names;
    }
  }

  ghost predicate InSomeModule(rs: seq<Record>, l: Line) {
    exists i :: 0 <= i < |Declared(rs)| && l in LinesOf(rs, i)
  }

  lemma {:induction false} StaysInModule(before: seq<Record>, r: Record, l: Line)
    requires InSomeModule(before, l)
    ensures InSomeModule(before + [r], l)
  {
    var i :| 0 <= i < |Declared(before)| && l in LinesOf(before, i);
    NextRecord(before, r);
    LinesNext(before, r, i);
    assert 0 <= i < |Declared(before + [r])| && l in LinesOf(before + [r], i);
  }

  lemma {:induction false} GoesToModule(before: seq<Record>, l: Line)
    requires Owner(l.file) in Declared(before)
    ensures InSomeModule(before + [Source(l)], l)
  {
    var i := RouteIn(Declared(before), Owner(l.file));
    RouteInFound(Declared(before), Owner(l.file));
    NextRecord(before, Source(l));
    LinesNext(before, Source(l), i);
    assert 0 <= i < |Declared(before + [Source(l)])| && l in LinesOf(before + [Source(l)], i);
  }

  lemma {:induction false} ComesFrom(before: seq<Record>, r: Record, l: Line)
    requires InSomeModule(before + [r], l)
    ensures InSomeModule(before, l) || (r == Source(l) && Owner(l.file) in Declared(before))
  {
    var i :| 0 <= i < |Declared(before + [r])| && l in LinesOf(before + [r], i);
    NextRecord(before, r);
    LinesNext(before, r, i);
    if l in LinesOf(before, i) {
      if i >= |Declared(before)| {
        NothingBefore(before, i);
      }
      assert 0 <= i < |Declared(before)|;
    } else {
      RouteInFound(Declared(before), Owner(l.file));
    }
  }

  /** The accepted source lines are those of the declared modules. */
  lemma {:induction false} AcceptedIsRouted(rs: seq<Record>, l: Line)
    ensures l in Accepted(rs) <==> InSomeModule(rs, l)
    decreases |rs|
  {
    if rs != [] {
      var before, r := rs[..|rs| - 1], rs[|rs| - 1];
      AcceptedIsRouted(before, l);
      assert before + [r] == rs;
      NextRecord(before, r);
      if InSomeModule(before, l) {
        StaysInModule(before, r, l);
      } else if r == Source(l) && Owner(l.file) in Declared(before) {
        GoesToModule(before, l);
      } else if InSomeModule(rs, l) {
        ComesFrom(before, r, l);
      }
    }
  }

  /** End to end, for the text of a whole file, with lines of any other kind among them: an address has a source location if and only if a
      source line was recorded for it whose file names a module declared so far, and the location is that of
      such a line. */
  lemma {:induction false} LookupFromText(es: seq<CdbText.Entry>, endings: seq<string>, resolve: Resolver, a: word)
    requires |endings| == |es| && (forall e :: e in es ==> CdbText.WellFormed(e)) && forall x :: x in endings ==> AllBlank(x)
    ensures var rs := ReadAll(CdbText.Lines(es, endings)); var accepted := Accepted(CdbText.Meanings(es));
      var found := LastRec(TextRecs(resolve, rs, |Declared(rs)|), a);
      && (found.Some? <==> exists l :: l in accepted && l.address == a)
      && (found.Some? ==> exists l :: l in accepted && LineRec(resolve, l) == Rec(a, found.value))
  {
    CdbText.FileReads(es, endings);
    LookupFinds(CdbText.Meanings(es), resolve, a);
  }

  lemma {:induction false} FoundIsAccepted(rs: seq<Record>, resolve: Resolver, a: word)
    requires LastRec(TextRecs(resolve, rs, |Declared(rs)|), a).Some?
    ensures exists l :: l in Accepted(rs) && LineRec(resolve, l) == Rec(a, LastRec(TextRecs(resolve, rs, |Declared(rs)|), a).value)
  {
    var recs := TextRecs(resolve, rs, |Declared(rs)|);
    LastRecIsLast(recs, a);
    var k :| 0 <= k < |recs| && recs[k] == Rec(a, LastRec(recs, a).value);
    TextRecIsLine(resolve, rs, |Declared(rs)|, recs[k]);
    var i, l :| 0 <= i < |Declared(rs)| && l in ModuleLines(rs, i) && recs[k] == LineRec(resolve, l);
    assert InSomeModule(rs, l);
    AcceptedIsRouted(rs, l);
    assert l in Accepted(rs) && LineRec(resolve, l) == Rec(a, LastRec(recs, a).value);
  }

  lemma {:induction false} AcceptedIsFound(rs: seq<Record>, resolve: Resolver, l: Line)
    requires l in Accepted(rs)
    ensures LastRec(TextRecs(resolve, rs, |Declared(rs)|), l.address).Some?
  {
    var recs := TextRecs(resolve, rs, |Declared(rs)|);
    AcceptedIsRouted(rs, l);
    var i :| 0 <= i < |Declared(rs)| && l in LinesOf(rs, i);
    assert l in ModuleLines(rs, i);
    assert HasLine(resolve, rs, |Declared(rs)|, LineRec(resolve, l));
    TextRecIsLine(resolve, rs, |Declared(rs)|, LineRec(resolve, l));
    LastRecIsLast(recs, l.address);
  }

  lemma {:induction false} LookupFinds(rs: seq<Record>, resolve: Resolver, a: word)
    ensures var found := LastRec(TextRecs(resolve, rs, |Declared(rs)|), a);
      && (found.Some? <==> exists l :: l in Accepted(rs) && l.address == a)
      && (found.Some? ==> exists l :: l in Accepted(rs) && LineRec(resolve, l) == Rec(a, found.value))
  {
    if LastRec(TextRecs(resolve, rs, |Declared(rs)|), a).Some? {
      FoundIsAccepted(rs, resolve, a);
    }
    if l :| l in Accepted(rs) && l.address == a {
      AcceptedIsFound(rs, resolve, l);
    }
  }
}
