/** What the source index makes of paths, of MAP symbols and of the lines of assembly modules. */
module SourceNames {
  import opened Text
  import opened Z80
  import opened SourceData
  import opened SourceIndex

  // ---- paths --------------------------------------------------------------------------

  lemma AfterLastIs(s: string, c: char, before: string, after: string)
    requires s == before + [c] + after && c !in after
    ensures AfterLast(s, c) == |before| + 1
  {
    assert s[|before|] == c;
    assert forall k :: |before| + 1 <= k < |s| ==> s[k] == after[k - |before| - 1];
  }

  /** The file name is what follows the last slash of a path. */
  lemma FileNameOf(dir: string, name: string)
    requires '/' !in name
    ensures FileName(name) == name && FileName(dir + "/" + name) == name
  {
    var path := dir + "/" + name;
    AfterLastIs(path, '/', dir, name);
    assert path[|dir| + 1..] == name;
  }

  /** A name with a dot that does not begin it is a stem and an extension, cut at the last dot; `..` is neither. */
  lemma StemAndExtension(path: string, base: string, ext: string)
    requires FileName(path) == base + "." + ext && base != "" && '.' !in ext && FileName(path) != ".."
    ensures Stem(path) == base && Extension(path) == "." + ext
  {
    var name := FileName(path);
    AfterLastIs(name, '.', base, ext);
    assert name[..|base|] == base && name[|base|..] == "." + ext;
  }

  /** A name without a dot, or with only the one that begins it, is a stem. */
  lemma StemWithoutExtension(path: string)
    requires FileName(path) == ".." || forall k :: 0 < k < |FileName(path)| ==> FileName(path)[k] != '.'
    ensures Stem(path) == FileName(path) && Extension(path) == ""
  {
  }

  // ---- MAP symbols ----------------------------------------------------------------------

  lemma {:induction false} MapSourceParts(name: string, p1: nat, p2: nat, file: string, digits: string, line: int, address: nat)
    requires 4 <= |name| && name[0] == 'C' && name[1] == '$' && 2 <= p1 < p2 < |name|
    requires Find(name, '$', 2) == p1 && Find(name, '$', p1 + 1) == p2
    requires name[2..p1] == file && name[p1 + 1..p2] == digits && Stoi(digits) == Some(line)
    ensures MapSource(Symbol(name, address)) == Some((file, line))
  {
  }

  function LineSymbol(file: string, digits: string, rest: string): string {
    "C$" + (file + ("$" + (digits + ("$" + rest))))
  }

  lemma {:induction false} TwoTokens(s: string, file: string, digits: string, rest: string)
    requires '$' !in file && '$' !in digits && s == LineSymbol(file, digits, rest)
    ensures var p1 := 2 + |file|; var p2 := p1 + 1 + |digits|;
      && 4 <= |s| && p2 < |s| && s[0] == 'C' && s[1] == '$'
      && Find(s, '$', 2) == p1 && s[2..p1] == file && Find(s, '$', p1 + 1) == p2 && s[p1 + 1..p2] == digits
  {
    var tail := digits + ("$" + rest);
    DollarAfter("C$", file, tail);
    Assoc("C$", file, "$" + tail);
    Assoc("C$" + file, "$", tail);
    DollarAfter("C$" + file + "$", digits, rest);
  }

  lemma {:induction false} MapSourceDigits(s: Symbol, file: string, digits: string, rest: string, line: int)
    requires '$' !in file && '$' !in digits && s.name == LineSymbol(file, digits, rest)
    requires Stoi(digits) == Some(line)
    ensures MapSource(s) == Some((file, line))
  {
    var p1 := 2 + |file|;
    TwoTokens(s.name, file, digits, rest);
    MapSourceParts(s.name, p1, p1 + 1 + |digits|, file, digits, line, s.address);
  }

  /** A line symbol holds the file and the line between its first three dollars. */
  lemma {:induction false} MapSourceReads(s: Symbol, file: string, line: nat, rest: string)
    requires '$' !in file && line <= INT_MAX && s.name == LineSymbol(file, Decimal(line), rest)
    ensures MapSource(s) == Some((file, line))
  {
    DecimalHasNoDollar(line);
    StoiPlain(line);
    MapSourceDigits(s, file, Decimal(line), rest, line);
  }

  lemma DecimalHasNoDollar(n: nat)
    ensures '$' !in Decimal(n)
  {
  }

  lemma {:induction false} DollarAfter(before: string, token: string, rest: string)
    ensures var s := before + (token + ("$" + rest)); var end := |before| + |token|;
      '$' !in token ==> Find(s, '$', |before|) == end && s[|before|..end] == token
  {
    var s, end := before + (token + ("$" + rest)), |before| + |token|;
    assert forall k :: |before| <= k < end ==> s[k] == token[k - |before|];
    assert s[end] == '$';
  }

  /** Any other symbol is none. */
  lemma OtherSymbolIsNoSource(s: Symbol)
    requires |s.name| < 4 || s.name[..2] != "C$"
    ensures MapSource(s).None?
  {
    assert |s.name| >= 4 ==> s.name[..2] == [s.name[0], s.name[1]];
  }

  // ---- assembly lines ---------------------------------------------------------------------

  /** The module is for an assembly file and has this line at this address. */
  ghost predicate HasAsmLine(m: Iterated, line: int, a: word) {
    Extension(m.info.file) in {".s", ".asm"} && line in m.info.asmLines && m.info.asmLines[line] == a
  }

  lemma {:induction false} AsmOfIs(m: Iterated, line: int, a: word)
    requires IteratesAll(m)
    ensures AsmLine(line, a) in AsmOf(m) <==> HasAsmLine(m, line, a)
  {
    if AsmLine(line, a) in m.asmLines {
      var i :| 0 <= i < |m.asmLines| && m.asmLines[i] == AsmLine(line, a);
    }
  }

  lemma AsmRecsHave(resolve: Resolver, m: Iterated, ls: seq<AsmLine>, l: AsmLine)
    requires l in ls
    ensures AsmRec(resolve, m, l) in AsmRecs(resolve, m, ls) && AsmNamed(m, l) in AsmNames(m, ls)
  {
    var i :| 0 <= i < |ls| && ls[i] == l;
    assert AsmRecs(resolve, m, ls)[i] == AsmRec(resolve, m, l) && AsmNames(m, ls)[i] == AsmNamed(m, l);
  }

  /** Every line of an assembly module is a record at its address, in the module's file, and under its name. */
  lemma {:induction false} AsmLineIsIndexed(resolve: Resolver, ms: seq<Iterated>, i: nat, line: int, a: word)
    requires i < |ms| && IteratesAll(ms[i]) && HasAsmLine(ms[i], line, a)
    ensures Rec(a, Location(Resolved(resolve, ms[i].info.file), line, true)) in CdbAsm(resolve, ms)
    ensures Named(ms[i].info.name, line, a) in CdbNames(resolve, ms)
    decreases |ms|
  {
    var init, m := ms[..|ms| - 1], ms[|ms| - 1];
    if i < |init| {
      assert init[i] == ms[i];
      AsmLineIsIndexed(resolve, init, i, line, a);
    } else {
      AsmOfIs(m, line, a);
      AsmRecsHave(resolve, m, AsmOf(m), AsmLine(line, a));
    }
  }

  ghost predicate IsAsmRecord(resolve: Resolver, m: Iterated, line: int, r: Rec) {
    HasAsmLine(m, line, r.address) && r.location == Location(Resolved(resolve, m.info.file), line, true)
  }

  /** And nothing else is. */
  lemma {:induction false} AsmRecordIsLine(resolve: Resolver, ms: seq<Iterated>, r: Rec)
    requires (forall m :: m in ms ==> IteratesAll(m)) && r in CdbAsm(resolve, ms)
    ensures exists i, line :: 0 <= i < |ms| && IsAsmRecord(resolve, ms[i], line, r)
    decreases |ms|
  {
    var init, m := ms[..|ms| - 1], ms[|ms| - 1];
    if r in CdbAsm(resolve, init) {
      AsmRecordIsLine(resolve, init, r);
      var i, line :| 0 <= i < |init| && IsAsmRecord(resolve, init[i], line, r);
      assert IsAsmRecord(resolve, ms[i], line, r);
    } else {
      var k :| 0 <= k < |AsmOf(m)| && AsmRecs(resolve, m, AsmOf(m))[k] == r;
      AsmOfIs(m, AsmOf(m)[k].line, r.address);
      assert IsAsmRecord(resolve, ms[|ms| - 1], AsmOf(m)[k].line, r);
    }
  }

  /** An address with an assembly line and no C line is in the assembly file. */
  lemma {:induction false} AsmLocationFound(resolve: Resolver, ms: seq<Iterated>, a: word)
    requires forall m :: m in ms ==> IteratesAll(m)
    ensures FirstRec(CdbAsm(resolve, ms), a).Some? <==> exists i, line :: 0 <= i < |ms| && HasAsmLine(ms[i], line, a)
    ensures FirstRec(CdbAsm(resolve, ms), a).Some? ==> FirstRec(CdbAsm(resolve, ms), a).value.isAsm
  {
    var recs := CdbAsm(resolve, ms);
    FirstRecIsFirst(recs, a);
    if FirstRec(recs, a).Some? {
      var k :| 0 <= k < |recs| && recs[k] == Rec(a, FirstRec(recs, a).value);
      AsmRecordIsLine(resolve, ms, recs[k]);
      var i, line :| 0 <= i < |ms| && IsAsmRecord(resolve, ms[i], line, recs[k]);
      assert HasAsmLine(ms[i], line, a);
    }
    if i, line :| 0 <= i < |ms| && HasAsmLine(ms[i], line, a) {
      AsmLineIsIndexed(resolve, ms, i, line, a);
    }
  }

  lemma {:induction false} RecFound(rs: seq<Rec>, r: Rec)
    requires r in rs
    ensures FirstRec(rs, r.address).Some?
  {
    FirstRecIsFirst(rs, r.address);
  }

  lemma {:induction false} NamedFound(ns: seq<Named>, n: Named)
    requires n in ns
    ensures FirstNamed(ns, n.name, n.line).Some?
  {
    FirstNamedIsFirst(ns, n.name, n.line);
  }

  // ---- which record wins ----------------------------------------------------------------------

  /** The address of the first C line of that file name and number. */
  function FirstLine(resolve: Resolver, ls: seq<Line>, name: string, line: int): Option<word> {
    if ls == [] then None
    else if FileName(Resolved(resolve, ls[0].file)) == name && ls[0].line == line then Some(ls[0].address)
    else FirstLine(resolve, ls[1..], name, line)
  }

  /** In one module an assembly line, under the module's own name, goes before C lines. */
  function InModule(resolve: Resolver, m: Module, name: string, line: int): Option<word> {
    if m.name == name && Extension(m.file) in {".s", ".asm"} && line in m.asmLines then Some(m.asmLines[line])
    else FirstLine(resolve, m.lines, name, line)
  }

  /** Modules in the order in which they were loaded. */
  function InModules(resolve: Resolver, ms: seq<Module>, name: string, line: int): Option<word> {
    if ms == [] then None
    else if InModule(resolve, ms[0], name, line).Some? then InModule(resolve, ms[0], name, line)
    else InModules(resolve, ms[1..], name, line)
  }

  /** MAP symbols, also in order, keep the file name that is in them. */
  function InSymbols(ss: seq<Symbol>, name: string, line: int): Option<word> {
    if ss == [] then None
    else
      var source := MapSource(ss[0]);
      if source.Some? && FileName(source.value.0) == name && source.value.1 == line then Some(ss[0].address % 0x10000)
      else InSymbols(ss[1..], name, line)
  }

  function Infos(ms: seq<Iterated>): seq<Module> {
    seq(|ms|, i requires 0 <= i < |ms| => ms[i].info)
  }

  lemma {:induction false} FirstNamedAppend(a: seq<Named>, b: seq<Named>, name: string, line: int)
    ensures FirstNamed(a + b, name, line)
      == if FirstNamed(a, name, line).Some? then FirstNamed(a, name, line) else FirstNamed(b, name, line)
    decreases |b|
  {
    if b == [] {
      assert a + b == a;
    } else {
      assert (a + b)[..|a + b| - 1] == a + b[..|b| - 1];
      FirstNamedAppend(a, b[..|b| - 1], name, line);
    }
  }

  lemma {:induction false} OneNamed(n: Named, name: string, line: int)
    ensures FirstNamed([n], name, line) == if n.name == name && n.line == line then Some(n.address) else None
  {
    assert [n][..0] == [];
  }

  lemma {:induction false} LinesInOrder(resolve: Resolver, ls: seq<Line>, name: string, line: int)
    ensures FirstNamed(LineNames(resolve, ls), name, line) == FirstLine(resolve, ls, name, line)
    decreases |ls|
  {
    if ls != [] {
      var n := LineNamed(resolve, ls[0]);
      assert LineNames(resolve, ls) == [n] + LineNames(resolve, ls[1..]);
      FirstNamedAppend([n], LineNames(resolve, ls[1..]), name, line);
      OneNamed(n, name, line);
      LinesInOrder(resolve, ls[1..], name, line);
    }
  }

  lemma {:induction false} AsmNameIs(m: Iterated, line: int, a: word)
    requires IteratesAll(m)
    ensures Named(m.info.name, line, a) in AsmNames(m, AsmOf(m)) <==> HasAsmLine(m, line, a)
  {
    AsmOfIs(m, line, a);
    if AsmLine(line, a) in AsmOf(m) {
      AsmRecsHave(_ => None, m, AsmOf(m), AsmLine(line, a));
    }
  }

  lemma {:induction false} AsmLinesByName(m: Iterated, name: string, line: int)
    requires IteratesAll(m)
    ensures FirstNamed(AsmNames(m, AsmOf(m)), name, line)
      == if m.info.name == name && Extension(m.info.file) in {".s", ".asm"} && line in m.info.asmLines
         then Some(m.info.asmLines[line]) else None
  {
    var names := AsmNames(m, AsmOf(m));
    FirstNamedIsFirst(names, name, line);
    if FirstNamed(names, name, line).Some? {
      AsmNameIs(m, line, FirstNamed(names, name, line).value);
    }
    if line in m.info.asmLines {
      AsmNameIs(m, line, m.info.asmLines[line]);
    }
  }

  lemma {:induction false} InModulesAppend(resolve: Resolver, ms: seq<Module>, m: Module, name: string, line: int)
    ensures InModules(resolve, ms + [m], name, line)
      == if InModules(resolve, ms, name, line).Some? then InModules(resolve, ms, name, line)
         else InModule(resolve, m, name, line)
    decreases |ms|
  {
    var all := ms + [m];
    if ms == [] {
      assert all[1..] == [] && all[0] == m;
    } else {
      assert all[1..] == ms[1..] + [m] && all[0] == ms[0];
      InModulesAppend(resolve, ms[1..], m, name, line);
    }
  }

  lemma {:induction false} ModuleAdded(resolve: Resolver, before: seq<Named>, ms: seq<Module>, asm: seq<Named>, lines: seq<Named>,
                                       m: Module, name: string, line: int)
    requires FirstNamed(before, name, line) == InModules(resolve, ms, name, line)
    requires InModule(resolve, m, name, line)
      == if FirstNamed(asm, name, line).Some? then FirstNamed(asm, name, line) else FirstNamed(lines, name, line)
    ensures FirstNamed(before + asm + lines, name, line) == InModules(resolve, ms + [m], name, line)
  {
    FirstNamedAppend(before + asm, lines, name, line);
    FirstNamedAppend(before, asm, name, line);
    InModulesAppend(resolve, ms, m, name, line);
  }

  lemma InfosNext(ms: seq<Iterated>, i: nat)
    requires i < |ms|
    ensures Infos(ms)[..i + 1] == Infos(ms)[..i] + [ms[i].info]
  {
  }

  lemma {:induction false} ModulesByName(resolve: Resolver, ms: seq<Iterated>, i: nat, name: string, line: int)
    requires i <= |ms| && forall k :: 0 <= k < i ==> IteratesAll(ms[k])
    ensures FirstNamed(CdbNames(resolve, ms[..i]), name, line) == InModules(resolve, Infos(ms)[..i], name, line)
    decreases i, ms
  {
    if i > 0 {
      var k := i - 1;
      var m := ms[k];
      ModulesByName(resolve, ms, k, name, line);
      AsmLinesByName(m, name, line);
      LinesInOrder(resolve, m.info.lines, name, line);
      ModuleAdded(resolve, CdbNames(resolve, ms[..k]), Infos(ms)[..k], AsmNames(m, AsmOf(m)), LineNames(resolve, m.info.lines),
                  m.info, name, line);
      ModulesNext(resolve, ms, k);
      InfosNext(ms, k);
    }
  }

  lemma {:induction false} SymbolsAppend(ss: seq<Symbol>, s: Symbol, name: string, line: int)
    ensures InSymbols(ss + [s], name, line)
      == if InSymbols(ss, name, line).Some? then InSymbols(ss, name, line) else InSymbols([s], name, line)
    decreases |ss|
  {
    var all := ss + [s];
    if ss == [] {
      assert all == [s];
    } else {
      assert all[1..] == ss[1..] + [s] && all[0] == ss[0];
      SymbolsAppend(ss[1..], s, name, line);
    }
  }

  lemma {:induction false} SymbolsByName(ss: seq<Symbol>, name: string, line: int)
    ensures FirstNamed(MapNames(ss), name, line) == InSymbols(ss, name, line)
    decreases |ss|
  {
    if ss != [] {
      var init, s := ss[..|ss| - 1], ss[|ss| - 1];
      SymbolsByName(init, name, line);
      assert init + [s] == ss;
      SymbolsAppend(init, s, name, line);
      assert [s][1..] == [];
      if MapSource(s).Some? {
        var n := Named(FileName(MapSource(s).value.0), MapSource(s).value.1, s.address % 0x10000);
        FirstNamedAppend(MapNames(init), [n], name, line);
        OneNamed(n, name, line);
      } else {
        assert MapNames(init) + [] == MapNames(init);
      }
    }
  }

  /** Of the records for a name and a line the CDB file's go before the MAP file's, earlier modules before later
      ones, and in a module its assembly line before its C lines. */
  lemma {:induction false} AddressOrder(resolve: Resolver, ms: seq<Iterated>, ss: seq<Symbol>, name: string, line: int)
    requires forall m :: m in ms ==> IteratesAll(m)
    ensures FirstNamed(CdbNames(resolve, ms) + MapNames(ss), name, line)
      == if InModules(resolve, Infos(ms), name, line).Some? then InModules(resolve, Infos(ms), name, line)
         else InSymbols(ss, name, line)
  {
    FirstNamedAppend(CdbNames(resolve, ms), MapNames(ss), name, line);
    ModulesByName(resolve, ms, |ms|, name, line);
    assert ms[..|ms|] == ms && Infos(ms)[..|ms|] == Infos(ms);
    SymbolsByName(ss, name, line);
  }

  /** The last C line at an address, in the last module that has one. */
  function LatestLine(ms: seq<Module>, a: word): Option<Line> {
    if ms == [] then None
    else if LastLine(ms[|ms| - 1].lines, a).Some? then LastLine(ms[|ms| - 1].lines, a)
    else LatestLine(ms[..|ms| - 1], a)
  }

  function LastLine(ls: seq<Line>, a: word): Option<Line> {
    if ls == [] then None
    else if ls[|ls| - 1].address == a then Some(ls[|ls| - 1])
    else LastLine(ls[..|ls| - 1], a)
  }

  function Place(resolve: Resolver, l: Option<Line>): Option<Location> {
    if l.None? then None else Some(Location(Resolved(resolve, l.value.file), l.value.line, false))
  }

  lemma {:induction false} LastRecAppend(a: seq<Rec>, b: seq<Rec>, at: word)
    ensures LastRec(a + b, at) == if LastRec(b, at).Some? then LastRec(b, at) else LastRec(a, at)
    decreases |b|
  {
    if b == [] {
      assert a + b == a;
    } else {
      assert (a + b)[..|a + b| - 1] == a + b[..|b| - 1];
      LastRecAppend(a, b[..|b| - 1], at);
    }
  }

  lemma {:induction false} LinesAtAddress(resolve: Resolver, ls: seq<Line>, a: word)
    ensures LastRec(LineRecs(resolve, ls), a) == Place(resolve, LastLine(ls, a))
    decreases |ls|
  {
    if ls != [] {
      var recs := LineRecs(resolve, ls);
      assert recs[..|recs| - 1] == LineRecs(resolve, ls[..|ls| - 1]);
      LinesAtAddress(resolve, ls[..|ls| - 1], a);
    }
  }

  /** The source line at an address is the last one in load order, under the path that its file resolves to. */
  lemma {:induction false} SourceOrder(resolve: Resolver, ms: seq<Iterated>, a: word)
    ensures LastRec(CdbRecs(resolve, ms), a) == Place(resolve, LatestLine(Infos(ms), a))
    decreases |ms|
  {
    if ms != [] {
      var init, m := ms[..|ms| - 1], ms[|ms| - 1];
      SourceOrder(resolve, init, a);
      LastRecAppend(CdbRecs(resolve, init), LineRecs(resolve, m.info.lines), a);
      LinesAtAddress(resolve, m.info.lines, a);
      assert Infos(ms)[..|ms| - 1] == Infos(init);
    }
  }

  /** The place of the first MAP line symbol at an address. */
  function FirstPlace(resolve: Resolver, ss: seq<Symbol>, a: word): Option<Location> {
    if ss == [] then None
    else if MapSource(ss[0]).Some? && ss[0].address % 0x10000 == a
    then Some(Location(Resolved(resolve, MapSource(ss[0]).value.0), MapSource(ss[0]).value.1, false))
    else FirstPlace(resolve, ss[1..], a)
  }

  lemma {:induction false} PlacesAppend(resolve: Resolver, ss: seq<Symbol>, s: Symbol, a: word)
    ensures FirstPlace(resolve, ss + [s], a)
      == if FirstPlace(resolve, ss, a).Some? then FirstPlace(resolve, ss, a) else FirstPlace(resolve, [s], a)
    decreases |ss|
  {
    var all := ss + [s];
    if ss == [] {
      assert all == [s];
    } else {
      assert all[1..] == ss[1..] + [s] && all[0] == ss[0];
      PlacesAppend(resolve, ss[1..], s, a);
    }
  }

  lemma {:induction false} RecsNext(recs: seq<Rec>, r: Rec, a: word)
    ensures FirstRec(recs + [r], a)
      == if FirstRec(recs, a).Some? then FirstRec(recs, a) else if r.address == a then Some(r.location) else None
  {
    assert (recs + [r])[..|recs|] == recs;
  }

  /** The record of a line symbol. */
  function SymbolRecs(resolve: Resolver, s: Symbol): seq<Rec> {
    if MapSource(s).None? then []
    else [Rec(s.address % 0x10000, Location(Resolved(resolve, MapSource(s).value.0), MapSource(s).value.1, false))]
  }

  lemma {:induction false} PlaceAdded(resolve: Resolver, recs: seq<Rec>, ss: seq<Symbol>, s: Symbol, a: word)
    requires FirstRec(recs, a) == FirstPlace(resolve, ss, a)
    ensures FirstRec(recs + SymbolRecs(resolve, s), a) == FirstPlace(resolve, ss + [s], a)
  {
    PlacesAppend(resolve, ss, s, a);
    assert [s][1..] == [];
    if MapSource(s).None? {
      assert recs + SymbolRecs(resolve, s) == recs;
    } else {
      RecsNext(recs, SymbolRecs(resolve, s)[0], a);
    }
  }

  lemma TakeNext(ss: seq<Symbol>, i: nat)
    requires i < |ss|
    ensures ss[..i + 1] == ss[..i] + [ss[i]]
  {
  }

  /** Without a C line in the CDB file, the first MAP line symbol at an address gives its source line. */
  lemma {:induction false} MapSourceOrder(resolve: Resolver, ss: seq<Symbol>, i: nat, a: word)
    requires i <= |ss|
    ensures FirstRec(MapRecs(resolve, ss[..i]), a) == FirstPlace(resolve, ss[..i], a)
    decreases i, ss
  {
    if i > 0 {
      var k := i - 1;
      MapSourceOrder(resolve, ss, k, a);
      SymbolsNext(resolve, ss, k);
      PlaceAdded(resolve, MapRecs(resolve, ss[..k]), ss[..k], ss[k], a);
      TakeNext(ss, k);
    }
  }
}
