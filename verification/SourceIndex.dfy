/** The address-to-source index that is rebuilt whenever CDB or MAP data arrives, against linear scans of
    that data. */
module SourceIndex {
  import opened Text
  import opened Z80
  import opened SourceData

  // ---- paths --------------------------------------------------------------------

  /** `path::filename`: what follows the last slash. */
  function FileName(path: string): string { path[AfterLast(path, '/')..] }

  /** `path::stem`: the file name up to its last dot, unless that dot begins it. */
  function Stem(path: string): string {
    var name := FileName(path);
    var dot := AfterLast(name, '.');
    if name == ".." || dot <= 1 then name else name[..dot - 1]
  }

  function Extension(path: string): string {
    var name := FileName(path);
    var dot := AfterLast(name, '.');
    if name == ".." || dot <= 1 then "" else name[dot - 1..]
  }

  // ---- data ------------------------------------------------------------------------

  // A module with its assembly lines in the order in which the hash map is iterated.
  datatype Iterated = Iterated(info: Module, asmLines: seq<AsmLine>)

  /** Each assembly line comes up exactly once. */
  ghost predicate IteratesAll(m: Iterated) {
    && (forall i :: 0 <= i < |m.asmLines| ==>
          m.asmLines[i].line in m.info.asmLines && m.info.asmLines[m.asmLines[i].line] == m.asmLines[i].address)
    && (forall k :: k in m.info.asmLines ==> AsmLine(k, m.info.asmLines[k]) in m.asmLines)
    && (forall i, j :: 0 <= i < j < |m.asmLines| ==> m.asmLines[i].line != m.asmLines[j].line)
  }

  datatype Symbol = Symbol(name: string, address: nat)

  // Where a path leads; a path that resolves to nothing stands for itself.
  type Resolver = string -> Option<string>

  function Resolved(resolve: Resolver, file: string): string {
    if resolve(file).Some? then resolve(file).value else file
  }

  /** A `C$file$line$...` symbol. */
  function MapSource(s: Symbol): Option<(string, int)> {
    if |s.name| < 4 || s.name[0] != 'C' || s.name[1] != '$' then None
    else
      var p1 := Find(s.name, '$', 2);
      if p1 == |s.name| then None
      else
        var p2 := Find(s.name, '$', p1 + 1);
        if p2 == |s.name| || Stoi(s.name[p1 + 1..p2]).None? then None
        else Some((s.name[2..p1], Stoi(s.name[p1 + 1..p2]).value))
  }

  function Key(name: string, line: int): string { name + ":" + DecimalInt(line) }

  lemma DecimalHasNoColon(n: int)
    ensures ':' !in DecimalInt(n)
  {
    if n < 0 {
      assert ':' !in Decimal(-n);
    }
  }

  lemma ColonParts(name: string, digits: string, s: string)
    requires s == name + (":" + digits) && ':' !in digits
    ensures |s| == |name| + 1 + |digits| && s[|name|] == ':'
    ensures forall k :: |name| + 1 <= k < |s| ==> s[k] != ':'
  {
    forall k | |name| + 1 <= k < |s| ensures s[k] != ':' {
      assert s[k] == digits[k - |name| - 1];
    }
  }

  lemma LastColon(name: string, digits: string)
    requires ':' !in digits
    ensures AfterLast(name + ":" + digits, ':') == |name| + 1
  {
    Assoc(name, ":", digits);
    ColonParts(name, digits, name + ":" + digits);
    OnlyAfterLast(name + ":" + digits, ':', |name| + 1);
  }

  lemma OnlyAfterLast(s: string, c: char, i: nat)
    requires 0 < i <= |s| && s[i - 1] == c && forall k :: i <= k < |s| ==> s[k] != c
    ensures AfterLast(s, c) == i
  {
  }

  /** Keys of different names or lines are different, even when names hold colons. */
  lemma KeyInjective(n1: string, l1: int, n2: string, l2: int)
    ensures Key(n1, l1) == Key(n2, l2) <==> n1 == n2 && l1 == l2
  {
    if Key(n1, l1) == Key(n2, l2) {
      DecimalHasNoColon(l1);
      DecimalHasNoColon(l2);
      LastColon(n1, DecimalInt(l1));
      LastColon(n2, DecimalInt(l2));
      assert Key(n1, l1)[..|n1|] == n1 && Key(n2, l2)[..|n2|] == n2;
      assert Key(n1, l1)[|n1| + 1..] == DecimalInt(l1) && Key(n2, l2)[|n2| + 1..] == DecimalInt(l2);
      DecimalInjective(l1, l2);
    }
  }

  // ---- the records, in load order -----------------------------------------------------

  datatype Rec = Rec(address: word, location: Location)

  datatype Named = Named(name: string, line: int, address: word)

  predicate IsAsmModule(m: Iterated) {
    Extension(m.info.file) == ".s" || Extension(m.info.file) == ".asm"
  }

  function LineRec(resolve: Resolver, l: Line): Rec {
    Rec(l.address, Location(Resolved(resolve, l.file), l.line, false))
  }

  function LineNamed(resolve: Resolver, l: Line): Named {
    Named(FileName(Resolved(resolve, l.file)), l.line, l.address)
  }

  function AsmRec(resolve: Resolver, m: Iterated, l: AsmLine): Rec {
    Rec(l.address, Location(Resolved(resolve, m.info.file), l.line, true))
  }

  function AsmNamed(m: Iterated, l: AsmLine): Named { Named(m.info.name, l.line, l.address) }

  function LineRecs(resolve: Resolver, ls: seq<Line>): seq<Rec> {
    seq(|ls|, i requires 0 <= i < |ls| => LineRec(resolve, ls[i]))
  }

  function LineNames(resolve: Resolver, ls: seq<Line>): seq<Named> {
    seq(|ls|, i requires 0 <= i < |ls| => LineNamed(resolve, ls[i]))
  }

  function AsmRecs(resolve: Resolver, m: Iterated, ls: seq<AsmLine>): seq<Rec> {
    seq(|ls|, i requires 0 <= i < |ls| => AsmRec(resolve, m, ls[i]))
  }

  function AsmNames(m: Iterated, ls: seq<AsmLine>): seq<Named> {
    seq(|ls|, i requires 0 <= i < |ls| => AsmNamed(m, ls[i]))
  }

  // Only genuine assembly modules contribute their assembly lines.
  function AsmOf(m: Iterated): seq<AsmLine> { if IsAsmModule(m) then m.asmLines else [] }

  function CdbRecs(resolve: Resolver, ms: seq<Iterated>): seq<Rec> {
    if ms == [] then [] else CdbRecs(resolve, ms[..|ms| - 1]) + LineRecs(resolve, ms[|ms| - 1].info.lines)
  }

  function CdbAsm(resolve: Resolver, ms: seq<Iterated>): seq<Rec> {
    if ms == [] then []
    else CdbAsm(resolve, ms[..|ms| - 1]) + AsmRecs(resolve, ms[|ms| - 1], AsmOf(ms[|ms| - 1]))
  }

  function CdbNames(resolve: Resolver, ms: seq<Iterated>): seq<Named> {
    if ms == [] then []
    else
      var m := ms[|ms| - 1];
      CdbNames(resolve, ms[..|ms| - 1]) + AsmNames(m, AsmOf(m)) + LineNames(resolve, m.info.lines)
  }

  function MapRecs(resolve: Resolver, ss: seq<Symbol>): seq<Rec> {
    if ss == [] then []
    else
      var s := ss[|ss| - 1];
      MapRecs(resolve, ss[..|ss| - 1]) +
      if MapSource(s).None? then []
      else [Rec(s.address % 0x10000, Location(Resolved(resolve, MapSource(s).value.0), MapSource(s).value.1, false))]
  }

  function MapNames(ss: seq<Symbol>): seq<Named> {
    if ss == [] then []
    else
      var s := ss[|ss| - 1];
      MapNames(ss[..|ss| - 1]) +
      if MapSource(s).None? then []
      else [Named(FileName(MapSource(s).value.0), MapSource(s).value.1, s.address % 0x10000)]
  }

  lemma LineNext(resolve: Resolver, ls: seq<Line>, i: nat)
    requires i < |ls|
    ensures LineRecs(resolve, ls[..i + 1]) == LineRecs(resolve, ls[..i]) + [LineRec(resolve, ls[i])]
    ensures LineNames(resolve, ls[..i + 1]) == LineNames(resolve, ls[..i]) + [LineNamed(resolve, ls[i])]
  {
  }

  lemma AsmNext(resolve: Resolver, m: Iterated, ls: seq<AsmLine>, i: nat)
    requires i < |ls|
    ensures AsmRecs(resolve, m, ls[..i + 1]) == AsmRecs(resolve, m, ls[..i]) + [AsmRec(resolve, m, ls[i])]
    ensures AsmNames(m, ls[..i + 1]) == AsmNames(m, ls[..i]) + [AsmNamed(m, ls[i])]
  {
  }

  lemma {:induction false} ModulesNext(resolve: Resolver, ms: seq<Iterated>, i: nat)
    requires i < |ms|
    ensures CdbRecs(resolve, ms[..i + 1]) == CdbRecs(resolve, ms[..i]) + LineRecs(resolve, ms[i].info.lines)
    ensures CdbAsm(resolve, ms[..i + 1]) == CdbAsm(resolve, ms[..i]) + AsmRecs(resolve, ms[i], AsmOf(ms[i]))
    ensures CdbNames(resolve, ms[..i + 1])
      == CdbNames(resolve, ms[..i]) + AsmNames(ms[i], AsmOf(ms[i])) + LineNames(resolve, ms[i].info.lines)
  {
    assert ms[..i + 1][..i] == ms[..i];
  }

  lemma {:induction false} SymbolsNext(resolve: Resolver, ss: seq<Symbol>, i: nat)
    requires i < |ss|
    ensures var loc := MapSource(ss[i]); var a := ss[i].address % 0x10000;
      && MapRecs(resolve, ss[..i + 1]) == MapRecs(resolve, ss[..i]) +
           (if loc.None? then [] else [Rec(a, Location(Resolved(resolve, loc.value.0), loc.value.1, false))])
      && MapNames(ss[..i + 1]) == MapNames(ss[..i]) +
           (if loc.None? then [] else [Named(FileName(loc.value.0), loc.value.1, a)])
  {
    assert ss[..i + 1][..i] == ss[..i];
  }

  // ---- linear scans ----------------------------------------------------------------------

  function FirstRec(rs: seq<Rec>, a: word): Option<Location> {
    if rs == [] then None
    else if FirstRec(rs[..|rs| - 1], a).Some? then FirstRec(rs[..|rs| - 1], a)
    else if rs[|rs| - 1].address == a then Some(rs[|rs| - 1].location)
    else None
  }

  function LastRec(rs: seq<Rec>, a: word): Option<Location> {
    if rs == [] then None
    else if rs[|rs| - 1].address == a then Some(rs[|rs| - 1].location)
    else LastRec(rs[..|rs| - 1], a)
  }

  function FirstNamed(ns: seq<Named>, name: string, line: int): Option<word> {
    if ns == [] then None
    else if FirstNamed(ns[..|ns| - 1], name, line).Some? then FirstNamed(ns[..|ns| - 1], name, line)
    else if ns[|ns| - 1].name == name && ns[|ns| - 1].line == line then Some(ns[|ns| - 1].address)
    else None
  }

  /** The last CDB line at an address, else the first MAP line there. */
  function ScanSource(cs: seq<Rec>, ms: seq<Rec>, a: word): Option<Location> {
    if LastRec(cs, a).Some? then LastRec(cs, a) else FirstRec(ms, a)
  }

  /** The first record with that file name and line, else the first with that stem. */
  function ScanAddress(ns: seq<Named>, file: string, line: int): Option<word> {
    if FirstNamed(ns, FileName(file), line).Some? then FirstNamed(ns, FileName(file), line)
    else FirstNamed(ns, Stem(file), line)
  }

  /** The scans return the first, or last, matching record and nothing but a matching record. */
  lemma {:induction false} FirstRecIsFirst(rs: seq<Rec>, a: word)
    ensures FirstRec(rs, a).None? <==> forall i :: 0 <= i < |rs| ==> rs[i].address != a
    ensures FirstRec(rs, a).Some? ==> exists i ::
      0 <= i < |rs| && rs[i] == Rec(a, FirstRec(rs, a).value) && forall j :: 0 <= j < i ==> rs[j].address != a
  {
    if rs != [] {
      var init := rs[..|rs| - 1];
      assert forall j :: 0 <= j < |init| ==> init[j] == rs[j];
      FirstRecIsFirst(init, a);
      if FirstRec(init, a).Some? {
        var i :| 0 <= i < |init| && init[i] == Rec(a, FirstRec(init, a).value) && forall j :: 0 <= j < i ==> init[j].address != a;
        assert rs[i] == init[i];
      } else if rs[|rs| - 1].address == a {
        assert rs[|rs| - 1] == Rec(a, FirstRec(rs, a).value);
      }
    }
  }

  lemma {:induction false} FirstNamedIsFirst(ns: seq<Named>, name: string, line: int)
    ensures FirstNamed(ns, name, line).None? <==> forall i :: 0 <= i < |ns| ==> ns[i].name != name || ns[i].line != line
    ensures FirstNamed(ns, name, line).Some? ==> exists i ::
      0 <= i < |ns| && ns[i] == Named(name, line, FirstNamed(ns, name, line).value)
      && forall j :: 0 <= j < i ==> ns[j].name != name || ns[j].line != line
  {
    if ns != [] {
      var init := ns[..|ns| - 1];
      assert forall j :: 0 <= j < |init| ==> init[j] == ns[j];
      FirstNamedIsFirst(init, name, line);
      if FirstNamed(init, name, line).Some? {
        var i :| 0 <= i < |init| && init[i] == Named(name, line, FirstNamed(init, name, line).value)
          && forall j :: 0 <= j < i ==> init[j].name != name || init[j].line != line;
        assert ns[i] == init[i];
      } else if ns[|ns| - 1].name == name && ns[|ns| - 1].line == line {
        assert ns[|ns| - 1] == Named(name, line, FirstNamed(ns, name, line).value);
      }
    }
  }

  lemma {:induction false} LastRecIsLast(rs: seq<Rec>, a: word)
    ensures LastRec(rs, a).None? <==> forall i :: 0 <= i < |rs| ==> rs[i].address != a
    ensures LastRec(rs, a).Some? ==> exists i ::
      0 <= i < |rs| && rs[i] == Rec(a, LastRec(rs, a).value) && forall j :: i < j < |rs| ==> rs[j].address != a
  {
    if rs != [] {
      var init := rs[..|rs| - 1];
      assert forall j :: 0 <= j < |init| ==> init[j] == rs[j];
      if rs[|rs| - 1].address == a {
        assert rs[|rs| - 1] == Rec(a, LastRec(rs, a).value);
      } else {
        LastRecIsLast(init, a);
        if LastRec(init, a).Some? {
          var i :| 0 <= i < |init| && init[i] == Rec(a, LastRec(init, a).value) && forall j :: i < j < |init| ==> init[j].address != a;
          assert rs[i] == init[i];
        }
      }
    }
  }

  // ---- the hash maps against the scans -------------------------------------------------------

  function Get<K, V>(m: map<K, V>, k: K): Option<V> {
    if k in m then Some(m[k]) else None
  }

  /** `emplace`: the first entry for a key stays. */
  function Emplace<K, V>(m: map<K, V>, k: K, v: V): map<K, V> {
    if k in m then m else m[k := v]
  }

  ghost predicate SourceAgrees(m: map<word, Location>, cs: seq<Rec>, ms: seq<Rec>) {
    forall a: word :: Get(m, a) == ScanSource(cs, ms, a)
  }

  ghost predicate AsmAgrees(m: map<word, Location>, rs: seq<Rec>) {
    forall a: word :: Get(m, a) == FirstRec(rs, a)
  }

  ghost predicate NamesAgree(m: map<string, word>, ns: seq<Named>) {
    forall name: string, line: int :: Get(m, Key(name, line)) == FirstNamed(ns, name, line)
  }

  lemma AddCdb(m: map<word, Location>, cs: seq<Rec>, r: Rec)
    requires SourceAgrees(m, cs, [])
    ensures SourceAgrees(m[r.address := r.location], cs + [r], [])
  {
    assert (cs + [r])[..|cs|] == cs;
    forall a: word ensures Get(m[r.address := r.location], a) == ScanSource(cs + [r], [], a) {
      assert Get(m, a) == ScanSource(cs, [], a);
    }
  }

  lemma AddMap(m: map<word, Location>, cs: seq<Rec>, ms: seq<Rec>, r: Rec)
    requires SourceAgrees(m, cs, ms)
    ensures SourceAgrees(Emplace(m, r.address, r.location), cs, ms + [r])
  {
    assert (ms + [r])[..|ms|] == ms;
    forall a: word ensures Get(Emplace(m, r.address, r.location), a) == ScanSource(cs, ms + [r], a) {
      assert Get(m, a) == ScanSource(cs, ms, a);
    }
  }

  lemma AddAsm(m: map<word, Location>, rs: seq<Rec>, r: Rec)
    requires AsmAgrees(m, rs)
    ensures AsmAgrees(Emplace(m, r.address, r.location), rs + [r])
  {
    assert (rs + [r])[..|rs|] == rs;
    forall a: word ensures Get(Emplace(m, r.address, r.location), a) == FirstRec(rs + [r], a) {
      assert Get(m, a) == FirstRec(rs, a);
    }
  }

  lemma AddNamed(m: map<string, word>, ns: seq<Named>, n: Named)
    requires NamesAgree(m, ns)
    ensures NamesAgree(Emplace(m, Key(n.name, n.line), n.address), ns + [n])
  {
    assert (ns + [n])[..|ns|] == ns;
    forall name: string, line: int
      ensures Get(Emplace(m, Key(n.name, n.line), n.address), Key(name, line)) == FirstNamed(ns + [n], name, line)
    {
      assert Get(m, Key(name, line)) == FirstNamed(ns, name, line);
      KeyInjective(name, line, n.name, n.line);
    }
  }

  // ---- the index -------------------------------------------------------------------------------

  class Index {
    const resolve: Resolver
    var modules: seq<Iterated>
    var symbols: seq<Symbol>
    var sourceByAddr: map<word, Location>
    var asmByAddr: map<word, Location>
    var addrByFileLine: map<string, word>

    /** The three maps agree with scans of the data loaded last. */
    ghost predicate Valid()
      reads this
    {
      && SourceAgrees(sourceByAddr, CdbRecs(resolve, modules), MapRecs(resolve, symbols))
      && AsmAgrees(asmByAddr, CdbAsm(resolve, modules))
      && NamesAgree(addrByFileLine, CdbNames(resolve, modules) + MapNames(symbols))
    }

    constructor (resolve: Resolver)
      ensures Valid() && this.resolve == resolve && modules == [] && symbols == []
    {
      this.resolve := resolve;
      modules, symbols := [], [];
      sourceByAddr, asmByAddr, addrByFileLine := map[], map[], map[];
    }

    method SetCdbModules(ms: seq<Iterated>)
      modifies this
      ensures Valid() && modules == ms && symbols == old(symbols)
    {
      modules := ms;
      Rebuild();
    }

    method SetMapSymbols(ss: seq<Symbol>)
      modifies this
      ensures Valid() && symbols == ss && modules == old(modules)
    {
      symbols := ss;
      Rebuild();
    }

    method AddAsmLines(m: Iterated, ghost asm: seq<Rec>, ghost names: seq<Named>)
      requires AsmAgrees(asmByAddr, asm) && NamesAgree(addrByFileLine, names)
      modifies this`asmByAddr, this`addrByFileLine
      ensures AsmAgrees(asmByAddr, asm + AsmRecs(resolve, m, AsmOf(m)))
      ensures NamesAgree(addrByFileLine, names + AsmNames(m, AsmOf(m)))
    {
      if m.asmLines == [] || !IsAsmModule(m) {
        assert asm + AsmRecs(resolve, m, []) == asm && names + AsmNames(m, []) == names;
        return;
      }
      var i := 0;
      assert asm + AsmRecs(resolve, m, m.asmLines[..0]) == asm && names + AsmNames(m, m.asmLines[..0]) == names;
      while i < |m.asmLines|
        invariant i <= |m.asmLines|
        invariant AsmAgrees(asmByAddr, asm + AsmRecs(resolve, m, m.asmLines[..i]))
        invariant NamesAgree(addrByFileLine, names + AsmNames(m, m.asmLines[..i]))
      {
        var l := m.asmLines[i];
        AddNamed(addrByFileLine, names + AsmNames(m, m.asmLines[..i]), AsmNamed(m, l));
        AddAsm(asmByAddr, asm + AsmRecs(resolve, m, m.asmLines[..i]), AsmRec(resolve, m, l));
        addrByFileLine := Emplace(addrByFileLine, Key(m.info.name, l.line), l.address);
        asmByAddr := Emplace(asmByAddr, l.address, Location(Resolved(resolve, m.info.file), l.line, true));
        AsmNext(resolve, m, m.asmLines, i);
        Assoc(asm, AsmRecs(resolve, m, m.asmLines[..i]), [AsmRec(resolve, m, l)]);
        Assoc(names, AsmNames(m, m.asmLines[..i]), [AsmNamed(m, l)]);
        i := i + 1;
      }
      assert m.asmLines[..i] == m.asmLines;
    }

    method AddLines(ls: seq<Line>, ghost recs: seq<Rec>, ghost names: seq<Named>)
      requires SourceAgrees(sourceByAddr, recs, []) && NamesAgree(addrByFileLine, names)
      modifies this`sourceByAddr, this`addrByFileLine
      ensures SourceAgrees(sourceByAddr, recs + LineRecs(resolve, ls), [])
      ensures NamesAgree(addrByFileLine, names + LineNames(resolve, ls))
    {
      var i := 0;
      assert recs + LineRecs(resolve, ls[..0]) == recs && names + LineNames(resolve, ls[..0]) == names;
      while i < |ls|
        invariant i <= |ls|
        invariant SourceAgrees(sourceByAddr, recs + LineRecs(resolve, ls[..i]), [])
        invariant NamesAgree(addrByFileLine, names + LineNames(resolve, ls[..i]))
      {
        var l := ls[i];
        AddCdb(sourceByAddr, recs + LineRecs(resolve, ls[..i]), LineRec(resolve, l));
        AddNamed(addrByFileLine, names + LineNames(resolve, ls[..i]), LineNamed(resolve, l));
        var path := Resolved(resolve, l.file);
        sourceByAddr := sourceByAddr[l.address := Location(path, l.line, false)];
        addrByFileLine := Emplace(addrByFileLine, Key(FileName(path), l.line), l.address);
        LineNext(resolve, ls, i);
        Assoc(recs, LineRecs(resolve, ls[..i]), [LineRec(resolve, l)]);
        Assoc(names, LineNames(resolve, ls[..i]), [LineNamed(resolve, l)]);
        i := i + 1;
      }
      assert ls[..i] == ls;
    }

    method AddSymbol(i: nat, ghost cs: seq<Rec>, ghost names: seq<Named>)
      requires i < |symbols|
      requires SourceAgrees(sourceByAddr, cs, MapRecs(resolve, symbols[..i]))
      requires NamesAgree(addrByFileLine, names + MapNames(symbols[..i]))
      modifies this`sourceByAddr, this`addrByFileLine
      ensures SourceAgrees(sourceByAddr, cs, MapRecs(resolve, symbols[..i + 1]))
      ensures NamesAgree(addrByFileLine, names + MapNames(symbols[..i + 1]))
    {
      SymbolsNext(resolve, symbols, i);
      ghost var recs, found := MapRecs(resolve, symbols[..i]), MapNames(symbols[..i]);
      var s := symbols[i];
      var loc := MapSource(s);
      if loc.None? {
        assert recs + [] == recs && found + [] == found;
        return;
      }
      var (file, line) := loc.value;
      var addr := s.address % 0x10000;
      var path := Resolved(resolve, file);
      ghost var r, n := Rec(addr, Location(path, line, false)), Named(FileName(file), line, addr);
      AddMap(sourceByAddr, cs, recs, r);
      AddNamed(addrByFileLine, names + found, n);
      Assoc(names, found, [n]);
      if addr !in sourceByAddr {
        sourceByAddr := sourceByAddr[addr := Location(path, line, false)];
      }
      addrByFileLine := Emplace(addrByFileLine, Key(FileName(file), line), addr);
    }

    method Rebuild()
      modifies this`sourceByAddr, this`asmByAddr, this`addrByFileLine
      ensures Valid()
    {
      sourceByAddr, asmByAddr, addrByFileLine := map[], map[], map[];
      LoadModules();
      LoadSymbols();
    }

    method LoadModules()
      requires sourceByAddr == map[] && asmByAddr == map[] && addrByFileLine == map[]
      modifies this`sourceByAddr, this`asmByAddr, this`addrByFileLine
      ensures SourceAgrees(sourceByAddr, CdbRecs(resolve, modules), [])
      ensures AsmAgrees(asmByAddr, CdbAsm(resolve, modules))
      ensures NamesAgree(addrByFileLine, CdbNames(resolve, modules))
    {
      var i := 0;
      assert modules[..0] == [];
      while i < |modules|
        invariant i <= |modules|
        invariant SourceAgrees(sourceByAddr, CdbRecs(resolve, modules[..i]), [])
        invariant AsmAgrees(asmByAddr, CdbAsm(resolve, modules[..i]))
        invariant NamesAgree(addrByFileLine, CdbNames(resolve, modules[..i]))
      {
        var m := modules[i];
        ghost var before := modules[..i];
        ModulesNext(resolve, modules, i);
        AddAsmLines(m, CdbAsm(resolve, before), CdbNames(resolve, before));
        AddLines(m.info.lines, CdbRecs(resolve, before), CdbNames(resolve, before) + AsmNames(m, AsmOf(m)));
        i := i + 1;
      }
      assert modules[..i] == modules;
    }

    method LoadSymbols()
      requires SourceAgrees(sourceByAddr, CdbRecs(resolve, modules), [])
      requires NamesAgree(addrByFileLine, CdbNames(resolve, modules))
      modifies this`sourceByAddr, this`addrByFileLine
      ensures SourceAgrees(sourceByAddr, CdbRecs(resolve, modules), MapRecs(resolve, symbols))
      ensures NamesAgree(addrByFileLine, CdbNames(resolve, modules) + MapNames(symbols))
    {
      ghost var cs, names := CdbRecs(resolve, modules), CdbNames(resolve, modules);
      assert names + [] == names && symbols[..0] == [];
      var i := 0;
      while i < |symbols|
        invariant i <= |symbols|
        invariant SourceAgrees(sourceByAddr, cs, MapRecs(resolve, symbols[..i]))
        invariant NamesAgree(addrByFileLine, names + MapNames(symbols[..i]))
      {
        AddSymbol(i, cs, names);
        i := i + 1;
      }
      assert symbols[..i] == symbols;
    }

    method LookupSource(a: word) returns (r: Option<Location>)
      requires Valid()
      ensures r == ScanSource(CdbRecs(resolve, modules), MapRecs(resolve, symbols), a)
    {
      r := Get(sourceByAddr, a);
    }

    method LookupSourceAny(a: word) returns (r: Option<Location>)
      requires Valid()
      ensures var c := ScanSource(CdbRecs(resolve, modules), MapRecs(resolve, symbols), a);
        r == if c.Some? then c else FirstRec(CdbAsm(resolve, modules), a)
    {
      if a in sourceByAddr {
        assert Get(sourceByAddr, a).Some?;
        return Some(sourceByAddr[a]);
      }
      assert Get(sourceByAddr, a).None?;
      r := Get(asmByAddr, a);
    }

    method LookupAddress(file: string, line: int) returns (r: Option<word>)
      requires Valid()
      ensures r == ScanAddress(CdbNames(resolve, modules) + MapNames(symbols), file, line)
    {
      r := Get(addrByFileLine, Key(FileName(file), line));
      if r.None? {
        r := Get(addrByFileLine, Key(Stem(file), line));
      }
    }
  }
}
