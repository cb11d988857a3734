/** Where breakpoints get their addresses: source lines from the index, functions from the MAP symbols. */
module SymbolLookup {
  import opened Text
  import opened Z80
  import opened SourceIndex
  import opened Breakpoints

  // ---- functions --------------------------------------------------------------------

  /** A symbol stands for a function under its own name, with an underscore before it, or between the first
      two dollars of `G$name$...`. */
  predicate Names(symbol: string, name: string) {
    || symbol == name
    || symbol == "_" + name
    || (|symbol| > 3 && symbol[0] == 'G' && symbol[1] == '$'
        && Find(symbol, '$', 2) < |symbol| && symbol[2..Find(symbol, '$', 2)] == name)
  }

  /** The address of the first symbol for the function. */
  function FirstSymbol(symbols: seq<Symbol>, name: string): Option<word> {
    if symbols == [] then None
    else if Names(symbols[0].name, name) then Some(symbols[0].address % 0x10000)
    else FirstSymbol(symbols[1..], name)
  }

  method LookupFunction(symbols: seq<Symbol>, name: string) returns (r: Option<word>)
    ensures r == FirstSymbol(symbols, name)
  {
    var i := 0;
    assert symbols[0..] == symbols;
    while i < |symbols|
      invariant i <= |symbols| && FirstSymbol(symbols, name) == FirstSymbol(symbols[i..], name)
    {
      var symbol := symbols[i].name;
      if symbol == name || symbol == "_" + name {
        return Some(symbols[i].address % 0x10000);
      }
      if |symbol| > 3 && symbol[0] == 'G' && symbol[1] == '$' {
        var d1 := Find(symbol, '$', 2);
        if d1 < |symbol| && symbol[2..d1] == name {
          return Some(symbols[i].address % 0x10000);
        }
      }
      i := i + 1;
    }
    r := None;
  }

  lemma {:induction false} FirstSymbolIsFirst(symbols: seq<Symbol>, name: string)
    ensures FirstSymbol(symbols, name).None? <==> forall i :: 0 <= i < |symbols| ==> !Names(symbols[i].name, name)
    ensures FirstSymbol(symbols, name).Some? ==> exists i ::
      0 <= i < |symbols| && Names(symbols[i].name, name) && FirstSymbol(symbols, name) == Some(symbols[i].address % 0x10000)
      && forall j :: 0 <= j < i ==> !Names(symbols[j].name, name)
  {
    if symbols != [] && !Names(symbols[0].name, name) {
      var rest := symbols[1..];
      FirstSymbolIsFirst(rest, name);
      assert forall j :: 0 < j < |symbols| ==> symbols[j] == rest[j - 1];
      if FirstSymbol(rest, name).Some? {
        var i :| 0 <= i < |rest| && Names(rest[i].name, name) && FirstSymbol(rest, name) == Some(rest[i].address % 0x10000)
          && forall j :: 0 <= j < i ==> !Names(rest[j].name, name);
        assert Names(symbols[i + 1].name, name);
      }
    }
  }

  /** For a name without dollars: its own spelling, the one with an underscore, and everything that begins with it
      between `G$` and a dollar, except `G$$` itself. */
  lemma {:induction false} SpellingsAre(symbol: string, name: string)
    requires '$' !in name
    ensures Names(symbol, name) <==>
      symbol == name || symbol == "_" + name || (symbol != "G$$" && "G$" + name + "$" <= symbol)
  {
    var prefix := "G$" + name + "$";
    if prefix <= symbol {
      assert forall k :: 0 <= k < |prefix| ==> symbol[k] == prefix[k];
      assert forall k :: 2 <= k < 2 + |name| ==> symbol[k] == name[k - 2];
      assert symbol[2 + |name|] == '$' && Find(symbol, '$', 2) == 2 + |name|;
      assert symbol[2..2 + |name|] == name;
      if |symbol| == 3 {
        assert name == "" && symbol == prefix == "G$$";
      }
    }
  }

  // ---- source lines -------------------------------------------------------------------------

  /** What a launch gives the breakpoints, from the data loaded into the index. */
  function InfoOf(names: seq<Named>, symbols: seq<Symbol>, listing: seq<word>, virtualPath: string, hasSymbols: bool): Info {
    Info((file: string, line: int) => ScanAddress(names, file, line),
         (name: string) => FirstSymbol(symbols, name), listing, virtualPath, hasSymbols)
  }

  function IndexNames(index: Index): seq<Named>
    reads index
  {
    CdbNames(index.resolve, index.modules) + MapNames(index.symbols)
  }

  /** The index answers as the breakpoints assume. */
  method LookupLine(index: Index, info: Info, file: string, line: int) returns (r: Option<word>)
    requires index.Valid()
    requires info == InfoOf(IndexNames(index), index.symbols, info.listing, info.virtualPath, info.hasSymbols)
    ensures r == info.lookup(file, line)
  {
    r := index.LookupAddress(file, line);
    assert r == ScanAddress(IndexNames(index), file, line);
  }

  /** A record of the data for this line of this file, by its file name or its stem. */
  ghost predicate IsFor(n: Named, file: string, line: int) {
    n.line == line && (n.name == FileName(file) || n.name == Stem(file))
  }

  lemma {:induction false} NamedHasRecord(names: seq<Named>, name: string, line: int)
    ensures var found := FirstNamed(names, name, line);
      && (found.Some? ==> Named(name, line, found.value) in names)
      && (found.None? ==> forall n :: n in names ==> n.name != name || n.line != line)
  {
    FirstNamedIsFirst(names, name, line);
  }

  /** A line has an address if and only if some record is for it, and the address is that of such a record. */
  lemma {:induction false} LineHasRecord(names: seq<Named>, file: string, line: int)
    ensures var found := ScanAddress(names, file, line);
      && (found.Some? <==> exists n :: n in names && IsFor(n, file, line))
      && (found.Some? ==> exists n :: n in names && IsFor(n, file, line) && n.address == found.value)
  {
    NamedHasRecord(names, FileName(file), line);
    NamedHasRecord(names, Stem(file), line);
  }

  /** An address armed for a line of the latest requests is that of a record for the line, in the data it was last
      looked up in; and a line of the latest request for its file is armed if that data has a record for it. */
  lemma {:induction false} ArmedLinesHaveRecords(first: Info, log: seq<Request>, names: seq<Named>, symbols: seq<Symbol>, file: string)
    requires var info := ResolvedBy(first, log); info == InfoOf(names, symbols, info.listing, info.virtualPath, info.hasSymbols)
    ensures var info, lines := ResolvedBy(first, log), LatestLines(first, log, file);
      && (forall a: word :: Resolves(info, file, lines, a) ==>
            exists n :: n in names && n.line in lines && IsFor(n, file, n.line) && n.address == a)
      && (forall line :: line in lines && (exists n :: n in names && IsFor(n, file, line)) ==>
            exists a: word :: Resolves(info, file, lines, a) && info.lookup(file, line) == Some(a) && Armed(first, log, a))
  {
    var info, lines := ResolvedBy(first, log), LatestLines(first, log, file);
    forall a: word | Resolves(info, file, lines, a)
      ensures exists n :: n in names && n.line in lines && IsFor(n, file, n.line) && n.address == a
    {
      var i :| 0 <= i < |lines| && info.lookup(file, lines[i]) == Some(a);
      LineHasRecord(names, file, lines[i]);
      assert lines[i] in lines;
    }
    forall line | line in lines && (exists n :: n in names && IsFor(n, file, line))
      ensures exists a: word :: Resolves(info, file, lines, a) && info.lookup(file, line) == Some(a) && Armed(first, log, a)
    {
      LineHasRecord(names, file, line);
      var i :| 0 <= i < |lines| && lines[i] == line;
      var a: word := info.lookup(file, line).value;
      assert info.lookup(file, lines[i]) == Some(a);
      assert Resolves(info, file, lines, a);
    }
  }
}
