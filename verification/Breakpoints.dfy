/** Breakpoint requests and the merged set the emulation loop tests, over any sequence of requests. */
module Breakpoints {
  import opened Text
  import opened Z80
  import FullListing

  /** What a launch provides: the source index, the function symbols, the listing and its path, and
      whether any CDB or MAP data was loaded. */
  datatype Info = Info(
    lookup: (string, int) -> Option<word>,
    functionNamed: string -> Option<word>,
    listing: seq<word>,
    virtualPath: string,
    hasSymbols: bool)

  datatype Note = Bound | OutOfRange | Pending | NoMapping | NotFound

  datatype Verdict = Verdict(verified: bool, line: int, note: Note)

  // An instruction reference that is no number is dropped, so it arrives as `None`; a launch with a program
  // resolves the source breakpoints again, one without a program does not.
  datatype Request =
    | SetSource(path: string, lines: seq<int>)
    | SetFunctions(names: seq<string>)
    | SetInstructions(references: seq<Option<word>>)
    | Launch(info: Info, program: bool)

  // ---- what should be armed, read off the requests ----------------------------------

  predicate IsListing(info: Info, path: string) { path != "" && path == info.virtualPath }

  ghost function InfoAfter(first: Info, log: seq<Request>): Info {
    if log == [] then first
    else if log[|log| - 1].Launch? then log[|log| - 1].info
    else InfoAfter(first, log[..|log| - 1])
  }

  /** What the addresses of source breakpoints were last looked up in. */
  ghost function ResolvedBy(first: Info, log: seq<Request>): Info {
    if log == [] then first
    else
      var r, before := log[|log| - 1], log[..|log| - 1];
      if r.Launch? && r.program then r.info
      else if r.SetSource? && !IsListing(InfoAfter(first, before), r.path) then InfoAfter(first, before)
      else ResolvedBy(first, before)
  }

  /** The lines of the latest request for a source file; the listing's path is not one while it is the
      listing's path. */
  ghost function LatestLines(first: Info, log: seq<Request>, file: string): seq<int> {
    if log == [] then []
    else
      var r, before := log[|log| - 1], log[..|log| - 1];
      if r.SetSource? && r.path == file && file != "" && !IsListing(InfoAfter(first, before), file) then r.lines
      else LatestLines(first, before, file)
  }

  /** The addresses that the items of a request have, in order; an item without one is left out. */
  function Addresses<X>(find: X -> Option<word>, xs: seq<X>): seq<word> {
    if xs == [] then []
    else
      var found := find(xs[|xs| - 1]);
      Addresses(find, xs[..|xs| - 1]) + if found.Some? then [found.value] else []
  }

  lemma {:induction false} AddressesAre<X>(find: X -> Option<word>, xs: seq<X>, a: word)
    ensures a in Addresses(find, xs) <==> exists i :: 0 <= i < |xs| && find(xs[i]) == Some(a)
  {
    if xs != [] {
      var init := xs[..|xs| - 1];
      AddressesAre(find, init, a);
      assert forall i :: 0 <= i < |init| ==> init[i] == xs[i];
      assert find(xs[|xs| - 1]) == Some(a) ==> exists i :: 0 <= i < |xs| && find(xs[i]) == Some(a);
    }
  }

  lemma AddressesNext<X>(find: X -> Option<word>, xs: seq<X>, i: nat)
    requires i < |xs|
    ensures Addresses(find, xs[..i + 1])
      == Addresses(find, xs[..i]) + if find(xs[i]).Some? then [find(xs[i]).value] else []
  {
    assert xs[..i + 1][..i] == xs[..i];
  }

  /** A line of the listing has an address if it exists. */
  function ListingAt(info: Info): int -> Option<word> {
    (line: int) => if 1 <= line <= |info.listing| then Some(info.listing[line - 1]) else None
  }

  function LineAt(info: Info, file: string): int -> Option<word> {
    (line: int) => info.lookup(file, line)
  }

  function FunctionAt(info: Info): string -> Option<word> {
    (name: string) => info.functionNamed(name)
  }

  function ReferenceAt(): Option<word> -> Option<word> {
    (reference: Option<word>) => reference
  }

  ghost function LatestListing(first: Info, log: seq<Request>): seq<word> {
    if log == [] then []
    else
      var r, before := log[|log| - 1], log[..|log| - 1];
      var info := InfoAfter(first, before);
      if r.SetSource? && IsListing(info, r.path) then Addresses(ListingAt(info), r.lines)
      else LatestListing(first, before)
  }

  ghost function LatestFunctions(first: Info, log: seq<Request>): seq<word> {
    if log == [] then []
    else
      var r, before := log[|log| - 1], log[..|log| - 1];
      if r.SetFunctions? then Addresses(FunctionAt(InfoAfter(first, before)), r.names)
      else LatestFunctions(first, before)
  }

  ghost function LatestInstructions(log: seq<Request>): seq<word> {
    if log == [] then []
    else
      var r := log[|log| - 1];
      if r.SetInstructions? then Addresses(ReferenceAt(), r.references)
      else LatestInstructions(log[..|log| - 1])
  }

  /** Some line of `lines` in `file` has the address `a`. */
  ghost predicate Resolves(info: Info, file: string, lines: seq<int>, a: word) {
    exists i :: 0 <= i < |lines| && info.lookup(file, lines[i]) == Some(a)
  }

  ghost predicate Armed(first: Info, log: seq<Request>, pc: word) {
    || (exists file :: Resolves(ResolvedBy(first, log), file, LatestLines(first, log, file), pc))
    || pc in LatestListing(first, log)
    || pc in LatestFunctions(first, log)
    || pc in LatestInstructions(log)
  }

  /** A request for one source leaves every other source, and the other kinds of breakpoint, as they were. */
  lemma {:induction false} OneSourceAtATime(first: Info, log: seq<Request>, path: string, lines: seq<int>, file: string)
    requires file != path || file == "" || IsListing(InfoAfter(first, log), path)
    ensures var log' := log + [SetSource(path, lines)];
      && LatestLines(first, log', file) == LatestLines(first, log, file)
      && LatestFunctions(first, log') == LatestFunctions(first, log)
      && LatestInstructions(log') == LatestInstructions(log)
      && (!IsListing(InfoAfter(first, log), path) ==> LatestListing(first, log') == LatestListing(first, log))
  {
    assert (log + [SetSource(path, lines)])[..|log|] == log;
  }

  /** Some line of the latest request for some file has the address in `info`. */
  ghost predicate SomeLine(info: Info, first: Info, log: seq<Request>, pc: word) {
    exists file :: Resolves(info, file, LatestLines(first, log, file), pc)
  }

  ghost predicate ArmedByLine(first: Info, log: seq<Request>, pc: word) {
    SomeLine(ResolvedBy(first, log), first, log, pc)
  }

  lemma NothingArmedAtFirst(first: Info, pc: word)
    ensures !Armed(first, [], pc)
  {
  }

  /** A request for a source file replaces the lines of that file: afterwards they and those of other files, all
      looked up again, are armed, and the other kinds as before. */
  lemma {:induction false} SourceRequestReplaces(first: Info, log: seq<Request>, path: string, lines: seq<int>, pc: word)
    requires path != "" && path != InfoAfter(first, log).virtualPath
    ensures var info := InfoAfter(first, log);
      Armed(first, log + [SetSource(path, lines)], pc) <==>
        || (exists i :: 0 <= i < |lines| && info.lookup(path, lines[i]) == Some(pc))
        || (exists file :: file != path && Resolves(info, file, LatestLines(first, log, file), pc))
        || pc in LatestListing(first, log) || pc in LatestFunctions(first, log) || pc in LatestInstructions(log)
  {
    var info, log' := InfoAfter(first, log), log + [SetSource(path, lines)];
    LogSource(first, log, path, lines);
    ResolvedSource(first, log, path, lines);
    assert LatestLines(first, log', path) == lines;
    if file :| Resolves(info, file, LatestLines(first, log', file), pc) {
      assert file != path ==> LatestLines(first, log', file) == LatestLines(first, log, file);
    }
    if Resolves(info, path, lines, pc) {
      assert Resolves(info, path, LatestLines(first, log', path), pc);
    }
    if file :| file != path && Resolves(info, file, LatestLines(first, log, file), pc) {
      assert Resolves(info, file, LatestLines(first, log', file), pc);
    }
  }

  /** A request for the listing replaces the listing's breakpoints. */
  lemma {:induction false} ListingRequestReplaces(first: Info, log: seq<Request>, path: string, lines: seq<int>, pc: word)
    requires path != "" && path == InfoAfter(first, log).virtualPath
    ensures var listing := InfoAfter(first, log).listing;
      Armed(first, log + [SetSource(path, lines)], pc) <==>
        || (exists i :: 0 <= i < |lines| && 1 <= lines[i] <= |listing| && listing[lines[i] - 1] == pc)
        || ArmedByLine(first, log, pc) || pc in LatestFunctions(first, log) || pc in LatestInstructions(log)
  {
    var info := InfoAfter(first, log);
    LogSource(first, log, path, lines);
    ResolvedSource(first, log, path, lines);
    AddressesAre(ListingAt(info), lines, pc);
  }

  /** A request for functions replaces the function breakpoints. */
  lemma {:induction false} FunctionRequestReplaces(first: Info, log: seq<Request>, names: seq<string>, pc: word)
    ensures var info := InfoAfter(first, log);
      Armed(first, log + [SetFunctions(names)], pc) <==>
        || (exists i :: 0 <= i < |names| && info.functionNamed(names[i]) == Some(pc))
        || ArmedByLine(first, log, pc) || pc in LatestListing(first, log) || pc in LatestInstructions(log)
  {
    LogOther(first, log, SetFunctions(names));
    ResolvedOther(first, log, SetFunctions(names));
    AddressesAre(FunctionAt(InfoAfter(first, log)), names, pc);
  }

  /** A request for instructions replaces the instruction breakpoints. */
  lemma {:induction false} InstructionRequestReplaces(first: Info, log: seq<Request>, references: seq<Option<word>>, pc: word)
    ensures Armed(first, log + [SetInstructions(references)], pc) <==>
        || Some(pc) in references
        || ArmedByLine(first, log, pc) || pc in LatestListing(first, log) || pc in LatestFunctions(first, log)
  {
    LogOther(first, log, SetInstructions(references));
    ResolvedOther(first, log, SetInstructions(references));
    AddressesAre(ReferenceAt(), references, pc);
  }

  /** A launch with a program looks the lines of every file up in the new data; addresses of other kinds stay. */
  lemma {:induction false} LaunchLooksLinesUpAgain(first: Info, log: seq<Request>, next: Info, pc: word)
    ensures Armed(first, log + [Launch(next, true)], pc) <==>
        || SomeLine(next, first, log, pc)
        || pc in LatestListing(first, log) || pc in LatestFunctions(first, log) || pc in LatestInstructions(log)
  {
    var log' := log + [Launch(next, true)];
    LogOther(first, log, Launch(next, true));
    ResolvedOther(first, log, Launch(next, true));
    if SomeLine(next, first, log, pc) {
      var file :| Resolves(next, file, LatestLines(first, log, file), pc);
      assert Resolves(next, file, LatestLines(first, log', file), pc);
    }
    if SomeLine(next, first, log', pc) {
      var file :| Resolves(next, file, LatestLines(first, log', file), pc);
      assert Resolves(next, file, LatestLines(first, log, file), pc);
    }
  }

  /** A launch without a program leaves every breakpoint where it was, although the data it was looked up in
      is gone; only the next request for a source looks them up again. */
  lemma {:induction false} LaunchWithoutProgramKeepsAddresses(first: Info, log: seq<Request>, next: Info, pc: word)
    ensures Armed(first, log + [Launch(next, false)], pc) <==> Armed(first, log, pc)
  {
    LogOther(first, log, Launch(next, false));
    ResolvedOther(first, log, Launch(next, false));
  }

  /** A breakpoint on a line of the listing is at the address whose listing line is that line, and at no
      other; a line that is not there has no address. */
  lemma ListingLineRoundTrip(info: Info, lineOf: map<word, int>, columns: seq<seq<byte>>, mem: seq<byte>, line: int, a: word)
    requires |mem| == MEMORY_SIZE && FullListing.Covers(info.listing, lineOf, columns, mem, MEMORY_SIZE)
    ensures ListingAt(info)(line) == Some(a) <==> a in lineOf && lineOf[a] == line
  {
    FullListing.LinesAndAddressesAreInverse(info.listing, lineOf, columns, mem, line, a);
  }

  // ---- the table ------------------------------------------------------------------------

  /** The addresses are exactly those that some line of some file has. */
  ghost predicate SourcesAre(info: Info, byFile: map<string, seq<int>>, addresses: seq<word>) {
    forall a: word :: a in addresses <==> exists f :: f in byFile && Resolves(info, f, byFile[f], a)
  }

  /** Each item is verified if and only if it has an address, which is then in `armed`. */
  ghost predicate Verdicts<X>(find: X -> Option<word>, armed: set<word>, vs: seq<Verdict>, xs: seq<X>) {
    && |vs| == |xs|
    && forall i :: 0 <= i < |xs| ==>
         (vs[i].verified <==> find(xs[i]).Some?) && (vs[i].verified ==> find(xs[i]).value in armed)
  }

  ghost predicate Lines(vs: seq<Verdict>, lines: seq<int>) {
    |vs| == |lines| && forall i :: 0 <= i < |lines| ==> vs[i].line == lines[i]
  }

  /** Verdicts given by looking up each item are right once the addresses found are armed. */
  lemma VerdictsHold<X>(find: X -> Option<word>, armed: set<word>, vs: seq<Verdict>, xs: seq<X>)
    requires |vs| == |xs| && forall i :: 0 <= i < |xs| ==> (vs[i].verified <==> find(xs[i]).Some?)
    requires forall a :: a in Addresses(find, xs) ==> a in armed
    ensures Verdicts(find, armed, vs, xs)
  {
    forall i | 0 <= i < |xs| && vs[i].verified ensures find(xs[i]).value in armed {
      AddressesAre(find, xs, find(xs[i]).value);
    }
  }

  lemma {:induction false} FileVerdictsHold(info: Info, byFile: map<string, seq<int>>, addresses: seq<word>, all: set<word>,
                                            path: string, lines: seq<int>, vs: seq<Verdict>)
    requires SourcesAre(info, byFile, addresses) && (forall a: word :: a in addresses ==> a in all)
    requires lines != [] ==> path in byFile && byFile[path] == lines
    requires |vs| == |lines| && forall i :: 0 <= i < |lines| ==> (vs[i].verified <==> info.lookup(path, lines[i]).Some?)
    ensures Verdicts(LineAt(info, path), all, vs, lines)
  {
    forall i | 0 <= i < |lines| && vs[i].verified ensures info.lookup(path, lines[i]).value in all {
      assert Resolves(info, path, byFile[path], info.lookup(path, lines[i]).value);
    }
  }

  /** The stored lines are those of the latest request for each file. */
  ghost predicate FilesAre(first: Info, log: seq<Request>, byFile: map<string, seq<int>>) {
    && (forall f :: f in byFile ==> byFile[f] != [] && byFile[f] == LatestLines(first, log, f))
    && (forall f :: f !in byFile ==> LatestLines(first, log, f) == [])
  }

  /** What is stored is what the requests so far say. */
  ghost predicate Follows(first: Info, log: seq<Request>, info: Info, byFile: map<string, seq<int>>,
                          instructions: seq<word>, functions: seq<word>, listing: set<word>) {
    && info == InfoAfter(first, log)
    && FilesAre(first, log, byFile)
    && instructions == LatestInstructions(log)
    && functions == LatestFunctions(first, log)
    && (forall a: word :: a in listing <==> a in LatestListing(first, log))
  }

  /** The stored lines after a request for one file. */
  function WithLines(byFile: map<string, seq<int>>, file: string, lines: seq<int>): map<string, seq<int>> {
    if file == "" then byFile else if lines == [] then byFile - {file} else byFile[file := lines]
  }

  class Table {
    var info: Info
    var byFile: map<string, seq<int>>
    var sourceAddresses: seq<word>
    var instructions: seq<word>
    var functions: seq<word>
    var listing: set<word>
    var all: set<word>
    ghost const first: Info
    ghost var log: seq<Request>

    ghost predicate Merged()
      reads this
    {
      forall a: word :: a in all <==> a in sourceAddresses || a in instructions || a in functions || a in listing
    }

    ghost predicate Valid()
      reads this
    {
      && Follows(first, log, info, byFile, instructions, functions, listing)
      && SourcesAre(ResolvedBy(first, log), byFile, sourceAddresses)
      && Merged()
    }

    constructor (info: Info)
      ensures Valid() && log == [] && this.info == first == info
    {
      this.info, this.first, log := info, info, [];
      byFile, sourceAddresses, instructions, functions, listing, all := map[], [], [], [], {}, {};
    }

    method IsBreakpoint(pc: word) returns (hit: bool)
      requires Valid()
      ensures hit <==> Armed(first, log, pc)
    {
      hit := pc in all;
      if exists file :: Resolves(ResolvedBy(first, log), file, LatestLines(first, log, file), pc) {
        var file :| Resolves(ResolvedBy(first, log), file, LatestLines(first, log, file), pc);
        assert file in byFile;
        assert Resolves(ResolvedBy(first, log), file, byFile[file], pc);
      }
    }

    method InsertAll(addresses: seq<word>)
      modifies this`all
      ensures forall a: word :: a in all <==> a in old(all) || a in addresses
    {
      var i := 0;
      while i < |addresses|
        invariant i <= |addresses|
        invariant forall a: word :: a in all <==> a in old(all) || a in addresses[..i]
      {
        all := all + {addresses[i]};
        i := i + 1;
      }
      assert addresses[..i] == addresses;
    }

    method RebuildAll()
      modifies this`all
      ensures Merged()
    {
      all := {};
      InsertAll(sourceAddresses);
      InsertAll(instructions);
      InsertAll(functions);
      all := all + listing;
    }

    /** Adds the addresses of one file that are not there yet. */
    method CollectFile(file: string, lines: seq<int>)
      modifies this`sourceAddresses
      ensures forall a: word :: a in sourceAddresses <==> a in old(sourceAddresses) || Resolves(info, file, lines, a)
    {
      var i := 0;
      while i < |lines|
        invariant i <= |lines|
        invariant forall a: word :: a in sourceAddresses <==> a in old(sourceAddresses) || Resolves(info, file, lines[..i], a)
      {
        var addr := info.lookup(file, lines[i]);
        ResolvesNext(info, file, lines, i);
        if addr.Some? && addr.value !in sourceAddresses {
          sourceAddresses := sourceAddresses + [addr.value];
        }
        i := i + 1;
      }
      assert lines[..i] == lines;
    }

    /** Files are visited in whatever order the hash map has. */
    method RebuildSources()
      modifies this`sourceAddresses, this`all
      ensures SourcesAre(info, byFile, sourceAddresses) && Merged()
    {
      sourceAddresses := [];
      var left := byFile.Keys;
      while left != {}
        invariant left <= byFile.Keys
        invariant forall a: word :: a in sourceAddresses <==>
          exists f :: f in byFile && f !in left && Resolves(info, f, byFile[f], a)
        decreases left
      {
        var file :| file in left;
        CollectFile(file, byFile[file]);
        left := left - {file};
      }
      RebuildAll();
    }

    /** The addresses of the listing lines asked for; a line that is not there is answered as such. */
    method BindListing(lines: seq<int>) returns (addrs: seq<word>, result: seq<Verdict>)
      ensures addrs == Addresses(ListingAt(info), lines) && Lines(result, lines)
      ensures forall i :: 0 <= i < |lines| ==> (result[i].verified <==> ListingAt(info)(lines[i]).Some?)
      ensures forall i :: 0 <= i < |lines| ==> result[i].note == if result[i].verified then Bound else OutOfRange
    {
      addrs, result := [], [];
      var i := 0;
      while i < |lines|
        invariant i <= |lines| && |result| == i
        invariant forall k :: 0 <= k < i ==>
          result[k].line == lines[k] && (result[k].verified <==> ListingAt(info)(lines[k]).Some?)
          && result[k].note == if result[k].verified then Bound else OutOfRange
        invariant addrs == Addresses(ListingAt(info), lines[..i])
      {
        AddressesNext(ListingAt(info), lines, i);
        var idx := lines[i] - 1;
        if idx >= 0 && idx < |info.listing| {
          addrs := addrs + [info.listing[idx]];
          result := result + [Verdict(true, lines[i], Bound)];
        } else {
          result := result + [Verdict(false, lines[i], OutOfRange)];
        }
        i := i + 1;
      }
      assert lines[..i] == lines;
    }

    method SetListing(addresses: seq<word>)
      modifies this`listing, this`all
      ensures Merged() && forall a: word :: a in listing <==> a in addresses
    {
      listing := {};
      var i := 0;
      while i < |addresses|
        invariant i <= |addresses|
        invariant forall a: word :: a in listing <==> a in addresses[..i]
      {
        listing := listing + {addresses[i]};
        i := i + 1;
      }
      assert addresses[..i] == addresses;
      RebuildAll();
    }

    method SetListingBreakpoints(path: string, lines: seq<int>) returns (result: seq<Verdict>)
      requires Valid() && IsListing(info, path)
      modifies this`listing, this`all, this`log
      ensures Valid() && log == old(log) + [SetSource(path, lines)]
      ensures Lines(result, lines) && Verdicts(ListingAt(info), all, result, lines)
      ensures forall i :: 0 <= i < |lines| ==> result[i].note == if result[i].verified then Bound else OutOfRange
    {
      var addrs;
      addrs, result := BindListing(lines);
      SetListing(addrs);
      ghost var requests := log + [SetSource(path, lines)];
      FollowListing(first, log, requests, info, byFile, instructions, functions, old(listing), listing, path, lines);
      log := requests;
      VerdictsHold(ListingAt(info), all, result, lines);
    }

    /** The verdicts are given before the addresses are rebuilt, from the same index. */
    method Resolve(file: string) returns (result: seq<Verdict>)
      ensures var lines := if file in byFile then byFile[file] else [];
        Lines(result, lines) && forall i :: 0 <= i < |lines| ==>
          (result[i].verified <==> info.lookup(file, lines[i]).Some?)
          && result[i].note == if result[i].verified then Bound else if info.hasSymbols then NoMapping else Pending
    {
      result := [];
      if file !in byFile {
        return;
      }
      var lines := byFile[file];
      var i := 0;
      while i < |lines|
        invariant i <= |lines| && |result| == i
        invariant forall k :: 0 <= k < i ==>
          result[k].line == lines[k] && (result[k].verified <==> info.lookup(file, lines[k]).Some?)
          && result[k].note == if result[k].verified then Bound else if info.hasSymbols then NoMapping else Pending
      {
        var v := if info.lookup(file, lines[i]).Some? then Verdict(true, lines[i], Bound)
                 else if !info.hasSymbols then Verdict(false, lines[i], Pending)
                 else Verdict(false, lines[i], NoMapping);
        result := result + [v];
        i := i + 1;
      }
    }

    method StoreLines(file: string, lines: seq<int>)
      modifies this`byFile
      ensures byFile == WithLines(old(byFile), file, lines)
    {
      if file == "" {
        return;
      }
      if lines == [] {
        byFile := byFile - {file};
      } else {
        byFile := byFile[file := lines];
      }
    }

    method SetLinesForFile(file: string, lines: seq<int>)
      requires Follows(first, log, info, byFile, instructions, functions, listing) && !IsListing(info, file)
      modifies this`byFile, this`log
      ensures log == old(log) + [SetSource(file, lines)] && ResolvedBy(first, log) == info
      ensures Follows(first, log, info, byFile, instructions, functions, listing)
      ensures byFile == WithLines(old(byFile), file, lines) && (file == "" ==> file !in byFile)
    {
      ghost var next := log + [SetSource(file, lines)];
      FollowFile(first, log, next, info, byFile, instructions, functions, listing, file, lines);
      StoreLines(file, lines);
      log := next;
    }

    /** A request without a path is answered with nothing and changes nothing. */
    method SetFileBreakpoints(path: string, lines: seq<int>) returns (result: seq<Verdict>)
      requires Valid() && !IsListing(info, path)
      modifies this`byFile, this`sourceAddresses, this`all, this`log
      ensures Valid() && log == old(log) + [SetSource(path, lines)]
      ensures path == "" ==> result == []
      ensures path != "" ==> Lines(result, lines) && Verdicts(LineAt(info, path), all, result, lines)
      ensures path != "" ==> forall i :: 0 <= i < |lines| ==>
        result[i].note == if result[i].verified then Bound else if info.hasSymbols then NoMapping else Pending
    {
      SetLinesForFile(path, lines);
      result := Resolve(path);
      RebuildSources();
      if path != "" {
        assert lines != [] ==> path in byFile && byFile[path] == lines;
        FileVerdictsHold(info, byFile, sourceAddresses, all, path, lines, result);
      }
    }

    method SetSourceBreakpoints(path: string, lines: seq<int>) returns (result: seq<Verdict>)
      requires Valid()
      modifies this`listing, this`byFile, this`sourceAddresses, this`all, this`log
      ensures Valid() && log == old(log) + [SetSource(path, lines)]
      ensures path == "" ==> result == []
      ensures path != "" ==> Lines(result, lines)
      ensures path != "" && IsListing(info, path) ==> Verdicts(ListingAt(info), all, result, lines)
      ensures path != "" && !IsListing(info, path) ==> Verdicts(LineAt(info, path), all, result, lines)
      ensures path != "" ==> forall i :: 0 <= i < |lines| ==>
        result[i].note == if result[i].verified then Bound
                          else if IsListing(info, path) then OutOfRange
                          else if info.hasSymbols then NoMapping else Pending
    {
      if IsListing(info, path) {
        result := SetListingBreakpoints(path, lines);
      } else {
        result := SetFileBreakpoints(path, lines);
      }
    }

    method FindFunctions(names: seq<string>) returns (result: seq<Verdict>)
      modifies this`functions
      ensures functions == Addresses(FunctionAt(info), names) && |result| == |names|
      ensures forall i :: 0 <= i < |names| ==> (result[i].verified <==> info.functionNamed(names[i]).Some?)
      ensures forall i :: 0 <= i < |names| ==> result[i].note == if result[i].verified then Bound else NotFound
    {
      functions := [];
      result := [];
      var i := 0;
      while i < |names|
        invariant i <= |names| && |result| == i
        invariant forall k :: 0 <= k < i ==> (result[k].verified <==> info.functionNamed(names[k]).Some?)
        invariant forall k :: 0 <= k < i ==> result[k].note == if result[k].verified then Bound else NotFound
        invariant functions == Addresses(FunctionAt(info), names[..i])
      {
        var addr := info.functionNamed(names[i]);
        AddressesNext(FunctionAt(info), names, i);
        if addr.Some? {
          functions := functions + [addr.value];
          result := result + [Verdict(true, 0, Bound)];
        } else {
          result := result + [Verdict(false, 0, NotFound)];
        }
        i := i + 1;
      }
      assert names[..i] == names;
    }

    method ArmFunctions(names: seq<string>) returns (result: seq<Verdict>)
      modifies this`functions, this`all
      ensures functions == Addresses(FunctionAt(info), names) && Merged()
      ensures Verdicts(FunctionAt(info), all, result, names)
      ensures forall i :: 0 <= i < |names| ==> result[i].note == if result[i].verified then Bound else NotFound
    {
      result := FindFunctions(names);
      RebuildAll();
      VerdictsHold(FunctionAt(info), all, result, names);
    }

    method SetFunctionBreakpoints(names: seq<string>) returns (result: seq<Verdict>)
      requires Valid()
      modifies this`functions, this`all, this`log
      ensures Valid() && log == old(log) + [SetFunctions(names)]
      ensures Verdicts(FunctionAt(info), all, result, names)
      ensures forall i :: 0 <= i < |names| ==> result[i].note == if result[i].verified then Bound else NotFound
    {
      ghost var requests := log + [SetFunctions(names)];
      FollowFunctions(first, log, requests, info, byFile, instructions, functions, listing, names);
      log := requests;
      result := ArmFunctions(names);
    }

    method ReadReferences(references: seq<Option<word>>)
      modifies this`instructions
      ensures instructions == Addresses(ReferenceAt(), references)
    {
      instructions := [];
      var i := 0;
      while i < |references|
        invariant i <= |references|
        invariant instructions == Addresses(ReferenceAt(), references[..i])
      {
        AddressesNext(ReferenceAt(), references, i);
        if references[i].Some? {
          instructions := instructions + [references[i].value];
        }
        i := i + 1;
      }
      assert references[..i] == references;
    }

    method ArmReferences(references: seq<Option<word>>) returns (result: seq<word>)
      modifies this`instructions, this`all
      ensures instructions == Addresses(ReferenceAt(), references) && Merged()
      ensures result == instructions && forall a :: a in result ==> a in all
    {
      ReadReferences(references);
      RebuildAll();
      result := instructions;
    }

    /** References that are no numbers are not answered at all; the others are all verified. */
    method SetInstructionBreakpoints(references: seq<Option<word>>) returns (result: seq<word>)
      requires Valid()
      modifies this`instructions, this`all, this`log
      ensures Valid() && log == old(log) + [SetInstructions(references)]
      ensures result == Addresses(ReferenceAt(), references) && forall a :: a in result ==> a in all
    {
      ghost var requests := log + [SetInstructions(references)];
      FollowInstructions(first, log, requests, info, byFile, instructions, functions, listing, references);
      log := requests;
      result := ArmReferences(references);
    }

    /** A launch brings a new index; with a program source breakpoints are looked up again, the others keep the
        addresses they were given. */
    method Relaunch(next: Info, program: bool)
      requires Valid()
      modifies this`info, this`sourceAddresses, this`all, this`log
      ensures Valid() && log == old(log) + [Launch(next, program)] && info == next
    {
      ghost var requests := log + [Launch(next, program)];
      FollowLaunch(first, log, requests, info, byFile, instructions, functions, listing, next, program);
      info := next;
      log := requests;
      if program {
        RebuildSources();
      }
    }
  }

  lemma ResolvesNext(info: Info, file: string, lines: seq<int>, i: nat)
    requires i < |lines|
    ensures forall a: word :: Resolves(info, file, lines[..i + 1], a) <==>
      Resolves(info, file, lines[..i], a) || info.lookup(file, lines[i]) == Some(a)
  {
    forall a: word
      ensures Resolves(info, file, lines[..i + 1], a) <==>
        Resolves(info, file, lines[..i], a) || info.lookup(file, lines[i]) == Some(a)
    {
      var before, upTo := lines[..i], lines[..i + 1];
      if Resolves(info, file, upTo, a) {
        var k :| 0 <= k < |upTo| && info.lookup(file, upTo[k]) == Some(a);
        assert k < i ==> before[k] == upTo[k];
      }
      if Resolves(info, file, before, a) {
        var k :| 0 <= k < |before| && info.lookup(file, before[k]) == Some(a);
        assert upTo[k] == before[k];
      }
      assert upTo[i] == lines[i];
    }
  }

  lemma {:induction false} NoLinesWithoutPath(first: Info, log: seq<Request>)
    ensures LatestLines(first, log, "") == []
  {
    if log != [] {
      NoLinesWithoutPath(first, log[..|log| - 1]);
    }
  }

  lemma {:induction false} LogSource(first: Info, log: seq<Request>, path: string, lines: seq<int>)
    ensures var log' := log + [SetSource(path, lines)]; var info := InfoAfter(first, log);
      && InfoAfter(first, log') == info
      && LatestFunctions(first, log') == LatestFunctions(first, log)
      && LatestInstructions(log') == LatestInstructions(log)
      && (forall f :: LatestLines(first, log', f) ==
            if f == path && path != "" && !IsListing(info, path) then lines else LatestLines(first, log, f))
      && LatestListing(first, log') ==
           if IsListing(info, path) then Addresses(ListingAt(info), lines)
           else LatestListing(first, log)
  {
    assert (log + [SetSource(path, lines)])[..|log|] == log;
  }

  lemma {:induction false} ResolvedSource(first: Info, log: seq<Request>, path: string, lines: seq<int>)
    ensures ResolvedBy(first, log + [SetSource(path, lines)])
      == if IsListing(InfoAfter(first, log), path) then ResolvedBy(first, log) else InfoAfter(first, log)
  {
    assert (log + [SetSource(path, lines)])[..|log|] == log;
  }

  lemma {:induction false} ResolvedOther(first: Info, log: seq<Request>, r: Request)
    requires !r.SetSource?
    ensures ResolvedBy(first, log + [r]) == if r.Launch? && r.program then r.info else ResolvedBy(first, log)
  {
    assert (log + [r])[..|log|] == log;
  }

  lemma {:induction false} FollowFile(first: Info, log: seq<Request>, next: seq<Request>, info: Info,
             byFile: map<string, seq<int>>, instructions: seq<word>, functions: seq<word>, listing: set<word>,
             file: string, lines: seq<int>)
    requires Follows(first, log, info, byFile, instructions, functions, listing) && !IsListing(info, file)
    requires next == log + [SetSource(file, lines)]
    ensures Follows(first, next, info, WithLines(byFile, file, lines), instructions, functions, listing)
    ensures ResolvedBy(first, next) == info && (file == "" ==> file !in WithLines(byFile, file, lines))
  {
    NoLinesWithoutPath(first, log);
    LogSource(first, log, file, lines);
    ResolvedSource(first, log, file, lines);
  }

  lemma {:induction false} FollowListing(first: Info, log: seq<Request>, requests: seq<Request>, info: Info,
                byFile: map<string, seq<int>>, instructions: seq<word>, functions: seq<word>, before: set<word>,
                listing: set<word>, path: string, lines: seq<int>)
    requires Follows(first, log, info, byFile, instructions, functions, before) && IsListing(info, path)
    requires forall a: word :: a in listing <==> a in Addresses(ListingAt(info), lines)
    requires requests == log + [SetSource(path, lines)]
    ensures Follows(first, requests, info, byFile, instructions, functions, listing)
    ensures ResolvedBy(first, requests) == ResolvedBy(first, log)
  {
    LogSource(first, log, path, lines);
    ResolvedSource(first, log, path, lines);
  }

  lemma {:induction false} FollowFunctions(first: Info, log: seq<Request>, requests: seq<Request>, info: Info,
                  byFile: map<string, seq<int>>, instructions: seq<word>, before: seq<word>, listing: set<word>,
                  names: seq<string>)
    requires Follows(first, log, info, byFile, instructions, before, listing)
    requires requests == log + [SetFunctions(names)]
    ensures Follows(first, requests, info, byFile, instructions, Addresses(FunctionAt(info), names), listing)
    ensures ResolvedBy(first, requests) == ResolvedBy(first, log)
  {
    LogOther(first, log, SetFunctions(names));
    ResolvedOther(first, log, SetFunctions(names));
  }

  lemma {:induction false} FollowInstructions(first: Info, log: seq<Request>, requests: seq<Request>, info: Info,
                     byFile: map<string, seq<int>>, before: seq<word>, functions: seq<word>, listing: set<word>,
                     references: seq<Option<word>>)
    requires Follows(first, log, info, byFile, before, functions, listing)
    requires requests == log + [SetInstructions(references)]
    ensures Follows(first, requests, info, byFile, Addresses(ReferenceAt(), references), functions, listing)
    ensures ResolvedBy(first, requests) == ResolvedBy(first, log)
  {
    LogOther(first, log, SetInstructions(references));
    ResolvedOther(first, log, SetInstructions(references));
  }

  lemma {:induction false} FollowLaunch(first: Info, log: seq<Request>, requests: seq<Request>, info: Info,
               byFile: map<string, seq<int>>, instructions: seq<word>, functions: seq<word>, listing: set<word>,
               next: Info, program: bool)
    requires Follows(first, log, info, byFile, instructions, functions, listing)
    requires requests == log + [Launch(next, program)]
    ensures Follows(first, requests, next, byFile, instructions, functions, listing)
    ensures ResolvedBy(first, requests) == if program then next else ResolvedBy(first, log)
  {
    LogOther(first, log, Launch(next, program));
    ResolvedOther(first, log, Launch(next, program));
  }

  lemma {:induction false} LogOther(first: Info, log: seq<Request>, r: Request)
    requires !r.SetSource?
    ensures var log' := log + [r]; var info := InfoAfter(first, log);
      && (forall f :: LatestLines(first, log', f) == LatestLines(first, log, f))
      && LatestListing(first, log') == LatestListing(first, log)
      && InfoAfter(first, log') == (if r.Launch? then r.info else info)
      && LatestFunctions(first, log')
           == (if r.SetFunctions? then Addresses(FunctionAt(info), r.names) else LatestFunctions(first, log))
      && LatestInstructions(log')
           == (if r.SetInstructions? then Addresses(ReferenceAt(), r.references) else LatestInstructions(log))
  {
    assert (log + [r])[..|log|] == log;
  }
}
