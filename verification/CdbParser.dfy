/** The CDB parser: how records are read and which module each of them ends up in. */
module CdbParser {
  import opened Text
  import opened Z80
  import opened Util
  import opened SourceData

  // ---- data ------------------------------------------------------------------

  const NO_ADDRESS: word := 0xFFFF

  /** What one line of the file says. */
  datatype Record =
    | Ignored
    | Declare(name: string)
    | Define(defined: string, scope: string)
    | Local(owner: string, local: Variable)
    | Global(global: Variable)
    | Type(info: TypeInfo)
    | Mark(markOwner: string, marked: string, at: word, isEnd: bool)
    | Asm(asmModule: string, asmLine: int, asmAddress: word)
    | Source(record: Line)

  // ---- reading -------------------------------------------------------------------

  // The text before the first `$`, the text between it and the second, and where the second is.
  datatype Dollars = NoDollars | Dollars(before: string, between: string, at: nat)

  function TwoDollars(content: string): Dollars {
    var d1 := Find(content, '$', 0);
    if d1 == |content| then NoDollars
    else
      var d2 := Find(content, '$', d1 + 1);
      if d2 == |content| then NoDollars else Dollars(content[..d1], content[d1 + 1..d2], d2)
  }

  function HexAddress(text: string): Option<word> {
    var v := StoulHex(text);
    if v.None? then None else Some(v.value % 0x10000)
  }

  function ScopeOf(content: string): string {
    if content != "" && content[0] == 'G' then "global" else "local"
  }

  /** What follows the first dot, or everything. */
  function AfterDot(name: string): string {
    var dot := Find(name, '.', 0);
    if dot < |name| then name[dot + 1..] else name
  }

  function ReadFunction(content: string): Record {
    var t := TwoDollars(content);
    if t.NoDollars? then Ignored else Define(AfterDot(t.between), ScopeOf(content))
  }

  /** The text between the first `open` from `from` on and the first `close` after it, and where it ends. */
  function Bracketed(s: string, open: char, close: char): Option<(string, nat)> {
    var p1 := Find(s, open, 0);
    if p1 == |s| then None
    else
      var p2 := Find(s, close, p1);
      if p2 == |s| || p2 == p1 then None else Some((s[p1 + 1..p2], p2))
  }

  /** The byte size in front of a type, `{N}`, kept between 1 and 4. */
  function SizeOf(typeInfo: string): int {
    var n := if typeInfo != "" && typeInfo[0] == '{' then SizeField(typeInfo) else 1;
    if n < 1 then 1 else if n > 4 then 4 else n
  }

  function SizeField(typeInfo: string): int
    requires typeInfo != "" && typeInfo[0] == '{'
  {
    var close := Find(typeInfo, '}', 1);
    if close < |typeInfo| && Stoi(typeInfo[1..close]).Some? then Stoi(typeInfo[1..close]).value else 1
  }

  function StorageOf(field: string): Storage {
    if field == "" then Unknown
    else if field[0] == 'B' then Stack
    else if field[0] == 'R' then Register
    else if field[0] == 'I' then Internal
    else if field[0] == 'E' then External
    else if field[0] == 'A' then GlobalAuto
    else Unknown
  }

  function OffsetOf(parts: seq<string>): int {
    if |parts| >= 4 && Stoi(parts[3]).Some? then Stoi(parts[3]).value else 0
  }

  /** A variable without a type in parentheses has no storage either. */
  function ReadVariable(content: string, name: string, scope: string): Variable {
    var t := Bracketed(content, '(', ')');
    if t.None? then Variable(name, scope, "", Unknown, 0, 1, "")
    else
      var suffix := content[t.value.1 + 1..];
      var parts, regs := Split(suffix, ','), Bracketed(suffix, '[', ']');
      Variable(name, scope, t.value.0, if |parts| >= 2 then StorageOf(parts[1]) else Unknown, OffsetOf(parts),
               SizeOf(t.value.0), if regs.Some? then regs.value.0 else "")
  }

  /** A local symbol names its function after the dot of its scope; without a dot it is dropped. */
  function ReadSymbol(content: string): Record {
    var t := TwoDollars(content);
    if t.NoDollars? then Ignored
    else if content[0] == 'L' then
      var prefix := t.before[1..];
      var dot := Find(prefix, '.', 0);
      if dot == |prefix| then Ignored
      else Local(prefix[dot + 1..], ReadVariable(content, t.between, "local"))
    else
      Global(ReadVariable(content, t.between,
                          if content[0] == 'G' then "global" else if content[0] == 'F' then "local" else "struct"))
  }

  /** The layout reaches from the first `[` to the last `]`, or to the end if that lies before it. */
  function ReadType(content: string): Record {
    var d1, open, close := Find(content, '$', 0), Find(content, '[', 0), AfterLast(content, ']');
    if d1 == |content| || open == |content| then Ignored
    else
      var name := if d1 < open then content[d1 + 1..open] else content[d1 + 1..];
      Type(TypeInfo(AfterDot(name), ScopeOf(content),
                    if close == 0 then "" else if open <= close then content[open..close] else content[open..]))
  }

  function ReadMarker(content: string, isEnd: bool): Record {
    var colon := AfterLast(content, ':');
    var t := TwoDollars(content);
    if colon == 0 || HexAddress(content[colon..]).None? || t.NoDollars? then Ignored
    else Mark(t.before, t.between, HexAddress(content[colon..]).value, isEnd)
  }

  datatype AsmTexts = NoAsm | AsmTexts(name: string, line: string, address: string)

  /** The line number lies between the second `$` and the last colon. */
  function SplitAsm(content: string): AsmTexts {
    var d, colon := TwoDollars(content), AfterLast(content, ':');
    if d.NoDollars? || colon <= d.at + 1 then NoAsm
    else AsmTexts(d.between, content[d.at + 1..colon - 1], content[colon..])
  }

  function AsmRecord(t: AsmTexts): Record
    requires t.AsmTexts?
  {
    var line, address := Stoi(t.line), HexAddress(t.address);
    if line.None? || address.None? then Ignored else Asm(t.name, line.value, address.value)
  }

  function ReadAsm(content: string): Record {
    var t := SplitAsm(content);
    if t.NoAsm? then Ignored else AsmRecord(t)
  }

  function Slashes(file: string): string {
    seq(|file|, i requires 0 <= i < |file| => if file[i] == '\\' then '/' else file[i])
  }

  /** What follows the first colon of the last field. */
  function AddressText(part: string): Option<string> {
    var colon := Find(part, ':', 0);
    if colon == |part| then None else Some(part[colon + 1..])
  }

  function AddressOrZero(text: Option<string>): word {
    if text.None? || HexAddress(text.value).None? then 0 else HexAddress(text.value).value
  }

  function LastAddress(part: string): word { AddressOrZero(AddressText(part)) }

  function ReadSource(content: string): Record {
    var parts := Split(content, '$');
    if |parts| < 4 || Stoi(parts[2]).None? then Ignored
    else Source(Line(Slashes(parts[1]), Stoi(parts[2]).value, LastAddress(parts[|parts| - 1])))
  }

  function ReadLineInfo(content: string): Record {
    if content == "" then Ignored
    else if content[0] == 'F' then ReadMarker(content[1..], false)
    else if |content| >= 2 && content[0] == 'X' && content[1] == 'F' then ReadMarker(content[2..], true)
    else if content[0] == 'G' then ReadMarker(content[1..], false)
    else if |content| >= 2 && content[0] == 'X' && content[1] == 'G' then ReadMarker(content[2..], true)
    else if content[0] == 'A' then ReadAsm(content)
    else if content[0] == 'C' then ReadSource(content)
    else Ignored
  }

  function ReadRecord(line: string): Record {
    if |line| < 2 || line[1] != ':' then Ignored
    else if line[0] == 'M' then Declare(line[2..])
    else if line[0] == 'F' then ReadFunction(line[2..])
    else if line[0] == 'S' then ReadSymbol(line[2..])
    else if line[0] == 'T' then ReadType(line[2..])
    else if line[0] == 'L' then ReadLineInfo(line[2..])
    else Ignored
  }

  function ReadAll(lines: seq<string>): seq<Record> {
    seq(|lines|, i requires 0 <= i < |lines| => ReadRecord(Trim(lines[i])))
  }

  // ---- what a record does ------------------------------------------------------------

  datatype Parsed = Parsed(modules: seq<Module>, current: Option<nat>, asm: map<string, map<int, word>>)

  function Start(): Parsed { Parsed([], None, map[]) }

  /** Index of the first module of that name from `i` on, or `|ms|`. */
  function FirstModule(ms: seq<Module>, name: string, i: nat): (k: nat)
    requires i <= |ms|
    ensures i <= k <= |ms| && (k < |ms| ==> ms[k].name == name)
    ensures forall j :: i <= j < k ==> ms[j].name != name
    decreases |ms| - i
  {
    if i == |ms| || ms[i].name == name then i else FirstModule(ms, name, i + 1)
  }

  /** The file name without its extension; nothing when there is no dot. */
  function Owner(file: string): string {
    var dot := AfterLast(file, '.');
    if dot == 0 then "" else file[..dot - 1]
  }

  function WithLine(m: Module, l: Line): Module {
    m.(lines := m.lines + [l], file := if m.file == m.name + ".c" then l.file else m.file)
  }

  /** The module a source line goes to: the current one if it fits, else the first that does. */
  function Route(s: Parsed, name: string): nat {
    if s.current.Some? && s.current.value < |s.modules| && s.modules[s.current.value].name == name
    then s.current.value
    else FirstModule(s.modules, name, 0)
  }

  function FirstFunction(fs: seq<Function>, name: string, j: nat): (k: nat)
    requires j <= |fs|
    ensures j <= k <= |fs| && (k < |fs| ==> fs[k].name == name) && forall i :: j <= i < k ==> fs[i].name != name
    decreases |fs| - j
  {
    if j == |fs| || fs[j].name == name then j else FirstFunction(fs, name, j + 1)
  }

  /** The first module, of that name unless the name is empty, that has the function. */
  function Marked(ms: seq<Module>, owner: string, name: string, i: nat): (k: nat)
    requires i <= |ms|
    ensures i <= k <= |ms| && (k < |ms| ==> FirstFunction(ms[k].functions, name, 0) < |ms[k].functions|)
    ensures k < |ms| ==> owner == "" || ms[k].name == owner
    ensures forall j :: i <= j < k && (owner == "" || ms[j].name == owner) ==>
      forall f :: f in ms[j].functions ==> f.name != name
    decreases |ms| - i
  {
    if i == |ms| then i
    else if (owner == "" || ms[i].name == owner) && FirstFunction(ms[i].functions, name, 0) < |ms[i].functions| then i
    else Marked(ms, owner, name, i + 1)
  }

  function WithMark(m: Module, j: nat, at: word, isEnd: bool): Module
    requires j < |m.functions|
  {
    m.(functions := m.functions[j := if isEnd then m.functions[j].(end := at) else m.functions[j].(start := at)])
  }

  function AsmOf(asm: map<string, map<int, word>>, name: string): map<int, word> {
    if name in asm then asm[name] else map[]
  }

  function NewModule(name: string): Module {
    Module(name, name + ".c", [], [], [], [], map[])
  }

  /** A symbol belongs to the first function of that name, if there is one. */
  function WithLocal(m: Module, f: string, v: Variable): Module {
    var k := FirstFunction(m.functions, f, 0);
    if k == |m.functions| then m
    else m.(functions := m.functions[k := m.functions[k].(locals := m.functions[k].locals + [v])])
  }

  /** What a record adds to the current module. */
  function WithMember(m: Module, r: Record): Module {
    match r
    case Define(f, scope) => m.(functions := m.functions + [Function(f, scope, [], NO_ADDRESS, NO_ADDRESS)])
    case Local(f, v) => WithLocal(m, f, v)
    case Global(v) => m.(globals := m.globals + [v])
    case Type(t) => m.(types := m.types + [t])
    case _ => m
  }

  predicate IsMember(r: Record) { r.Define? || r.Local? || r.Global? || r.Type? }

  function Apply(s: Parsed, r: Record): Parsed {
    match r
    case Ignored => s
    case Declare(name) =>
      s.(modules := s.modules + [NewModule(name)], current := Some(|s.modules|))
    case Mark(owner, f, at, isEnd) =>
      var k := Marked(s.modules, owner, f, 0);
      if k == |s.modules| then s
      else s.(modules := s.modules[k := WithMark(s.modules[k], FirstFunction(s.modules[k].functions, f, 0), at, isEnd)])
    case Asm(name, line, address) =>
      var lines := AsmOf(s.asm, name);
      s.(asm := s.asm[name := if line in lines then lines else lines[line := address]])
    case Source(l) =>
      var k := Route(s, Owner(l.file));
      if k == |s.modules| then s else s.(modules := s.modules[k := WithLine(s.modules[k], l)])
    case _ =>
      if s.current.None? || s.current.value >= |s.modules| then s
      else s.(modules := s.modules[s.current.value := WithMember(s.modules[s.current.value], r)])
  }

  function ApplyAll(s: Parsed, rs: seq<Record>): Parsed {
    if rs == [] then s else Apply(ApplyAll(s, rs[..|rs| - 1]), rs[|rs| - 1])
  }

  // ---- the parser ------------------------------------------------------------------------

  class Parser {
    var data: seq<Module>
    var current: Option<nat>
    var asm: map<string, map<int, word>>

    constructor ()
      ensures State() == Start()
    {
      data, current, asm := [], None, map[];
    }

    ghost function State(): Parsed
      reads this
    {
      Parsed(data, current, asm)
    }

    method ParseModule(content: string)
      modifies this
      ensures State() == Apply(old(State()), Declare(content))
    {
      data := data + [NewModule(content)];
      current := Some(|data| - 1);
    }

    method ParseFunction(content: string)
      modifies this`data
      ensures State() == Apply(old(State()), ReadFunction(content))
    {
      var r := ReadFunction(content);
      if current.None? || current.value >= |data| || r.Ignored? {
        return;
      }
      var m := data[current.value];
      data := data[current.value := m.(functions := m.functions + [Function(r.defined, r.scope, [], NO_ADDRESS, NO_ADDRESS)])];
    }

    /** Locals go to the first function of their name, the others to the current module. */
    method ParseSymbol(content: string)
      modifies this`data
      ensures State() == Apply(old(State()), ReadSymbol(content))
    {
      var r := ReadSymbol(content);
      if current.None? || current.value >= |data| || r.Ignored? {
        return;
      }
      var c := current.value;
      if r.Global? {
        data := data[c := data[c].(globals := data[c].globals + [r.global])];
        return;
      }
      var fs := data[c].functions;
      var j := 0;
      while j < |fs|
        invariant j <= |fs| && State() == old(State())
        invariant FirstFunction(fs, r.owner, 0) == FirstFunction(fs, r.owner, j)
      {
        if fs[j].name == r.owner {
          data := data[c := data[c].(functions := fs[j := fs[j].(locals := fs[j].locals + [r.local])])];
          return;
        }
        j := j + 1;
      }
      assert data[c := data[c]] == data;
    }

    method ParseType(content: string)
      modifies this`data
      ensures State() == Apply(old(State()), ReadType(content))
    {
      var r := ReadType(content);
      if current.None? || current.value >= |data| || r.Ignored? {
        return;
      }
      data := data[current.value := data[current.value].(types := data[current.value].types + [r.info])];
    }

    method ParseFuncMarker(r: Record)
      requires r.Ignored? || r.Mark?
      modifies this
      ensures State() == Apply(old(State()), r)
    {
      if r.Ignored? {
        return;
      }
      var i := 0;
      while i < |data|
        invariant i <= |data| && State() == old(State())
        invariant Marked(data, r.markOwner, r.marked, 0) == Marked(data, r.markOwner, r.marked, i)
      {
        if r.markOwner == "" || data[i].name == r.markOwner {
          var j := 0;
          while j < |data[i].functions|
            invariant j <= |data[i].functions| && State() == old(State())
            invariant FirstFunction(data[i].functions, r.marked, 0) == FirstFunction(data[i].functions, r.marked, j)
          {
            if data[i].functions[j].name == r.marked {
              data := data[i := WithMark(data[i], j, r.at, r.isEnd)];
              return;
            }
            j := j + 1;
          }
        }
        i := i + 1;
      }
    }

    method ParseAsmLine(r: Record)
      requires r.Ignored? || r.Asm?
      modifies this
      ensures State() == Apply(old(State()), r)
    {
      if r.Ignored? {
        return;
      }
      var lines := AsmOf(asm, r.asmModule);
      if r.asmLine !in lines {
        lines := lines[r.asmLine := r.asmAddress];
      }
      asm := asm[r.asmModule := lines];
    }

    method ParseSourceLine(r: Record)
      requires r.Ignored? || r.Source?
      modifies this
      ensures State() == Apply(old(State()), r)
    {
      if r.Ignored? {
        return;
      }
      var name := Owner(r.record.file);
      if current.Some? && current.value < |data| && data[current.value].name == name {
        data := data[current.value := WithLine(data[current.value], r.record)];
        return;
      }
      var i := 0;
      while i < |data|
        invariant i <= |data| && State() == old(State())
        invariant FirstModule(data, name, 0) == FirstModule(data, name, i)
      {
        if data[i].name == name {
          data := data[i := WithLine(data[i], r.record)];
          return;
        }
        i := i + 1;
      }
    }

    method ParseLineInfo(content: string)
      modifies this
      ensures State() == Apply(old(State()), ReadLineInfo(content))
    {
      var r := ReadLineInfo(content);
      match r
      case Mark(_, _, _, _) => ParseFuncMarker(r);
      case Asm(_, _, _) => ParseAsmLine(r);
      case Source(_) => ParseSourceLine(r);
      case _ =>
    }

    method ParseLine(line: string)
      modifies this
      ensures State() == Apply(old(State()), ReadRecord(line))
    {
      if |line| < 2 || line[1] != ':' {
        return;
      }
      if line[0] == 'M' {
        ParseModule(line[2..]);
      } else if line[0] == 'F' {
        ParseFunction(line[2..]);
      } else if line[0] == 'S' {
        ParseSymbol(line[2..]);
      } else if line[0] == 'T' {
        ParseType(line[2..]);
      } else if line[0] == 'L' {
        ParseLineInfo(line[2..]);
      }
    }

    /** The records of one name: into the first module of that name, or a new stub. */
    method MergeName(name: string, ghost before: seq<Module>, ghost done: set<string>)
      requires name in asm && name !in done && MergedFor(before, asm, done, data)
      modifies this`data
      ensures MergedFor(before, asm, done + {name}, data)
    {
      var target := 0;
      while target < |data| && data[target].name != name
        invariant target <= |data| && FirstModule(data, name, 0) == FirstModule(data, name, target)
      {
        target := target + 1;
      }
      ghost var was, entries := data, asm[name];
      if target == |data| {
        MergeStub(before, asm, done, was, name);
        data := data + [Stub(name, map[])];
      } else {
        MergeExisting(before, asm, done, was, name, target);
      }
      var lines := EmplaceAll(data[target].asmLines, asm[name]);
      data := data[target := data[target].(asmLines := lines)];
      if target == |was| {
        EmplaceNothing(entries);
        assert data == was + [Stub(name, entries)];
      } else {
        assert data == was[target := Merge(was[target], entries)];
      }
    }

    /** Names are visited in whatever order the hash map has. */
    method MergeAsmLines()
      modifies this`data
      ensures MergedFor(old(data), asm, asm.Keys, data)
    {
      var left := asm.Keys;
      ghost var done: set<string> := {};
      ghost var before := data;
      while left != {}
        invariant left <= asm.Keys && done == asm.Keys - left
        invariant MergedFor(before, asm, done, data)
        decreases left
      {
        var name :| name in left;
        MergeName(name, before, done);
        done := done + {name};
        left := left - {name};
      }
    }

    /** A whole file. */
    method Parse(lines: seq<string>)
      modifies this
      ensures var p := ApplyAll(Start(), ReadAll(lines)); MergedFor(p.modules, p.asm, p.asm.Keys, data)
    {
      data, current, asm := [], None, map[];
      var i := 0;
      while i < |lines|
        invariant i <= |lines|
        invariant State() == ApplyAll(Start(), ReadAll(lines)[..i])
      {
        var trimmed := Trim(lines[i]);
        ghost var rs := ReadAll(lines);
        assert rs[..i + 1][..i] == rs[..i] && rs[i] == ReadRecord(trimmed);
        if trimmed != "" {
          ParseLine(trimmed);
        }
        i := i + 1;
      }
      assert ReadAll(lines)[..i] == ReadAll(lines);
      MergeAsmLines();
    }
  }

  // ---- merging assembly lines --------------------------------------------------------------

  /** `m` is `before` and the entries outside `left`, of which those that were there keep their value. */
  ghost predicate Emplaced<K(!new), V>(m: map<K, V>, before: map<K, V>, entries: map<K, V>, left: set<K>) {
    && (forall k :: k in m <==> k in before || (k in entries && k !in left))
    && (forall k :: k in m ==> m[k] == if k in before then before[k] else entries[k])
  }

  lemma EmplacedAll<K(!new), V>(m: map<K, V>, before: map<K, V>, entries: map<K, V>)
    requires Emplaced(m, before, entries, {})
    ensures m == entries + before
  {
    assert m.Keys == (entries + before).Keys;
  }

  lemma EmplaceNothing<K, V>(entries: map<K, V>)
    ensures entries + map[] == entries
  {
  }

  /** `emplace` of every entry, in whatever order the hash map has. */
  method EmplaceAll<K(==, !new), V>(before: map<K, V>, entries: map<K, V>) returns (m: map<K, V>)
    ensures m == entries + before
  {
    m := before;
    var left := entries.Keys;
    while left != {}
      invariant left <= entries.Keys
      invariant Emplaced(m, before, entries, left)
      decreases left
    {
      var key :| key in left;
      if key !in m {
        m := m[key := entries[key]];
      }
      left := left - {key};
    }
    EmplacedAll(m, before, entries);
  }

  function Merge(m: Module, entries: map<int, word>): Module {
    m.(asmLines := entries + m.asmLines)
  }

  function Stub(name: string, entries: map<int, word>): Module {
    Module(name, name + ".s", [], [], [], [], entries)
  }

  ghost predicate Has(ms: seq<Module>, name: string) {
    exists i :: 0 <= i < |ms| && ms[i].name == name
  }

  /** No earlier module has the name of module `i`. */
  ghost predicate IsFirst(ms: seq<Module>, i: nat)
    requires i < |ms|
  {
    forall j :: 0 <= j < i ==> ms[j].name != ms[i].name
  }

  /** Existing modules keep their place; the first of a name gets that name's assembly lines. */
  ghost predicate ExistingMerged(before: seq<Module>, asm: map<string, map<int, word>>, done: set<string>, ms: seq<Module>) {
    |before| <= |ms| && done <= asm.Keys &&
    forall i :: 0 <= i < |before| ==>
      ms[i] == if before[i].name in done && IsFirst(before, i) then Merge(before[i], asm[before[i].name]) else before[i]
  }

  /** Behind them, one stub for each name that no existing module has. */
  ghost predicate StubsMade(before: seq<Module>, asm: map<string, map<int, word>>, done: set<string>, ms: seq<Module>) {
    && |before| <= |ms| && done <= asm.Keys
    && (forall i :: |before| <= i < |ms| ==>
          ms[i].name in done && !Has(before, ms[i].name) && ms[i] == Stub(ms[i].name, asm[ms[i].name]))
    && (forall i, j :: |before| <= i < j < |ms| ==> ms[i].name != ms[j].name)
  }

  /** The assembly lines of the names in `done` have been merged. */
  ghost predicate MergedFor(before: seq<Module>, asm: map<string, map<int, word>>, done: set<string>, ms: seq<Module>) {
    && ExistingMerged(before, asm, done, ms)
    && StubsMade(before, asm, done, ms)
    && (forall name :: name in done ==> Has(ms, name))
  }

  lemma StillFound(ms: seq<Module>, ms': seq<Module>, names: set<string>)
    requires |ms| <= |ms'| && forall i :: 0 <= i < |ms| ==> ms'[i].name == ms[i].name
    requires forall name :: name in names ==> Has(ms, name)
    ensures forall name :: name in names ==> Has(ms', name)
  {
    forall name | name in names ensures Has(ms', name) {
      var i :| 0 <= i < |ms| && ms[i].name == name;
      assert ms'[i].name == name;
    }
  }

  lemma MergeExisting(before: seq<Module>, asm: map<string, map<int, word>>, done: set<string>, ms: seq<Module>, name: string, k: nat)
    requires MergedFor(before, asm, done, ms) && name in asm && name !in done
    requires k == FirstModule(ms, name, 0) && k < |ms|
    ensures MergedFor(before, asm, done + {name}, ms[k := Merge(ms[k], asm[name])])
  {
    var ms' := ms[k := Merge(ms[k], asm[name])];
    assert k < |before|;
    forall i | 0 <= i < |before| && before[i].name == name ensures IsFirst(before, i) <==> i == k {
      assert ms[i].name == name && ms[k].name == before[k].name;
    }
    StillFound(ms, ms', done);
    assert ms'[k].name == name;
  }

  lemma MergeStub(before: seq<Module>, asm: map<string, map<int, word>>, done: set<string>, ms: seq<Module>, name: string)
    requires MergedFor(before, asm, done, ms) && name in asm && name !in done
    requires FirstModule(ms, name, 0) == |ms|
    ensures MergedFor(before, asm, done + {name}, ms + [Stub(name, asm[name])])
  {
    var ms' := ms + [Stub(name, asm[name])];
    forall i | 0 <= i < |before| ensures before[i].name != name {
      assert ms[i].name == before[i].name;
    }
    StillFound(ms, ms', done);
    assert ms'[|ms|].name == name;
  }
}
