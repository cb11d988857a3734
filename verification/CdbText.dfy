/** Records as they stand in a CDB file: what the parser makes of well-formed text. */
module CdbText {
  import opened Text
  import opened Z80
  import opened Util
  import opened CdbParser
  import opened SourceData

  /** Well-formed records; `middle` and `last` are the level and block fields of a source line.  Any other line
      (a function, a symbol, a type, a marker, a comment) stands for whatever the parser reads from it. */
  datatype Entry =
    | ModuleEntry(name: string)
    | AsmEntry(name: string, line: nat, address: word)
    | SourceEntry(file: string, line: nat, middle: seq<string>, last: string, address: word)
    | OtherEntry(text: string)

  /** A module name does not end with a blank, which trimming would cut off; names between dollars hold none,
      and the last field, which is read up to its first colon, holds no colon either. */
  ghost predicate WellFormed(e: Entry) {
    match e
    case ModuleEntry(name) => name != "" ==> !IsBlank(name[|name| - 1])
    case AsmEntry(name, line, _) => '$' !in name && line <= INT_MAX
    case SourceEntry(file, line, middle, last, _) =>
      '$' !in file && Free(middle, '$') && '$' !in last && ':' !in last && line <= INT_MAX
    case OtherEntry(_) => true
  }

  function HexWord(a: word): string {
    [DigitChar(a / 16 / 16 / 16), DigitChar(a / 16 / 16 % 16), DigitChar(a / 16 % 16), DigitChar(a % 16)]
  }

  function AddressField(a: word): string { ":" + HexWord(a) }

  function Fields(e: Entry): seq<string>
    requires e.SourceEntry?
  {
    ["C", e.file, Decimal(e.line)] + e.middle + [e.last + AddressField(e.address)]
  }

  function AsmContent(name: string, number: string, a: word): string {
    "A$" + (name + ("$" + (number + AddressField(a))))
  }

  function Printed(e: Entry): string {
    match e
    case ModuleEntry(name) => "M:" + name
    case AsmEntry(name, line, address) => "L:" + AsmContent(name, Decimal(line), address)
    case SourceEntry(_, _, _, _, _) => "L:" + Join(Fields(e), '$')
    case OtherEntry(text) => text
  }

  function Meaning(e: Entry): Record {
    match e
    case ModuleEntry(name) => Declare(name)
    case AsmEntry(name, line, address) => Asm(name, line, address)
    case SourceEntry(file, line, _, _, address) => Source(Line(Slashes(file), line, address))
    case OtherEntry(text) => ReadRecord(Trim(text))
  }

  // ---- addresses and numbers ------------------------------------------------------

  lemma {:induction false} NumeralNext(s: string, c: char)
    ensures NumeralVal(s + [c], 16) == NumeralVal(s, 16) * 16 + DigitVal(c)
  {
    assert (s + [c])[..|s|] == s;
  }

  lemma {:induction false} FourDigits(d3: nat, d2: nat, d1: nat, d0: nat)
    requires d3 < 16 && d2 < 16 && d1 < 16 && d0 < 16
    ensures NumeralVal([DigitChar(d3), DigitChar(d2), DigitChar(d1), DigitChar(d0)], 16)
      == ((d3 * 16 + d2) * 16 + d1) * 16 + d0
  {
    var c3, c2, c1, c0 := DigitChar(d3), DigitChar(d2), DigitChar(d1), DigitChar(d0);
    NumeralNext([], c3);
    NumeralNext([c3], c2);
    NumeralNext([c3, c2], c1);
    NumeralNext([c3, c2, c1], c0);
    assert [] + [c3] == [c3] && [c3] + [c2] == [c3, c2] && [c3, c2] + [c1] == [c3, c2, c1];
    assert [c3, c2, c1] + [c0] == [c3, c2, c1, c0];
  }

  lemma Sixteenths(n: nat)
    ensures n == n / 16 * 16 + n % 16
  {
  }

  lemma {:induction false} HexWordVal(a: word)
    ensures NumeralVal(HexWord(a), 16) == a
  {
    var q1: nat := a / 16;
    var q2: nat := q1 / 16;
    var q3: nat := q2 / 16;
    FourDigits(q3, q2 % 16, q1 % 16, a % 16);
    Sixteenths(q2);
    Sixteenths(q1);
    Sixteenths(a);
  }

  /** Digits without a sign or a `0x` in front are read as the number they are, cut to 16 bits. */
  lemma {:induction false} HexDigitsRead(s: string, v: nat)
    requires s != "" && (forall c :: c in s ==> IsDigit(c, 16)) && NumeralVal(s, 16) == v <= ULONG_MAX
    requires !IsSpace(s[0]) && s[0] != '-' && s[0] != '+' && (|s| > 1 ==> s[1] != 'x' && s[1] != 'X')
    ensures HexAddress(s) == Some(v % 0x10000)
  {
    DigitLenAll(s, "", 16);
    assert s + "" == s && s[..|s|] == s && s[0..] == s;
    assert ReadNumeral(s, 16) == Some(Numeral(false, v));
  }

  lemma {:induction false} HexWordReads(a: word)
    ensures HexAddress(HexWord(a)) == Some(a)
  {
    HexWordVal(a);
    HexDigitsRead(HexWord(a), a);
  }

  lemma DigitsArePlain(n: nat)
    ensures '$' !in Decimal(n) && ':' !in Decimal(n)
  {
  }

  // ---- assembly lines -----------------------------------------------------------------

  lemma {:induction false} FindAfter(before: string, token: string, rest: string)
    requires '$' !in token
    ensures var s := before + (token + ("$" + rest)); var end := |before| + |token|;
      Find(s, '$', |before|) == end && s[|before|..end] == token && s[end + 1..] == rest
  {
    var s, end := before + (token + ("$" + rest)), |before| + |token|;
    assert forall k :: |before| <= k < end ==> s[k] == token[k - |before|];
    assert s[end] == '$';
  }

  lemma AddressAfterColon(before: string, a: word)
    ensures var s := before + AddressField(a);
      AfterLast(s, ':') == |before| + 1 && s[|before| + 1..] == HexWord(a)
  {
    var s := before + AddressField(a);
    assert s[|before|] == ':' && s[|before| + 1..] == HexWord(a);
    assert forall k :: |before| + 1 <= k < |s| ==> s[k] == HexWord(a)[k - |before| - 1];
  }

  lemma {:induction false} AsmDollars(name: string, number: string, a: word)
    requires '$' !in name
    ensures TwoDollars(AsmContent(name, number, a)) == Dollars("A", name, 2 + |name|)
  {
    var tail := number + AddressField(a);
    assert AsmContent(name, number, a) == "" + ("A" + ("$" + (name + ("$" + tail))));
    FindAfter("", "A", name + ("$" + tail));
    FindAfter("A$", name, tail);
  }

  lemma MiddlePart(head: string, middle: string, tail: string)
    ensures ((head + middle) + tail)[|head|..|head| + |middle|] == middle
  {
  }

  lemma {:induction false} AsmCut(name: string, number: string, a: word)
    ensures AsmContent(name, number, a) == (("A$" + name + "$") + number) + AddressField(a)
  {
  }

  lemma {:induction false} AsmAddress(name: string, number: string, a: word)
    ensures var s := AsmContent(name, number, a); var colon := AfterLast(s, ':');
      colon == 4 + |name| + |number| && s[2 + |name| + 1..colon - 1] == number && s[colon..] == HexWord(a)
  {
    var head := "A$" + name + "$";
    AsmCut(name, number, a);
    AddressAfterColon(head + number, a);
    MiddlePart(head, number, AddressField(a));
  }

  lemma {:induction false} AsmSplits(name: string, number: string, a: word)
    requires '$' !in name && number != ""
    ensures SplitAsm(AsmContent(name, number, a)) == AsmTexts(name, number, HexWord(a))
  {
    AsmDollars(name, number, a);
    AsmAddress(name, number, a);
  }

  lemma AsmFields(name: string, line: nat, a: word)
    requires line <= INT_MAX
    ensures AsmRecord(AsmTexts(name, Decimal(line), HexWord(a))) == Asm(name, line, a)
  {
    StoiPlain(line);
    HexWordReads(a);
  }

  lemma AsmReadsTexts(content: string, t: AsmTexts)
    requires t.AsmTexts? && SplitAsm(content) == t
    ensures ReadAsm(content) == AsmRecord(t)
  {
  }

  lemma {:induction false} AsmReads(e: Entry)
    requires e.AsmEntry? && WellFormed(e)
    ensures ReadAsm(AsmContent(e.name, Decimal(e.line), e.address)) == Meaning(e)
  {
    AsmSplits(e.name, Decimal(e.line), e.address);
    AsmFields(e.name, e.line, e.address);
    AsmReadsTexts(AsmContent(e.name, Decimal(e.line), e.address), AsmTexts(e.name, Decimal(e.line), HexWord(e.address)));
  }

  // ---- source lines ------------------------------------------------------------------------

  lemma LastFieldText(last: string, a: word)
    requires ':' !in last
    ensures AddressText(last + AddressField(a)) == Some(HexWord(a))
  {
    var s := last + AddressField(a);
    assert forall k :: 0 <= k < |last| ==> s[k] == last[k];
    assert s[|last|] == ':' && s[|last| + 1..] == HexWord(a);
  }

  lemma LastFieldReads(last: string, a: word)
    requires ':' !in last
    ensures LastAddress(last + AddressField(a)) == a
  {
    LastFieldText(last, a);
    HexWordReads(a);
  }

  lemma FieldsFree(e: Entry)
    requires e.SourceEntry? && WellFormed(e)
    ensures Free(Fields(e), '$')
  {
    DigitsArePlain(e.line);
    var last := e.last + AddressField(e.address);
    assert '$' !in HexWord(e.address);
    assert '$' !in last;
    forall p | p in Fields(e) ensures '$' !in p {
      assert p in ["C", e.file, Decimal(e.line)] || p in e.middle || p == last;
    }
  }

  lemma SourceReads(e: Entry)
    requires e.SourceEntry? && WellFormed(e)
    ensures ReadSource(Join(Fields(e), '$')) == Meaning(e)
  {
    var fields := Fields(e);
    FieldsFree(e);
    SplitUnique(fields, '$');
    StoiPlain(e.line);
    LastFieldReads(e.last, e.address);
    assert fields[1] == e.file && fields[2] == Decimal(e.line);
    assert fields[|fields| - 1] == e.last + AddressField(e.address);
  }

  lemma JoinStarts(parts: seq<string>, delim: char)
    requires |parts| > 1
    ensures Join(parts, delim) == parts[0] + [delim] + Join(parts[1..], delim)
  {
  }

  lemma {:induction false} LineInfoReads(content: string)
    ensures ReadRecord("L:" + content) == ReadLineInfo(content)
  {
    assert ("L:" + content)[2..] == content;
  }

  lemma {:induction false} LineInfoKinds(content: string)
    requires content != ""
    ensures content[0] == 'A' ==> ReadLineInfo(content) == ReadAsm(content)
    ensures content[0] == 'C' ==> ReadLineInfo(content) == ReadSource(content)
  {
  }

  /** A well-formed record is read as what it means. */
  lemma {:induction false} EntryReads(e: Entry)
    requires WellFormed(e) && !e.OtherEntry?
    ensures ReadRecord(Printed(e)) == Meaning(e)
  {
    match e
    case ModuleEntry(name) => assert Printed(e)[2..] == name;
    case AsmEntry(name, line, address) =>
      AsmReads(e);
      LineInfoReads(AsmContent(name, Decimal(line), address));
      LineInfoKinds(AsmContent(name, Decimal(line), address));
    case SourceEntry(_, _, _, _, _) =>
      SourceReads(e);
      JoinStarts(Fields(e), '$');
      LineInfoReads(Join(Fields(e), '$'));
      LineInfoKinds(Join(Fields(e), '$'));
  }

  // ---- a whole file -----------------------------------------------------------------------------

  lemma PrintedEnds(e: Entry)
    requires WellFormed(e) && !e.OtherEntry?
    ensures var s := Printed(e); s != "" && !IsBlank(s[0]) && !IsBlank(s[|s| - 1])
  {
    match e
    case ModuleEntry(name) =>
    case AsmEntry(_, _, address) =>
      assert Printed(e)[|Printed(e)| - 1] == HexWord(address)[3];
    case SourceEntry(_, _, _, _, address) =>
      JoinEnds(Fields(e), '$');
      var last := Fields(e)[|Fields(e)| - 1];
      assert last[|last| - 1] == HexWord(address)[3];
  }

  lemma {:induction false} JoinEnds(parts: seq<string>, delim: char)
    requires parts != [] && parts[|parts| - 1] != ""
    ensures var s, last := Join(parts, delim), parts[|parts| - 1];
      s != "" && s[|s| - 1] == last[|last| - 1]
    decreases |parts|
  {
    if |parts| > 1 {
      JoinStarts(parts, delim);
      JoinEnds(parts[1..], delim);
    }
  }

  lemma TrimEnding(s: string, ending: string)
    requires s != "" && !IsBlank(s[0]) && !IsBlank(s[|s| - 1]) && AllBlank(ending)
    ensures Trim(s + ending) == s
  {
    assert s + ending == "" + s + ending;
    TrimIsTheCore(s + ending, "", s, ending);
  }

  lemma {:induction false} TrimIgnoresEnding(s: string, ending: string)
    requires AllBlank(ending)
    ensures Trim(s + ending) == Trim(s)
  {
    TrimCuts(s);
    var before, after :| s == before + Trim(s) + after && AllBlank(before) && AllBlank(after);
    Assoc(before + Trim(s), after, ending);
    TrimIsTheCore(s + ending, before, Trim(s), after + ending);
  }

  lemma {:induction false} LineReads(e: Entry, ending: string)
    requires WellFormed(e) && AllBlank(ending)
    ensures ReadRecord(Trim(Printed(e) + ending)) == Meaning(e)
  {
    if e.OtherEntry? {
      TrimIgnoresEnding(e.text, ending);
    } else {
      PrintedEnds(e);
      TrimEnding(Printed(e), ending);
      EntryReads(e);
    }
  }

  function Lines(es: seq<Entry>, endings: seq<string>): seq<string>
    requires |endings| == |es|
  {
    seq(|es|, i requires 0 <= i < |es| => Printed(es[i]) + endings[i])
  }

  function Meanings(es: seq<Entry>): seq<Record> {
    seq(|es|, i requires 0 <= i < |es| => Meaning(es[i]))
  }

  /** The text of a whole file, with blanks or carriage returns at the ends of lines, is read as what its
      records mean; what the parser then does with them is the subject of `CdbTheorems`. */
  lemma FileReads(es: seq<Entry>, endings: seq<string>)
    requires |endings| == |es| && (forall e :: e in es ==> WellFormed(e)) && forall x :: x in endings ==> AllBlank(x)
    ensures ReadAll(Lines(es, endings)) == Meanings(es)
  {
    forall i | 0 <= i < |es| ensures ReadAll(Lines(es, endings))[i] == Meanings(es)[i] {
      LineReads(es[i], endings[i]);
    }
  }
}
