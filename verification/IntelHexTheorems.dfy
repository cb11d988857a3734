/** What the loader does with well-formed records of the Intel Hexadecimal Object File Format. */
module IntelHexTheorems {
  import opened Text
  import opened Z80
  import opened IntelHex

  // ---- records and their text -----------------------------------------------------

  datatype Record =
    | Data(address: word, bytes: seq<byte>)
    | EndOfFile
    | ExtendedSegment(paragraph: word)
    | StartSegment(cs: word, ip: word)
    | ExtendedLinear(upper: word)
    | StartLinear(high: word, low: word)

  predicate WellFormed(r: Record) { r.Data? ==> |r.bytes| < 0x100 }

  function Halves(w: word): seq<byte> { [w / 0x100, w % 0x100] }

  function Kind(r: Record): byte {
    match r
    case Data(_, _) => 0
    case EndOfFile => 1
    case ExtendedSegment(_) => 2
    case StartSegment(_, _) => 3
    case ExtendedLinear(_) => 4
    case StartLinear(_, _) => 5
  }

  function Body(r: Record): seq<byte> {
    match r
    case Data(_, bytes) => bytes
    case EndOfFile => []
    case ExtendedSegment(w) => Halves(w)
    case StartSegment(cs, ip) => Halves(cs) + Halves(ip)
    case ExtendedLinear(w) => Halves(w)
    case StartLinear(hi, lo) => Halves(hi) + Halves(lo)
  }

  function HeaderOf(r: Record): Header
    requires WellFormed(r)
  {
    Header(|Body(r)|, if r.Data? then r.address else 0, Kind(r))
  }

  function Bytes(r: Record, checksum: byte): seq<byte>
    requires WellFormed(r)
  {
    [HeaderOf(r).count] + Halves(HeaderOf(r).address) + [Kind(r)] + Body(r) + [checksum]
  }

  function HexText(bs: seq<byte>): (s: string)
    ensures |s| == 2 * |bs|
  {
    if bs == [] then "" else HexText(bs[..|bs| - 1]) + [DigitChar(bs[|bs| - 1] / 16), DigitChar(bs[|bs| - 1] % 16)]
  }

  /** The line of a record, with any checksum (the loader does not look at it) and any line ending. */
  function Line(r: Record, checksum: byte, ending: string): string
    requires WellFormed(r)
  {
    ":" + HexText(Bytes(r, checksum)) + ending
  }

  lemma {:induction false} HexTextAt(bs: seq<byte>, i: nat)
    requires i < |bs|
    ensures HexText(bs)[2 * i..2 * i + 2] == [DigitChar(bs[i] / 16), DigitChar(bs[i] % 16)]
  {
    if i < |bs| - 1 {
      HexTextAt(bs[..|bs| - 1], i);
      assert HexText(bs)[2 * i..2 * i + 2] == HexText(bs[..|bs| - 1])[2 * i..2 * i + 2];
    }
  }

  lemma PairByte(b: byte)
    ensures HexByte([DigitChar(b / 16), DigitChar(b % 16)]) == Some(b)
  {
    StoulHexPair(b / 16, b % 16);
  }

  lemma LineSlice(text: string, ending: string, i: nat)
    requires 2 * i + 2 <= |text|
    ensures (":" + text + ending)[1 + 2 * i..1 + 2 * i + 2] == text[2 * i..2 * i + 2]
  {
  }

  lemma LineByte(r: Record, checksum: byte, ending: string, i: nat)
    requires WellFormed(r) && i < |Bytes(r, checksum)|
    ensures Hex2(Line(r, checksum, ending))(1 + 2 * i) == Some(Bytes(r, checksum)[i])
  {
    var bs := Bytes(r, checksum);
    HexTextAt(bs, i);
    LineSlice(HexText(bs), ending, i);
    PairByte(bs[i]);
  }

  /** The hexadecimal accessor of a line yields the bytes of the record. */
  ghost predicate Yields(hex: nat -> Option<byte>, bs: seq<byte>) {
    forall i {:trigger bs[i]} :: 0 <= i < |bs| ==> hex(1 + 2 * i) == Some(bs[i])
  }

  lemma LineYields(r: Record, checksum: byte, ending: string)
    requires WellFormed(r)
    ensures Yields(Hex2(Line(r, checksum, ending)), Bytes(r, checksum))
  {
    forall i | 0 <= i < |Bytes(r, checksum)|
      ensures Hex2(Line(r, checksum, ending))(1 + 2 * i) == Some(Bytes(r, checksum)[i])
    {
      LineByte(r, checksum, ending, i);
    }
  }

  lemma YieldsHeader(hex: nat -> Option<byte>, r: Record, checksum: byte)
    requires WellFormed(r) && Yields(hex, Bytes(r, checksum))
    ensures ReadHeader(hex) == Some(HeaderOf(r))
  {
    var bs := Bytes(r, checksum);
    assert bs[0] == HeaderOf(r).count && bs[1] == HeaderOf(r).address / 0x100;
    assert bs[2] == HeaderOf(r).address % 0x100 && bs[3] == Kind(r);
  }

  lemma YieldsBody(hex: nat -> Option<byte>, r: Record, checksum: byte, i: nat)
    requires WellFormed(r) && Yields(hex, Bytes(r, checksum)) && i < |Body(r)|
    ensures hex(9 + 2 * i) == Some(Body(r)[i])
  {
    assert Bytes(r, checksum)[4 + i] == Body(r)[i];
    assert 1 + 2 * (4 + i) == 9 + 2 * i;
  }

  lemma {:induction false} YieldsData(hex: nat -> Option<byte>, r: Record, checksum: byte, i: nat)
    requires WellFormed(r) && Yields(hex, Bytes(r, checksum)) && i <= |Body(r)|
    ensures DataFrom(hex, |Body(r)|, i) == Body(r)[i..]
    decreases |Body(r)| - i
  {
    if i < |Body(r)| {
      YieldsBody(hex, r, checksum, i);
      YieldsData(hex, r, checksum, i + 1);
    }
  }

  // ---- what a record does ------------------------------------------------------------

  function Apply(s: Loaded, r: Record): Loaded
    requires WellFormed(r)
  {
    match r
    case Data(_, bytes) => LoadData(s, HeaderOf(r), bytes)
    case EndOfFile => s
    case ExtendedSegment(w) => s.(upper := w * 0x10)
    case StartSegment(cs, ip) => s.(start := Some(cs * 0x10 + ip))
    case ExtendedLinear(w) => s.(upper := w * 0x10000)
    case StartLinear(hi, lo) => s.(start := Some(hi * 0x10000 + lo))
  }

  /** Records up to the end-of-file record. */
  function ApplyAll(s: Loaded, rs: seq<Record>): Loaded
    requires forall r :: r in rs ==> WellFormed(r)
    decreases |rs|
  {
    if rs == [] || rs[0] == EndOfFile then s else ApplyAll(Apply(s, rs[0]), rs[1..])
  }

  lemma YieldsWord(hex: nat -> Option<byte>, r: Record, checksum: byte, i: nat, w: word)
    requires WellFormed(r) && Yields(hex, Bytes(r, checksum)) && i + 2 <= |Body(r)|
    requires Body(r)[i] == w / 0x100 && Body(r)[i + 1] == w % 0x100
    ensures Hex4(hex, 9 + 2 * i) == Some(w)
  {
    YieldsBody(hex, r, checksum, i);
    YieldsBody(hex, r, checksum, i + 1);
    assert 9 + 2 * (i + 1) == 9 + 2 * i + 2;
  }

  lemma RecordApplies(s: Loaded, hex: nat -> Option<byte>, r: Record, checksum: byte)
    requires WellFormed(r) && Yields(hex, Bytes(r, checksum))
    ensures LoadRecord(s, hex, HeaderOf(r)) == Apply(s, r)
  {
    match r
    case Data(_, bytes) =>
      YieldsData(hex, r, checksum, 0);
      assert bytes[0..] == bytes;
    case EndOfFile =>
    case ExtendedSegment(w) => YieldsWord(hex, r, checksum, 0, w);
    case ExtendedLinear(w) => YieldsWord(hex, r, checksum, 0, w);
    case StartSegment(cs, ip) =>
      YieldsWord(hex, r, checksum, 0, cs);
      YieldsWord(hex, r, checksum, 2, ip);
    case StartLinear(hi, lo) =>
      YieldsWord(hex, r, checksum, 0, hi);
      YieldsWord(hex, r, checksum, 2, lo);
  }

  /** The lines of `rs`, each with its own checksum and line ending. */
  function Lines(rs: seq<Record>, checksums: seq<byte>, endings: seq<string>): seq<string>
    requires |checksums| == |rs| && |endings| == |rs| && forall r :: r in rs ==> WellFormed(r)
  {
    seq(|rs|, i requires 0 <= i < |rs| => Line(rs[i], checksums[i], endings[i]))
  }

  lemma LineMeansRecord(s: Loaded, r: Record, checksum: byte, ending: string)
    requires WellFormed(r)
    ensures Accepted(Line(r, checksum, ending)) == Some(HeaderOf(r))
    ensures LoadRecord(s, Hex2(Line(r, checksum, ending)), HeaderOf(r)) == Apply(s, r)
  {
    var line := Line(r, checksum, ending);
    LineYields(r, checksum, ending);
    YieldsHeader(Hex2(line), r, checksum);
    RecordApplies(s, Hex2(line), r, checksum);
  }

  lemma LoadStep(s: Loaded, lines: seq<string>, h: Header)
    requires lines != [] && Accepted(lines[0]) == Some(h)
    ensures LoadLines(s, lines) == if h.kind == 1 then s else LoadLines(LoadRecord(s, Hex2(lines[0]), h), lines[1..])
  {
  }

  lemma KindOfEnd(r: Record)
    requires WellFormed(r)
    ensures HeaderOf(r).kind == 1 <==> r == EndOfFile
  {
  }

  /** The loader on the text of records is the records' own meaning. */
  lemma {:induction false} TextMeansRecords(s: Loaded, rs: seq<Record>, checksums: seq<byte>, endings: seq<string>)
    requires |checksums| == |rs| && |endings| == |rs| && forall r :: r in rs ==> WellFormed(r)
    ensures LoadLines(s, Lines(rs, checksums, endings)) == ApplyAll(s, rs)
    decreases |rs|
  {
    if rs != [] {
      var lines := Lines(rs, checksums, endings);
      assert lines[0] == Line(rs[0], checksums[0], endings[0]);
      assert lines[1..] == Lines(rs[1..], checksums[1..], endings[1..]);
      LineMeansRecord(s, rs[0], checksums[0], endings[0]);
      LoadStep(s, lines, HeaderOf(rs[0]));
      KindOfEnd(rs[0]);
      if rs[0] != EndOfFile {
        TextMeansRecords(Apply(s, rs[0]), rs[1..], checksums[1..], endings[1..]);
      }
    }
  }

  // ---- malformed lines ----------------------------------------------------------------------

  lemma {:induction false} CutReads(line: string, k: nat, pos: nat)
    requires pos + 2 <= k <= |line|
    ensures Hex2(line[..k])(pos) == Hex2(line)(pos)
  {
    assert line[..k][pos..pos + 2] == line[pos..pos + 2];
  }

  lemma {:induction false} HeaderAgrees(f: nat -> Option<byte>, g: nat -> Option<byte>)
    requires f(1) == g(1) && f(3) == g(3) && f(5) == g(5) && f(7) == g(7)
    ensures ReadHeader(f) == ReadHeader(g)
  {
  }

  lemma {:induction false} CutHeader(line: string, k: nat)
    requires 9 <= k <= |line|
    ensures ReadHeader(Hex2(line[..k])) == ReadHeader(Hex2(line))
  {
    CutReads(line, k, 1);
    CutReads(line, k, 3);
    CutReads(line, k, 5);
    CutReads(line, k, 7);
    HeaderAgrees(Hex2(line[..k]), Hex2(line));
  }

  /** A record that is cut off anywhere, even in its checksum, is passed over as a whole. */
  lemma {:induction false} TruncatedIsSkipped(s: Loaded, lines: seq<string>, r: Record, checksum: byte, k: nat)
    requires WellFormed(r) && k < 11 + 2 * |Body(r)|
    requires lines != [] && lines[0] == Line(r, checksum, "")[..k]
    ensures LoadLines(s, lines) == LoadLines(s, lines[1..])
  {
    if k >= 11 {
      LineYields(r, checksum, "");
      YieldsHeader(Hex2(Line(r, checksum, "")), r, checksum);
      CutHeader(Line(r, checksum, ""), k);
    }
  }

  /** So is a line that does not begin with a colon. */
  lemma {:induction false} OtherLineIsSkipped(s: Loaded, lines: seq<string>)
    requires lines != [] && (lines[0] == "" || lines[0][0] != ':')
    ensures LoadLines(s, lines) == LoadLines(s, lines[1..])
  {
  }

  lemma {:induction false} OneDigit(d: nat)
    requires d < 16
    ensures DigitLen([DigitChar(d)], 16) == 1 && NumeralVal([DigitChar(d)], 16) == d
  {
    var s := [DigitChar(d)];
    assert s[1..] == "" && s[..0] == "";
  }

  lemma {:induction false} SignedDigit(c: char, d: nat)
    requires d < 16 && c in {'-', '+'}
    ensures ReadNumeral([c, DigitChar(d)], 16) == Some(Numeral(c == '-', d))
  {
    var s := [c, DigitChar(d)];
    OneDigit(d);
    assert SpaceLen(s) == 0 && s[0..] == s && s[1..] == [DigitChar(d)];
    assert [DigitChar(d)][..1] == [DigitChar(d)];
  }

  /** A sign and a digit pass for a byte: a minus counts down from 256. */
  lemma {:induction false} SignedByte(c: char, d: nat)
    requires d < 16 && c in {'-', '+'}
    ensures HexByte([c, DigitChar(d)]) == Some(if c == '-' then (256 - d) % 256 else d)
  {
    SignedDigit(c, d);
    if d > 0 {
      MinusModulo(d);
    }
  }

  lemma MinusModulo(d: nat)
    requires 0 < d < 16
    ensures (ULONG_MAX + 1 - d) % 0x100 == 256 - d
  {
  }

  /** Records of other kinds change nothing, nor do address records with too few bytes or with bytes that cannot
      be read. */
  lemma {:induction false} OtherRecordIsIgnored(s: Loaded, hex: nat -> Option<byte>, h: Header)
    requires h.kind != 0
    requires h.kind in {2, 4} ==> h.count < 2 || Hex4(hex, 9).None?
    requires h.kind in {3, 5} ==> h.count < 4 || Hex4(hex, 9).None? || Hex4(hex, 13).None?
    ensures LoadRecord(s, hex, h) == s
  {
  }

  /** A data byte that cannot be read ends its record; the bytes before it are used. */
  lemma {:induction false} UnreadableByteEndsData(hex: nat -> Option<byte>, count: byte, bytes: seq<byte>, i: nat)
    requires i <= |bytes| < count && hex(9 + 2 * |bytes|).None?
    requires forall j {:trigger bytes[j]} :: 0 <= j < |bytes| ==> hex(9 + 2 * j) == Some(bytes[j])
    ensures DataFrom(hex, count, i) == bytes[i..]
    decreases |bytes| - i
  {
    if i < |bytes| {
      assert hex(9 + 2 * i) == Some(bytes[i]);
      UnreadableByteEndsData(hex, count, bytes, i + 1);
    }
  }

  // ---- last writer wins ------------------------------------------------------------------

  datatype Write = Write(dest: nat, value: byte)

  ghost function BaseAfter(upper: uint32, r: Record): uint32 {
    match r
    case ExtendedSegment(w) => w * 0x10
    case ExtendedLinear(w) => w * 0x10000
    case _ => upper
  }

  /** The bytes of one data record with the addresses they go to. */
  ghost function DataWrites(base: uint32, data: seq<byte>): seq<Write> {
    seq(|data|, i requires 0 <= i < |data| => Write((base + i) % UINT32, data[i]))
  }

  ghost function RecordWrites(upper: uint32, r: Record): seq<Write> {
    if r.Data? then DataWrites((upper + r.address) % UINT32, r.bytes) else []
  }

  /** Every write of the records, in order. */
  ghost function Writes(upper: uint32, rs: seq<Record>): seq<Write>
    decreases |rs|
  {
    if rs == [] || rs[0] == EndOfFile then []
    else
      RecordWrites(upper, rs[0]) + Writes(BaseAfter(upper, rs[0]), rs[1..])
  }

  /** The value of the last write to `a`, or `before` when there is none. */
  ghost function LastWrite(ws: seq<Write>, a: nat, before: byte): byte {
    if ws == [] then before
    else if ws[|ws| - 1].dest == a then ws[|ws| - 1].value
    else LastWrite(ws[..|ws| - 1], a, before)
  }

  lemma {:induction false} LastWriteAppend(ws: seq<Write>, vs: seq<Write>, a: nat, before: byte)
    ensures LastWrite(ws + vs, a, before) == LastWrite(vs, a, LastWrite(ws, a, before))
    decreases |vs|
  {
    if vs == [] {
      assert ws + vs == ws;
    } else {
      assert (ws + vs)[..|ws + vs| - 1] == ws + vs[..|vs| - 1];
      LastWriteAppend(ws, vs[..|vs| - 1], a, before);
    }
  }

  lemma NextBase(base: uint32, i: nat)
    ensures (base + (i + 1)) % UINT32 == ((base + 1) % UINT32 + i) % UINT32
  {
  }

  lemma {:induction false} DataWriteAt(base: uint32, all: seq<byte>, rest: seq<byte>, i: nat)
    requires i < |rest| && |all| == |rest| + 1 && all[i + 1] == rest[i]
    ensures DataWrites(base, all)[i + 1] == DataWrites((base + 1) % UINT32, rest)[i]
  {
    NextBase(base, i);
  }

  lemma {:induction false} DataWritesHead(base: uint32, b: byte, rest: seq<byte>)
    ensures DataWrites(base, [b] + rest) == [Write(base, b)] + DataWrites((base + 1) % UINT32, rest)
  {
    var all, later := DataWrites(base, [b] + rest), DataWrites((base + 1) % UINT32, rest);
    assert all[0] == Write(base, b);
    forall i {:trigger later[i]} | 0 <= i < |rest| ensures all[i + 1] == later[i] {
      DataWriteAt(base, [b] + rest, rest, i);
    }
    ShiftedByOne(all, Write(base, b), later);
  }

  lemma ShiftedByOne(all: seq<Write>, first: Write, later: seq<Write>)
    requires |all| == |later| + 1 && all[0] == first && forall i {:trigger later[i]} :: 0 <= i < |later| ==> all[i + 1] == later[i]
    ensures all == [first] + later
  {
  }

  lemma OneWrite(mem: seq<byte>, base: uint32, b: byte, a: nat)
    requires a < |mem|
    ensures LastWrite([Write(base, b)], a, mem[a]) == WriteByte(mem, base, b)[a]
  {
    assert [Write(base, b)][..0] == [];
  }

  lemma {:induction false} DataIsWrites(mem: seq<byte>, base: uint32, data: seq<byte>, a: nat)
    requires a < |mem|
    ensures WriteData(mem, base, data)[a] == LastWrite(DataWrites(base, data), a, mem[a])
    decreases |data|
  {
    if data != [] {
      var next := (base + 1) % UINT32;
      DataIsWrites(WriteByte(mem, base, data[0]), next, data[1..], a);
      assert [data[0]] + data[1..] == data;
      DataWritesHead(base, data[0], data[1..]);
      LastWriteAppend([Write(base, data[0])], DataWrites(next, data[1..]), a, mem[a]);
      OneWrite(mem, base, data[0], a);
    }
  }

  lemma ApplyIsWrites(s: Loaded, r: Record, a: nat)
    requires WellFormed(r) && a < |s.mem|
    ensures |Apply(s, r).mem| == |s.mem| && Apply(s, r).upper == BaseAfter(s.upper, r)
    ensures Apply(s, r).mem[a] == LastWrite(RecordWrites(s.upper, r), a, s.mem[a])
  {
    if r.Data? {
      DataIsWrites(s.mem, (s.upper + r.address) % UINT32, r.bytes, a);
    }
  }

  /** Memory after the records: each cell holds the last byte written to its address, and addresses
      outside memory are ignored. */
  lemma {:induction false} MemoryIsLastWriter(s: Loaded, rs: seq<Record>, a: nat)
    requires (forall r :: r in rs ==> WellFormed(r)) && a < |s.mem|
    ensures |ApplyAll(s, rs).mem| == |s.mem|
    ensures ApplyAll(s, rs).mem[a] == LastWrite(Writes(s.upper, rs), a, s.mem[a])
    decreases |rs|
  {
    if rs != [] && rs[0] != EndOfFile {
      ApplyIsWrites(s, rs[0], a);
      MemoryIsLastWriter(Apply(s, rs[0]), rs[1..], a);
      LastWriteAppend(RecordWrites(s.upper, rs[0]), Writes(BaseAfter(s.upper, rs[0]), rs[1..]), a, s.mem[a]);
    }
  }

  // ---- the entry point ----------------------------------------------------------------------

  /** The last explicit start address before the end-of-file record. */
  ghost function LastStart(rs: seq<Record>): Option<nat> {
    if rs == [] || rs[0] == EndOfFile then None
    else if LastStart(rs[1..]).Some? then LastStart(rs[1..])
    else
      match rs[0]
      case StartSegment(cs, ip) => Some(cs * 0x10 + ip)
      case StartLinear(hi, lo) => Some(hi * 0x10000 + lo)
      case _ => None
  }

  /** The bases of the data records that hold data. */
  ghost function Bases(upper: uint32, rs: seq<Record>): seq<uint32>
    decreases |rs|
  {
    if rs == [] || rs[0] == EndOfFile then []
    else
      (if rs[0].Data? && rs[0].bytes != [] then [(upper + rs[0].address) % UINT32] else [])
      + Bases(BaseAfter(upper, rs[0]), rs[1..])
  }

  lemma {:induction false} StartIsLast(s: Loaded, rs: seq<Record>)
    requires forall r :: r in rs ==> WellFormed(r)
    ensures ApplyAll(s, rs).start == if LastStart(rs).Some? then LastStart(rs) else s.start
    decreases |rs|
  {
    if rs != [] && rs[0] != EndOfFile {
      StartIsLast(Apply(s, rs[0]), rs[1..]);
    }
  }

  lemma {:induction false} LowestIsLeast(s: Loaded, rs: seq<Record>)
    requires forall r :: r in rs ==> WellFormed(r)
    ensures var low := ApplyAll(s, rs).lowest;
      && (low == s.lowest || low in Bases(s.upper, rs))
      && low <= s.lowest && (forall b :: b in Bases(s.upper, rs) ==> low <= b)
    decreases |rs|
  {
    if rs != [] && rs[0] != EndOfFile {
      LowestIsLeast(Apply(s, rs[0]), rs[1..]);
    }
  }

  /** The entry is the last explicit start address, else the lowest base of a data record, else 0. */
  lemma {:induction false} EntryIsStartOrLowest(mem: seq<byte>, rs: seq<Record>, low: uint32)
    requires forall r :: r in rs ==> WellFormed(r)
    ensures var s := ApplyAll(Fresh(mem), rs); var bases := Bases(0, rs);
      && (LastStart(rs).Some? ==> Entry(s) == LastStart(rs).value % 0x10000)
      && (LastStart(rs).None? && low in bases && low < NO_DATA && (forall b :: b in bases ==> low <= b)
          ==> Entry(s) == low % 0x10000)
      && (LastStart(rs).None? && (forall b :: b in bases ==> b == NO_DATA) ==> Entry(s) == 0)
  {
    StartIsLast(Fresh(mem), rs);
    LowestIsLeast(Fresh(mem), rs);
  }

  // ---- any chunking of an image loads back that image --------------------------------------

  function Flat(chunks: seq<seq<byte>>): seq<byte> {
    if chunks == [] then [] else chunks[0] + Flat(chunks[1..])
  }

  predicate Fits(a: nat, chunks: seq<seq<byte>>) {
    (forall c :: c in chunks ==> |c| < 0x100) && a + |Flat(chunks)| <= MEMORY_SIZE
  }

  /** Consecutive data records from `a` on, then the end-of-file record.  An empty chunk at the very end
      of memory has no 16-bit address, and any will do. */
  function ImageRecords(a: nat, chunks: seq<seq<byte>>): seq<Record>
    requires Fits(a, chunks)
    decreases |chunks|
  {
    if chunks == [] then [EndOfFile]
    else [Data(Word(a), chunks[0])] + ImageRecords(a + |chunks[0]|, chunks[1..])
  }

  lemma {:induction false} ImageWellFormed(a: nat, chunks: seq<seq<byte>>)
    requires Fits(a, chunks)
    ensures forall r :: r in ImageRecords(a, chunks) ==> WellFormed(r)
    decreases |chunks|
  {
    if chunks != [] {
      ImageWellFormed(a + |chunks[0]|, chunks[1..]);
    }
  }

  ghost function Overlay(mem: seq<byte>, a: nat, image: seq<byte>): seq<byte>
    requires |mem| == MEMORY_SIZE && a + |image| <= MEMORY_SIZE
  {
    mem[..a] + image + mem[a + |image|..]
  }

  lemma OverlayNothing(mem: seq<byte>, a: nat)
    requires |mem| == MEMORY_SIZE && a <= MEMORY_SIZE
    ensures Overlay(mem, a, []) == mem
  {
  }

  lemma OverlayTwice(mem: seq<byte>, a: nat, first: seq<byte>, rest: seq<byte>)
    requires |mem| == MEMORY_SIZE && a + |first| + |rest| <= MEMORY_SIZE
    ensures Overlay(Overlay(mem, a, first), a + |first|, rest) == Overlay(mem, a, first + rest)
  {
  }

  lemma OverlayOne(mem: seq<byte>, a: nat, b: byte)
    requires |mem| == MEMORY_SIZE && a < MEMORY_SIZE
    ensures mem[a := b] == Overlay(mem, a, [b])
  {
  }

  lemma {:induction false} WriteDataStep(mem: seq<byte>, a: nat, data: seq<byte>)
    requires |mem| == MEMORY_SIZE && data != [] && a < MEMORY_SIZE
    ensures WriteData(mem, a, data) == WriteData(Overlay(mem, a, [data[0]]), a + 1, data[1..])
  {
    OverlayOne(mem, a, data[0]);
    assert (a + 1) % UINT32 == a + 1;
    assert WriteByte(mem, a, data[0]) == Overlay(mem, a, [data[0]]);
  }

  lemma {:induction false} WriteDataOverlay(mem: seq<byte>, a: nat, data: seq<byte>)
    requires |mem| == MEMORY_SIZE && a + |data| <= MEMORY_SIZE
    ensures WriteData(mem, a, data) == Overlay(mem, a, data)
    decreases |data|
  {
    if data == [] {
      OverlayNothing(mem, a);
    } else {
      WriteDataStep(mem, a, data);
      WriteDataOverlay(Overlay(mem, a, [data[0]]), a + 1, data[1..]);
      OverlayTwice(mem, a, [data[0]], data[1..]);
      assert [data[0]] + data[1..] == data;
    }
  }

  lemma {:induction false} ChunkLoads(s: Loaded, a: nat, c: seq<byte>)
    requires |s.mem| == MEMORY_SIZE && s.upper == 0 && |c| < 0x100 && a + |c| <= MEMORY_SIZE
    ensures Apply(s, Data(Word(a), c)).mem == Overlay(s.mem, a, c) && Apply(s, Data(Word(a), c)).upper == 0
  {
    var base := (s.upper + Word(a)) % UINT32;
    assert Apply(s, Data(Word(a), c)).mem == WriteData(s.mem, base, c);
    if c == [] {
      OverlayNothing(s.mem, a);
    } else {
      assert base == a;
      WriteDataOverlay(s.mem, a, c);
    }
  }

  lemma {:induction false} ImageLoads(s: Loaded, a: nat, chunks: seq<seq<byte>>, rs: seq<Record>)
    requires |s.mem| == MEMORY_SIZE && s.upper == 0 && Fits(a, chunks) && rs == ImageRecords(a, chunks)
    requires forall r :: r in rs ==> WellFormed(r)
    ensures ApplyAll(s, rs).mem == Overlay(s.mem, a, Flat(chunks))
    decreases |chunks|
  {
    if chunks == [] {
      OverlayNothing(s.mem, a);
    } else {
      var c, rest, more := chunks[0], chunks[1..], rs[1..];
      FirstChunk(a, chunks, rs);
      ApplyFirst(s, rs);
      ChunkLoads(s, a, c);
      var next := Apply(s, rs[0]);
      ImageLoads(next, a + |c|, rest, more);
      ChunkThenRest(s.mem, next.mem, ApplyAll(next, more).mem, a, c, Flat(rest));
    }
  }

  lemma {:induction false} ChunkThenRest(mem: seq<byte>, next: seq<byte>, last: seq<byte>, a: nat, first: seq<byte>, rest: seq<byte>)
    requires |mem| == MEMORY_SIZE && a + |first| + |rest| <= MEMORY_SIZE
    requires next == Overlay(mem, a, first) && last == Overlay(next, a + |first|, rest)
    ensures last == Overlay(mem, a, first + rest)
  {
    OverlayTwice(mem, a, first, rest);
  }

  lemma {:induction false} FirstChunk(a: nat, chunks: seq<seq<byte>>, rs: seq<Record>)
    requires Fits(a, chunks) && chunks != [] && rs == ImageRecords(a, chunks)
    ensures Fits(a + |chunks[0]|, chunks[1..])
    ensures rs != [] && rs[0] == Data(Word(a), chunks[0]) && rs[1..] == ImageRecords(a + |chunks[0]|, chunks[1..])
  {
  }

  lemma {:induction false} ApplyFirst(s: Loaded, rs: seq<Record>)
    requires rs != [] && rs[0] != EndOfFile && forall r :: r in rs ==> WellFormed(r)
    ensures ApplyAll(s, rs) == ApplyAll(Apply(s, rs[0]), rs[1..])
  {
  }

  /** From the text: however an image is cut into records, with whatever checksums and line endings,
      loading them puts the image at its address and leaves the rest of memory alone. */
  lemma AnyChunkingLoadsTheImage(mem: seq<byte>, a: nat, chunks: seq<seq<byte>>, checksums: seq<byte>, endings: seq<string>)
    requires |mem| == MEMORY_SIZE && Fits(a, chunks)
    requires |checksums| == |endings| == |ImageRecords(a, chunks)|
    ensures forall r :: r in ImageRecords(a, chunks) ==> WellFormed(r)
    ensures LoadLines(Fresh(mem), Lines(ImageRecords(a, chunks), checksums, endings)).mem == Overlay(mem, a, Flat(chunks))
  {
    ImageWellFormed(a, chunks);
    TextMeansRecords(Fresh(mem), ImageRecords(a, chunks), checksums, endings);
    ImageLoads(Fresh(mem), a, chunks, ImageRecords(a, chunks));
  }

  // ---- an image from records in any order ---------------------------------------------------

  /** The writes that reach memory are bytes of the image in their places, and leave none out.  They may come
      in any order, overlap, and be repeated. */
  ghost predicate Spells(ws: seq<Write>, a: nat, image: seq<byte>) {
    && (forall i :: 0 <= i < |ws| && ws[i].dest < MEMORY_SIZE ==>
          a <= ws[i].dest < a + |image| && ws[i].value == image[ws[i].dest - a])
    && (forall d :: a <= d < a + |image| ==> WrittenTo(ws, d))
  }

  ghost predicate WrittenTo(ws: seq<Write>, d: nat) {
    exists i :: 0 <= i < |ws| && ws[i].dest == d
  }

  lemma WrittenNext(init: seq<Write>, last: Write, d: nat)
    ensures WrittenTo(init + [last], d) <==> WrittenTo(init, d) || last.dest == d
  {
    var ws := init + [last];
    if WrittenTo(init, d) {
      var i :| 0 <= i < |init| && init[i].dest == d;
      assert ws[i].dest == d;
    }
    assert ws[|init|] == last;
  }

  lemma {:induction false} LastWriteAmong(ws: seq<Write>, d: nat, before: byte)
    ensures !WrittenTo(ws, d) ==> LastWrite(ws, d, before) == before
    ensures WrittenTo(ws, d) ==> exists i :: 0 <= i < |ws| && ws[i] == Write(d, LastWrite(ws, d, before))
    decreases |ws|
  {
    if ws != [] {
      var init, last := ws[..|ws| - 1], ws[|ws| - 1];
      assert init + [last] == ws;
      WrittenNext(init, last, d);
      LastWriteAmong(init, d, before);
      if last.dest == d {
        assert ws[|ws| - 1] == Write(d, LastWrite(ws, d, before));
      } else if WrittenTo(init, d) {
        var k :| 0 <= k < |init| && init[k] == Write(d, LastWrite(init, d, before));
        assert ws[k] == init[k];
      }
    }
  }

  lemma {:induction false} SpelledCell(ws: seq<Write>, a: nat, image: seq<byte>, d: nat, before: byte)
    requires Spells(ws, a, image) && d < MEMORY_SIZE
    ensures LastWrite(ws, d, before) == if a <= d < a + |image| then image[d - a] else before
  {
    LastWriteAmong(ws, d, before);
  }

  /** Whatever records spell the image, data records under any base and in any order, loading them puts it at
      its address and leaves the rest of memory alone. */
  lemma {:induction false} RecordsLoadImage(mem: seq<byte>, a: nat, image: seq<byte>, rs: seq<Record>)
    requires |mem| == MEMORY_SIZE && a + |image| <= MEMORY_SIZE
    requires (forall r :: r in rs ==> WellFormed(r)) && Spells(Writes(0, rs), a, image)
    ensures ApplyAll(Fresh(mem), rs).mem == Overlay(mem, a, image)
  {
    var loaded, wanted := ApplyAll(Fresh(mem), rs).mem, Overlay(mem, a, image);
    MemoryIsLastWriter(Fresh(mem), rs, 0);
    forall d | 0 <= d < MEMORY_SIZE ensures loaded[d] == wanted[d] {
      MemoryIsLastWriter(Fresh(mem), rs, d);
      SpelledCell(Writes(0, rs), a, image, d, mem[d]);
      OverlayAt(mem, a, image, d);
    }
  }

  lemma OverlayAt(mem: seq<byte>, a: nat, image: seq<byte>, d: nat)
    requires |mem| == MEMORY_SIZE && a + |image| <= MEMORY_SIZE && d < MEMORY_SIZE
    ensures Overlay(mem, a, image)[d] == if a <= d < a + |image| then image[d - a] else mem[d]
  {
  }

  /** A piece of an image with its 32-bit address. */
  datatype Placed = Placed(address: uint32, bytes: seq<byte>)

  /** Each piece under its own extended linear address. */
  function PlacedRecords(ps: seq<Placed>): seq<Record> {
    if ps == [] then [EndOfFile]
    else
      [ExtendedLinear(ps[0].address / 0x10000), Data(ps[0].address % 0x10000, ps[0].bytes)] + PlacedRecords(ps[1..])
  }

  ghost function PlacedWrites(ps: seq<Placed>): seq<Write> {
    if ps == [] then [] else DataWrites(ps[0].address, ps[0].bytes) + PlacedWrites(ps[1..])
  }

  lemma LinearBase(address: uint32)
    ensures (address / 0x10000 * 0x10000 + address % 0x10000) % UINT32 == address
  {
    assert address / 0x10000 * 0x10000 + address % 0x10000 == address;
  }

  lemma {:induction false} WritesOfPiece(upper: uint32, p: Placed, rest: seq<Record>)
    ensures var rs := [ExtendedLinear(p.address / 0x10000), Data(p.address % 0x10000, p.bytes)] + rest;
      Writes(upper, rs) == DataWrites(p.address, p.bytes) + Writes(p.address / 0x10000 * 0x10000, rest)
  {
    var base, data := p.address / 0x10000 * 0x10000, Data(p.address % 0x10000, p.bytes);
    var rs := [ExtendedLinear(p.address / 0x10000), data] + rest;
    assert rs[1..] == [data] + rest && ([data] + rest)[1..] == rest;
    LinearBase(p.address);
    assert RecordWrites(base, data) == DataWrites(p.address, p.bytes);
    WritesHead(upper, rs);
    WritesHead(base, [data] + rest);
  }

  lemma WritesHead(upper: uint32, rs: seq<Record>)
    requires rs != [] && rs[0] != EndOfFile
    ensures rs[0].Data? ==> Writes(upper, rs) == RecordWrites(upper, rs[0]) + Writes(upper, rs[1..])
    ensures !rs[0].Data? ==> Writes(upper, rs) == Writes(BaseAfter(upper, rs[0]), rs[1..])
  {
  }

  lemma {:induction false} WritesOfPlaced(upper: uint32, ps: seq<Placed>)
    ensures Writes(upper, PlacedRecords(ps)) == PlacedWrites(ps)
    decreases |ps|
  {
    if ps != [] {
      WritesOfPiece(upper, ps[0], PlacedRecords(ps[1..]));
      WritesOfPlaced(ps[0].address / 0x10000 * 0x10000, ps[1..]);
    }
  }

  /** The pieces fit the image, and leave none of it out. */
  ghost predicate PiecesOf(ps: seq<Placed>, a: nat, image: seq<byte>) {
    && (forall i :: 0 <= i < |ps| ==> PieceOf(ps[i], a, image))
    && (forall d :: a <= d < a + |image| ==> Covered(ps, d))
  }

  ghost predicate Covered(ps: seq<Placed>, d: nat) {
    exists i :: 0 <= i < |ps| && ps[i].address <= d < ps[i].address + |ps[i].bytes|
  }

  ghost predicate PieceOf(p: Placed, a: nat, image: seq<byte>) {
    && |p.bytes| < 0x100
    && a <= p.address && p.address + |p.bytes| <= a + |image|
    && p.bytes == image[p.address - a..p.address - a + |p.bytes|]
  }

  /** A write that a piece makes: a byte of the image in its place. */
  ghost predicate Makes(p: Placed, a: nat, image: seq<byte>, w: Write) {
    p.address <= w.dest < p.address + |p.bytes| && a <= w.dest < a + |image| && w.value == image[w.dest - a]
  }

  lemma PieceWrites(p: Placed, a: nat, image: seq<byte>, w: Write)
    requires a + |image| <= MEMORY_SIZE && PieceOf(p, a, image)
    ensures w in DataWrites(p.address, p.bytes) <==> Makes(p, a, image, w)
  {
    var ws := DataWrites(p.address, p.bytes);
    assert forall i :: 0 <= i < |ws| ==> ws[i] == Write(p.address + i, image[p.address + i - a]);
    if Makes(p, a, image, w) {
      assert ws[w.dest - p.address] == w;
    }
  }

  ghost predicate SomeMakes(ps: seq<Placed>, a: nat, image: seq<byte>, w: Write) {
    exists i :: 0 <= i < |ps| && Makes(ps[i], a, image, w)
  }

  lemma SomeMakesNext(ps: seq<Placed>, a: nat, image: seq<byte>, w: Write)
    requires ps != []
    ensures SomeMakes(ps, a, image, w) <==> Makes(ps[0], a, image, w) || SomeMakes(ps[1..], a, image, w)
  {
    if SomeMakes(ps[1..], a, image, w) {
      var i :| 0 <= i < |ps[1..]| && Makes(ps[1..][i], a, image, w);
      assert Makes(ps[i + 1], a, image, w);
    }
    if SomeMakes(ps, a, image, w) && !Makes(ps[0], a, image, w) {
      var i :| 0 <= i < |ps| && Makes(ps[i], a, image, w);
      assert Makes(ps[1..][i - 1], a, image, w);
    }
  }

  lemma {:induction false} PlacedWritesAre(ps: seq<Placed>, a: nat, image: seq<byte>, w: Write)
    requires a + |image| <= MEMORY_SIZE && forall i :: 0 <= i < |ps| ==> PieceOf(ps[i], a, image)
    ensures w in PlacedWrites(ps) <==> SomeMakes(ps, a, image, w)
    decreases |ps|
  {
    if ps != [] {
      PlacedWritesAre(ps[1..], a, image, w);
      PieceWrites(ps[0], a, image, w);
      SomeMakesNext(ps, a, image, w);
    }
  }

  lemma {:induction false} PiecesWriteAll(ps: seq<Placed>, a: nat, image: seq<byte>, d: nat)
    requires a + |image| <= MEMORY_SIZE && PiecesOf(ps, a, image) && a <= d < a + |image|
    ensures WrittenTo(PlacedWrites(ps), d)
  {
    var w := Write(d, image[d - a]);
    assert Covered(ps, d);
    var i :| 0 <= i < |ps| && ps[i].address <= d < ps[i].address + |ps[i].bytes|;
    assert Makes(ps[i], a, image, w);
    PlacedWritesAre(ps, a, image, w);
    var k :| 0 <= k < |PlacedWrites(ps)| && PlacedWrites(ps)[k] == w;
  }

  lemma {:induction false} PiecesSpell(ps: seq<Placed>, a: nat, image: seq<byte>)
    requires a + |image| <= MEMORY_SIZE && PiecesOf(ps, a, image)
    ensures Spells(PlacedWrites(ps), a, image)
  {
    var ws := PlacedWrites(ps);
    forall i | 0 <= i < |ws| ensures a <= ws[i].dest < a + |image| && ws[i].value == image[ws[i].dest - a] {
      assert ws[i] in ws;
      PlacedWritesAre(ps, a, image, ws[i]);
    }
    forall d | a <= d < a + |image| ensures WrittenTo(ws, d) {
      PiecesWriteAll(ps, a, image, d);
    }
  }

  lemma {:induction false} PlacedWellFormed(ps: seq<Placed>)
    requires forall i :: 0 <= i < |ps| ==> |ps[i].bytes| < 0x100
    ensures forall r :: r in PlacedRecords(ps) ==> WellFormed(r)
    decreases |ps|
  {
    if ps != [] {
      PlacedWellFormed(ps[1..]);
    }
  }

  /** From the text: pieces of an image in any order, each under its own extended linear address, overlapping
      or not, load back the image. */
  lemma {:induction false} AnyPiecesLoadTheImage(mem: seq<byte>, a: nat, image: seq<byte>, ps: seq<Placed>,
                                                 checksums: seq<byte>, endings: seq<string>)
    requires |mem| == MEMORY_SIZE && a + |image| <= MEMORY_SIZE && PiecesOf(ps, a, image)
    requires |checksums| == |endings| == |PlacedRecords(ps)|
    ensures forall r :: r in PlacedRecords(ps) ==> WellFormed(r)
    ensures LoadLines(Fresh(mem), Lines(PlacedRecords(ps), checksums, endings)).mem == Overlay(mem, a, image)
  {
    PlacedWellFormed(ps);
    TextMeansRecords(Fresh(mem), PlacedRecords(ps), checksums, endings);
    WritesOfPlaced(0, ps);
    PiecesSpell(ps, a, image);
    RecordsLoadImage(mem, a, image, PlacedRecords(ps));
  }
}
