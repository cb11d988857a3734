/** The Intel HEX loader, on the text of the file. */
module IntelHex {
  import opened Text
  import opened Z80

  const NO_DATA: nat := 0xFFFF_FFFF

  /** What the loader has done so far: `lowest` is the lowest base of a data record, `start` the last
      explicit start address. */
  datatype Loaded = Loaded(mem: seq<byte>, upper: uint32, lowest: uint32, start: Option<nat>)

  function Fresh(mem: seq<byte>): Loaded { Loaded(mem, 0, NO_DATA, None) }

  // ---- one line ---------------------------------------------------------------

  /** `hex2`: two characters as `stoul(..., 16)` reads them, truncated to a byte.  It accepts more than
      two hexadecimal digits do (a leading blank or sign, a trailing character that is no digit). */
  function Hex2(line: string): nat -> Option<byte> {
    (pos: nat) => if pos + 2 <= |line| then HexByte(line[pos..pos + 2]) else None
  }

  function HexByte(text: string): Option<byte> {
    var v := StoulHex(text);
    if v.Some? then Some(v.value % 0x100) else None
  }

  function Hex4(hex: nat -> Option<byte>, pos: nat): Option<word> {
    var hi, lo := hex(pos), hex(pos + 2);
    if hi.Some? && lo.Some? then Some(hi.value * 0x100 + lo.value) else None
  }

  datatype Header = Header(count: byte, address: word, kind: byte)

  function ReadHeader(hex: nat -> Option<byte>): Option<Header> {
    var n, a, k := hex(1), Hex4(hex, 3), hex(7);
    if n.Some? && a.Some? && k.Some? then Some(Header(n.value, a.value, k.value)) else None
  }

  /** The lines that are looked at: a colon, a readable header and room for the data it announces. */
  function Accepted(line: string): Option<Header> {
    if |line| < 11 || line[0] != ':' then None
    else
      var h := ReadHeader(Hex2(line));
      if h.None? || |line| < 11 + 2 * h.value.count then None else h
  }

  /** The data bytes from the `i`-th on, up to the first that cannot be read. */
  function DataFrom(hex: nat -> Option<byte>, count: byte, i: nat): seq<byte>
    requires i <= count
    decreases count - i
  {
    if i == count || hex(9 + 2 * i).None? then []
    else [hex(9 + 2 * i).value] + DataFrom(hex, count, i + 1)
  }

  function WriteByte(mem: seq<byte>, dest: nat, b: byte): (r: seq<byte>)
    ensures |r| == |mem|
  {
    if dest < |mem| then mem[dest := b] else mem
  }

  /** Bytes go to consecutive addresses modulo 2^32; those outside memory are dropped. */
  function WriteData(mem: seq<byte>, base: uint32, data: seq<byte>): (r: seq<byte>)
    ensures |r| == |mem|
    decreases |data|
  {
    if data == [] then mem
    else WriteData(WriteByte(mem, base, data[0]), (base + 1) % UINT32, data[1..])
  }

  function LoadData(s: Loaded, h: Header, data: seq<byte>): Loaded {
    var base := (s.upper + h.address) % UINT32;
    s.(mem := WriteData(s.mem, base, data),
       lowest := if h.count > 0 && base < s.lowest then base else s.lowest)
  }

  /** A segment counts in paragraphs, a linear base in 64 KB. */
  function UpperOf(kind: byte, w: word): uint32 {
    if kind == 2 then w * 0x10 else w * 0x10000
  }

  /** CS:IP as a linear address, or EIP. */
  function StartOf(kind: byte, hi: word, lo: word): nat {
    if kind == 3 then hi * 0x10 + lo else hi * 0x10000 + lo
  }

  function ReadUpper(hex: nat -> Option<byte>, h: Header): Option<uint32> {
    if (h.kind == 2 || h.kind == 4) && h.count >= 2 && Hex4(hex, 9).Some?
    then Some(UpperOf(h.kind, Hex4(hex, 9).value))
    else None
  }

  function ReadStart(hex: nat -> Option<byte>, h: Header): Option<nat> {
    if (h.kind == 3 || h.kind == 5) && h.count >= 4 && Hex4(hex, 9).Some? && Hex4(hex, 13).Some?
    then Some(StartOf(h.kind, Hex4(hex, 9).value, Hex4(hex, 13).value))
    else None
  }

  function LoadRecord(s: Loaded, hex: nat -> Option<byte>, h: Header): Loaded {
    if h.kind == 0 then LoadData(s, h, DataFrom(hex, h.count, 0))
    else if ReadUpper(hex, h).Some? then s.(upper := ReadUpper(hex, h).value)
    else if ReadStart(hex, h).Some? then s.(start := ReadStart(hex, h))
    else s
  }

  function LoadLines(s: Loaded, lines: seq<string>): Loaded
    decreases |lines|
  {
    if lines == [] then s
    else
      match Accepted(lines[0])
      case None => LoadLines(s, lines[1..])
      case Some(h) => if h.kind == 1 then s else LoadLines(LoadRecord(s, Hex2(lines[0]), h), lines[1..])
  }

  function Entry(s: Loaded): word {
    match s.start
    case Some(a) => a % 0x10000
    case None => if s.lowest != NO_DATA then s.lowest % 0x10000 else 0
  }

  // ---- the loader -----------------------------------------------------------------

  lemma NextDest(base: uint32, i: nat)
    ensures ((base + i) % UINT32 + 1) % UINT32 == (base + (i + 1)) % UINT32
  {
  }

  lemma WriteNext(mem: seq<byte>, base: uint32, i: nat, b: byte, rest: seq<byte>)
    ensures WriteData(mem, (base + i) % UINT32, [b] + rest)
      == WriteData(WriteByte(mem, (base + i) % UINT32, b), (base + (i + 1)) % UINT32, rest)
  {
    NextDest(base, i);
    assert ([b] + rest)[1..] == rest;
  }

  method PutByte(mem: array<byte>, dest: nat, b: byte)
    modifies mem
    ensures mem[..] == WriteByte(old(mem[..]), dest, b)
  {
    if dest < mem.Length {
      mem[dest] := b;
    }
  }

  method WriteRecord(hex: nat -> Option<byte>, count: byte, base: uint32, mem: array<byte>)
    modifies mem
    ensures mem[..] == WriteData(old(mem[..]), base, DataFrom(hex, count, 0))
  {
    ghost var all := WriteData(mem[..], base, DataFrom(hex, count, 0));
    var i := 0;
    while i < count
      invariant i <= count
      invariant all == WriteData(mem[..], (base + i) % UINT32, DataFrom(hex, count, i))
    {
      var b := hex(9 + 2 * i);
      if b.None? {
        return;
      }
      WriteNext(mem[..], base, i, b.value, DataFrom(hex, count, i + 1));
      PutByte(mem, (base + i) % UINT32, b.value);
      i := i + 1;
    }
  }

  method ProcessRecord(hex: nat -> Option<byte>, h: Header, upper: uint32, lowest: uint32, start: Option<nat>, mem: array<byte>)
    returns (upperBase: uint32, lowestDataAddr: uint32, explicitEntry: Option<nat>)
    modifies mem
    ensures Loaded(mem[..], upperBase, lowestDataAddr, explicitEntry)
      == LoadRecord(Loaded(old(mem[..]), upper, lowest, start), hex, h)
  {
    upperBase, lowestDataAddr, explicitEntry := upper, lowest, start;
    if h.kind == 0 {
      var base := (upper + h.address) % UINT32;
      if h.count > 0 && base < lowestDataAddr {
        lowestDataAddr := base;
      }
      WriteRecord(hex, h.count, base, mem);
    } else if (h.kind == 2 || h.kind == 4) && h.count >= 2 {
      var w := Hex4(hex, 9);
      if w.Some? {
        upperBase := UpperOf(h.kind, w.value);
      }
    } else if (h.kind == 3 || h.kind == 5) && h.count >= 4 {
      var hi, lo := Hex4(hex, 9), Hex4(hex, 13);
      if hi.Some? && lo.Some? {
        explicitEntry := Some(StartOf(h.kind, hi.value, lo.value));
      }
    }
  }

  /** The file is read up to its end or to an end-of-file record, line by line. */
  method LoadIhx(lines: seq<string>, mem: array<byte>) returns (entry: word, explicitStart: bool)
    modifies mem
    ensures var s := LoadLines(Fresh(old(mem[..])), lines);
      mem[..] == s.mem && entry == Entry(s) && explicitStart == s.start.Some?
  {
    var upperBase: uint32 := 0;
    var lowestDataAddr: uint32 := NO_DATA;
    var explicitEntry: Option<nat> := None;
    ghost var all := LoadLines(Fresh(mem[..]), lines);
    var k := 0;
    assert lines[0..] == lines;
    while k < |lines|
      invariant k <= |lines|
      invariant all == LoadLines(Loaded(mem[..], upperBase, lowestDataAddr, explicitEntry), lines[k..])
      decreases |lines| - k
    {
      var line := lines[k];
      assert lines[k..][0] == line && lines[k..][1..] == lines[k + 1..];
      k := k + 1;
      var header := Accepted(line);
      if header.None? {
        continue;
      }
      if header.value.kind == 1 {
        break;
      }
      upperBase, lowestDataAddr, explicitEntry :=
        ProcessRecord(Hex2(line), header.value, upperBase, lowestDataAddr, explicitEntry, mem);
    }
    if explicitEntry.Some? {
      return explicitEntry.value % 0x10000, true;
    }
    return if lowestDataAddr != NO_DATA then lowestDataAddr % 0x10000 else 0, false;
  }
}
