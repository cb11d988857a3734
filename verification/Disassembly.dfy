/** Address arithmetic of the disassembly request and of the full listing.  The decoder enters only
    through the length it reports for the instruction at an address. */
module Disassembly {
  import opened Z80

  // At most four bytes; zero or less means the decoder failed, and the callers then advance by one.
  ghost predicate Decodes(decode: word -> int) {
    forall p: word :: decode(p) <= 4
  }

  function Len(decode: word -> int, p: word): (n: int)
    ensures n > 0
  {
    if decode(p) > 0 then decode(p) else 1
  }

  function Max(a: int, b: int): int { if a < b then b else a }

  function Min(a: int, b: int): int { if a < b then a else b }

  /** The `n`-th boundary from `start`, in 16-bit arithmetic. */
  ghost function Chain(decode: word -> int, start: word, n: nat): word {
    if n == 0 then start
    else
      var p := Chain(decode, start, n - 1);
      Word(p + Len(decode, p))
  }

  lemma {:induction false} ChainSplit(decode: word -> int, start: word, a: nat, b: nat)
    ensures Chain(decode, Chain(decode, start, a), b) == Chain(decode, start, a + b)
    decreases b
  {
    if b > 0 {
      ChainSplit(decode, start, a, b - 1);
    }
  }

  // ---- backward -------------------------------------------------------------

  // The last base from which the scan ends whatever is decoded, the last from which it can end at all, and the
  // last that it is sure to pass or meet before it wraps.
  const LAST_SAFE_BASE: word := 0xFFF8
  const LAST_ANSWERED_BASE: word := 0xFFFB
  const LAST_REACHED_BASE: word := 0xFFFC

  /** Where the scan begins: four bytes back for each instruction, but not below 0. */
  function ScanStart(base: word, backstep: nat): word {
    base - Min(base, 4 * backstep)
  }

  /** How many boundaries from `pos` lie below `base`. */
  ghost function Steps(decode: word -> int, pos: nat, base: word): nat
    decreases base - pos
  {
    if pos >= base then 0 else 1 + Steps(decode, pos + Len(decode, pos), base)
  }

  /** The first boundary from `pos` that is not below `base`. */
  ghost function FirstFrom(decode: word -> int, pos: nat, base: word): nat
    decreases base - pos
  {
    if pos >= base then pos else FirstFrom(decode, pos + Len(decode, pos), base)
  }

  /** `k` decoded instructions before the one found at or after `base`, or as many as there are. */
  ghost function BackStart(decode: word -> int, base: word, k: nat): word {
    var scan := ScanStart(base, k);
    Chain(decode, scan, Max(0, Steps(decode, scan, base) - k))
  }

  ghost function Start(decode: word -> int, base: word, instructionOffset: int): word {
    if instructionOffset < 0 then BackStart(decode, base, 0 - instructionOffset)
    else Chain(decode, base, instructionOffset)
  }

  /** Up to 0xFFFC the scan does not wrap before it reaches the base: the boundary just at or after the base is
      the one numbered `Steps`, at most three bytes after the base, and all earlier boundaries are below it. */
  lemma {:induction false} ScanReachesBase(decode: word -> int, scan: word, n: nat, base: word)
    requires Decodes(decode) && base <= LAST_REACHED_BASE
    requires var pos := Chain(decode, scan, n); pos <= base + 3
    ensures var pos := Chain(decode, scan, n); var t := Steps(decode, pos, base);
      && Chain(decode, scan, n + t) == FirstFrom(decode, pos, base)
      && base <= Max(base, pos) <= FirstFrom(decode, pos, base) <= base + 3
      && base - pos <= 4 * t
      && (forall k :: n <= k < n + t ==> Chain(decode, scan, k) < base)
    decreases base - Chain(decode, scan, n)
  {
    var pos := Chain(decode, scan, n);
    if pos < base {
      assert Chain(decode, scan, n + 1) == pos + Len(decode, pos);
      ScanReachesBase(decode, scan, n + 1, base);
    }
  }

  lemma {:induction false} BackChain(decode: word -> int, base: word, k: nat, i: nat)
    ensures var scan := ScanStart(base, k);
      Chain(decode, BackStart(decode, base, k), i)
      == Chain(decode, scan, Max(0, Steps(decode, scan, base) - k) + i)
  {
    var scan := ScanStart(base, k);
    ChainSplit(decode, scan, Max(0, Steps(decode, scan, base) - k), i);
  }

  /** Entry `min(k, t)` of a disassembly that starts `k` instructions before `base` is the first decoded
      boundary at or after `base`; with 4k bytes before it there are always `k` instructions to go back. */
  lemma {:induction false} BackwardEntryIsBase(decode: word -> int, base: word, k: nat)
    requires Decodes(decode) && base <= LAST_REACHED_BASE && k > 0
    ensures var scan := ScanStart(base, k); var t := Steps(decode, scan, base); var first := FirstFrom(decode, scan, base);
      && base <= first <= base + 3
      && Chain(decode, BackStart(decode, base, k), Min(k, t)) == first
      && (forall i :: 0 <= i < Min(k, t) ==> Chain(decode, BackStart(decode, base, k), i) < base)
      && (4 * k <= base ==> k <= t)
  {
    var scan := ScanStart(base, k);
    var t := Steps(decode, scan, base);
    assert Chain(decode, scan, 0) == scan;
    ScanReachesBase(decode, scan, 0, base);
    forall i | 0 <= i < Min(k, t) ensures Chain(decode, BackStart(decode, base, k), i) < base {
      BackChain(decode, base, k, i);
    }
    BackChain(decode, base, k, Min(k, t));
  }

  /** That entry is the requested address itself exactly when the scan decodes an instruction there. */
  lemma {:induction false} BackwardAlignedIffDecoded(decode: word -> int, base: word, k: nat)
    requires Decodes(decode) && base <= LAST_REACHED_BASE && k > 0
    ensures var scan := ScanStart(base, k); var t := Steps(decode, scan, base);
      Chain(decode, BackStart(decode, base, k), Min(k, t)) == base
      <==> exists n :: 0 <= n <= t && Chain(decode, scan, n) == base
  {
    var scan := ScanStart(base, k);
    BackwardEntryIsBase(decode, base, k);
    assert Chain(decode, scan, 0) == scan;
    ScanReachesBase(decode, scan, 0, base);
    var t := Steps(decode, scan, base);
    assert Chain(decode, scan, t) == FirstFrom(decode, scan, base);
  }

  /** It need not be: one step back from 100, instructions of three bytes at 96 and two at 99 give 101. */
  lemma {:induction false} BackwardCanMissBase(decode: word -> int)
    requires Decodes(decode) && decode(96) == 3 && decode(99) == 2
    ensures Start(decode, 100, -1) == 99 && Chain(decode, Start(decode, 100, -1), 1) == 101
    ensures !(exists n :: 0 <= n <= Steps(decode, 96, 100) && Chain(decode, 96, n) == 100)
  {
    assert Steps(decode, 99, 100) == 1 && Steps(decode, 96, 100) == 2;
    assert Chain(decode, 96, 0) == 96;
    assert Chain(decode, 96, 1) == 99;
    assert Chain(decode, 96, 2) == 101;
    assert Chain(decode, 99, 0) == 99;
  }

  // ---- termination of the scan -----------------------------------------------

  /** The scan's loop condition `pos <= addr + 3` fails at some point. */
  ghost predicate ScanEnds(decode: word -> int, scan: word, base: word) {
    exists n :: Chain(decode, scan, n) > base + 3
  }

  lemma AlignedNext(p: word)
    ensures var next := Word(p + (4 - p % 4)); next <= 0xFFFC && next % 4 == 0
  {
    var q := p + (4 - p % 4);
    assert q == 4 * (p / 4 + 1);
    WordCases(q);
  }

  lemma {:induction false} AlignedNeverLeaves(decode: word -> int, scan: word, base: word, n: nat)
    requires forall p: word :: decode(p) == 4 - p % 4
    requires scan <= base + 3 && base > LAST_SAFE_BASE
    ensures Chain(decode, scan, n) <= base + 3 && (n > 0 ==> Chain(decode, scan, n) % 4 == 0)
  {
    if n > 0 {
      AlignedNeverLeaves(decode, scan, base, n - 1);
      AlignedNext(Chain(decode, scan, n - 1));
    }
  }

  /** A backward scan ends whatever the memory decodes to if and only if the base is at most 0xFFF8:
      above that the 16-bit position can wrap to 0 without ever passing `addr + 3`. */
  lemma ScanEndsForEveryDecoderIff(base: word, k: nat)
    requires k > 0
    ensures (forall decode: word -> int | Decodes(decode) :: ScanEnds(decode, ScanStart(base, k), base))
      <==> base <= LAST_SAFE_BASE
  {
    var scan := ScanStart(base, k);
    if base <= LAST_SAFE_BASE {
      forall decode: word -> int | Decodes(decode) ensures ScanEnds(decode, scan, base) {
        assert Chain(decode, scan, 0) == scan;
        ScanReachesBase(decode, scan, 0, base);
        ScanPasses(decode, scan, Steps(decode, scan, base), base);
      }
    } else {
      var decode := (p: word) => 4 - p % 4;
      assert Decodes(decode);
      forall n: nat ensures Chain(decode, scan, n) <= base + 3 {
        AlignedNeverLeaves(decode, scan, base, n);
      }
      assert !ScanEnds(decode, scan, base);
    }
  }

  lemma {:induction false} ScanPasses(decode: word -> int, scan: word, n: nat, base: word)
    requires Decodes(decode) && base <= LAST_SAFE_BASE && base <= Chain(decode, scan, n)
    ensures ScanEnds(decode, scan, base)
    decreases base + 4 - Chain(decode, scan, n)
  {
    var p := Chain(decode, scan, n);
    if p <= base + 3 {
      assert Chain(decode, scan, n + 1) == p + Len(decode, p);
      ScanPasses(decode, scan, n + 1, base);
    }
  }

  lemma {:induction false} OneByOne(decode: word -> int, scan: word, n: nat)
    requires (forall p: word :: decode(p) == 1) && scan + n < 0x10000
    ensures Chain(decode, scan, n) == scan + n
    decreases n
  {
    if n > 0 {
      OneByOne(decode, scan, n - 1);
    }
  }

  /** There is a decoder with which it ends if and only if the base is at most 0xFFFB: from 0xFFFC on no 16-bit
      position exceeds `addr + 3`, and no request to go backward is ever answered, whatever is in memory. */
  lemma {:induction false} ScanEndsForSomeDecoderIff(base: word, k: nat)
    requires k > 0
    ensures (exists decode: word -> int :: Decodes(decode) && ScanEnds(decode, ScanStart(base, k), base))
      <==> base <= LAST_ANSWERED_BASE
  {
    if base <= LAST_ANSWERED_BASE {
      var decode, scan := (p: word) => 1, ScanStart(base, k);
      OneByOne(decode, scan, base + 4 - scan);
      assert Decodes(decode) && ScanEnds(decode, scan, base);
    }
  }

  // ---- the request ----------------------------------------------------------------

  datatype Entry = Entry(address: word, bytes: seq<byte>)

  /** The bytes of the instruction at `p`, cut at the end of memory. */
  function BytesAt(decode: word -> int, mem: seq<byte>, p: word): seq<byte>
    requires |mem| == MEMORY_SIZE
  {
    mem[p..Min(p + Len(decode, p), MEMORY_SIZE)]
  }

  lemma {:induction false} ScanEndsBelow(decode: word -> int, scan: word, base: word)
    requires ScanEnds(decode, scan, base)
    ensures base <= LAST_ANSWERED_BASE
  {
  }

  /** The first `|addrs|` boundaries, none of them past the end of the scan. */
  ghost predicate Scanned(decode: word -> int, scan: word, base: word, addrs: seq<word>) {
    forall i :: 0 <= i < |addrs| ==> addrs[i] == Chain(decode, scan, i) && addrs[i] <= base + 3
  }

  lemma {:induction false} ScannedNext(decode: word -> int, scan: word, base: word, addrs: seq<word>, pos: word)
    requires Scanned(decode, scan, base, addrs) && pos == Chain(decode, scan, |addrs|) && pos <= base + 3
    ensures Scanned(decode, scan, base, addrs + [pos])
    ensures Word(pos + Len(decode, pos)) == Chain(decode, scan, |addrs| + 1)
  {
  }

  lemma {:induction false} ScannedBefore(decode: word -> int, scan: word, base: word, addrs: seq<word>, last: nat)
    requires Scanned(decode, scan, base, addrs) && Chain(decode, scan, last) > base + 3
    ensures |addrs| <= last
  {
  }

  /** The scan loop, whenever it ends. */
  method Boundaries(decode: word -> int, scan: word, base: word) returns (addrs: seq<word>)
    requires Decodes(decode) && scan <= base && ScanEnds(decode, scan, base)
    ensures |addrs| > Steps(decode, scan, base)
    ensures Scanned(decode, scan, base, addrs) && Chain(decode, scan, |addrs|) > base + 3
  {
    ghost var last: nat :| Chain(decode, scan, last) > base + 3;
    addrs := [];
    var pos: word := scan;
    while pos <= base + 3 && pos < MEMORY_SIZE
      invariant pos == Chain(decode, scan, |addrs|) && Scanned(decode, scan, base, addrs)
      invariant |addrs| <= last
      decreases last - |addrs|
    {
      ScannedNext(decode, scan, base, addrs, pos);
      ScannedBefore(decode, scan, base, addrs + [pos], last);
      addrs := addrs + [pos];
      pos := Word(pos + Len(decode, pos));
    }
    ScanEndsBelow(decode, scan, base);
    BoundariesReach(decode, scan, base, |addrs|);
  }

  lemma {:induction false} BoundariesReach(decode: word -> int, scan: word, base: word, n: nat)
    requires Decodes(decode) && scan <= base <= LAST_REACHED_BASE
    ensures n <= Steps(decode, scan, base) ==> Chain(decode, scan, n) <= base + 3
  {
    assert Chain(decode, scan, 0) == scan;
    ScanReachesBase(decode, scan, 0, base);
  }

  /** The index of the first address not below `base`, or else of the last. */
  method TargetIndex(addrs: seq<word>, base: word) returns (targetIdx: int)
    ensures -1 <= targetIdx < |addrs| && forall k :: 0 <= k < targetIdx ==> addrs[k] < base
    ensures (exists k :: 0 <= k < |addrs| && addrs[k] >= base) ==> targetIdx >= 0 && addrs[targetIdx] >= base
    ensures (forall k :: 0 <= k < |addrs| ==> addrs[k] < base) ==> targetIdx == |addrs| - 1
  {
    targetIdx := |addrs| - 1;
    var i := 0;
    while i < |addrs|
      invariant i <= |addrs| && forall k :: 0 <= k < i ==> addrs[k] < base
    {
      if addrs[i] >= base {
        return i;
      }
      i := i + 1;
    }
  }

  lemma {:induction false} ScannedTarget(decode: word -> int, scan: word, base: word, addrs: seq<word>, found: int)
    requires Decodes(decode) && scan <= base <= LAST_REACHED_BASE
    requires Scanned(decode, scan, base, addrs) && |addrs| > Steps(decode, scan, base)
    requires -1 <= found < |addrs| && forall k :: 0 <= k < found ==> addrs[k] < base
    requires (exists k :: 0 <= k < |addrs| && addrs[k] >= base) ==> found >= 0 && addrs[found] >= base
    ensures found == Steps(decode, scan, base)
  {
    var t := Steps(decode, scan, base);
    assert Chain(decode, scan, 0) == scan;
    ScanReachesBase(decode, scan, 0, base);
    assert addrs[t] >= base;
  }

  method StartBackward(decode: word -> int, base: word, backstep: nat) returns (start: word)
    requires Decodes(decode) && backstep > 0 && ScanEnds(decode, ScanStart(base, backstep), base)
    ensures start == BackStart(decode, base, backstep)
  {
    var rewind := Min(base, backstep * 4);
    var scan := base - rewind;
    var addrs := Boundaries(decode, scan, base);
    ScanEndsBelow(decode, scan, base);
    var targetIdx := TargetIndex(addrs, base);
    ScannedTarget(decode, scan, base, addrs, targetIdx);
    start := addrs[Max(0, targetIdx - backstep)];
  }

  method StartForward(decode: word -> int, base: word, instructionOffset: nat) returns (addr: word)
    ensures addr == Chain(decode, base, instructionOffset)
  {
    addr := base;
    var i := 0;
    while i < instructionOffset && addr < MEMORY_SIZE
      invariant i <= instructionOffset && addr == Chain(decode, base, i)
      decreases instructionOffset - i
    {
      addr := Word(addr + Len(decode, addr));
      i := i + 1;
    }
  }

  method FindStart(decode: word -> int, base: word, instructionOffset: int) returns (addr: word)
    requires Decodes(decode)
    requires instructionOffset < 0 ==> ScanEnds(decode, ScanStart(base, 0 - instructionOffset), base)
    ensures addr == Start(decode, base, instructionOffset)
  {
    addr := base;
    if instructionOffset < 0 {
      addr := StartBackward(decode, base, 0 - instructionOffset);
    } else if instructionOffset > 0 {
      addr := StartForward(decode, base, instructionOffset);
    }
  }

  ghost predicate Listed(decode: word -> int, mem: seq<byte>, start: word, result: seq<Entry>)
    requires |mem| == MEMORY_SIZE
  {
    forall i :: 0 <= i < |result| ==>
      result[i].address == Chain(decode, start, i) && result[i].bytes == BytesAt(decode, mem, result[i].address)
  }

  /** Each entry has the bytes of memory from its address on, as many as are decoded there (one if none are) or
      as are left, and the next one begins where it ends, in 16-bit arithmetic. */
  ghost predicate Spelled(decode: word -> int, mem: seq<byte>, result: seq<Entry>)
    requires |mem| == MEMORY_SIZE
  {
    && (forall i :: 0 <= i < |result| ==>
          var length := if decode(result[i].address) > 0 then decode(result[i].address) else 1;
          && |result[i].bytes| == (if result[i].address + length < 65536 then length else 65536 - result[i].address)
          && (forall j :: 0 <= j < |result[i].bytes| ==> result[i].bytes[j] == mem[result[i].address + j]))
    && (forall i :: 0 < i < |result| ==>
          var before := result[i - 1].address;
          result[i].address == Word(before + if decode(before) > 0 then decode(before) else 1))
  }

  lemma {:induction false} ListedIsSpelled(decode: word -> int, mem: seq<byte>, start: word, result: seq<Entry>)
    requires |mem| == MEMORY_SIZE && Listed(decode, mem, start, result)
    ensures Spelled(decode, mem, result)
  {
    forall i | 0 < i < |result| ensures result[i].address == Word(result[i - 1].address + Len(decode, result[i - 1].address)) {
      assert result[i - 1].address == Chain(decode, start, i - 1);
    }
  }

  /** Entry `i` is the boundary `k + i` instructions after the base. */
  ghost predicate Forward(decode: word -> int, base: word, k: nat, result: seq<Entry>) {
    forall i :: 0 <= i < |result| ==> result[i].address == Chain(decode, base, k + i)
  }

  lemma {:induction false} ListedForward(decode: word -> int, mem: seq<byte>, base: word, k: nat, result: seq<Entry>)
    requires |mem| == MEMORY_SIZE && Listed(decode, mem, Start(decode, base, k), result)
    ensures Forward(decode, base, k, result)
  {
    forall i | 0 <= i < |result| ensures result[i].address == Chain(decode, base, k + i) {
      ChainSplit(decode, base, k, i);
    }
  }

  /** Entry `e`, at most the `k`-th, is the first that is not below `base`, by at most three bytes; it is the `k`-th
      when there are 4k bytes to go back. */
  ghost predicate ReachesBase(base: word, k: nat, result: seq<Entry>, e: nat) {
    && e <= k && (4 * k <= base ==> e == k)
    && (forall i :: 0 <= i < e && i < |result| ==> result[i].address < base)
    && (e < |result| ==> base <= result[e].address <= base + 3)
  }

  ghost predicate IsBoundary(decode: word -> int, from: word, a: word) {
    exists n :: Chain(decode, from, n) == a
  }

  /** `k` instructions back from `base`: the first entry is decoded on the way from four bytes back for each
      instruction, or from 0, and one of the first entries reaches the base. */
  ghost predicate Backward(decode: word -> int, base: word, k: nat, result: seq<Entry>) {
    && (result != [] ==> IsBoundary(decode, if 4 * k <= base then base - 4 * k else 0, result[0].address))
    && exists e :: ReachesBase(base, k, result, e)
  }

  lemma {:induction false} EntriesReachBase(decode: word -> int, mem: seq<byte>, base: word, k: nat, result: seq<Entry>, e: nat)
    requires |mem| == MEMORY_SIZE && Listed(decode, mem, BackStart(decode, base, k), result)
    requires e <= k && (4 * k <= base ==> e == k)
    requires base <= Chain(decode, BackStart(decode, base, k), e) <= base + 3
    requires forall i :: 0 <= i < e ==> Chain(decode, BackStart(decode, base, k), i) < base
    ensures ReachesBase(base, k, result, e)
  {
  }

  lemma {:induction false} ListedBackward(decode: word -> int, mem: seq<byte>, base: word, k: nat, result: seq<Entry>)
    requires Decodes(decode) && k > 0 && ScanEnds(decode, ScanStart(base, k), base)
    requires |mem| == MEMORY_SIZE && Listed(decode, mem, BackStart(decode, base, k), result)
    ensures Backward(decode, base, k, result)
  {
    var scan := ScanStart(base, k);
    var t := Steps(decode, scan, base);
    ScanEndsBelow(decode, scan, base);
    BackwardEntryIsBase(decode, base, k);
    EntriesReachBase(decode, mem, base, k, result, Min(k, t));
    FirstIsBoundary(decode, base, k);
  }

  lemma {:induction false} FirstIsBoundary(decode: word -> int, base: word, k: nat)
    ensures IsBoundary(decode, ScanStart(base, k), Chain(decode, BackStart(decode, base, k), 0))
  {
    var scan := ScanStart(base, k);
    assert Chain(decode, BackStart(decode, base, k), 0) == Chain(decode, scan, Max(0, Steps(decode, scan, base) - k));
  }

  lemma {:induction false} AnswerMeans(decode: word -> int, mem: seq<byte>, base: word, instructionOffset: int, result: seq<Entry>)
    requires Decodes(decode) && |mem| == MEMORY_SIZE && Listed(decode, mem, Start(decode, base, instructionOffset), result)
    requires instructionOffset < 0 ==> ScanEnds(decode, ScanStart(base, 0 - instructionOffset), base)
    ensures Spelled(decode, mem, result)
    ensures instructionOffset >= 0 ==> Forward(decode, base, instructionOffset, result)
    ensures instructionOffset < 0 ==> Backward(decode, base, 0 - instructionOffset, result)
  {
    ListedIsSpelled(decode, mem, Start(decode, base, instructionOffset), result);
    if instructionOffset >= 0 {
      ListedForward(decode, mem, base, instructionOffset, result);
    } else {
      ListedBackward(decode, mem, base, 0 - instructionOffset, result);
    }
  }

  /** The `disassemble` request: always the number of instructions asked for, chained in 16-bit arithmetic.
      Going backward it answers whenever its scan ends, which every scan does from a base of at most 0xFFF8
      (`ScanEndsForEveryDecoderIff`) and none from 0xFFFC on (`ScanEndsForSomeDecoderIff`). */
  method Disassemble(decode: word -> int, mem: seq<byte>, memoryReference: int, offset: int,
                     instructionOffset: int, instructionCount: int) returns (result: seq<Entry>)
    requires Decodes(decode) && |mem| == MEMORY_SIZE
    requires var base := Word(memoryReference + offset);
      instructionOffset < 0 ==> ScanEnds(decode, ScanStart(base, 0 - instructionOffset), base)
    ensures |result| == Max(0, instructionCount)
    ensures Listed(decode, mem, Start(decode, Word(memoryReference + offset), instructionOffset), result)
    ensures Spelled(decode, mem, result)
    ensures instructionOffset >= 0 ==> Forward(decode, Word(memoryReference + offset), instructionOffset, result)
    ensures instructionOffset < 0 ==> Backward(decode, Word(memoryReference + offset), 0 - instructionOffset, result)
  {
    var base := Word(memoryReference + offset);
    var addr := FindStart(decode, base, instructionOffset);
    result := Emit(decode, mem, addr, instructionCount);
    AnswerMeans(decode, mem, base, instructionOffset, result);
  }

  method Emit(decode: word -> int, mem: seq<byte>, start: word, instructionCount: int) returns (result: seq<Entry>)
    requires |mem| == MEMORY_SIZE
    ensures |result| == Max(0, instructionCount) && Listed(decode, mem, start, result)
  {
    var addr := start;
    result := [];
    var i := 0;
    while i < instructionCount && addr < MEMORY_SIZE
      invariant |result| == i && i <= Max(0, instructionCount) && addr == Chain(decode, start, i)
      invariant Listed(decode, mem, start, result)
      decreases instructionCount - i
    {
      result := result + [Entry(addr, BytesAt(decode, mem, addr))];
      addr := Word(addr + Len(decode, addr));
      i := i + 1;
    }
  }
}

/** The 64 KB listing: one line per decoded instruction, built once and used both ways, from a line to
    its address (breakpoints in the gutter) and from an address to its line (the current line). */
module FullListing {
  import opened Z80
  import opened Disassembly

  function Concat(columns: seq<seq<byte>>): seq<byte> {
    if columns == [] then [] else Concat(columns[..|columns| - 1]) + columns[|columns| - 1]
  }

  /** Line addresses start at 0 and increase. */
  ghost predicate Ordered(addrs: seq<word>, upTo: int) {
    && (addrs == [] <==> upTo == 0)
    && (addrs != [] ==> addrs[0] == 0)
    && (forall i :: 0 <= i < |addrs| ==> addrs[i] < upTo)
    && (forall i, j :: 0 <= i < j < |addrs| ==> addrs[i] < addrs[j])
  }

  /** Each line address is mapped to its line, and nothing else is mapped. */
  ghost predicate Mapped(addrs: seq<word>, lineOf: map<word, int>) {
    && (forall i :: 0 <= i < |addrs| ==> addrs[i] in lineOf && lineOf[addrs[i]] == i + 1)
    && (forall a :: a in lineOf ==> 1 <= lineOf[a] <= |addrs| && addrs[lineOf[a] - 1] == a)
  }

  /** The byte columns, one after the other, are the memory below `upTo`. */
  ghost predicate Columned(addrs: seq<word>, columns: seq<seq<byte>>, mem: seq<byte>, upTo: int) {
    0 <= upTo <= |mem| && Fitting(addrs, columns, upTo) && Concat(columns) == mem[..upTo]
  }

  /** Each line starts where the one before it ends, and `next` is where the last one does. */
  ghost predicate Consecutive(decode: word -> int, addrs: seq<word>, next: int) {
    && (forall i :: 0 < i < |addrs| ==> addrs[i] == addrs[i - 1] + Len(decode, addrs[i - 1]))
    && next == if addrs == [] then 0 else addrs[|addrs| - 1] + Len(decode, addrs[|addrs| - 1])
  }

  ghost predicate Covers(addrs: seq<word>, lineOf: map<word, int>, columns: seq<seq<byte>>, mem: seq<byte>, upTo: int) {
    Ordered(addrs, upTo) && Mapped(addrs, lineOf) && Columned(addrs, columns, mem, upTo)
  }

  class Listing {
    var addrs: seq<word>
    var lineOf: map<word, int>
    var columns: seq<seq<byte>>
    var built: bool

    constructor ()
      ensures addrs == [] && lineOf == map[] && columns == [] && !built
    {
      addrs, lineOf, columns, built := [], map[], [], false;
    }

    ghost predicate Lists(decode: word -> int, mem: seq<byte>, next: int)
      reads this
      requires |mem| == MEMORY_SIZE
    {
      Covers(addrs, lineOf, columns, mem, Min(next, MEMORY_SIZE)) && Consecutive(decode, addrs, next)
    }

    method AppendLine(decode: word -> int, mem: seq<byte>, addr: word, line: int)
      requires |mem| == MEMORY_SIZE && Lists(decode, mem, addr) && line == |addrs| + 1
      modifies this`addrs, this`lineOf, this`columns
      ensures Lists(decode, mem, addr + Len(decode, addr)) && |addrs| == line
    {
      AddDecoded(decode, addrs, lineOf, columns, mem, addr);
      AddConsecutive(decode, addrs, addr);
      addrs := addrs + [addr];
      lineOf := lineOf[addr := line];
      columns := columns + [BytesAt(decode, mem, addr)];
    }

    method Build(decode: word -> int, mem: seq<byte>)
      requires |mem| == MEMORY_SIZE
      modifies this
      ensures built && Covers(addrs, lineOf, columns, mem, MEMORY_SIZE)
      ensures exists next :: next >= MEMORY_SIZE && Consecutive(decode, addrs, next)
    {
      addrs, lineOf, columns := [], map[], [];
      var addr := 0;
      var line := 1;
      while addr < MEMORY_SIZE
        invariant 0 <= addr && line == |addrs| + 1 && Lists(decode, mem, addr)
        decreases MEMORY_SIZE - addr
      {
        AppendLine(decode, mem, addr, line);
        addr := addr + Len(decode, addr);
        line := line + 1;
      }
      built := true;
    }

    /** The line whose address it is; an address in the middle of an instruction has none and falls back to
        line 1. */
    method LineFor(mem: seq<byte>, a: word) returns (line: int)
      requires |mem| == MEMORY_SIZE && Covers(addrs, lineOf, columns, mem, MEMORY_SIZE)
      ensures (1 <= line <= |addrs| && addrs[line - 1] == a) || (line == 1 && a !in addrs)
      ensures forall i :: 0 <= i < |addrs| && addrs[i] < a && (i + 1 < |addrs| ==> a < addrs[i + 1]) ==> line == 1
    {
      LinesAndAddressesAreInverse(addrs, lineOf, columns, mem, 1, a);
      BetweenLines(addrs, MEMORY_SIZE, a);
      if a in lineOf {
        line := lineOf[a];
      } else {
        line := 1;
      }
    }
  }

  /** Each column ends where the next line starts, the last one at `upTo`. */
  ghost predicate Fitting(addrs: seq<word>, columns: seq<seq<byte>>, upTo: int) {
    && |columns| == |addrs|
    && (forall i :: 0 <= i < |addrs| ==> addrs[i] + |columns[i]| == if i + 1 < |addrs| then addrs[i + 1] else upTo)
  }

  lemma AddFitting(addrs: seq<word>, columns: seq<seq<byte>>, upTo: word, column: seq<byte>)
    requires Fitting(addrs, columns, upTo)
    ensures Fitting(addrs + [upTo], columns + [column], upTo + |column|)
  {
    var addrs', columns' := addrs + [upTo], columns + [column];
    forall i | 0 <= i < |addrs'|
      ensures addrs'[i] + |columns'[i]| == if i + 1 < |addrs'| then addrs'[i + 1] else upTo + |column|
    {
      if i < |addrs| {
        assert addrs'[i] == addrs[i] && columns'[i] == columns[i];
        assert addrs[i] + |columns[i]| == if i + 1 < |addrs| then addrs[i + 1] else upTo;
        assert i + 1 < |addrs| ==> addrs'[i + 1] == addrs[i + 1];
      }
    }
  }

  lemma {:induction false} AddColumn(addrs: seq<word>, columns: seq<seq<byte>>, mem: seq<byte>, upTo: word, next: int)
    requires |mem| == MEMORY_SIZE && upTo < next <= MEMORY_SIZE
    requires Columned(addrs, columns, mem, upTo)
    ensures Columned(addrs + [upTo], columns + [mem[upTo..next]], mem, next)
  {
    var column := mem[upTo..next];
    AddFitting(addrs, columns, upTo, column);
    assert (columns + [column])[..|columns|] == columns;
    assert mem[..upTo] + column == mem[..next];
  }

  lemma AddMapped(addrs: seq<word>, lineOf: map<word, int>, upTo: word)
    requires Mapped(addrs, lineOf) && Ordered(addrs, upTo)
    ensures Mapped(addrs + [upTo], lineOf[upTo := |addrs| + 1])
  {
    assert upTo !in lineOf;
  }

  lemma AddOrdered(addrs: seq<word>, upTo: word, next: int)
    requires Ordered(addrs, upTo) && upTo < next
    ensures Ordered(addrs + [upTo], next)
  {
  }

  lemma {:induction false} AddDecoded(decode: word -> int, addrs: seq<word>, lineOf: map<word, int>,
                                      columns: seq<seq<byte>>, mem: seq<byte>, addr: word)
    requires |mem| == MEMORY_SIZE && Covers(addrs, lineOf, columns, mem, addr)
    ensures Covers(addrs + [addr], lineOf[addr := |addrs| + 1], columns + [BytesAt(decode, mem, addr)], mem,
                   Min(addr + Len(decode, addr), MEMORY_SIZE))
  {
    var next := Min(addr + Len(decode, addr), MEMORY_SIZE);
    AddColumn(addrs, columns, mem, addr, next);
    AddOrdered(addrs, addr, next);
    AddMapped(addrs, lineOf, addr);
  }

  lemma AddConsecutive(decode: word -> int, addrs: seq<word>, addr: word)
    requires Consecutive(decode, addrs, addr)
    ensures Consecutive(decode, addrs + [addr], addr + Len(decode, addr))
  {
  }

  lemma BetweenLines(addrs: seq<word>, upTo: int, a: word)
    requires Ordered(addrs, upTo)
    ensures forall i :: 0 <= i < |addrs| && addrs[i] < a && (i + 1 < |addrs| ==> a < addrs[i + 1]) ==> a !in addrs
  {
    forall i | 0 <= i < |addrs| && addrs[i] < a && (i + 1 < |addrs| ==> a < addrs[i + 1]) ensures a !in addrs {
      forall j | 0 <= j < |addrs| ensures addrs[j] != a {
        assert j <= i ==> addrs[j] <= addrs[i];
        assert i + 1 < |addrs| && j > i ==> addrs[i + 1] <= addrs[j];
      }
    }
  }

  /** Line to address to line: the address of a valid line is mapped back to that line, and the address
      of a mapped line is the one asked for, whatever the memory decodes to. */
  lemma LinesAndAddressesAreInverse(addrs: seq<word>, lineOf: map<word, int>, columns: seq<seq<byte>>, mem: seq<byte>, n: int, a: word)
    requires |mem| == MEMORY_SIZE && Covers(addrs, lineOf, columns, mem, MEMORY_SIZE)
    ensures Concat(columns) == mem
    ensures 1 <= n <= |addrs| ==>
      (addrs[n - 1] in lineOf && lineOf[addrs[n - 1]] == n && (addrs[n - 1] == a <==> a in lineOf && lineOf[a] == n))
    ensures a in lineOf <==> exists i :: 0 <= i < |addrs| && addrs[i] == a
    ensures 0 in lineOf && lineOf[0] == 1
  {
    assert mem[..MEMORY_SIZE] == mem;
    assert addrs[0] == 0;
  }
}
