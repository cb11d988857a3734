/** The `readMemory` request: address arithmetic and the Base64 of RFC 4648, section 4. */
module ReadMemory {
  import opened Text
  import opened Z80

  /** `uint32_t(reference) + offset`, the offset converted to unsigned, cut to 16 bits. */
  function StartAddress(reference: word, offset: int): word {
    (reference + offset % UINT32) % UINT32 % 0x10000
  }

  lemma Residue(x: int, m: int)
    ensures (x - UINT32 * m) % 0x10000 == x % 0x10000
  {
    var y := x - UINT32 * m;
    assert y % 0x10000 == y - 0x10000 * (y / 0x10000);
    assert x % 0x10000 == x - 0x10000 * (x / 0x10000);
  }

  lemma StartWraps(reference: word, offset: int)
    ensures StartAddress(reference, offset) == Word(reference + offset)
  {
    var low := offset % UINT32;
    assert low == offset - UINT32 * (offset / UINT32);
    Residue(reference + low, (reference + low) / UINT32);
    Residue(reference + offset, offset / UINT32);
  }

  /** How many bytes there are to read: never past the end of memory. */
  function Clipped(start: word, count: int): nat {
    if count < 0 then 0 else if count < MEMORY_SIZE - start then count else MEMORY_SIZE - start
  }

  /** `read_memory`. */
  function Slice(mem: seq<byte>, start: word, count: int): (bytes: seq<byte>)
    requires |mem| == MEMORY_SIZE
    ensures |bytes| == Clipped(start, count)
  {
    var wanted := if count < 0 then 0 else count;
    var available := MEMORY_SIZE - start;
    mem[start..start + if wanted < available then wanted else available]
  }

  // ---- Base64 ---------------------------------------------------------------------

  /** The alphabet: A-Z, a-z, 0-9, + and /. */
  function Digit(d: int): (c: char)
    requires 0 <= d < 64
  {
    if d < 26 then ('A' as int + d) as char
    else if d < 52 then ('a' as int + (d - 26)) as char
    else if d < 62 then ('0' as int + (d - 52)) as char
    else if d == 62 then '+' else '/'
  }

  /** Position of a character in the alphabet, or 64. */
  function Sextet(c: char): (v: int)
    ensures 0 <= v <= 64
    ensures v < 64 ==> Digit(v) == c
  {
    if 'A' <= c <= 'Z' then c as int - 'A' as int
    else if 'a' <= c <= 'z' then 26 + (c as int - 'a' as int)
    else if '0' <= c <= '9' then 52 + (c as int - '0' as int)
    else if c == '+' then 62
    else if c == '/' then 63
    else 64
  }

  lemma SextetOfDigit(d: int)
    requires 0 <= d < 64
    ensures Sextet(Digit(d)) == d
  {
  }

  /** The 24-bit group of up to three bytes. */
  function Group(a: byte, b: byte, c: byte): nat {
    a * 0x10000 + b * 0x100 + c
  }

  /** `n >> 6 * k`. */
  function Shift(n: nat, k: nat): nat {
    if k == 0 then n else Shift(n, k - 1) / 64
  }

  function Letter(n: nat, k: nat): char {
    Digit(Shift(n, k) % 64)
  }

  /** What the loop appends for the group at the front of `data`. */
  function EncodeGroup(data: seq<byte>): string
    requires data != []
  {
    var n := Group(data[0], if |data| > 1 then data[1] else 0, if |data| > 2 then data[2] else 0);
    [Letter(n, 3), Letter(n, 2),
     if |data| > 1 then Letter(n, 1) else '=',
     if |data| > 2 then Letter(n, 0) else '=']
  }

  function Encode(data: seq<byte>): string {
    if data == [] then ""
    else if |data| <= 3 then EncodeGroup(data)
    else EncodeGroup(data) + Encode(data[3..])
  }

  lemma EncodeNext(encoded: string, data: seq<byte>, i: nat)
    requires i < |data|
    ensures i + 3 <= |data| ==>
      encoded + Encode(data[i..]) == (encoded + EncodeGroup(data[i..])) + Encode(data[i + 3..])
    ensures i + 3 > |data| ==> encoded + Encode(data[i..]) == encoded + EncodeGroup(data[i..])
  {
    var rest := data[i..];
    if i + 3 <= |data| {
      assert data[i + 3..] == rest[3..];
      if |rest| == 3 {
        assert rest[3..] == [];
        assert EncodeGroup(rest) + "" == EncodeGroup(rest);
      }
      Assoc(encoded, EncodeGroup(rest), Encode(rest[3..]));
    }
  }

  /** The same group in terms of the loop's index. */
  function GroupAt(data: seq<byte>, i: nat): nat
    requires i < |data|
  {
    Group(data[i], if i + 1 < |data| then data[i + 1] else 0, if i + 2 < |data| then data[i + 2] else 0)
  }

  lemma GroupOfRest(data: seq<byte>, i: nat)
    requires i < |data|
    ensures var n := GroupAt(data, i);
      EncodeGroup(data[i..]) == [Letter(n, 3), Letter(n, 2),
                                 if i + 1 < |data| then Letter(n, 1) else '=',
                                 if i + 2 < |data| then Letter(n, 0) else '=']
  {
    var rest := data[i..];
    assert rest[0] == data[i];
    assert |rest| > 1 ==> rest[1] == data[i + 1];
    assert |rest| > 2 ==> rest[2] == data[i + 2];
  }

  method EncodeLoop(data: seq<byte>) returns (encoded: string)
    ensures encoded == Encode(data)
  {
    encoded := "";
    var i := 0;
    ghost var all := Encode(data);
    assert data[0..] == data && "" + all == all;
    while i < |data|
      invariant 0 <= i
      invariant all == if i <= |data| then encoded + Encode(data[i..]) else encoded
    {
      EncodeNext(encoded, data, i);
      GroupOfRest(data, i);
      var n := (data[i] as int) * 0x10000;
      if i + 1 < |data| {
        n := n + (data[i + 1] as int) * 0x100;
      }
      if i + 2 < |data| {
        n := n + (data[i + 2] as int);
      }
      assert n == GroupAt(data, i);
      encoded := encoded + [Letter(n, 3), Letter(n, 2),
                            if i + 1 < |data| then Letter(n, 1) else '=',
                            if i + 2 < |data| then Letter(n, 0) else '='];
      i := i + 3;
    }
    assert i == |data| ==> encoded + Encode(data[i..]) == encoded;
  }

  // ---- the decoder of the RFC, written independently ----------------------------------

  function Bits(s: string): int
    requires |s| == 4
  {
    Sextet(s[0]) * 0x40000 + Sextet(s[1]) * 0x1000 + Sextet(s[2]) * 0x40 + Sextet(s[3])
  }

  predicate InAlphabet(c: char) { Sextet(c) < 64 }

  /** Groups of four characters; only the last may be padded, and then its unused bits must be zero. */
  function Decode(s: string): Option<seq<byte>> {
    if s == "" then Some([])
    else if |s| < 4 || !InAlphabet(s[0]) || !InAlphabet(s[1]) then None
    else if InAlphabet(s[2]) && InAlphabet(s[3]) then
      var v := Bits(s[..4]);
      var rest := Decode(s[4..]);
      if rest.None? then None else Some([v / 0x10000, v / 0x100 % 0x100, v % 0x100] + rest.value)
    else if |s| == 4 && InAlphabet(s[2]) && s[3] == '=' then
      var v := Bits([s[0], s[1], s[2], 'A']);
      if v % 0x100 == 0 then Some([v / 0x10000, v / 0x100 % 0x100]) else None
    else if |s| == 4 && s[2] == '=' && s[3] == '=' then
      var v := Bits([s[0], s[1], 'A', 'A']);
      if v % 0x10000 == 0 then Some([v / 0x10000]) else None
    else None
  }

  lemma Divide(n: nat)
    ensures n == 64 * (n / 64) + n % 64 && 0 <= n % 64 < 64
  {
  }

  lemma Quotient(q: nat, r: nat)
    requires r < 64
    ensures (64 * q + r) / 64 == q && (64 * q + r) % 64 == r
  {
  }

  lemma LetterSextet(n: nat, k: nat)
    ensures Sextet(Letter(n, k)) == Shift(n, k) % 64 && InAlphabet(Letter(n, k))
  {
    SextetOfDigit(Shift(n, k) % 64);
  }

  lemma Shifts(n: nat)
    requires n < 0x1000000
    ensures Shift(n, 3) < 64
    ensures n == Shift(n, 3) * 0x40000 + Shift(n, 2) % 64 * 0x1000 + Shift(n, 1) % 64 * 0x40 + Shift(n, 0) % 64
  {
    var q1 := n / 64;
    var q2 := q1 / 64;
    assert Shift(n, 1) == q1;
    assert Shift(n, 2) == q2;
    Divide(n);
    Divide(q1);
    Divide(q2);
  }

  /** The four sextets of a group, most significant first. */
  lemma {:induction false} LettersAreBits(n: nat)
    requires n < 0x1000000
    ensures InAlphabet(Letter(n, 3)) && InAlphabet(Letter(n, 2)) && InAlphabet(Letter(n, 1)) && InAlphabet(Letter(n, 0))
    ensures Bits([Letter(n, 3), Letter(n, 2), Letter(n, 1), Letter(n, 0)]) == n
  {
    LetterSextet(n, 3);
    LetterSextet(n, 2);
    LetterSextet(n, 1);
    LetterSextet(n, 0);
    Shifts(n);
  }

  lemma ZeroLetters(n: nat)
    ensures n % 0x40 == 0 ==> Letter(n, 0) == 'A'
    ensures n / 64 % 0x40 == 0 ==> Letter(n, 1) == 'A'
  {
    assert Shift(n, 1) == Shift(n, 0) / 64;
  }

  lemma {:induction false} BitsAreLetters(s: string)
    requires |s| == 4 && forall i :: 0 <= i < 4 ==> InAlphabet(s[i])
    ensures var n := Bits(s);
      0 <= n < 0x1000000 && Letter(n, 3) == s[0] && Letter(n, 2) == s[1] && Letter(n, 1) == s[2] && Letter(n, 0) == s[3]
  {
    var a, b, c, d := Sextet(s[0]), Sextet(s[1]), Sextet(s[2]), Sextet(s[3]);
    var n := Bits(s);
    Quotient((a * 64 + b) * 64 + c, d);
    Quotient(a * 64 + b, c);
    Quotient(a, b);
    assert Shift(n, 0) == n && Shift(n, 1) == (a * 64 + b) * 64 + c;
    assert Shift(n, 2) == a * 64 + b;
    assert Shift(n, 3) == a;
  }

  lemma GroupBytes(a: byte, b: byte, c: byte)
    ensures var n := Group(a, b, c);
      n < 0x1000000 && n / 0x10000 == a && n / 0x100 % 0x100 == b && n % 0x100 == c
  {
    var n := Group(a, b, c);
    assert n / 0x100 == a * 0x100 + b;
  }

  lemma BytesGroup(n: nat)
    requires n < 0x1000000
    ensures n / 0x10000 < 0x100 && n / 0x100 % 0x100 < 0x100
    ensures Group(n / 0x10000, n / 0x100 % 0x100, n % 0x100) == n
  {
    assert n / 0x10000 == n / 0x100 / 0x100;
  }

  lemma DecodeGroup(s: string, rest: string)
    requires |s| == 4 && forall i :: 0 <= i < 4 ==> InAlphabet(s[i])
    ensures var v := Bits(s);
      Decode(s + rest) == if Decode(rest).None? then None
                          else Some([v / 0x10000, v / 0x100 % 0x100, v % 0x100] + Decode(rest).value)
  {
    assert (s + rest)[..4] == s && (s + rest)[4..] == rest;
  }

  function Quad(n: nat): string { [Letter(n, 3), Letter(n, 2), Letter(n, 1), Letter(n, 0)] }

  lemma EncodeThree(a: byte, b: byte, c: byte, rest: seq<byte>)
    ensures Encode([a, b, c] + rest) == Quad(Group(a, b, c)) + Encode(rest)
  {
    var data := [a, b, c] + rest;
    assert EncodeGroup(data) == Quad(Group(a, b, c));
    if rest == [] {
      assert EncodeGroup(data) + "" == EncodeGroup(data);
    } else {
      assert data[3..] == rest;
    }
  }

  lemma DecodeThree(a: byte, b: byte, c: byte, text: string)
    requires Decode(text).Some?
    ensures Decode(Quad(Group(a, b, c)) + text) == Some([a, b, c] + Decode(text).value)
  {
    GroupBytes(a, b, c);
    LettersAreBits(Group(a, b, c));
    DecodeGroup(Quad(Group(a, b, c)), text);
  }

  lemma {:induction false} DecodeEncode(data: seq<byte>)
    ensures Decode(Encode(data)) == Some(data)
    decreases |data|
  {
    if |data| >= 3 {
      var rest := data[3..];
      assert [data[0], data[1], data[2]] + rest == data;
      DecodeEncode(rest);
      EncodeThree(data[0], data[1], data[2], rest);
      DecodeThree(data[0], data[1], data[2], Encode(rest));
    } else if |data| == 2 {
      DecodeTwo(data[0], data[1]);
      assert data == [data[0], data[1]];
    } else if |data| == 1 {
      DecodeOne(data[0]);
      assert data == [data[0]];
    }
  }

  lemma DecodeOnePad(x: char, y: char, z: char)
    requires InAlphabet(x) && InAlphabet(y) && InAlphabet(z)
    ensures var v := Bits([x, y, z, 'A']);
      v % 0x100 == 0 ==> Decode([x, y, z, '=']) == Some([v / 0x10000, v / 0x100 % 0x100])
  {
  }

  lemma DecodeTwoPads(x: char, y: char)
    requires InAlphabet(x) && InAlphabet(y)
    ensures var v := Bits([x, y, 'A', 'A']);
      v % 0x10000 == 0 ==> Decode([x, y, '=', '=']) == Some([v / 0x10000])
  {
  }

  lemma {:induction false} DecodeTwo(a: byte, b: byte)
    ensures Decode(Encode([a, b])) == Some([a, b])
  {
    var n := Group(a, b, 0);
    GroupBytes(a, b, 0);
    LettersAreBits(n);
    Quotient(a * 0x400 + b * 4, 0);
    ZeroLetters(n);
    DecodeOnePad(Letter(n, 3), Letter(n, 2), Letter(n, 1));
  }

  lemma {:induction false} DecodeOne(a: byte)
    ensures Decode(Encode([a])) == Some([a])
  {
    var n := Group(a, 0, 0);
    GroupBytes(a, 0, 0);
    LettersAreBits(n);
    Quotient(a * 0x400, 0);
    Quotient(a * 0x10, 0);
    assert n == 0x10000 * a && n / 64 == 0x400 * a;
    ZeroLetters(n);
    DecodeTwoPads(Letter(n, 3), Letter(n, 2));
  }

  lemma {:induction false} EncodeLength(data: seq<byte>)
    ensures |Encode(data)| == 4 * ((|data| + 2) / 3)
    decreases |data|
  {
    if |data| > 3 {
      EncodeLength(data[3..]);
      ThirdsNext(|data| - 3);
    }
  }

  lemma ThirdsNext(n: nat)
    ensures (n + 3 + 2) / 3 == (n + 2) / 3 + 1
  {
  }

  /** The whole handler: the decoded field is the memory from the wrapped start address, cut at the end of
      memory, for any signed offset and any count. */
  method ReadMemoryField(mem: seq<byte>, reference: word, offset: int, count: int) returns (data: string)
    requires |mem| == MEMORY_SIZE
    ensures var start := Word(reference + offset); var n := Clipped(start, count);
      Decode(data) == Some(mem[start..start + n]) && |data| == 4 * ((n + 2) / 3)
  {
    StartWraps(reference, offset);
    FieldOf(mem, Word(reference + offset), count);
    data := EncodeLoop(Slice(mem, StartAddress(reference, offset), count));
  }

  lemma {:induction false} FieldOf(mem: seq<byte>, start: word, count: int)
    requires |mem| == MEMORY_SIZE
    ensures var n := Clipped(start, count); var data := Encode(Slice(mem, start, count));
      Decode(data) == Some(mem[start..start + n]) && |data| == 4 * ((n + 2) / 3)
  {
    var bytes := Slice(mem, start, count);
    assert bytes == mem[start..start + Clipped(start, count)];
    DecodeEncode(bytes);
    EncodeLength(bytes);
  }

  // ---- and only that field -----------------------------------------------------------------

  lemma DecodeCases(s: string)
    requires s != "" && Decode(s).Some?
    ensures |s| >= 4 && InAlphabet(s[0]) && InAlphabet(s[1])
    ensures InAlphabet(s[2]) && InAlphabet(s[3]) ==> Decode(s[4..]).Some?
    ensures !(InAlphabet(s[2]) && InAlphabet(s[3])) ==> |s| == 4 && s[3] == '=' && (InAlphabet(s[2]) || s[2] == '=')
  {
  }

  lemma FullPrefix(s: string)
    requires |s| >= 4 && InAlphabet(s[0]) && InAlphabet(s[1]) && InAlphabet(s[2]) && InAlphabet(s[3])
    ensures forall i :: 0 <= i < 4 ==> InAlphabet(s[..4][i])
    ensures s[..4] + s[4..] == s
  {
  }

  /** The decoder accepts no other text for the same bytes, so decoding pins the field down. */
  lemma {:induction false} EncodeDecode(s: string)
    requires Decode(s).Some?
    ensures Encode(Decode(s).value) == s
    decreases |s|
  {
    if s != "" {
      DecodeCases(s);
      if InAlphabet(s[2]) && InAlphabet(s[3]) {
        var g, rest := s[..4], s[4..];
        FullPrefix(s);
        EncodeDecode(rest);
        FullGroup(g, rest);
      } else if s[2] != '=' {
        TwoByteGroup(s);
      } else {
        OneByteGroup(s);
      }
    }
  }

  lemma {:induction false} EncodeDecoded(a: byte, b: byte, c: byte, g: string, rest: string, decoded: seq<byte>)
    requires Quad(Group(a, b, c)) == g && Encode(decoded) == rest
    ensures Encode([a, b, c] + decoded) == g + rest
  {
    EncodeThree(a, b, c, decoded);
  }

  lemma {:induction false} FullGroup(g: string, rest: string)
    requires |g| == 4 && forall i :: 0 <= i < 4 ==> InAlphabet(g[i])
    requires Decode(rest).Some? && Encode(Decode(rest).value) == rest
    ensures Decode(g + rest).Some? && Encode(Decode(g + rest).value) == g + rest
  {
    var v := Bits(g);
    BitsAreLetters(g);
    BytesGroup(v);
    DecodeGroup(g, rest);
    assert Quad(v) == g;
    EncodeDecoded(v / 0x10000, v / 0x100 % 0x100, v % 0x100, g, rest, Decode(rest).value);
  }

  lemma {:induction false} TwoByteGroup(s: string)
    requires |s| == 4 && Decode(s).Some? && InAlphabet(s[2]) && s[3] == '='
    ensures Encode(Decode(s).value) == s
  {
    var t := [s[0], s[1], s[2], 'A'];
    BitsAreLetters(t);
    BytesGroup(Bits(t));
  }

  lemma {:induction false} OneByteGroup(s: string)
    requires |s| == 4 && Decode(s).Some? && s[2] == '=' && s[3] == '='
    ensures Encode(Decode(s).value) == s
  {
    var t := [s[0], s[1], 'A', 'A'];
    BitsAreLetters(t);
    BytesGroup(Bits(t));
  }
}
