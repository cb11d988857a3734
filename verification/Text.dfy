/** The pieces of the C++ string and number library that the parsers rest on. */
module Text {
  datatype Option<+T> = None | Some(value: T)

  const INT_MAX: int := 0x7FFF_FFFF
  const ULONG_MAX: int := 0xFFFF_FFFF_FFFF_FFFF

  lemma Assoc<T>(a: seq<T>, b: seq<T>, c: seq<T>)
    ensures a + (b + c) == (a + b) + c
  {
  }

  // ---- searching ----------------------------------------------------------

  /** Index of the first `c` at or after `from`, or `|s|` when there is none. */
  function Find(s: string, c: char, from: nat): (i: nat)
    requires from <= |s|
    ensures from <= i <= |s|
    ensures forall k :: from <= k < i ==> s[k] != c
    ensures i < |s| ==> s[i] == c
    decreases |s| - from
  {
    if from == |s| || s[from] == c then from else Find(s, c, from + 1)
  }

  /** One past the index of the last `c`, or 0 when there is none. */
  function AfterLast(s: string, c: char): (i: nat)
    ensures i <= |s|
    ensures i > 0 ==> s[i - 1] == c
    ensures forall k :: i <= k < |s| ==> s[k] != c
  {
    if s == "" then 0
    else if s[|s| - 1] == c then |s|
    else AfterLast(s[..|s| - 1], c)
  }

  predicate StartsWith(s: string, prefix: string) {
    |prefix| <= |s| && s[..|prefix|] == prefix
  }

  // ---- numerals -----------------------------------------------------------

  predicate IsSpace(c: char) {
    c == ' ' || 9 <= c as int <= 13
  }

  /** The digit a character stands for, or 99. */
  function DigitVal(c: char): nat {
    if '0' <= c <= '9' then c as int - '0' as int
    else if 'a' <= c <= 'f' then 10 + (c as int - 'a' as int)
    else if 'A' <= c <= 'F' then 10 + (c as int - 'A' as int)
    else 99
  }

  predicate IsDigit(c: char, base: nat) {
    DigitVal(c) < base
  }

  /** Length of the longest prefix made of white space. */
  function SpaceLen(s: string): (n: nat)
    ensures n <= |s|
  {
    if s == "" || !IsSpace(s[0]) then 0 else 1 + SpaceLen(s[1..])
  }

  /** Length of the longest prefix made of digits. */
  function DigitLen(s: string, base: nat): (n: nat)
    ensures n <= |s|
  {
    if s == "" || !IsDigit(s[0], base) then 0 else 1 + DigitLen(s[1..], base)
  }

  function NumeralVal(s: string, base: nat): nat {
    if s == "" then 0 else NumeralVal(s[..|s| - 1], base) * base + DigitVal(s[|s| - 1])
  }

  datatype Numeral = Numeral(negative: bool, magnitude: nat)

  /** What `strtol`/`strtoul` read: white space, a sign, `0x` in base 16, then digits up to the first
      character that is not one.  `None` is the exception `std::invalid_argument`. */
  function ReadNumeral(text: string, base: nat): Option<Numeral> {
    ReadSigned(text[SpaceLen(text)..], base)
  }

  function ReadSigned(s: string, base: nat): Option<Numeral> {
    if s != "" && (s[0] == '-' || s[0] == '+')
    then ReadDigits(s[1..], base, s[0] == '-')
    else ReadDigits(s, base, false)
  }

  function ReadDigits(s: string, base: nat, negative: bool): Option<Numeral> {
    var t := if base == 16 && |s| > 2 && s[0] == '0' && (s[1] == 'x' || s[1] == 'X') && IsDigit(s[2], 16)
             then s[2..] else s;
    var n := DigitLen(t, base);
    if n == 0 then None else Some(Numeral(negative, NumeralVal(t[..n], base)))
  }

  /** `std::stoi`; out of range is an exception too. */
  function Stoi(text: string): Option<int> {
    match ReadNumeral(text, 10)
    case None => None
    case Some(n) =>
      var v: int := if n.negative then 0 - n.magnitude else n.magnitude;
      if -INT_MAX - 1 <= v <= INT_MAX then Some(v) else None
  }

  /** `std::stoul(text, nullptr, 16)`: a minus sign negates modulo 2^64. */
  function StoulHex(text: string): Option<nat> {
    match ReadNumeral(text, 16)
    case None => None
    case Some(n) =>
      if n.magnitude > ULONG_MAX then None
      else Some(if n.negative && n.magnitude > 0 then ULONG_MAX + 1 - n.magnitude else n.magnitude)
  }

  function DigitChar(d: nat): (c: char)
    requires d < 16
    ensures DigitVal(c) == d && !IsSpace(c) && c != '-' && c != '+' && c != 'x' && c != 'X' && c != ':'
    ensures d < 10 ==> IsDigit(c, 10)
  {
    "0123456789ABCDEF"[d]
  }

  /** A number as a stream or `std::to_string` prints it. */
  function Decimal(n: nat): (s: string)
    ensures s != "" && forall c :: c in s ==> IsDigit(c, 10)
  {
    if n < 10 then [DigitChar(n)] else Decimal(n / 10) + [DigitChar(n % 10)]
  }

  function DecimalInt(n: int): string {
    if n < 0 then "-" + Decimal(-n) else Decimal(n)
  }

  lemma {:induction false} DecimalVal(n: nat)
    ensures NumeralVal(Decimal(n), 10) == n
  {
    var s := Decimal(n);
    if n < 10 {
      assert s[..|s| - 1] == "";
    } else {
      assert s[..|s| - 1] == Decimal(n / 10);
      DecimalVal(n / 10);
    }
  }

  lemma {:induction false} DigitLenAll(s: string, rest: string, base: nat)
    requires forall c :: c in s ==> IsDigit(c, base)
    requires rest != "" ==> !IsDigit(rest[0], base)
    ensures DigitLen(s + rest, base) == |s|
  {
    if s == "" {
      assert s + rest == rest;
    } else {
      assert (s + rest)[1..] == s[1..] + rest;
      DigitLenAll(s[1..], rest, base);
    }
  }

  lemma SpaceLenOne(space: string, rest: string)
    requires space == "" || space == " "
    requires rest != "" && !IsSpace(rest[0])
    ensures SpaceLen(space + rest) == |space|
    ensures (space + rest)[|space|..] == rest
  {
    if space == "" {
      assert space + rest == rest;
    } else {
      assert (space + rest)[1..] == rest;
    }
  }

  lemma DigitsReadBack(d: string)
    requires d != "" && forall c :: c in d ==> IsDigit(c, 10)
    ensures ReadSigned(d, 10) == Some(Numeral(false, NumeralVal(d, 10)))
  {
    DigitLenAll(d, "", 10);
    assert d + "" == d;
    assert d[..|d|] == d;
    assert d[0] in d;
  }

  lemma ReadDecimal(n: nat, space: string)
    requires space == "" || space == " "
    ensures ReadNumeral(space + Decimal(n), 10) == Some(Numeral(false, n))
  {
    var d := Decimal(n);
    assert d[0] in d;
    SpaceLenOne(space, d);
    DigitsReadBack(d);
    DecimalVal(n);
  }

  /** Printing and reading back is the identity, with or without a leading space. */
  lemma StoiDecimal(n: nat, space: string)
    requires n <= INT_MAX
    requires space == "" || space == " "
    ensures Stoi(space + Decimal(n)) == Some(n)
  {
    ReadDecimal(n, space);
  }

  lemma DecimalSign(n: int)
    ensures DecimalInt(n) != "" && (DecimalInt(n)[0] == '-' <==> n < 0)
    ensures n < 0 ==> DecimalInt(n)[1..] == Decimal(-n)
  {
    if n >= 0 {
      assert Decimal(n)[0] in Decimal(n);
    }
  }

  lemma DecimalInjective(m: int, n: int)
    requires DecimalInt(m) == DecimalInt(n)
    ensures m == n
  {
    DecimalSign(m);
    DecimalSign(n);
    DecimalVal(if m < 0 then -m else m);
    DecimalVal(if n < 0 then -n else n);
  }

  lemma {:induction false} ReadMinus(d: string)
    requires d != "" && forall c :: c in d ==> IsDigit(c, 10)
    ensures ReadNumeral("-" + d, 10) == Some(Numeral(true, NumeralVal(d, 10)))
  {
    var s := "-" + d;
    DigitLenAll(d, "", 10);
    assert d + "" == d && d[..|d|] == d && s[0..] == s && s[1..] == d;
    assert d[0] in d;
    assert SpaceLen(s) == 0;
  }

  lemma {:induction false} StoiOf(text: string, n: Numeral)
    requires ReadNumeral(text, 10) == Some(n)
    ensures var v: int := if n.negative then 0 - n.magnitude else n.magnitude;
      Stoi(text) == if -0x8000_0000 <= v <= 0x7FFF_FFFF then Some(v) else None
  {
  }

  lemma {:induction false} ReadMinusDecimal(n: nat)
    ensures ReadNumeral("-" + Decimal(n), 10) == Some(Numeral(true, n))
  {
    ReadMinus(Decimal(n));
    DecimalVal(n);
  }

  lemma {:induction false} ReadPlainDecimal(n: nat)
    ensures ReadNumeral(Decimal(n), 10) == Some(Numeral(false, n))
  {
    ReadDecimal(n, "");
    assert "" + Decimal(n) == Decimal(n);
  }

  lemma {:induction false} StoiMinus(n: nat)
    ensures Stoi("-" + Decimal(n)) == if n <= 0x8000_0000 then Some(0 - n as int) else None
  {
    ReadMinusDecimal(n);
    StoiOf("-" + Decimal(n), Numeral(true, n));
  }

  lemma {:induction false} StoiPlain(n: nat)
    ensures Stoi(Decimal(n)) == if n <= 0x7FFF_FFFF then Some(n) else None
  {
    ReadPlainDecimal(n);
    StoiOf(Decimal(n), Numeral(false, n));
  }

  /** Any number printed with its sign is read back if and only if it is an `int`. */
  lemma {:induction false} StoiDecimalInt(n: int)
    ensures Stoi(DecimalInt(n)) == if -0x8000_0000 <= n <= 0x7FFF_FFFF then Some(n) else None
  {
    if n < 0 {
      StoiMinus(-n);
    } else {
      StoiPlain(n);
    }
  }

  /** Two printed hexadecimal digits read back as the byte they stand for. */
  lemma {:induction false} StoulHexPair(hi: nat, lo: nat)
    requires hi < 16 && lo < 16
    ensures StoulHex([DigitChar(hi), DigitChar(lo)]) == Some(16 * hi + lo)
  {
    var s := [DigitChar(hi), DigitChar(lo)];
    assert SpaceLen(s) == 0 && s[0..] == s;
    DigitLenAll(s, "", 16);
    assert s + "" == s && s[..2] == s;
    assert s[..1] == [DigitChar(hi)];
    assert s[..1][..0] == "";
    assert NumeralVal(s[..1], 16) == hi;
  }
}
