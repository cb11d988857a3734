/** Hexadecimal digits are read in either case: the loader does not tell upper-case files from lower-case ones. */
module HexCase {
  import opened Text
  import opened Z80
  import opened IntelHex

  function LowerHex(c: char): char {
    if 'A' <= c <= 'F' then (c as int + 32) as char else c
  }

  /** The same text apart from the case of the letters A to F. */
  ghost predicate SameHex(s: string, t: string) {
    |s| == |t| && forall i :: 0 <= i < |s| ==> LowerHex(s[i]) == LowerHex(t[i])
  }

  lemma DigitSame(c: char, d: char)
    requires LowerHex(c) == LowerHex(d)
    ensures DigitVal(c) == DigitVal(d) && IsSpace(c) == IsSpace(d)
    ensures c in {'-', '+', '0', 'x', 'X', ':'} || d in {'-', '+', '0', 'x', 'X', ':'} ==> c == d
  {
  }

  lemma SameSlice(s: string, t: string, i: nat, j: nat)
    requires SameHex(s, t) && i <= j <= |s|
    ensures SameHex(s[i..j], t[i..j])
  {
  }

  lemma {:induction false} SpaceSame(s: string, t: string)
    requires SameHex(s, t)
    ensures SpaceLen(s) == SpaceLen(t)
    decreases |s|
  {
    if s != "" {
      DigitSame(s[0], t[0]);
      SameSlice(s, t, 1, |s|);
      assert s[1..|s|] == s[1..] && t[1..|t|] == t[1..];
      SpaceSame(s[1..], t[1..]);
    }
  }

  lemma {:induction false} DigitsSame(s: string, t: string)
    requires SameHex(s, t)
    ensures DigitLen(s, 16) == DigitLen(t, 16)
    decreases |s|
  {
    if s != "" {
      DigitSame(s[0], t[0]);
      SameSlice(s, t, 1, |s|);
      assert s[1..|s|] == s[1..] && t[1..|t|] == t[1..];
      DigitsSame(s[1..], t[1..]);
    }
  }

  lemma {:induction false} ValueSame(s: string, t: string)
    requires SameHex(s, t)
    ensures NumeralVal(s, 16) == NumeralVal(t, 16)
    decreases |s|
  {
    if s != "" {
      DigitSame(s[|s| - 1], t[|t| - 1]);
      SameSlice(s, t, 0, |s| - 1);
      assert s[0..|s| - 1] == s[..|s| - 1] && t[0..|t| - 1] == t[..|t| - 1];
      ValueSame(s[..|s| - 1], t[..|t| - 1]);
    }
  }

  lemma {:induction false} NumberSame(s: string, t: string)
    requires SameHex(s, t)
    ensures (DigitLen(s, 16) == 0 <==> DigitLen(t, 16) == 0)
    ensures NumeralVal(s[..DigitLen(s, 16)], 16) == NumeralVal(t[..DigitLen(t, 16)], 16)
  {
    DigitsSame(s, t);
    var n := DigitLen(s, 16);
    SameSlice(s, t, 0, n);
    assert s[0..n] == s[..n] && t[0..n] == t[..n];
    ValueSame(s[..n], t[..n]);
  }

  lemma {:induction false} ReadDigitsSame(s: string, t: string, negative: bool)
    requires SameHex(s, t)
    ensures ReadDigits(s, 16, negative) == ReadDigits(t, 16, negative)
  {
    if |s| > 2 {
      DigitSame(s[0], t[0]);
      DigitSame(s[1], t[1]);
      DigitSame(s[2], t[2]);
      SameSlice(s, t, 2, |s|);
      assert s[2..|s|] == s[2..] && t[2..|t|] == t[2..];
      NumberSame(s[2..], t[2..]);
    }
    NumberSame(s, t);
  }

  lemma {:induction false} ReadSignedSame(s: string, t: string)
    requires SameHex(s, t)
    ensures ReadSigned(s, 16) == ReadSigned(t, 16)
  {
    if s != "" {
      DigitSame(s[0], t[0]);
      SameSlice(s, t, 1, |s|);
      assert s[1..|s|] == s[1..] && t[1..|t|] == t[1..];
      ReadDigitsSame(s[1..], t[1..], s[0] == '-');
    }
    ReadDigitsSame(s, t, false);
  }

  /** A number in base 16 is read the same in either case. */
  lemma {:induction false} StoulHexSame(s: string, t: string)
    requires SameHex(s, t)
    ensures StoulHex(s) == StoulHex(t)
  {
    SpaceSame(s, t);
    var n := SpaceLen(s);
    SameSlice(s, t, n, |s|);
    assert s[n..|s|] == s[n..] && t[n..|t|] == t[n..];
    ReadSignedSame(s[n..], t[n..]);
  }

  // ---- the loader -------------------------------------------------------------------

  /** Two readings of a line that agree everywhere. */
  ghost predicate Agree(f: nat -> Option<byte>, g: nat -> Option<byte>) {
    forall pos: nat :: f(pos) == g(pos)
  }

  lemma {:induction false} LinesAgree(s: string, t: string)
    requires SameHex(s, t)
    ensures Agree(Hex2(s), Hex2(t))
  {
    forall pos: nat ensures Hex2(s)(pos) == Hex2(t)(pos) {
      if pos + 2 <= |s| {
        SameSlice(s, t, pos, pos + 2);
        StoulHexSame(s[pos..pos + 2], t[pos..pos + 2]);
      }
    }
  }

  lemma {:induction false} HeaderSame(f: nat -> Option<byte>, g: nat -> Option<byte>)
    requires Agree(f, g)
    ensures ReadHeader(f) == ReadHeader(g)
  {
  }

  lemma {:induction false} AcceptedSame(s: string, t: string)
    requires SameHex(s, t) && ReadHeader(Hex2(s)) == ReadHeader(Hex2(t))
    ensures Accepted(s) == Accepted(t)
  {
    if s != "" {
      DigitSame(s[0], t[0]);
    }
  }

  lemma {:induction false} DataSame(f: nat -> Option<byte>, g: nat -> Option<byte>, count: byte, i: nat)
    requires Agree(f, g) && i <= count
    ensures DataFrom(f, count, i) == DataFrom(g, count, i)
    decreases count - i
  {
    if i < count {
      DataSame(f, g, count, i + 1);
    }
  }

  lemma {:induction false} RecordSame(s: Loaded, f: nat -> Option<byte>, g: nat -> Option<byte>, h: Header)
    requires Agree(f, g)
    ensures LoadRecord(s, f, h) == LoadRecord(s, g, h)
  {
    DataSame(f, g, h.count, 0);
  }

  /** Two files that differ only in the case of hexadecimal letters load the same. */
  lemma {:induction false} CaseDoesNotMatter(s: Loaded, a: seq<string>, b: seq<string>)
    requires |a| == |b| && forall i :: 0 <= i < |a| ==> SameHex(a[i], b[i])
    ensures LoadLines(s, a) == LoadLines(s, b)
    decreases |a|
  {
    if a != [] {
      LinesAgree(a[0], b[0]);
      HeaderSame(Hex2(a[0]), Hex2(b[0]));
      AcceptedSame(a[0], b[0]);
      if Accepted(a[0]).None? {
        CaseDoesNotMatter(s, a[1..], b[1..]);
      } else {
        var h := Accepted(a[0]).value;
        RecordSame(s, Hex2(a[0]), Hex2(b[0]), h);
        if h.kind != 1 {
          CaseDoesNotMatter(LoadRecord(s, Hex2(a[0]), h), a[1..], b[1..]);
        }
      }
    }
  }
}
