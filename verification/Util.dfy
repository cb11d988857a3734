/** Tokens and white space for the SDCC file parsers. */
module Util {
  import opened Text

  function Join(parts: seq<string>, delim: char): string
    requires parts != []
  {
    if |parts| == 1 then parts[0] else parts[0] + [delim] + Join(parts[1..], delim)
  }

  ghost predicate Free(parts: seq<string>, delim: char) {
    forall p :: p in parts ==> delim !in p
  }

  /** The tokens between delimiters, empty ones included. */
  function Split(s: string, delim: char): (parts: seq<string>)
    ensures parts != []
  {
    var end := Find(s, delim, 0);
    if end == |s| then [s] else [s[..end]] + Split(s[end + 1..], delim)
  }

  /** The loop of the library, with `start` running one past the end to finish. */
  method SplitLoop(s: string, delim: char) returns (parts: seq<string>)
    ensures parts == Split(s, delim)
  {
    ghost var all := Split(s, delim);
    parts := [];
    var start := 0;
    assert s[0..] == s && [] + all == all;
    while start <= |s|
      invariant all == if start <= |s| then parts + Split(s[start..], delim) else parts
      decreases |s| + 1 - start
    {
      var end := Find(s, delim, start);
      ghost var rest := if end < |s| then Split(s[end + 1..], delim) else [];
      SplitAt(s, delim, start, end);
      Assoc(parts, [s[start..end]], rest);
      parts := parts + [s[start..end]];
      start := end + 1;
    }
  }

  lemma {:induction false} SplitAt(s: string, delim: char, start: nat, end: nat)
    requires start <= end <= |s| && end == Find(s, delim, start)
    ensures Split(s[start..], delim)
      == [s[start..end]] + if end < |s| then Split(s[end + 1..], delim) else []
  {
    var rest := s[start..];
    FindFrom(s, delim, start);
    if end < |s| {
      assert rest[..end - start] == s[start..end];
      assert rest[end - start + 1..] == s[end + 1..];
    } else {
      assert rest == s[start..end];
    }
  }

  lemma FindFrom(s: string, delim: char, start: nat)
    requires start <= |s|
    ensures Find(s[start..], delim, 0) == Find(s, delim, start) - start
  {
    var rest := s[start..];
    var i, j := Find(rest, delim, 0), Find(s, delim, start);
    assert forall k :: 0 <= k < |rest| ==> rest[k] == s[start + k];
  }

  /** Splitting loses nothing and leaves no delimiter in a token. */
  lemma {:induction false} SplitJoin(s: string, delim: char)
    ensures Join(Split(s, delim), delim) == s
    ensures Free(Split(s, delim), delim)
    decreases |s|
  {
    var end := Find(s, delim, 0);
    if end < |s| {
      var rest := Split(s[end + 1..], delim);
      SplitJoin(s[end + 1..], delim);
      assert ([s[..end]] + rest)[1..] == rest;
      assert s[..end] + [delim] + s[end + 1..] == s;
    }
  }

  lemma TokenEnds(p: string, rest: string, delim: char)
    requires delim !in p
    ensures Find(p, delim, 0) == |p|
    ensures Find(p + [delim] + rest, delim, 0) == |p|
  {
    var s := p + [delim] + rest;
    assert forall k :: 0 <= k < |p| ==> s[k] == p[k];
    assert s[|p|] == delim;
  }

  /** It is the only way to cut the text at its delimiters. */
  lemma {:induction false} SplitUnique(parts: seq<string>, delim: char)
    requires parts != [] && Free(parts, delim)
    ensures Split(Join(parts, delim), delim) == parts
    decreases |parts|
  {
    assert parts[0] in parts;
    if |parts| == 1 {
      TokenEnds(parts[0], "", delim);
    } else {
      var rest := Join(parts[1..], delim);
      TokenEnds(parts[0], rest, delim);
      SplitUnique(parts[1..], delim);
      var s := parts[0] + [delim] + rest;
      assert s[..|parts[0]|] == parts[0] && s[|parts[0]| + 1..] == rest;
    }
  }

  /** One token more than there are delimiters. */
  lemma {:induction false} SplitCount(s: string, delim: char)
    ensures |Split(s, delim)| == multiset(s)[delim] + 1
    decreases |s|
  {
    var end := Find(s, delim, 0);
    if end < |s| {
      SplitCount(s[end + 1..], delim);
      assert s == s[..end] + [delim] + s[end + 1..];
      assert delim !in multiset(s[..end]);
    } else {
      assert delim !in multiset(s);
    }
  }

  // ---- trimming -------------------------------------------------------------

  predicate IsBlank(c: char) { c == ' ' || c == '\t' || c == '\r' || c == '\n' }

  ghost predicate AllBlank(s: string) { forall c :: c in s ==> IsBlank(c) }

  function FirstNotBlank(s: string): (i: nat)
    ensures i <= |s| && (forall k :: 0 <= k < i ==> IsBlank(s[k])) && (i < |s| ==> !IsBlank(s[i]))
  {
    if s == "" || !IsBlank(s[0]) then 0 else 1 + FirstNotBlank(s[1..])
  }

  /** One past the last character that is not blank. */
  function AfterLastNotBlank(s: string): (i: nat)
    ensures i <= |s| && (forall k :: i <= k < |s| ==> IsBlank(s[k])) && (i > 0 ==> !IsBlank(s[i - 1]))
  {
    if s == "" || !IsBlank(s[|s| - 1]) then |s| else AfterLastNotBlank(s[..|s| - 1])
  }

  function Trim(s: string): string {
    var first := FirstNotBlank(s);
    if first == |s| then "" else s[first..AfterLastNotBlank(s)]
  }

  /** What is cut off is blank, and what is left neither begins nor ends with a blank: the two together
      determine the result. */
  lemma {:induction false} TrimIsTheCore(s: string, before: string, core: string, after: string)
    requires s == before + core + after && AllBlank(before) && AllBlank(after)
    requires core != "" ==> !IsBlank(core[0]) && !IsBlank(core[|core| - 1])
    ensures Trim(s) == core
  {
    var first, last := FirstNotBlank(s), AfterLastNotBlank(s);
    assert forall k :: 0 <= k < |before| ==> s[k] == before[k];
    assert forall k :: 0 <= k < |core| ==> s[|before| + k] == core[k];
    assert forall k :: 0 <= k < |after| ==> s[|before| + |core| + k] == after[k];
    if core == "" {
      assert forall k :: 0 <= k < |s| ==> IsBlank(s[k]);
    } else {
      assert !IsBlank(s[|before|]) && !IsBlank(s[|before| + |core| - 1]);
      assert first == |before| && last == |before| + |core|;
    }
  }

  lemma {:induction false} TrimCuts(s: string)
    ensures exists before, after :: s == before + Trim(s) + after && AllBlank(before) && AllBlank(after)
    ensures Trim(s) != "" ==> !IsBlank(Trim(s)[0]) && !IsBlank(Trim(s)[|Trim(s)| - 1])
  {
    var first := FirstNotBlank(s);
    if first == |s| {
      assert s == s + Trim(s) + "" && AllBlank(s) && AllBlank("");
    } else {
      var last := AfterLastNotBlank(s);
      assert s == s[..first] + Trim(s) + s[last..] && AllBlank(s[..first]) && AllBlank(s[last..]);
    }
  }
}
