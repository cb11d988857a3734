/** Function, symbol, type and marker lines as they stand in a CDB file: what the parser makes of well-formed text. */
module CdbMembers {
  import opened Text
  import opened Z80
  import opened Util
  import opened SourceData
  import opened CdbParser
  import CdbText

  // ---- cutting text ----------------------------------------------------------------------

  /** `before`, the character, `after`. */
  function Around(before: string, c: char, after: string): string { before + ([c] + after) }

  lemma AroundFind(s: string, before: string, c: char, after: string, from: nat)
    requires s == Around(before, c, after) && from <= |before| && c !in before[from..]
    ensures Find(s, c, from) == |before| < |s|
    ensures s[from..|before|] == before[from..] && s[..|before|] == before && s[|before| + 1..] == after
  {
    assert s[|before|] == c;
    assert forall k :: from <= k < |before| ==> s[k] == before[from..][k - from];
  }

  lemma AroundLast(s: string, before: string, c: char, after: string)
    requires s == Around(before, c, after) && c !in after
    ensures AfterLast(s, c) == |before| + 1 && s[|before| + 1..] == after
  {
    assert s[|before|] == c;
    assert forall k :: |before| + 1 <= k < |s| ==> s[k] == after[k - |before| - 1];
  }

  /** Text that begins with a name between two dollars. */
  function Dollared(head: string, name: string, rest: string): string {
    Around(Around(head, '$', name), '$', rest)
  }

  lemma {:induction false} DollaredCuts(s: string, head: string, name: string, rest: string)
    requires s == Dollared(head, name, rest) && '$' !in head && '$' !in name
    ensures TwoDollars(s) == Dollars(head, name, |head| + 1 + |name|)
  {
    var first := Around(head, '$', name);
    Assoc(head, ['$'] + name, ['$'] + rest);
    Assoc(['$'], name, ['$'] + rest);
    assert s == Around(head, '$', name + (['$'] + rest));
    AroundFind(s, head, '$', name + (['$'] + rest), 0);
    assert first[|head| + 1..] == name;
    AroundFind(s, first, '$', rest, |head| + 1);
  }

  lemma AfterDotIs(name: string, prefix: string, suffix: string)
    requires '.' !in prefix
    ensures AfterDot(Around(prefix, '.', suffix)) == suffix
    ensures AfterDot(prefix) == prefix
  {
    AroundFind(Around(prefix, '.', suffix), prefix, '.', suffix, 0);
  }

  lemma {:induction false} FunctionRecord(content: string)
    ensures ReadRecord("F:" + content) == ReadFunction(content)
  {
    assert ("F:" + content)[2..] == content;
  }

  lemma {:induction false} SymbolRecord(content: string)
    ensures ReadRecord("S:" + content) == ReadSymbol(content)
  {
    assert ("S:" + content)[2..] == content;
  }

  lemma {:induction false} TypeRecord(content: string)
    ensures ReadRecord("T:" + content) == ReadType(content)
  {
    assert ("T:" + content)[2..] == content;
  }

  // ---- functions ----------------------------------------------------------------------------

  lemma {:induction false} FunctionParts(content: string, before: string, name: string, at: nat)
    requires TwoDollars(content) == Dollars(before, name, at) && content != "" && '.' !in name
    ensures ReadFunction(content) == Define(name, if content[0] == 'G' then "global" else "local")
  {
    AfterDotIs("", name, "");
  }

  lemma DollaredFirst(content: string, head: string, name: string, rest: string)
    requires content == Dollared(head, name, rest) && head != ""
    ensures content != "" && content[0] == head[0]
  {
  }

  /** A function line defines the name between its dollars, global if its scope begins with G. */
  lemma {:induction false} FunctionReads(content: string, scope: string, name: string, rest: string)
    requires content == Dollared(scope, name, rest) && scope != "" && '$' !in scope && '$' !in name && '.' !in name
    ensures ReadRecord("F:" + content) == Define(name, if scope[0] == 'G' then "global" else "local")
  {
    FunctionRecord(content);
    DollaredCuts(content, scope, name, rest);
    DollaredFirst(content, scope, name, rest);
    FunctionParts(content, scope, name, |scope| + 1 + |name|);
  }

  // ---- markers -------------------------------------------------------------------------------

  lemma {:induction false} MarkerParts(content: string, owner: string, name: string, at: nat, a: word, isEnd: bool)
    requires TwoDollars(content) == Dollars(owner, name, at)
    requires AfterLast(content, ':') > 0 && HexAddress(content[AfterLast(content, ':')..]) == Some(a)
    ensures ReadMarker(content, isEnd) == Mark(owner, name, a, isEnd)
  {
  }

  lemma {:induction false} MarkerContent(content: string, owner: string, name: string, rest: string, a: word, isEnd: bool)
    requires '$' !in owner && '$' !in name && content == Dollared(owner, name, rest + CdbText.AddressField(a))
    ensures ReadMarker(content, isEnd) == Mark(owner, name, a, isEnd)
  {
    DollaredCuts(content, owner, name, rest + CdbText.AddressField(a));
    MarkerAddress(content, Around(owner, '$', name), rest, a);
    MarkerParts(content, owner, name, |owner| + 1 + |name|, a, isEnd);
  }

  /** F and G begin a start marker, XF and XG an end marker; then the module, the function and, after the last
      colon, the address. */
  lemma {:induction false} MarkerReads(prefix: string, content: string, owner: string, name: string, rest: string, a: word)
    requires prefix in {"F", "G", "XF", "XG"} && '$' !in owner && '$' !in name
    requires content == Dollared(owner, name, rest + CdbText.AddressField(a))
    ensures ReadRecord("L:" + (prefix + content)) == Mark(owner, name, a, prefix == "XF" || prefix == "XG")
  {
    var text, isEnd := prefix + content, prefix == "XF" || prefix == "XG";
    CdbText.LineInfoReads(text);
    MarkerPrefix(prefix, content, text);
    MarkerContent(content, owner, name, rest, a, isEnd);
  }

  lemma {:induction false} StartPrefix(text: string, content: string)
    requires text != "" && (text[0] == 'F' || text[0] == 'G') && text[1..] == content
    ensures ReadLineInfo(text) == ReadMarker(content, false)
  {
  }

  lemma {:induction false} EndPrefix(text: string, content: string)
    requires |text| >= 2 && text[0] == 'X' && (text[1] == 'F' || text[1] == 'G') && text[2..] == content
    ensures ReadLineInfo(text) == ReadMarker(content, true)
  {
  }

  lemma {:induction false} MarkerPrefix(prefix: string, content: string, text: string)
    requires prefix in {"F", "G", "XF", "XG"} && text == prefix + content
    ensures ReadLineInfo(text) == ReadMarker(content, prefix == "XF" || prefix == "XG")
  {
    assert text[|prefix|..] == content && text[0] == prefix[0];
    if |prefix| == 1 {
      StartPrefix(text, content);
    } else {
      assert text[1] == prefix[1];
      EndPrefix(text, content);
    }
  }

  lemma {:induction false} MarkerAddress(content: string, before: string, rest: string, a: word)
    requires content == Around(before, '$', rest + CdbText.AddressField(a))
    ensures AfterLast(content, ':') > 0 && HexAddress(content[AfterLast(content, ':')..]) == Some(a)
  {
    var digits := CdbText.HexWord(a);
    Assoc(before, ['$'], rest + CdbText.AddressField(a));
    Assoc(before + ['$'], rest, CdbText.AddressField(a));
    assert content == Around(before + ['$'] + rest, ':', digits);
    AroundLast(content, before + ['$'] + rest, ':', digits);
    CdbText.HexWordReads(a);
  }

  // ---- symbols ---------------------------------------------------------------------------------

  lemma {:induction false} GlobalParts(content: string, scope: string, name: string, at: nat)
    requires TwoDollars(content) == Dollars(scope, name, at) && scope != "" && content != "" && content[0] == scope[0] != 'L'
    ensures ReadSymbol(content)
      == Global(ReadVariable(content, name, if scope[0] == 'G' then "global" else if scope[0] == 'F' then "local" else "struct"))
  {
  }

  lemma {:induction false} LocalParts(content: string, scope: string, name: string, at: nat, owner: string, f: string)
    requires TwoDollars(content) == Dollars(scope, name, at) && scope != "" && content != "" && content[0] == scope[0] == 'L'
    requires scope[1..] == Around(owner, '.', f) && '.' !in owner
    ensures ReadSymbol(content) == Local(f, ReadVariable(content, name, "local"))
  {
    AroundFind(scope[1..], owner, '.', f, 0);
  }

  /** A symbol line holds the scope, the name between its dollars and the variable. */
  lemma {:induction false} SymbolReads(content: string, scope: string, name: string, rest: string)
    requires content == Dollared(scope, name, rest) && scope != "" && '$' !in scope && '$' !in name && scope[0] != 'L'
    ensures ReadRecord("S:" + content)
      == Global(ReadVariable(content, name, if scope[0] == 'G' then "global" else if scope[0] == 'F' then "local" else "struct"))
  {
    SymbolRecord(content);
    DollaredCuts(content, scope, name, rest);
    DollaredFirst(content, scope, name, rest);
    GlobalParts(content, scope, name, |scope| + 1 + |name|);
  }

  /** A local one names its function after the first dot of its scope. */
  lemma {:induction false} LocalReads(content: string, scope: string, owner: string, f: string, name: string, rest: string)
    requires content == Dollared(scope, name, rest) && '$' !in scope && '$' !in name
    requires scope != "" && scope[0] == 'L' && scope[1..] == Around(owner, '.', f) && '.' !in owner
    ensures ReadRecord("S:" + content) == Local(f, ReadVariable(content, name, "local"))
  {
    SymbolRecord(content);
    DollaredCuts(content, scope, name, rest);
    DollaredFirst(content, scope, name, rest);
    LocalParts(content, scope, name, |scope| + 1 + |name|, owner, f);
  }

  /** The type stands between the first parentheses, with a size in braces in front; behind it, between commas, the
      storage and the offset; and the registers in brackets. */
  lemma {:induction false} BracketedIs(s: string, before: string, open: char, inside: string, close: char, after: string)
    requires s == Around(before, open, Around(inside, close, after)) && open !in before && close !in inside && open != close
    ensures Bracketed(s, open, close) == Some((inside, |before| + 1 + |inside|))
    ensures |before| + 1 + |inside| < |s| && s[|before| + 1 + |inside| + 1..] == after
  {
    var first := before + ([open] + inside);
    AroundFind(s, before, open, Around(inside, close, after), 0);
    Assoc(before, [open], Around(inside, close, after));
    Assoc(before + [open], inside, [close] + after);
    Assoc(before, [open], inside);
    assert s == Around(first, close, after);
    assert first[|before|..] == [open] + inside;
    AroundFind(s, first, close, after, |before|);
    assert s[|before| + 1..|first|] == inside;
  }

  lemma {:induction false} VariableParts(content: string, name: string, scope: string, info: string, end: nat,
                                         suffix: string, fields: seq<string>)
    requires Bracketed(content, '(', ')') == Some((info, end)) && end < |content| && |fields| >= 4
    requires content[end + 1..] == suffix && Split(suffix, ',') == fields
    ensures var v := ReadVariable(content, name, scope); var regs := Bracketed(suffix, '[', ']');
      && v.name == name && v.scope == scope && v.typeInfo == info && v.size == SizeOf(info)
      && v.offset == (if Stoi(fields[3]).Some? then Stoi(fields[3]).value else 0)
      && v.storage == StorageOf(fields[1]) && v.regList == (if regs.Some? then regs.value.0 else "")
  {
  }

  /** Of the fields behind the type the second is the storage and the fourth the offset. */
  lemma {:induction false} VariableReads(content: string, name: string, scope: string, before: string, info: string,
                                         suffix: string, fields: seq<string>)
    requires fields == Split(suffix, ',') && |fields| >= 4 && '(' !in before && ')' !in info
    requires content == Around(before, '(', Around(info, ')', suffix))
    ensures var v := ReadVariable(content, name, scope); var regs := Bracketed(suffix, '[', ']');
      && v.name == name && v.scope == scope && v.typeInfo == info && v.size == SizeOf(info)
      && v.offset == (if Stoi(fields[3]).Some? then Stoi(fields[3]).value else 0)
      && v.storage == StorageOf(fields[1]) && v.regList == (if regs.Some? then regs.value.0 else "")
  {
    var end := |before| + 1 + |info|;
    BracketedIs(content, before, '(', info, ')', suffix);
    VariableParts(content, name, scope, info, end, suffix, fields);
  }

  /** The letters of the storage classes. */
  lemma StorageLetters(field: string)
    ensures StorageOf(field).Stack? <==> field != "" && field[0] == 'B'
    ensures StorageOf(field).Register? <==> field != "" && field[0] == 'R'
    ensures StorageOf(field).Internal? <==> field != "" && field[0] == 'I'
    ensures StorageOf(field).External? <==> field != "" && field[0] == 'E'
    ensures StorageOf(field).GlobalAuto? <==> field != "" && field[0] == 'A'
  {
  }

  /** The size in braces is kept between 1 and 4. */
  lemma {:induction false} SizeReads(info: string, n: nat, rest: string)
    requires n <= INT_MAX && info == Around("{" + Decimal(n), '}', rest)
    ensures SizeOf(info) == if n == 0 then 1 else if n > 4 then 4 else n
  {
    var first := "{" + Decimal(n);
    NoBrace(n);
    assert first[1..] == Decimal(n);
    AroundFind(info, first, '}', rest, 1);
    StoiPlain(n);
    assert info[0] == first[0] == '{';
  }

  lemma NoBrace(n: nat)
    ensures '}' !in Decimal(n)
  {
  }

  // ---- types -----------------------------------------------------------------------------------

  lemma {:induction false} TypeParts(content: string, d1: nat, open: nat, close: nat, name: string, layout: string)
    requires Find(content, '$', 0) == d1 < open == Find(content, '[', 0) < |content| && AfterLast(content, ']') == close
    requires open < close <= |content| && content[d1 + 1..open] == name && content[open..close] == layout && '.' !in name
    ensures ReadType(content) == Type(TypeInfo(name, if content[0] == 'G' then "global" else "local", layout))
  {
    AfterDotIs("", name, "");
  }

  lemma {:induction false} TypeName(content: string, scope: string, name: string, head: string, tail: string)
    requires head == Around(scope, '$', name) && content == Around(head, '[', tail)
    requires '$' !in scope && '[' !in scope && '[' !in name
    ensures Find(content, '$', 0) == |scope| && Find(content, '[', 0) == |head| < |content|
    ensures content[|scope| + 1..|head|] == name
  {
    Assoc(scope, ['$'] + name, ['['] + tail);
    Assoc(['$'], name, ['['] + tail);
    assert content == Around(scope, '$', name + (['['] + tail));
    AroundFind(content, scope, '$', name + (['['] + tail), 0);
    AroundFind(content, head, '[', tail, 0);
    assert head[|scope| + 1..] == name;
  }

  lemma {:induction false} TypeContent(content: string, scope: string, name: string, tail: string, layout: string, rest: string)
    requires content == Around(Around(scope, '$', name), '[', tail) && tail == Around(layout, ']', rest)
    requires scope != "" && '$' !in scope && '[' !in scope && '[' !in name && '.' !in name && ']' !in rest
    ensures ReadType(content) == Type(TypeInfo(name, if content[0] == 'G' then "global" else "local", "[" + layout + "]"))
  {
    var head := Around(scope, '$', name);
    TypeName(content, scope, name, head, tail);
    TypeEnd(content, head, layout, rest);
    TypeParts(content, |scope|, |head|, |head| + |layout| + 2, name, "[" + layout + "]");
  }

  lemma FirstOf(content: string, scope: string, name: string, tail: string)
    requires content == Around(Around(scope, '$', name), '[', tail) && scope != ""
    ensures content[0] == scope[0]
  {
  }

  /** A type line holds the name before its first bracket and the layout up to its last one. */
  lemma {:induction false} TypeReads(content: string, scope: string, name: string, layout: string, rest: string)
    requires content == Around(Around(scope, '$', name), '[', Around(layout, ']', rest))
    requires scope != "" && '$' !in scope && '[' !in scope && '[' !in name && '.' !in name && ']' !in rest
    ensures ReadRecord("T:" + content) == Type(TypeInfo(name, if scope[0] == 'G' then "global" else "local", "[" + layout + "]"))
  {
    TypeRecord(content);
    TypeContent(content, scope, name, Around(layout, ']', rest), layout, rest);
    FirstOf(content, scope, name, Around(layout, ']', rest));
  }

  lemma {:induction false} TypeEnd(content: string, head: string, layout: string, rest: string)
    requires content == Around(head, '[', Around(layout, ']', rest)) && ']' !in rest
    ensures AfterLast(content, ']') == |head| + |layout| + 2
    ensures content[|head|..|head| + |layout| + 2] == "[" + layout + "]"
  {
    var before := head + (['['] + layout);
    Assoc(head, ['['], Around(layout, ']', rest));
    Assoc(head + ['['], layout, [']'] + rest);
    Assoc(head, ['['], layout);
    AroundLast(content, before, ']', rest);
    assert content == before + ([']'] + rest);
    assert before[|head|..] == ['['] + layout;
  }

  // ---- source lines --------------------------------------------------------------------------------

  /** The address of a source line is what follows the first colon of its last field, and 0 if that is no number
      or there is no colon. */
  lemma {:induction false} LastFieldAddress(field: string, before: string, text: string)
    requires field == Around(before, ':', text) && ':' !in before
    ensures LastAddress(field) == if HexAddress(text).Some? then HexAddress(text).value else 0
  {
    AroundFind(field, before, ':', text, 0);
  }

  lemma {:induction false} NoFieldAddress(field: string)
    requires ':' !in field
    ensures LastAddress(field) == 0
  {
  }

  // ---- files -------------------------------------------------------------------------------------

  /** A source line belongs to the module that its file is named after, up to the last dot. */
  lemma OwnerIs(base: string, ext: string)
    requires '.' !in ext
    ensures Owner(Around(base, '.', ext)) == base && Owner(ext) == ""
  {
    AroundLast(Around(base, '.', ext), base, '.', ext);
    assert Around(base, '.', ext)[..|base|] == base;
  }

  /** Backslashes become slashes and nothing else changes. */
  lemma SlashesAre(file: string)
    ensures |Slashes(file)| == |file| && '\\' !in Slashes(file)
    ensures forall i :: 0 <= i < |file| ==> Slashes(file)[i] == file[i] || (file[i] == '\\' && Slashes(file)[i] == '/')
  {
  }
}
