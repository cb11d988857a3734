/** What the SDCC debug files describe, as the parser produces it and the debugger reads it. */
module SourceData {
  import opened Z80

  /** Where an address is in the sources; `isAsm` marks a line of an assembly file. */
  datatype Location = Location(file: string, line: int, isAsm: bool)

  datatype Line = Line(file: string, line: int, address: word)

  datatype AsmLine = AsmLine(line: int, address: word)

  datatype Storage = Unknown | Stack | Register | Internal | External | GlobalAuto

  datatype Variable = Variable(
    name: string, scope: string, typeInfo: string, storage: Storage, offset: int, size: int, regList: string)

  datatype TypeInfo = TypeInfo(name: string, scope: string, typeInfo: string)

  // A function without an address has 0xFFFF for both of its ends.
  datatype Function = Function(name: string, scope: string, locals: seq<Variable>, start: word, end: word)

  datatype Module = Module(
    name: string, file: string, functions: seq<Function>, globals: seq<Variable>, types: seq<TypeInfo>,
    lines: seq<Line>, asmLines: map<int, word>)
}
