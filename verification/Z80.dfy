/** The processor as the debugger sees it: eighteen register cells and 64 KB of memory.
    What an instruction does is a parameter of the other modules, never defined here. */
module Z80 {
  const MEMORY_SIZE: int := 0x10000

  type byte = x: int | 0 <= x < 0x100
  type word = x: int | 0 <= x < 0x10000

  const UINT32: int := 0x1_0000_0000

  type uint32 = x: int | 0 <= x < 0x1_0000_0000

  datatype Registers = Registers(
    af: word, bc: word, de: word, hl: word,
    af2: word, bc2: word, de2: word, hl2: word,
    ix: word, iy: word, pc: word, sp: word,
    i: word, r: word, r7: word, im: word, iff1: word, iff2: word)

  datatype MachineData = MachineData(regs: Registers, mem: seq<byte>)

  type Machine = m: MachineData | |m.mem| == MEMORY_SIZE
    witness MachineData(
      Registers(0, 0, 0, 0, 0, 0, 0, 0, 0, 0, 0, 0, 0, 0, 0, 0, 0, 0),
      seq(MEMORY_SIZE, (_: nat) => 0 as byte))

  /** A 16-bit cell read as `int16_t`. */
  function Signed(w: word): int {
    if w < 0x8000 then w else w - 0x10000
  }

  /** Truncation of any integer to `uint16_t`. */
  function Word(x: int): word {
    x % 0x10000
  }

  lemma WordCases(x: int)
    requires -0x10000 <= x < 0x20000
    ensures Word(x) == if x < 0 then x + 0x10000 else if x < 0x10000 then x else x - 0x10000
  {
  }

  /** `n` instructions in a row. */
  ghost function Iterate(exec: Machine -> Machine, m: Machine, n: nat): Machine {
    if n == 0 then m else exec(Iterate(exec, m, n - 1))
  }
}
