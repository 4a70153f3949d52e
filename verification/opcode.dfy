/** Fetching a 16-bit instruction word, splitting it into its fields, and
    the dispatch table that maps fields to an instruction. */
module Opcode {
  import opened Machine

  /** Big-endian read of the two bytes at the program counter. Indexing
      memory past its end aborts, at the first index that is out of range. */
  function Fetch(s: State): (r: Result<Word16>)
    requires Valid(s)
    ensures r.Ok? <==> s.pc + 1 < MemorySize
    ensures r.Ok? ==> r.value / 0x100 == s.mem[s.pc] && r.value % 0x100 == s.mem[s.pc + 1]
    ensures r.Err? ==> r.fault.MemoryOutOfBounds? && MemorySize <= r.fault.index <= s.pc + 1
  {
    if s.pc + 1 < MemorySize then
      Ok(s.mem[s.pc] as int * 0x100 + s.mem[s.pc + 1])
    else if s.pc < MemorySize then
      Err(MemoryOutOfBounds(s.pc + 1))
    else
      Err(MemoryOutOfBounds(s.pc))
  }

  /** The four nibbles of an opcode, its low byte and its low twelve bits.
      The masks and shifts of the interpreter are written as the equivalent
      divisions and remainders by powers of two. */
  datatype Fields = Fields(c: Nibble, x: Nibble, y: Nibble, d: Nibble, kk: Byte, addr: Address)

  function Decode(op: Word16): (f: Fields)
    ensures op == f.c * 0x1000 + f.x * 0x100 + f.y * 0x10 + f.d
    ensures f.kk == f.y * 0x10 + f.d
    ensures f.addr == f.x * 0x100 + f.kk
  {
    DigitsLemma(op);
    Fields(
      op / 0x1000,
      op / 0x100 % 0x10,
      op / 0x10 % 0x10,
      op % 0x10,
      op % 0x100,
      op % 0x1000)
  }

  /** Base-16 digit arithmetic behind `Decode`. */
  lemma DigitsLemma(op: Word16)
    ensures op / 0x100 % 0x10 == op / 0x10 / 0x10 % 0x10
    ensures op / 0x1000 == op / 0x10 / 0x10 / 0x10
    ensures op % 0x100 == op / 0x10 % 0x10 * 0x10 + op % 0x10
    ensures op % 0x1000 == op / 0x100 % 0x10 * 0x100 + op % 0x100
    ensures op == op / 0x1000 * 0x1000 + op % 0x1000
  {
    var q1 := op / 0x10;
    var q2 := q1 / 0x10;
    assert op == q1 * 0x10 + op % 0x10;
    assert q1 == q2 * 0x10 + q1 % 0x10;
    assert q2 == q2 / 0x10 * 0x10 + q2 % 0x10;
  }

  /** The opcode whose nibbles are c, x, y, d (most significant first). */
  function Word(c: Nibble, x: Nibble, y: Nibble, d: Nibble): Word16
  {
    c * 0x1000 + x * 0x100 + y * 0x10 + d
  }

  /** The instructions the interpreter dispatches to. Skip instructions carry
      the two byte arguments handed to the handler; `LdReg` is the `8xy0`
      form, which loads the current value of Vy through the same handler as
      `6xkk`. */
  datatype Instr =
    | Halt
    | Cls
    | Ret
    | Jmp(addr: Address)
    | Call(addr: Address)
    | Se(a: Byte, b: Byte)
    | Sne(a: Byte, b: Byte)
    | Ld(x: Nibble, kk: Byte)
    | Add(x: Nibble, kk: Byte)
    | LdReg(x: Nibble, y: Nibble)
    | OrXY(x: Nibble, y: Nibble)
    | AndXY(x: Nibble, y: Nibble)
    | XorXY(x: Nibble, y: Nibble)
    | AddXY(x: Nibble, y: Nibble)
    | Unknown(opcode: Word16)

  /** The dispatch table, in the order of the interpreter's match arms. Note
      that `3xkk`, `4xkk` and `5xy_` pass the raw nibble `x` (and `y`), not
      the register values, and that `5xy_` ignores its last nibble. */
  function Dispatch(op: Word16): (i: Instr)
    ensures i == Halt <==> op == 0x0000
    ensures i == Cls <==> op == 0x00E0
    ensures i == Ret <==> op == 0x00EE
    ensures i.Jmp? <==> 0x1000 <= op < 0x2000
    ensures i.Call? <==> 0x2000 <= op < 0x3000
    ensures i.Jmp? || i.Call? ==> i.addr == op % 0x1000
    ensures i.Unknown? ==> i.opcode == op
  {
    var f := Decode(op);
    assert op == f.c * 0x1000 + f.addr;
    if f.c == 0 && f.x == 0 && f.y == 0 && f.d == 0 then Halt
    else if f.c == 0 && f.x == 0 && f.y == 0xE && f.d == 0 then Cls
    else if f.c == 0 && f.x == 0 && f.y == 0xE && f.d == 0xE then Ret
    else if f.c == 0x1 then Jmp(f.addr)
    else if f.c == 0x2 then Call(f.addr)
    else if f.c == 0x3 then Se(f.x, f.kk)
    else if f.c == 0x4 then Sne(f.x, f.kk)
    else if f.c == 0x5 then Se(f.x, f.y)
    else if f.c == 0x6 then Ld(f.x, f.kk)
    else if f.c == 0x7 then Add(f.x, f.kk)
    else if f.c == 0x8 then
      if f.d == 0 then LdReg(f.x, f.y)
      else if f.d == 1 then OrXY(f.x, f.y)
      else if f.d == 2 then AndXY(f.x, f.y)
      else if f.d == 3 then XorXY(f.x, f.y)
      else if f.d == 4 then AddXY(f.x, f.y)
      else Unknown(op)
    else Unknown(op)
  }

  /** The opcodes the interpreter handles, described by numeric ranges
      independently of the field decoding. */
  predicate Handled(op: Word16)
  {
    || op == 0x0000 || op == 0x00E0 || op == 0x00EE
    || (0x1000 <= op < 0x8000)
    || (0x8000 <= op < 0x9000 && op % 0x10 <= 4)
  }
}
