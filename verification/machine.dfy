/** The machine state of the CHIP-8 interpreter: sixteen byte registers,
    4096 bytes of memory, a sixteen-slot return stack of 16-bit addresses,
    a stack pointer and a program counter ("position in memory"). */
module Machine {

  const MemorySize: nat := 0x1000
  const RegisterCount: nat := 16
  const StackDepth: nat := 16

  /** A 4-bit field of an opcode; every register index is one. */
  type Nibble = n: int | 0 <= n < 16

  /** An unsigned byte: a register, a memory cell or an immediate operand.
      Arithmetic on it is integer arithmetic with the wrap-around written
      out where the interpreter wraps. */
  type Byte = n: int | 0 <= n < 0x100

  /** A 16-bit unsigned value: an opcode or a saved return address. */
  type Word16 = n: int | 0 <= n < 0x10000

  /** The low twelve bits of an opcode. */
  type Address = n: int | 0 <= n < 0x1000

  /** The CPU record. The program counter is an unbounded index (a `usize`
      in the interpreter); only a fetch checks it against the memory bound. */
  datatype State = State(
    regs: seq<Byte>,
    pc: nat,
    mem: seq<Byte>,
    stack: seq<Word16>,
    sp: nat)

  /** The fixed array sizes of the record, and the stack pointer bound that
      the call/return handlers maintain. */
  predicate Valid(s: State)
  {
    && |s.regs| == RegisterCount
    && |s.mem| == MemorySize
    && |s.stack| == StackDepth
    && s.sp <= StackDepth
  }

  /** The states the interpreter can be in: a record satisfying `Valid`. */
  type Cpu = s: State | Valid(s)
    witness State(seq(RegisterCount, _ => 0), 0, seq(MemorySize, _ => 0), seq(StackDepth, _ => 0), 0)

  /** Every way a run can abort. The interpreter panics in each case; only the
      fact of failure is kept, plus the address or opcode where that is
      reported. */
  datatype Fault =
    | MemoryOutOfBounds(index: nat)
    | StackUnderflow
    | StackOverflow
    | AddOverflow
    | Unimplemented(opcode: Word16)

  datatype Result<T> = Ok(value: T) | Err(fault: Fault)

  /** Registers that agree everywhere except possibly at index `x`. */
  predicate OthersUnchanged(before: seq<Byte>, after: seq<Byte>, x: Nibble)
    requires |before| == RegisterCount && |after| == RegisterCount
  {
    forall i :: 0 <= i < RegisterCount && i != x ==> after[i] == before[i]
  }

  /** Bitwise OR, AND and XOR of two bytes. */
  function BitOr(a: Byte, b: Byte): Byte
  {
    (a as bv8 | b as bv8) as int
  }

  function BitAnd(a: Byte, b: Byte): Byte
  {
    (a as bv8 & b as bv8) as int
  }

  function BitXor(a: Byte, b: Byte): Byte
  {
    (a as bv8 ^ b as bv8) as int
  }

  /** A freshly constructed CPU: zeroed registers and stack, the given memory
      image, execution starting at address 0. */
  function Boot(mem: seq<Byte>): (s: Cpu)
    requires |mem| == MemorySize
    ensures s.pc == 0 && s.sp == 0 && s.mem == mem
    ensures forall i :: 0 <= i < RegisterCount ==> s.regs[i] == 0
    ensures forall i :: 0 <= i < StackDepth ==> s.stack[i] == 0
  {
    State(seq(RegisterCount, _ => 0), 0, mem, seq(StackDepth, _ => 0), 0)
  }
}
