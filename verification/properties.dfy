/** Properties of fetch, decode, the handlers and the machine cycle. */
module Properties {
  import opened Machine
  import opened Opcode
  import Handlers
  import opened Interpreter

  // ---------------------------------------------------------------------
  // Fetch and decode

  /** Decoding the word assembled from four nibbles gives those nibbles back,
      with the low byte and low twelve bits they make up. */
  lemma DecodeWord(c: Nibble, x: Nibble, y: Nibble, d: Nibble)
    ensures Decode(Word(c, x, y, d)) == Fields(c, x, y, d, y * 0x10 + d, x * 0x100 + y * 0x10 + d)
  {
    var f := Decode(Word(c, x, y, d));
    assert f.c * 0x1000 + f.x * 0x100 + f.y * 0x10 + f.d == c * 0x1000 + x * 0x100 + y * 0x10 + d;
  }

  /** Reassembling the decoded nibbles gives the opcode back. */
  lemma WordDecode(op: Word16)
    ensures var f := Decode(op); Word(f.c, f.x, f.y, f.d) == op
  {
  }

  /** Two bytes c·16+x and y·16+d at the program counter fetch as the word
      with nibbles c, x, y, d. */
  lemma FetchWord(s: Cpu, c: Nibble, x: Nibble, y: Nibble, d: Nibble)
    requires s.pc + 1 < MemorySize
    requires s.mem[s.pc] == c * 0x10 + x && s.mem[s.pc + 1] == y * 0x10 + d
    ensures Fetch(s) == Ok(Word(c, x, y, d))
  {
  }

  // ---------------------------------------------------------------------
  // The dispatch table

  /** The dispatch table falls through to the unimplemented case exactly for
      the opcodes outside the handled ranges, and then reports the opcode. */
  lemma DispatchUnknownIffUnhandled(op: Word16)
    ensures Dispatch(op).Unknown? <==> !Handled(op)
    ensures Dispatch(op).Unknown? ==> Dispatch(op).opcode == op
  {
    var f := Decode(op);
    assert op == f.c * 0x1000 + f.x * 0x100 + f.y * 0x10 + f.d;
    assert op % 0x10 == f.d;
  }

  /** `5xyd` dispatches to the equal-skip on the raw nibbles whatever `d` is. */
  lemma SkipRegistersIgnoresLastNibble(x: Nibble, y: Nibble, d: Nibble)
    ensures Dispatch(Word(5, x, y, d)) == Se(x, y)
  {
    DecodeWord(5, x, y, d);
  }

  // ---------------------------------------------------------------------
  // Handlers

  /** For the same two arguments exactly one of the two skip handlers skips:
      one leaves the counter where it was, the other moves it two further. */
  lemma SkipSymmetry(s: Cpu, a: Byte, b: Byte)
    ensures Handlers.Se(s, a, b).pc + Handlers.Sne(s, a, b).pc == 2 * s.pc + 2
    ensures Handlers.Se(s, a, b).pc == s.pc + 2 || Handlers.Sne(s, a, b).pc == s.pc + 2
    ensures Handlers.Se(s, a, b).pc != Handlers.Sne(s, a, b).pc
  {
  }

  /** A return straight after a call restores the stack pointer and the
      program counter; the only trace left is the saved address in the slot
      just above the stack pointer. */
  lemma CallThenRet(s: Cpu, addr: Address)
    requires s.sp < StackDepth && s.pc < 0x10000
    ensures Handlers.Call(s, addr).Ok?
    ensures Handlers.Ret(Handlers.Call(s, addr).value)
         == Ok(s.(stack := s.stack[s.sp := s.pc]))
  {
  }

  // ---------------------------------------------------------------------
  // The machine cycle

  /** A cycle whose program counter leaves no room for a two-byte fetch
      aborts on the memory bound, before anything is decoded. */
  lemma FetchPastEndAborts(s: Cpu)
    requires s.pc + 1 >= MemorySize
    ensures Step(s).Abort? && Step(s).fault.MemoryOutOfBounds?
  {
  }

  /** The opcodes that neither branch nor touch the stack: load, add
      immediate, copy, OR, AND, XOR, a register add that does not overflow,
      and clear-screen. */
  predicate StraightLine(s: Cpu, op: Word16)
  {
    var f := Decode(op);
    || f.c == 6 || f.c == 7
    || (f.c == 8 && f.d <= 3)
    || (f.c == 8 && f.d == 4 && s.regs[f.x] as int + s.regs[f.y] < 0x100)
    || op == 0x00E0
  }

  /** Straight-line opcodes advance the program counter by exactly two and
      leave the stack, the stack pointer and memory as they were. */
  lemma StraightLineAdvancesByTwo(s: Cpu, op: Word16)
    requires Fetch(s) == Ok(op) && StraightLine(s, op)
    ensures Step(s).Next?
    ensures Step(s).state.pc == s.pc + 2
    ensures Step(s).state.stack == s.stack && Step(s).state.sp == s.sp
    ensures Step(s).state.mem == s.mem
  {
    var f := Decode(op);
    if op == 0x00E0 {
      DecodeWord(0, 0, 0xE, 0);
    }
  }

  /** `00E0` changes nothing but the program counter and signals the
      display to clear. */
  lemma ClearStep(s: Cpu)
    requires Fetch(s) == Ok(0x00E0)
    ensures Step(s) == Next(s.(pc := s.pc + 2), ClearScreen)
  {
    DecodeWord(0, 0, 0xE, 0);
  }

  /** The opcodes that write one register and nothing else. */
  predicate RegisterWrite(s: Cpu, op: Word16)
  {
    var f := Decode(op);
    || f.c == 6 || f.c == 7
    || (f.c == 8 && f.d <= 3)
    || (f.c == 8 && f.d == 4 && s.regs[f.x] as int + s.regs[f.y] < 0x100)
  }

  /** The value such an opcode leaves in register `x`, read off the opcode
      table: load, add with wrap-around, copy, OR, AND, XOR, exact sum. */
  function WrittenValue(s: Cpu, f: Fields): int
  {
    var vx := s.regs[f.x];
    var vy := s.regs[f.y];
    if f.c == 6 then f.kk
    else if f.c == 7 then (vx + f.kk) % 0x100
    else if f.d == 0 then vy
    else if f.d == 1 then BitOr(vx, vy)
    else if f.d == 2 then BitAnd(vx, vy)
    else if f.d == 3 then BitXor(vx, vy)
    else vx + vy
  }

  /** A register-writing cycle changes register `x` to the value its opcode
      computes, advances the counter by two and changes nothing else: no
      other register (VF included), no memory, no stack. */
  lemma RegisterOnlyUpdates(s: Cpu, op: Word16)
    requires Fetch(s) == Ok(op) && RegisterWrite(s, op)
    ensures Step(s).Next? && Step(s).event == Quiet
    ensures var f := Decode(op);
            var t := Step(s).state;
            && t == s.(regs := t.regs, pc := s.pc + 2)
            && t.regs[f.x] == WrittenValue(s, f)
            && OthersUnchanged(s.regs, t.regs, f.x)
  {
  }

  /** A cycle on a skip opcode moves the counter four bytes when the raw
      operands it passes on compare as the opcode asks, two bytes otherwise:
      `3xkk` compares the nibble `x` with `kk`, `4xkk` likewise for
      difference, `5xy_` compares the nibbles `x` and `y`. */
  lemma SkipStep(s: Cpu, op: Word16)
    requires Fetch(s) == Ok(op)
    requires 3 <= Decode(op).c <= 5
    ensures var f := Decode(op);
            var skip := if f.c == 3 then f.x == f.kk
                        else if f.c == 4 then f.x != f.kk
                        else f.x == f.y;
            Step(s) == Next(s.(pc := s.pc + (if skip then 4 else 2)), Quiet)
  {
  }

  /** `1nnn` sets the program counter to `nnn` and changes nothing else. */
  lemma JumpStep(s: Cpu, op: Word16)
    requires Fetch(s) == Ok(op) && Decode(op).c == 1
    ensures Step(s) == Next(s.(pc := op - 0x1000), Quiet)
  {
  }

  /** A `2nnn` cycle followed by a `00EE` cycle at `nnn` comes back to the
      instruction after the call with the stack pointer restored. */
  lemma CallReturnCycles(s: Cpu, target: Address)
    requires s.sp < StackDepth && s.pc + 1 < MemorySize
    requires Fetch(s) == Ok(0x2000 + target)
    requires target + 1 < MemorySize && s.mem[target] == 0x00 && s.mem[target + 1] == 0xEE
    ensures Step(s).Next?
    ensures var t := Step(s).state;
            Step(t) == Next(s.(pc := s.pc + 2, stack := s.stack[s.sp := s.pc + 2]), Quiet)
  {
    DecodeWord(2, target / 0x100, target / 0x10 % 0x10, target % 0x10);
    assert Dispatch(0x2000 + target) == Call(target);
    var t := Step(s).state;
    assert t == s.(stack := s.stack[s.sp := s.pc + 2], sp := s.sp + 1, pc := target);
    FetchWord(t, 0, 0, 0xE, 0xE);
    DecodeWord(0, 0, 0xE, 0xE);
  }

  /** A call with all sixteen slots in use aborts with a stack overflow. */
  lemma CallOnFullStackFails(s: Cpu, op: Word16)
    requires Fetch(s) == Ok(op) && Decode(op).c == 2 && s.sp == StackDepth
    ensures Step(s) == Abort(StackOverflow)
  {
  }

  /** A return with an empty stack aborts with a stack underflow. */
  lemma ReturnOnEmptyStackFails(s: Cpu)
    requires Fetch(s) == Ok(0x00EE) && s.sp == 0
    ensures Step(s) == Abort(StackUnderflow)
  {
    DecodeWord(0, 0, 0xE, 0xE);
  }

  /** A register add whose sum exceeds 255 aborts the run. */
  lemma AddOverflowFails(s: Cpu, op: Word16)
    requires Fetch(s) == Ok(op)
    requires Decode(op).c == 8 && Decode(op).d == 4
    requires s.regs[Decode(op).x] as int + s.regs[Decode(op).y] > 0xFF
    ensures Step(s) == Abort(AddOverflow)
  {
  }

  /** The all-zero word halts, with the counter already moved past it and
      nothing else changed, and a run stops there. */
  lemma HaltStops(s: Cpu, fuel: nat)
    requires Fetch(s) == Ok(0) && fuel > 0
    ensures Step(s) == Stop(s.(pc := s.pc + 2))
    ensures Run(s, fuel) == Halted(s.(pc := s.pc + 2), 0)
  {
    DecodeWord(0, 0, 0, 0);
    assert Run(s, fuel) == Cycle(Step, s, fuel - 1);
  }

  /** A cycle aborts reporting an unimplemented opcode exactly when the word
      fetched lies outside the handled ranges, and it reports that word. */
  lemma UnimplementedIffUnhandled(s: Cpu)
    ensures (Step(s).Abort? && Step(s).fault.Unimplemented?)
        <==> (Fetch(s).Ok? && !Handled(Fetch(s).value))
    ensures Step(s).Abort? && Step(s).fault.Unimplemented? ==> Step(s).fault.opcode == Fetch(s).value
  {
    if Fetch(s).Ok? {
      DispatchUnknownIffUnhandled(Fetch(s).value);
    }
  }

  // ---------------------------------------------------------------------
  // Runs

  /** Once a run halts or aborts within some fuel, more fuel changes
      nothing; this holds for every cycle function, the machine cycle
      included. */
  lemma {:induction false} RunMonotone(step: Cpu -> StepResult, s: Cpu, n: nat, m: nat)
    requires n <= m
    requires RunWith(step, s, n).Halted? || RunWith(step, s, n).Faulted?
    ensures RunWith(step, s, m) == RunWith(step, s, n)
    decreases n
  {
    match step(s)
    case Stop(_) =>
    case Abort(_) =>
    case Next(t, _) =>
      RunMonotone(step, t, n - 1, m - 1);
  }

  /** No instruction writes memory, so a run that halts or runs out of fuel
      ends with the memory it started with. */
  lemma {:induction false} RunKeepsMemory(s: Cpu, fuel: nat)
    ensures !Run(s, fuel).Faulted? ==> Run(s, fuel).state.mem == s.mem
    decreases fuel
  {
    if fuel > 0 {
      assert Run(s, fuel) == Cycle(Step, s, fuel - 1);
      match Step(s)
      case Stop(_) =>
      case Abort(_) =>
      case Next(t, e) =>
        RunKeepsMemory(t, fuel - 1);
        assert Run(s, fuel) == AddClears(Run(t, fuel - 1), Signals(e));
    }
  }

  /** A cycle that continues quietly costs one unit of fuel. */
  lemma QuietCycle(step: Cpu -> StepResult, s: Cpu, t: Cpu, fuel: nat)
    requires 0 < fuel && step(s) == Next(t, Quiet)
    ensures RunWith(step, s, fuel) == RunWith(step, t, fuel - 1)
  {
    assert RunWith(step, s, fuel) == AddClears(RunWith(step, t, fuel - 1), 0);
  }

  /** The same for the interpreter's own run. */
  lemma RunMonotoneCpu(s: Cpu, n: nat, m: nat)
    requires n <= m
    requires Run(s, n).Halted? || Run(s, n).Faulted?
    ensures Run(s, m) == Run(s, n)
  {
    RunMonotone(Step, s, n, m);
  }
}
