/** The machine cycle: fetch, advance the program counter by two, decode,
    dispatch to a handler; and the run loop, bounded by fuel. */
module Interpreter {
  import opened Machine
  import opened Opcode
  import Handlers

  /** The one signal the core sends to its display collaborator. */
  datatype Event = Quiet | ClearScreen

  /** The outcome of one machine cycle: the next state (and the signal it
      emitted), a halt with the final state, or an abort. */
  datatype StepResult =
    | Next(state: Cpu, event: Event)
    | Stop(state: Cpu)
    | Abort(fault: Fault)

  function Lift(r: Result<State>): StepResult
    requires r.Ok? ==> Valid(r.value)
  {
    match r
    case Ok(t) => Next(t, Quiet)
    case Err(f) => Abort(f)
  }

  /** Run the handler selected by the dispatch table. Only the halt word
      stops and only clear-screen signals; a cycle aborts exactly on an
      empty-stack return, a full-stack call, an overflowing register add or
      an unimplemented opcode; no instruction writes memory. */
  function Execute(s: Cpu, i: Instr): (r: StepResult)
    ensures r.Stop? <==> i == Halt
    ensures r.Stop? ==> r.state == s
    ensures (r.Next? && r.event == ClearScreen) <==> i == Cls
    ensures r == Abort(StackUnderflow) <==> i.Ret? && s.sp == 0
    ensures r == Abort(StackOverflow) <==> i.Call? && s.sp >= StackDepth
    ensures r == Abort(AddOverflow) <==> i.AddXY? && s.regs[i.x] as int + s.regs[i.y] > 0xFF
    ensures r.Abort? ==> r.fault.Unimplemented? == i.Unknown?
    ensures i.Unknown? ==> r == Abort(Unimplemented(i.opcode))
    ensures r.Next? ==> r.state.mem == s.mem
  {
    match i
    case Halt => Stop(s)
    case Cls => Next(s, ClearScreen)
    case Ret => Lift(Handlers.Ret(s))
    case Jmp(addr) => Next(s.(pc := addr), Quiet)
    case Call(addr) => Lift(Handlers.Call(s, addr))
    case Se(a, b) => Next(Handlers.Se(s, a, b), Quiet)
    case Sne(a, b) => Next(Handlers.Sne(s, a, b), Quiet)
    case Ld(x, kk) => Next(Handlers.Ld(s, x, kk), Quiet)
    case Add(x, kk) => Next(Handlers.Add(s, x, kk), Quiet)
    case LdReg(x, y) => Next(Handlers.Ld(s, x, s.regs[y]), Quiet)
    case OrXY(x, y) => Next(Handlers.OrXY(s, x, y), Quiet)
    case AndXY(x, y) => Next(Handlers.AndXY(s, x, y), Quiet)
    case XorXY(x, y) => Next(Handlers.XorXY(s, x, y), Quiet)
    case AddXY(x, y) => Lift(Handlers.AddXY(s, x, y))
    case Unknown(op) => Abort(Unimplemented(op))
  }

  /** One machine cycle. The program counter is advanced before dispatch, so
      even the halting opcode leaves it two past the halt word. */
  function Step(s: Cpu): (r: StepResult)
    ensures r.Abort? && r.fault.MemoryOutOfBounds? <==> s.pc + 1 >= MemorySize
    ensures r.Stop? ==> Fetch(s) == Ok(0x0000) && r.state == s.(pc := s.pc + 2)
    ensures (r.Next? && r.event == ClearScreen) <==> Fetch(s) == Ok(0x00E0)
    ensures r.Next? ==> r.state.mem == s.mem
  {
    match Fetch(s)
    case Err(f) => Abort(f)
    case Ok(op) => Execute(s.(pc := s.pc + 2), Dispatch(op))
  }

  /** The result of running for at most a given number of cycles, with the
      number of clear-screen signals emitted on the way. */
  datatype RunResult =
    | Halted(state: Cpu, clears: nat)
    | Faulted(fault: Fault)
    | OutOfFuel(state: Cpu, clears: nat)

  function Signals(e: Event): nat
  {
    if e == ClearScreen then 1 else 0
  }

  /** Credit `n` further clear-screen signals to a run result. */
  function AddClears(a: RunResult, n: nat): (r: RunResult)
    ensures r.Halted? == a.Halted? && r.Faulted? == a.Faulted?
    ensures r.Faulted? ==> r == a
    ensures !r.Faulted? ==> r.state == a.state && r.clears == a.clears + n
  {
    match a
    case Halted(t, c) => Halted(t, c + n)
    case Faulted(f) => Faulted(f)
    case OutOfFuel(t, c) => OutOfFuel(t, c + n)
  }

  /** The interpreter's unbounded loop, cut off after `fuel` cycles of the
      given cycle function. At most one clear-screen signal is counted per
      cycle, and fuel runs out only after a continuing cycle. */
  function RunWith(step: Cpu -> StepResult, s: Cpu, fuel: nat): (r: RunResult)
    ensures r.Halted? || r.OutOfFuel? ==> r.clears <= fuel
    ensures r.OutOfFuel? && fuel > 0 ==> step(s).Next?
    decreases fuel, 0
  {
    if fuel == 0 then OutOfFuel(s, 0) else Cycle(step, s, fuel - 1)
  }

  /** One cycle of the loop, then the rest of the run with `fuel` cycles
      left. */
  function Cycle(step: Cpu -> StepResult, s: Cpu, fuel: nat): (r: RunResult)
    ensures r.Halted? || r.OutOfFuel? ==> r.clears <= fuel + 1
    ensures r.OutOfFuel? ==> step(s).Next?
    decreases fuel, 1
  {
    match step(s)
    case Stop(t) => Halted(t, 0)
    case Abort(f) => Faulted(f)
    case Next(t, e) => AddClears(RunWith(step, t, fuel), Signals(e))
  }

  /** The interpreter's `run`, cut off after `fuel` machine cycles: the
      halt word ends it at once, and so does a fetch past the end of
      memory. */
  function Run(s: Cpu, fuel: nat): (r: RunResult)
    ensures r.Halted? || r.OutOfFuel? ==> r.clears <= fuel
    ensures fuel > 0 && Fetch(s) == Ok(0x0000) ==> r == Halted(s.(pc := s.pc + 2), 0)
    ensures fuel > 0 && s.pc + 1 >= MemorySize ==> r.Faulted? && r.fault.MemoryOutOfBounds?
  {
    assert fuel > 0 ==> RunWith(Step, s, fuel) == Cycle(Step, s, fuel - 1);
    RunWith(Step, s, fuel)
  }
}
