/** Whole programs run on the interpreter: the image `main`
    loads, and a chain of nested calls that exhausts the return stack. Both
    are stated for every state that holds the program, so the proofs never
    depend on the rest of memory. */
module Programs {
  import opened Machine
  import opened Opcode
  import opened Interpreter
  import Properties

  // ---------------------------------------------------------------------
  // The image in `main`: V0 = 5, V1 = 10; two calls to a subroutine at
  // 0x100 that adds V1 to V0 twice and returns; then the halt word.

  function MainImageByte(i: int): Byte
  {
    if i == 0x000 then 0x21 else if i == 0x001 then 0x00
    else if i == 0x002 then 0x21 else if i == 0x003 then 0x00
    else if i == 0x100 then 0x80 else if i == 0x101 then 0x14
    else if i == 0x102 then 0x80 else if i == 0x103 then 0x14
    else if i == 0x104 then 0x00 else if i == 0x105 then 0xEE
    else 0x00
  }

  function MainImage(): seq<Byte>
  {
    seq(MemorySize, i => MainImageByte(i))
  }

  /** The state `main` builds before calling `run`. */
  function MainStart(): Cpu
  {
    var s := Boot(MainImage());
    s.(regs := s.regs[0 := 5][1 := 10])
  }

  /** A state about to run the program of `main`: the six code words in
      memory, V0 = 5, V1 = 10, counter at 0, stack empty. */
  predicate MainReady(s: Cpu)
  {
    && s.mem[0x000] == 0x21 && s.mem[0x001] == 0x00
    && s.mem[0x002] == 0x21 && s.mem[0x003] == 0x00
    && s.mem[0x004] == 0x00 && s.mem[0x005] == 0x00
    && s.mem[0x100] == 0x80 && s.mem[0x101] == 0x14
    && s.mem[0x102] == 0x80 && s.mem[0x103] == 0x14
    && s.mem[0x104] == 0x00 && s.mem[0x105] == 0xEE
    && s.regs[0] == 5 && s.regs[1] == 10
    && s.pc == 0 && s.sp == 0
  }

  /** The state `main` builds is ready to run its program. */
  lemma MainStartReady()
    ensures MainReady(MainStart())
  {
  }

  /** How many subroutine visits have completed, or which one is running. */
  type VisitCount = n: int | 0 <= n <= 2

  /** How many of the subroutine's two adds have run. */
  type AddCount = n: int | 0 <= n <= 2

  /** Inside the subroutine on visit `visit` (1 or 2), after `adds` of its
      two adds, with the return address of that visit on the stack. */
  function InSubroutine(s: Cpu, visit: VisitCount, adds: AddCount): Cpu
  {
    var v0 := if visit == 0 then 5 else 5 + 10 * (2 * (visit - 1) + adds);
    s.(regs := s.regs[0 := v0],
       stack := s.stack[0 := 2 * visit],
       sp := 1,
       pc := 0x100 + 2 * adds)
  }

  /** Back in the main program after `visit` subroutine visits. */
  function Returned(s: Cpu, visit: VisitCount): Cpu
  {
    s.(regs := s.regs[0 := 5 + 20 * visit],
       stack := if visit == 0 then s.stack else s.stack[0 := 2 * visit],
       pc := 2 * visit)
  }

  // The cycle lemmas below state readiness as a hypothesis of their
  // conclusion rather than as a precondition, so that a caller holding
  // several of them is not asked to re-establish it at every call.

  lemma StartIsReturned(s: Cpu)
    ensures MainReady(s) ==> Returned(s, 0) == s
  {
    if MainReady(s) {
      assert s.regs[0 := 5] == s.regs;
    }
  }

  /** `2100` at 0 and at 2 calls the subroutine, pushing 2 and 4. */
  lemma CallCycle(s: Cpu, visit: VisitCount)
    ensures MainReady(s) && visit <= 1 ==>
            Step(Returned(s, visit)) == Next(InSubroutine(s, visit + 1, 0), Quiet)
  {
    if MainReady(s) && visit <= 1 {
      var t := Returned(s, visit);
      Properties.FetchWord(t, 2, 1, 0, 0);
      Properties.DecodeWord(2, 1, 0, 0);
      assert t.stack[0 := 2 * visit + 2] == s.stack[0 := 2 * (visit + 1)];
    }
  }

  /** `8014` at 0x100 and 0x102 adds V1 = 10 to V0 without overflow. */
  lemma AddCycle(s: Cpu, visit: VisitCount, adds: AddCount)
    ensures MainReady(s) && 1 <= visit && adds < 2 ==>
            Step(InSubroutine(s, visit, adds)) == Next(InSubroutine(s, visit, adds + 1), Quiet)
  {
    if MainReady(s) && 1 <= visit && adds < 2 {
      var t := InSubroutine(s, visit, adds);
      Properties.FetchWord(t, 8, 0, 1, 4);
      Properties.DecodeWord(8, 0, 1, 4);
      assert Step(t) == Execute(t.(pc := t.pc + 2), AddXY(0, 1));
      assert t.regs[0 := t.regs[0] + t.regs[1]] == s.regs[0 := 5 + 10 * (2 * (visit - 1) + adds + 1)];
    }
  }

  /** `00EE` at 0x104 returns to the address the visit's call pushed. */
  lemma ReturnCycle(s: Cpu, visit: VisitCount)
    ensures MainReady(s) && 1 <= visit ==>
            Step(InSubroutine(s, visit, 2)) == Next(Returned(s, visit), Quiet)
  {
    if MainReady(s) && 1 <= visit {
      var t := InSubroutine(s, visit, 2);
      Properties.FetchWord(t, 0, 0, 0xE, 0xE);
      Properties.DecodeWord(0, 0, 0xE, 0xE);
    }
  }

  /** Four quiet cycles through a, b, c, d, e cost four units of fuel. */
  lemma FourQuietCycles(step: Cpu -> StepResult, a: Cpu, b: Cpu, c: Cpu, d: Cpu, e: Cpu, fuel: nat)
    requires 4 <= fuel
    requires step(a) == Next(b, Quiet) && step(b) == Next(c, Quiet)
    requires step(c) == Next(d, Quiet) && step(d) == Next(e, Quiet)
    ensures RunWith(step, a, fuel) == RunWith(step, e, fuel - 4)
  {
    Properties.QuietCycle(step, a, b, fuel);
    Properties.QuietCycle(step, b, c, fuel - 1);
    Properties.QuietCycle(step, c, d, fuel - 2);
    Properties.QuietCycle(step, d, e, fuel - 3);
  }

  /** One visit to the subroutine: call, two adds, return. */
  lemma Visit(s: Cpu, visit: VisitCount, fuel: nat)
    ensures MainReady(s) && visit <= 1 && 4 <= fuel ==>
            Run(Returned(s, visit), fuel) == Run(Returned(s, visit + 1), fuel - 4)
  {
    if MainReady(s) && visit <= 1 && 4 <= fuel {
      var next: VisitCount := visit + 1;
      var called, added, addedTwice := InSubroutine(s, next, 0), InSubroutine(s, next, 1), InSubroutine(s, next, 2);
      CallCycle(s, visit);
      AddCycle(s, next, 0);
      AddCycle(s, next, 1);
      ReturnCycle(s, next);
      FourQuietCycles(Step, Returned(s, visit), called, added, addedTwice, Returned(s, next), fuel);
    }
  }

  /** Back from the second visit, the halt word stops the run. */
  lemma HaltAfterVisits(s: Cpu, fuel: nat)
    ensures MainReady(s) && fuel >= 1 ==>
            Run(Returned(s, 2), fuel) == Halted(Returned(s, 2).(pc := 6), 0)
  {
    if MainReady(s) && fuel >= 1 {
      Properties.FetchWord(Returned(s, 2), 0, 0, 0, 0);
      Properties.HaltStops(Returned(s, 2), fuel);
    }
  }

  /** Where the program of `main` ends: back from both visits, with the
      counter past the halt word. */
  function MainFinal(s: Cpu): Cpu
  {
    Returned(s, 2).(pc := 6)
  }

  lemma MainRunHalts(s: Cpu, fuel: nat)
    ensures MainReady(s) && fuel >= 9 ==> Run(s, fuel) == Halted(MainFinal(s), 0)
  {
    if MainReady(s) && fuel >= 9 {
      var afterFirst: nat, afterSecond: nat := fuel - 4, fuel - 8;
      StartIsReturned(s);
      Visit(s, 0, fuel);
      Visit(s, 1, afterFirst);
      HaltAfterVisits(s, afterSecond);
    }
  }

  /** The program of `main` halts after nine cycles with V0 = 5 + 4·10 = 45,
      V1 still 10, the stack empty, the counter past the halt word, and no
      other register or memory cell changed; any larger fuel gives the same
      result. */
  lemma MainProgramComputes45(s: Cpu, fuel: nat)
    requires MainReady(s) && fuel >= 9
    ensures Run(s, fuel).Halted? && Run(s, fuel).clears == 0
    ensures var t := Run(s, fuel).state;
            t.regs[0] == 45 && t.regs[1] == 10 && t.sp == 0 && t.pc == 6
    ensures var t := Run(s, fuel).state;
            forall i :: 1 <= i < RegisterCount ==> t.regs[i] == s.regs[i]
    ensures Run(s, fuel).state.mem == s.mem
  {
    MainRunHalts(s, fuel);
  }

  /** The same for the state `main` itself builds. */
  lemma MainComputes45(fuel: nat)
    requires fuel >= 9
    ensures Run(MainStart(), fuel).Halted?
    ensures Run(MainStart(), fuel).state.regs[0] == 45
  {
    MainStartReady();
    MainProgramComputes45(MainStart(), fuel);
  }

  // ---------------------------------------------------------------------
  // A ladder of calls: the word at every even address a is `2nnn` with
  // nnn = a + 2, so each call lands on the next call and none returns.

  function LadderImage(): seq<Byte>
  {
    seq(MemorySize, i => if i % 2 == 0 then 0x20 else (i + 1) % 0x100)
  }

  /** A state about to run the ladder: the image in memory, the counter at
      0 and the stack empty. */
  predicate LadderReady(s: Cpu)
  {
    s.mem == LadderImage() && s.pc == 0 && s.sp == 0
  }

  /** A number of stack slots in use. */
  type Depth = n: int | 0 <= n <= StackDepth

  /** The state after `k` of the nested calls: slot j holds the return
      address 2j + 2 of the (j+1)-th call. */
  function Ladder(s: Cpu, k: Depth): Cpu
  {
    s.(stack := seq(StackDepth, j requires 0 <= j < StackDepth => if j < k then 2 * j + 2 else s.stack[j]),
       sp := k,
       pc := 2 * k)
  }

  lemma LadderStart(s: Cpu)
    ensures LadderReady(s) ==> Ladder(s, 0) == s
  {
    if LadderReady(s) {
      assert Ladder(s, 0).stack == s.stack;
    }
  }

  /** A call at depth k writes its return address 2k + 2 into slot k. */
  lemma LadderPush(s: Cpu, k: Depth)
    requires k < StackDepth
    ensures Ladder(s, k).stack[k := 2 * k + 2] == Ladder(s, k + 1).stack
  {
  }

  lemma LadderCycle(s: Cpu, k: Depth)
    ensures LadderReady(s) && k < StackDepth ==> Step(Ladder(s, k)) == Next(Ladder(s, k + 1), Quiet)
  {
    if LadderReady(s) && k < StackDepth {
      var target: Address := 2 * k + 2;
      var hi: Nibble, lo: Nibble := target / 0x10, target % 0x10;
      var t := Ladder(s, k);
      LadderPush(s, k);
      Properties.FetchWord(t, 2, 0, hi, lo);
      Properties.DecodeWord(2, 0, hi, lo);
    }
  }

  lemma LadderOverflows(s: Cpu)
    ensures LadderReady(s) ==> Step(Ladder(s, StackDepth)) == Abort(StackOverflow)
  {
    if LadderReady(s) {
      var t := Ladder(s, StackDepth);
      Properties.FetchWord(t, 2, 0, 2, 2);
      Properties.DecodeWord(2, 0, 2, 2);
    }
  }

  /** From `k` calls deep, the remaining `n` calls succeed until the stack
      is full, and the next one aborts. */
  lemma {:induction false} LadderRun(s: Cpu, k: Depth, n: nat)
    ensures LadderReady(s) && k + n == StackDepth ==>
            Run(Ladder(s, k), n) == OutOfFuel(Ladder(s, StackDepth), 0)
    ensures LadderReady(s) && k + n == StackDepth ==>
            Run(Ladder(s, k), n + 1) == Faulted(StackOverflow)
    decreases n
  {
    if LadderReady(s) && k + n == StackDepth {
      if n == 0 {
        LadderOverflows(s);
      } else {
        var deeper: Depth := k + 1;
        var here, next := Ladder(s, k), Ladder(s, deeper);
        LadderCycle(s, k);
        LadderRun(s, deeper, n - 1);
        Properties.QuietCycle(Step, here, next, n);
        Properties.QuietCycle(Step, here, next, n + 1);
      }
    }
  }

  /** After sixteen nested calls from a ready state the stack pointer is at
      the bound and every slot holds the return address of its call. */
  lemma LadderFull(s: Cpu)
    requires LadderReady(s)
    ensures Run(s, 16).OutOfFuel? && Run(s, 16).clears == 0
    ensures Run(s, 16).state.sp == StackDepth
    ensures forall j :: 0 <= j < StackDepth ==> Run(s, 16).state.stack[j] == 2 * j + 2
  {
    SeventeenthCallOverflows(s);
  }

  /** Seventeen nested calls without a return: the first sixteen succeed and
      fill the stack, the seventeenth aborts with a stack overflow. */
  lemma SeventeenthCallOverflows(s: Cpu)
    requires LadderReady(s)
    ensures Run(s, 16) == OutOfFuel(Ladder(s, 16), 0)
    ensures Run(s, 17) == Faulted(StackOverflow)
  {
    LadderStart(s);
    LadderRun(s, 0, 16);
  }
}
