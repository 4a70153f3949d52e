/** One state transition per instruction handler of the interpreter. Each
    handler receives the state with the program counter already advanced past
    the instruction being executed. */
module Handlers {
  import opened Machine

  /** `00EE`: pop the top return address into the program counter. An empty
      stack aborts. */
  function Ret(s: State): (r: Result<State>)
    requires Valid(s)
    ensures r.Err? <==> s.sp == 0
    ensures r.Err? ==> r.fault == StackUnderflow
    ensures r.Ok? ==> Valid(r.value)
    ensures r.Ok? ==> r.value.sp + 1 == s.sp && r.value.pc == s.stack[r.value.sp]
    ensures r.Ok? ==> r.value.regs == s.regs && r.value.mem == s.mem && r.value.stack == s.stack
  {
    if s.sp == 0 then
      Err(StackUnderflow)
    else
      var sp := s.sp - 1;
      Ok(s.(sp := sp, pc := s.stack[sp]))
  }

  /** `2nnn`: save the program counter, truncated to 16 bits, in the slot at
      the stack pointer, push, and jump. The interpreter guards with
      `sp > 16` and then indexes the 16-slot array, so a full stack aborts
      through the index check; both are the single test below. */
  function Call(s: State, addr: Address): (r: Result<State>)
    requires Valid(s)
    ensures r.Err? <==> s.sp >= StackDepth
    ensures r.Err? ==> r.fault == StackOverflow
    ensures r.Ok? ==> Valid(r.value)
    ensures r.Ok? ==> r.value.pc == addr && r.value.sp == s.sp + 1
    ensures r.Ok? ==> r.value.stack[s.sp] % 0x10000 == s.pc % 0x10000
    ensures r.Ok? && s.pc < 0x10000 ==> r.value.stack[s.sp] == s.pc
    ensures r.Ok? ==> forall i :: 0 <= i < StackDepth && i != s.sp ==> r.value.stack[i] == s.stack[i]
    ensures r.Ok? ==> r.value.regs == s.regs && r.value.mem == s.mem
  {
    if s.sp >= StackDepth then
      Err(StackOverflow)
    else
      Ok(s.(stack := s.stack[s.sp := s.pc % 0x10000], sp := s.sp + 1, pc := addr))
  }

  /** `3xkk` and `5xy0`: skip the next instruction when the two arguments are
      equal. */
  function Se(s: State, a: Byte, b: Byte): (r: State)
    ensures r.pc == s.pc + 2 <==> a == b
    ensures r.pc == s.pc <==> a != b
    ensures r == s.(pc := r.pc)
  {
    if a == b then s.(pc := s.pc + 2) else s
  }

  /** `4xkk`: skip the next instruction when the two arguments differ. */
  function Sne(s: State, a: Byte, b: Byte): (r: State)
    ensures r.pc == s.pc + 2 <==> a != b
    ensures r.pc == s.pc <==> a == b
    ensures r == s.(pc := r.pc)
  {
    if a != b then s.(pc := s.pc + 2) else s
  }

  /** `6xkk` and `8xy0`: load a byte into register `x`. */
  function Ld(s: State, x: Nibble, kk: Byte): (r: State)
    requires Valid(s)
    ensures Valid(r)
    ensures r.regs[x] == kk && OthersUnchanged(s.regs, r.regs, x)
    ensures r == s.(regs := r.regs)
  {
    s.(regs := s.regs[x := kk])
  }

  /** `7xkk`: add a byte to register `x`, wrapping modulo 256 (the release
      build behaviour of `+=` on `u8`). */
  function Add(s: State, x: Nibble, kk: Byte): (r: State)
    requires Valid(s)
    ensures Valid(r)
    ensures s.regs[x] as int + kk < 0x100 ==> r.regs[x] == s.regs[x] as int + kk
    ensures s.regs[x] as int + kk >= 0x100 ==> r.regs[x] == s.regs[x] as int + kk - 0x100
    ensures OthersUnchanged(s.regs, r.regs, x)
    ensures r == s.(regs := r.regs)
  {
    s.(regs := s.regs[x := (s.regs[x] as int + kk) % 0x100])
  }

  /** `8xy1`: register `x` becomes the bitwise OR of registers `x` and `y`. */
  function OrXY(s: State, x: Nibble, y: Nibble): (r: State)
    requires Valid(s)
    ensures Valid(r)
    ensures r.regs[x] == BitOr(s.regs[x], s.regs[y]) && OthersUnchanged(s.regs, r.regs, x)
    ensures r == s.(regs := r.regs)
  {
    var vx := s.regs[x];
    var vy := s.regs[y];
    s.(regs := s.regs[x := BitOr(vx, vy)])
  }

  /** `8xy2`: register `x` becomes the bitwise AND of registers `x` and `y`. */
  function AndXY(s: State, x: Nibble, y: Nibble): (r: State)
    requires Valid(s)
    ensures Valid(r)
    ensures r.regs[x] == BitAnd(s.regs[x], s.regs[y]) && OthersUnchanged(s.regs, r.regs, x)
    ensures r == s.(regs := r.regs)
  {
    var vx := s.regs[x];
    var vy := s.regs[y];
    s.(regs := s.regs[x := BitAnd(vx, vy)])
  }

  /** `8xy3`: register `x` becomes the bitwise XOR of registers `x` and `y`. */
  function XorXY(s: State, x: Nibble, y: Nibble): (r: State)
    requires Valid(s)
    ensures Valid(r)
    ensures r.regs[x] == BitXor(s.regs[x], s.regs[y]) && OthersUnchanged(s.regs, r.regs, x)
    ensures r == s.(regs := r.regs)
  {
    var vx := s.regs[x];
    var vy := s.regs[y];
    s.(regs := s.regs[x := BitXor(vx, vy)])
  }

  /** `8xy4`: store the wrapped sum of registers `x` and `y` in register `x`,
      then abort if the addition overflowed. No flag register is written. */
  function AddXY(s: State, x: Nibble, y: Nibble): (r: Result<State>)
    requires Valid(s)
    ensures r.Err? <==> s.regs[x] as int + s.regs[y] > 0xFF
    ensures r.Err? ==> r.fault == AddOverflow
    ensures r.Ok? ==> Valid(r.value)
    ensures r.Ok? ==> r.value.regs[x] == s.regs[x] as int + s.regs[y]
    ensures r.Ok? ==> OthersUnchanged(s.regs, r.value.regs, x)
    ensures r.Ok? ==> r.value == s.(regs := r.value.regs)
  {
    var vx := s.regs[x];
    var vy := s.regs[y];
    var overflow := vx as int + vy > 0xFF;
    var written := s.(regs := s.regs[x := (vx as int + vy) % 0x100]);
    if overflow then Err(AddOverflow) else Ok(written)
  }
}
