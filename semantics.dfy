/** The interpreter's state and the effect of each instruction handler, as
    functions on values. `Engine.VM` runs the same handlers in place and is
    proved to agree with these definitions step by step. */
module Semantics {
  import opened Prims
  import Ops
  import opened Isa

  const REGISTER_COUNT: nat := 8

  /** The register file: exactly eight `i32` cells. */
  type Registers = r: seq<i32> | |r| == REGISTER_COUNT witness [0, 0, 0, 0, 0, 0, 0, 0]

  /** A memory region's bytes; its `size` is the length of its data. */
  type Region = seq<u8>

  /** The VM's fields, with `printed` standing for what `print` writes to the console. */
  datatype Machine = Machine(
    pc: usize,
    registers: Registers,
    memory: map<usize, Region>,
    nextFree: usize,
    stack: seq<usize>,
    printed: seq<i32>)

  /** What one step or a bounded run ends in. A panic ends the run, so
      `Faulted` keeps no machine. */
  datatype Status = Running(machine: Machine) | Halted(machine: Machine) | Faulted(fault: Fault)

  /** The state `VM::new` builds. */
  function Init(): Machine {
    Machine(0, [0, 0, 0, 0, 0, 0, 0, 0], map[], 0, [], [])
  }

  function Zeros(n: nat): (z: Region)
    ensures |z| == n && forall i :: 0 <= i < n ==> z[i] == 0
  {
    seq(n, _ => 0)
  }

  /** `t` is `m` with register `d` set to `x`: no other register and no other field differs. */
  predicate WritesRegister(m: Machine, t: Machine, d: int, x: i32) {
    0 <= d < REGISTER_COUNT && t.registers[d] == x
    && (forall k :: 0 <= k < REGISTER_COUNT && k != d ==> t.registers[k] == m.registers[k])
    && t == m.(registers := t.registers)
  }

  /** `set_reg`: writes a valid register; an invalid index changes nothing. */
  function SetReg(m: Machine, r: usize, v: i32): (t: Machine)
    ensures r < REGISTER_COUNT ==> WritesRegister(m, t, r, v)
    ensures r >= REGISTER_COUNT ==> t == m
  {
    if r < REGISTER_COUNT then m.(registers := m.registers[r := v]) else m
  }

  /** `binary_op`: with any invalid index nothing changes; otherwise both
      operands are read from the registers before `d` is written, and the
      closure's panic ends the run. */
  function BinaryOp(m: Machine, op: Ops.ArithOp, a: usize, b: usize, d: usize): (t: Checked<Machine>)
    ensures !(a < REGISTER_COUNT && b < REGISTER_COUNT && d < REGISTER_COUNT) ==> t == Ok(m)
    ensures a < REGISTER_COUNT && b < REGISTER_COUNT && d < REGISTER_COUNT ==>
      match Ops.Apply(op, m.registers[a], m.registers[b])
      case Ok(x) => t.Ok? && WritesRegister(m, t.value, d, x)
      case Panic(f) => t == Panic(f)
  {
    if a < REGISTER_COUNT && b < REGISTER_COUNT && d < REGISTER_COUNT then
      match Ops.Apply(op, m.registers[a], m.registers[b])
      case Ok(x) => Ok(m.(registers := m.registers[d := x]))
      case Panic(f) => Panic(f)
    else
      Ok(m)
  }

  /** `compare_op`: with any invalid index nothing changes; otherwise `d`
      becomes 1 when the comparison of the two operands holds and 0 when not. */
  function CompareOp(m: Machine, op: Ops.CmpOp, a: usize, b: usize, d: usize): (t: Machine)
    ensures !(a < REGISTER_COUNT && b < REGISTER_COUNT && d < REGISTER_COUNT) ==> t == m
    ensures a < REGISTER_COUNT && b < REGISTER_COUNT && d < REGISTER_COUNT ==>
      (t.registers[d] == 1 || t.registers[d] == 0)
      && (t.registers[d] == 1 <==> Ops.Holds(op, m.registers[a], m.registers[b]))
      && WritesRegister(m, t, d, t.registers[d])
  {
    if a < REGISTER_COUNT && b < REGISTER_COUNT && d < REGISTER_COUNT then
      var flag := if Ops.Holds(op, m.registers[a], m.registers[b]) then 1 else 0;
      m.(registers := m.registers[d := flag])
    else
      m
  }

  /** `allocate_memory`: puts `size` zero bytes at the cursor, replacing any
      region already there, and advances the cursor by exactly `size`. Building
      the buffer panics above `isize::MAX` bytes; advancing the cursor panics
      when it would leave the `usize` range. */
  function AllocateMemory(m: Machine, size: usize): (t: Checked<Machine>)
    ensures size > ISIZE_MAX ==> t == Panic(CapacityOverflow)
    ensures size <= ISIZE_MAX ==> (t.Panic? <==> m.nextFree + size >= USIZE_LIMIT)
    ensures size <= ISIZE_MAX && m.nextFree + size >= USIZE_LIMIT ==> t == Panic(Overflow)
    ensures t.Panic? ==> t.fault == CapacityOverflow || t.fault == Overflow
    ensures t.Ok? ==>
      var u := t.value;
      u.nextFree == m.nextFree + size
      && m.nextFree in u.memory && |u.memory[m.nextFree]| == size
      && (forall i :: 0 <= i < size ==> u.memory[m.nextFree][i] == 0)
      && (forall a :: a != m.nextFree ==> (a in u.memory <==> a in m.memory))
      && (forall a :: a != m.nextFree && a in m.memory ==> u.memory[a] == m.memory[a])
      && u == m.(memory := u.memory, nextFree := u.nextFree)
  {
    if size > ISIZE_MAX then Panic(CapacityOverflow)
    else if m.nextFree + size >= USIZE_LIMIT then Panic(Overflow)
    else Ok(m.(memory := m.memory[m.nextFree := Zeros(size)], nextFree := m.nextFree + size))
  }

  /** `free_memory`: removes the region at `address`, if any, and nothing else;
      the cursor does not move. */
  function FreeMemory(m: Machine, address: usize): (t: Machine)
    ensures address !in t.memory
    ensures forall a :: a != address ==> (a in t.memory <==> a in m.memory)
    ensures forall a :: a != address && a in m.memory ==> t.memory[a] == m.memory[a]
    ensures t == m.(memory := t.memory)
  {
    m.(memory := m.memory - {address})
  }

  /** `store_to_memory`: when a region lives at `address` and `offset` is
      below its size, writes the low byte of register `r` there and changes no
      other byte, region or field; indexing an invalid register then panics.
      A missing region or an offset out of bounds changes nothing. */
  function StoreToMemory(m: Machine, address: usize, r: usize, offset: usize): (t: Checked<Machine>)
    ensures address !in m.memory || offset >= |m.memory[address]| ==> t == Ok(m)
    ensures address in m.memory && offset < |m.memory[address]| && r >= REGISTER_COUNT ==>
      t == Panic(IndexOutOfBounds)
    ensures address in m.memory && offset < |m.memory[address]| && r < REGISTER_COUNT ==>
      t.Ok?
      && var u, old_bytes := t.value, m.memory[address];
      u.memory.Keys == m.memory.Keys
      && |u.memory[address]| == |old_bytes|
      && u.memory[address][offset] == LowByte(m.registers[r])
      && (forall i :: 0 <= i < |old_bytes| && i != offset ==> u.memory[address][i] == old_bytes[i])
      && (forall a :: a in m.memory && a != address ==> u.memory[a] == m.memory[a])
      && u == m.(memory := u.memory)
  {
    if address in m.memory && offset < |m.memory[address]| then
      if r < REGISTER_COUNT then
        var bytes := m.memory[address];
        Ok(m.(memory := m.memory[address := bytes[offset := LowByte(m.registers[r])]]))
      else
        Panic(IndexOutOfBounds)
    else
      Ok(m)
  }

  /** `load_from_memory`: sets register `r` to byte 0 of the region at
      `address`, zero-extended. A missing region changes nothing; an empty
      region or an invalid register panics on indexing. */
  function LoadFromMemory(m: Machine, address: usize, r: usize): (t: Checked<Machine>)
    ensures address !in m.memory ==> t == Ok(m)
    ensures address in m.memory && (|m.memory[address]| == 0 || r >= REGISTER_COUNT) ==>
      t == Panic(IndexOutOfBounds)
    ensures address in m.memory && |m.memory[address]| > 0 && r < REGISTER_COUNT ==>
      t.Ok? && WritesRegister(m, t.value, r, m.memory[address][0])
      && 0 <= t.value.registers[r] < 256
  {
    if address in m.memory then
      var bytes := m.memory[address];
      if |bytes| > 0 && r < REGISTER_COUNT then
        Ok(m.(registers := m.registers[r := bytes[0]]))
      else
        Panic(IndexOutOfBounds)
    else
      Ok(m)
  }

  /** `jump`: moves `pc` forward by `offset` exactly when the target is an
      instruction of the program of length `len`; otherwise nothing changes.
      Computing `pc + offset` panics if it leaves the `usize` range. */
  function Jump(m: Machine, len: nat, offset: usize): (t: Checked<Machine>)
    ensures m.pc + offset >= USIZE_LIMIT ==> t == Panic(Overflow)
    ensures m.pc + offset < USIZE_LIMIT ==>
      t.Ok? && t.value == m.(pc := t.value.pc)
      && (t.value.pc == m.pc + offset <==> m.pc + offset < len || offset == 0)
      && (m.pc + offset >= len ==> t.value.pc == m.pc)
  {
    if m.pc + offset >= USIZE_LIMIT then Panic(Overflow)
    else if m.pc + offset < len then Ok(m.(pc := m.pc + offset))
    else Ok(m)
  }

  /** `jump_if_zero`: when register `r` holds 0, jumps as `jump` does (the
      same overflow panic, the same bounds check); otherwise changes nothing.
      The register index is not checked, so an invalid one panics. */
  function JumpIfZero(m: Machine, len: nat, r: usize, offset: usize): (t: Checked<Machine>)
    ensures r >= REGISTER_COUNT ==> t == Panic(IndexOutOfBounds)
    ensures r < REGISTER_COUNT && m.registers[r] == 0 ==> t == Jump(m, len, offset)
    ensures r < REGISTER_COUNT && m.registers[r] != 0 ==> t == Ok(m)
  {
    if r >= REGISTER_COUNT then Panic(IndexOutOfBounds)
    else if m.registers[r] == 0 then Jump(m, len, offset)
    else Ok(m)
  }

  /** `jump_if_non_zero`: when register `r` is not 0, jumps as `jump` does;
      otherwise changes nothing. The register index is not checked, so an
      invalid one panics. */
  function JumpIfNonZero(m: Machine, len: nat, r: usize, offset: usize): (t: Checked<Machine>)
    ensures r >= REGISTER_COUNT ==> t == Panic(IndexOutOfBounds)
    ensures r < REGISTER_COUNT && m.registers[r] != 0 ==> t == Jump(m, len, offset)
    ensures r < REGISTER_COUNT && m.registers[r] == 0 ==> t == Ok(m)
  {
    if r >= REGISTER_COUNT then Panic(IndexOutOfBounds)
    else if m.registers[r] != 0 then Jump(m, len, offset)
    else Ok(m)
  }

  /** `print`: emits the value of a valid register and changes no state. */
  function Print(m: Machine, r: usize): (t: Machine)
    ensures r < REGISTER_COUNT ==> t.printed == m.printed + [m.registers[r]]
    ensures r >= REGISTER_COUNT ==> t.printed == m.printed
    ensures t == m.(printed := t.printed)
  {
    if r < REGISTER_COUNT then m.(printed := m.printed + [m.registers[r]]) else m
  }

  /** `call`: pushes the current `pc` and moves forward by `offset` with no
      bounds check; `pc + offset` panics if it leaves the `usize` range. */
  function Call(m: Machine, offset: usize): (t: Checked<Machine>)
    ensures m.pc + offset >= USIZE_LIMIT ==> t == Panic(Overflow)
    ensures m.pc + offset < USIZE_LIMIT ==>
      t.Ok? && t.value.stack == m.stack + [m.pc] && t.value.pc == m.pc + offset
      && t.value == m.(pc := t.value.pc, stack := t.value.stack)
  {
    if m.pc + offset >= USIZE_LIMIT then Panic(Overflow)
    else Ok(m.(stack := m.stack + [m.pc], pc := m.pc + offset))
  }

  /** `return_from_function`: pops the most recently saved `pc` and resumes
      there; an empty stack changes nothing. */
  function Return(m: Machine): (t: Machine)
    ensures m.stack == [] ==> t == m
    ensures m.stack != [] ==> t.stack + [t.pc] == m.stack
    ensures t == m.(pc := t.pc, stack := t.stack)
  {
    if m.stack == [] then m
    else m.(pc := m.stack[|m.stack| - 1], stack := m.stack[..|m.stack| - 1])
  }

  function Lift(t: Checked<Machine>): Status {
    match t
    case Ok(u) => Running(u)
    case Panic(f) => Faulted(f)
  }

  /** The handler for `instr` run on `m`, the machine after the fetch; `len`
      is the program's length, which `jump` checks targets against. */
  function Execute(m: Machine, instr: Instr, len: nat): Status {
    match instr
    case SetReg(r, v) => Running(SetReg(m, r, v))
    case Add(a, b, d) => Lift(BinaryOp(m, Ops.ArithOp.Add, a, b, d))
    case Sub(a, b, d) => Lift(BinaryOp(m, Ops.ArithOp.Sub, a, b, d))
    case Mul(a, b, d) => Lift(BinaryOp(m, Ops.ArithOp.Mul, a, b, d))
    case Div(a, b, d) => Lift(BinaryOp(m, Ops.ArithOp.Div, a, b, d))
    case Mod(a, b, d) => Lift(BinaryOp(m, Ops.ArithOp.Mod, a, b, d))
    case Eq(a, b, d) => Running(CompareOp(m, Ops.CmpOp.Eq, a, b, d))
    case Neq(a, b, d) => Running(CompareOp(m, Ops.CmpOp.Neq, a, b, d))
    case Gt(a, b, d) => Running(CompareOp(m, Ops.CmpOp.Gt, a, b, d))
    case Lt(a, b, d) => Running(CompareOp(m, Ops.CmpOp.Lt, a, b, d))
    case Gte(a, b, d) => Running(CompareOp(m, Ops.CmpOp.Gte, a, b, d))
    case Lte(a, b, d) => Running(CompareOp(m, Ops.CmpOp.Lte, a, b, d))
    case Jump(off) => Lift(Jump(m, len, off))
    case JumpIfZero(r, off) => Lift(JumpIfZero(m, len, r, off))
    case JumpIfNonZero(r, off) => Lift(JumpIfNonZero(m, len, r, off))
    case Print(r) => Running(Print(m, r))
    case Halt => Halted(m)
    case AllocateMemory(size) => Lift(AllocateMemory(m, size))
    case FreeMemory(address) => Running(FreeMemory(m, address))
    case StoreToMemory(address, r, off) => Lift(StoreToMemory(m, address, r, off))
    case LoadFromMemory(address, r) => Lift(LoadFromMemory(m, address, r))
    case Call(off) => Lift(Call(m, off))
    case Return => Running(Return(m))
  }

  /** One iteration of `run`'s loop: stop when `pc` is past the end;
      otherwise fetch `program[pc]`, advance `pc` and dispatch. */
  function Step(program: Program, m: Machine): (s: Status)
    ensures s.Halted? <==> m.pc >= |program| || program[m.pc].Halt?
    ensures m.pc >= |program| ==> s == Halted(m)
    ensures m.pc < |program| && program[m.pc].Halt? ==> s == Halted(m.(pc := m.pc + 1))
  {
    if m.pc >= |program| then Halted(m)
    else Execute(m.(pc := m.pc + 1), program[m.pc], |program|)
  }

  /** `run` cut off after at most `fuel` steps: `Running` means the fuel ran out. */
  function Run(program: Program, m: Machine, fuel: nat): Status
    decreases fuel
  {
    if fuel == 0 then Running(m)
    else
      match Step(program, m)
      case Running(t) => Run(program, t, fuel - 1)
      case other => other
  }

  /** A run of `n > 0` steps is one step, then, if that step left the
      machine running, a run of `n - 1` steps. */
  lemma RunUnroll(program: Program, m: Machine, n: nat)
    requires n > 0
    ensures Step(program, m).Running? ==> Run(program, m, n) == Run(program, Step(program, m).machine, n - 1)
    ensures !Step(program, m).Running? ==> Run(program, m, n) == Step(program, m)
  {
  }
}
