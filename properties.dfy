/** What the interpreter guarantees across instructions and whole runs:
    the memory arena's layout invariant, the cursor's monotonicity, that a
    freed address never becomes live again, and the call/return discipline. */
module Properties {
  import opened Prims
  import Ops
  import Isa
  import opened Semantics

  /** Every live region lies wholly below the allocation cursor. A region of
      size zero may sit exactly at the cursor, so the address alone need not be
      below it. */
  ghost predicate RegionsBelowCursor(m: Machine) {
    forall a :: a in m.memory ==> a + |m.memory[a]| <= m.nextFree
  }

  /** Live regions never overlap: a region ends at or before the next one starts. */
  ghost predicate RegionsDisjoint(m: Machine) {
    forall a, b :: a in m.memory && b in m.memory && a < b ==> a + |m.memory[a]| <= b
  }

  /** Every saved return address is the position right after a `Call` of the program. */
  ghost predicate ReturnsFollowCalls(program: Isa.Program, m: Machine) {
    forall i :: 0 <= i < |m.stack| ==> 0 < m.stack[i] <= |program| && program[m.stack[i] - 1].Call?
  }

  ghost predicate Wf(program: Isa.Program, m: Machine) {
    RegionsBelowCursor(m) && RegionsDisjoint(m) && ReturnsFollowCalls(program, m)
  }

  /** A fresh VM: `pc` 0, all registers 0, no memory, cursor 0, empty stack. */
  lemma InitWf(program: Isa.Program)
    ensures Init().pc == 0 && Init().nextFree == 0 && Init().memory == map[] && Init().stack == []
    ensures forall k :: 0 <= k < REGISTER_COUNT ==> Init().registers[k] == 0
    ensures Wf(program, Init())
  {
  }

  /** Allocation keeps the arena's layout: the new region starts at the old
      cursor, above every live region, and ends at the new one. */
  lemma AllocatePreservesLayout(m: Machine, size: usize)
    requires RegionsBelowCursor(m) && RegionsDisjoint(m)
    requires AllocateMemory(m, size).Ok?
    ensures RegionsBelowCursor(AllocateMemory(m, size).value)
    ensures RegionsDisjoint(AllocateMemory(m, size).value)
  {
    var u := AllocateMemory(m, size).value;
    forall a, b | a in u.memory && b in u.memory && a < b
      ensures a + |u.memory[a]| <= b
    {
      if b == m.nextFree {
        assert a in m.memory;
      } else {
        assert a != m.nextFree by {
          assert b in m.memory;
        }
      }
    }
  }

  /** The arena's shape survives: same cursor, no new address, no region resized. */
  ghost predicate KeepsRegionShape(m: Machine, t: Machine) {
    t.nextFree == m.nextFree
    && forall a :: a in t.memory ==> a in m.memory && |t.memory[a]| == |m.memory[a]|
  }

  lemma ShapeKeepsLayout(m: Machine, t: Machine)
    requires RegionsBelowCursor(m) && RegionsDisjoint(m) && KeepsRegionShape(m, t)
    ensures RegionsBelowCursor(t) && RegionsDisjoint(t)
  {
  }

  /** The handlers that do not touch the arena leave it as it was. */
  lemma ExecuteKeepsArena(m: Machine, instr: Isa.Instr, len: nat)
    requires !instr.AllocateMemory? && !instr.FreeMemory? && !instr.StoreToMemory?
    ensures !Execute(m, instr, len).Faulted? ==>
      Execute(m, instr, len).machine.memory == m.memory
      && Execute(m, instr, len).machine.nextFree == m.nextFree
  {
    match instr {
      case SetReg(_, _) =>
      case Add(_, _, _) =>
      case Sub(_, _, _) =>
      case Mul(_, _, _) =>
      case Div(_, _, _) =>
      case Mod(_, _, _) =>
      case Eq(_, _, _) =>
      case Neq(_, _, _) =>
      case Gt(_, _, _) =>
      case Lt(_, _, _) =>
      case Gte(_, _, _) =>
      case Lte(_, _, _) =>
      case Jump(_) =>
      case JumpIfZero(_, _) =>
      case JumpIfNonZero(_, _) =>
      case Print(_) =>
      case Halt =>
      case LoadFromMemory(_, _) =>
      case Call(_) =>
      case Return =>
    }
  }

  /** Every step but one that fetches `AllocateMemory` keeps the arena's shape. */
  lemma StepRegionShape(program: Isa.Program, m: Machine)
    requires m.pc < |program| ==> !program[m.pc].AllocateMemory?
    ensures !Step(program, m).Faulted? ==> KeepsRegionShape(m, Step(program, m).machine)
  {
    if m.pc >= |program| {
      return;
    }
    var m1 := m.(pc := m.pc + 1);
    var instr := program[m.pc];
    if instr.FreeMemory? {
      assert Step(program, m).machine == FreeMemory(m1, instr.address);
    } else if instr.StoreToMemory? {
      if StoreToMemory(m1, instr.address, instr.reg, instr.offset).Ok? {
        assert Step(program, m).machine == StoreToMemory(m1, instr.address, instr.reg, instr.offset).value;
      }
    } else {
      ExecuteKeepsArena(m1, instr, |program|);
    }
  }

  /** Every step that does not panic keeps the arena's layout. */
  lemma StepPreservesLayout(program: Isa.Program, m: Machine)
    requires RegionsBelowCursor(m) && RegionsDisjoint(m)
    ensures !Step(program, m).Faulted? ==>
      RegionsBelowCursor(Step(program, m).machine) && RegionsDisjoint(Step(program, m).machine)
  {
    if m.pc < |program| {
      if program[m.pc].AllocateMemory? {
        var m1, size := m.(pc := m.pc + 1), program[m.pc].size;
        if AllocateMemory(m1, size).Ok? {
          AllocatePreservesLayout(m1, size);
        }
      } else if !Step(program, m).Faulted? {
        StepRegionShape(program, m);
        ShapeKeepsLayout(m, Step(program, m).machine);
      }
    }
  }

  /** Every step that does not panic keeps the return addresses after calls. */
  lemma StepPreservesReturns(program: Isa.Program, m: Machine)
    requires ReturnsFollowCalls(program, m)
    ensures !Step(program, m).Faulted? ==> ReturnsFollowCalls(program, Step(program, m).machine)
  {
    if m.pc < |program| {
      var m1 := m.(pc := m.pc + 1);
      var instr := program[m.pc];
      if instr.Call? {
        if Call(m1, instr.offset).Ok? {
          var u := Call(m1, instr.offset).value;
          assert forall i :: 0 <= i < |m.stack| ==> u.stack[i] == m.stack[i];
        }
      } else if instr.Return? {
        var u := Return(m1);
        assert forall i :: 0 <= i < |u.stack| ==> u.stack[i] == m.stack[i];
      } else {
        assert !Step(program, m).Faulted? ==> Step(program, m).machine.stack == m.stack;
      }
    }
  }

  /** Every step that does not panic keeps the invariant. */
  lemma StepPreservesWf(program: Isa.Program, m: Machine)
    requires Wf(program, m)
    ensures !Step(program, m).Faulted? ==> Wf(program, Step(program, m).machine)
  {
    StepPreservesLayout(program, m);
    StepPreservesReturns(program, m);
  }

  /** A bounded run that does not panic ends in a state that keeps the invariant. */
  lemma {:induction false} RunPreservesWf(program: Isa.Program, m: Machine, fuel: nat)
    requires Wf(program, m)
    ensures !Run(program, m, fuel).Faulted? ==> Wf(program, Run(program, m, fuel).machine)
    decreases fuel
  {
    if fuel > 0 {
      StepPreservesWf(program, m);
      if Step(program, m).Running? {
        RunPreservesWf(program, Step(program, m).machine, fuel - 1);
      }
    }
  }

  /** A run halts only past the end of the program or just after fetching `Halt`. */
  lemma {:induction false} HaltedRunStoppedProperly(program: Isa.Program, m: Machine, fuel: nat)
    ensures Run(program, m, fuel).Halted? ==>
      var t := Run(program, m, fuel).machine;
      t.pc >= |program| || (0 < t.pc <= |program| && program[t.pc - 1].Halt?)
    decreases fuel
  {
    if fuel > 0 && Step(program, m).Running? {
      HaltedRunStoppedProperly(program, Step(program, m).machine, fuel - 1);
    }
  }

  /** No step moves the allocation cursor backwards. */
  lemma StepCursorMonotone(program: Isa.Program, m: Machine)
    ensures !Step(program, m).Faulted? ==> Step(program, m).machine.nextFree >= m.nextFree
  {
  }

  /** No run moves the allocation cursor backwards. */
  lemma {:induction false} RunCursorMonotone(program: Isa.Program, m: Machine, fuel: nat)
    ensures !Run(program, m, fuel).Faulted? ==> Run(program, m, fuel).machine.nextFree >= m.nextFree
    decreases fuel
  {
    if fuel > 0 {
      StepCursorMonotone(program, m);
      if Step(program, m).Running? {
        RunCursorMonotone(program, Step(program, m).machine, fuel - 1);
      }
    }
  }

  /** An address below the cursor with no live region stays without one after a step. */
  lemma StepKeepsFreed(program: Isa.Program, m: Machine, address: usize)
    requires address < m.nextFree && address !in m.memory
    ensures !Step(program, m).Faulted? ==>
      var t := Step(program, m).machine;
      address < t.nextFree && address !in t.memory
  {
    if m.pc < |program| && !Step(program, m).Faulted? {
      StepCursorMonotone(program, m);
      if !program[m.pc].AllocateMemory? {
        StepRegionShape(program, m);
      }
    }
  }

  /** Freed addresses are never reused: once an address below the cursor has
      no live region, no later allocation, whatever the program does, puts a
      region there again. */
  lemma {:induction false} FreedAddressNeverReused(program: Isa.Program, m: Machine, fuel: nat, address: usize)
    requires address < m.nextFree && address !in m.memory
    ensures !Run(program, m, fuel).Faulted? ==> address !in Run(program, m, fuel).machine.memory
    decreases fuel
  {
    if fuel > 0 {
      StepKeepsFreed(program, m, address);
      if Step(program, m).Running? {
        FreedAddressNeverReused(program, Step(program, m).machine, fuel - 1, address);
      }
    }
  }

  /** A `Return` on a state that keeps the invariant resumes right after a `Call`. */
  lemma ReturnResumesAfterCall(program: Isa.Program, m: Machine)
    requires Wf(program, m)
    requires m.pc < |program| && program[m.pc].Return? && m.stack != []
    ensures Step(program, m).Running?
    ensures var t := Step(program, m).machine;
      0 < t.pc <= |program| && program[t.pc - 1].Call?
  {
    assert m.stack[|m.stack| - 1] == Step(program, m).machine.pc;
  }

  /** Whatever a callee does to the registers and memory, a `Return` reached
      with the stack as the `Call` left it resumes at the instruction after
      the `Call`, restores the caller's stack and keeps the callee's registers
      (registers are shared, not saved). */
  lemma CallThenReturn(program: Isa.Program, m: Machine, callee: Machine)
    requires m.pc < |program| && program[m.pc].Call?
    requires Step(program, m).Running?
    requires callee.stack == Step(program, m).machine.stack
    requires callee.pc < |program| && program[callee.pc].Return?
    ensures Step(program, callee).Running?
    ensures var t := Step(program, callee).machine;
      t.pc == m.pc + 1 && t.stack == m.stack
      && t.registers == callee.registers && t.memory == callee.memory
  {
    var c := Step(program, m).machine;
    assert c.stack == m.stack + [m.pc + 1];
    var t := Step(program, callee).machine;
    assert t.stack + [t.pc] == callee.stack;
  }

  /** Storing register `r` at offset 0 of a non-empty region and loading that
      region into `r2` leaves in `r2` the low byte of `r`'s value. */
  lemma StoreLoadRoundTrip(m: Machine, address: usize, r: usize, r2: usize)
    requires address in m.memory && |m.memory[address]| >= 1
    requires r < REGISTER_COUNT && r2 < REGISTER_COUNT
    ensures StoreToMemory(m, address, r, 0).Ok?
    ensures LoadFromMemory(StoreToMemory(m, address, r, 0).value, address, r2).Ok?
    ensures LoadFromMemory(StoreToMemory(m, address, r, 0).value, address, r2).value.registers[r2]
      == LowByte(m.registers[r])
    ensures 0 <= m.registers[r] < 256 ==>
      LoadFromMemory(StoreToMemory(m, address, r, 0).value, address, r2).value.registers[r2]
      == m.registers[r]
  {
  }

  /** On valid indices the comparison instructions come in complementary
      pairs (`Neq`/`Eq`, `Lte`/`Gt`, `Gte`/`Lt`), and swapping the operands
      turns `Gt` into `Lt` and `Gte` into `Lte`. */
  lemma CompareOpDuality(m: Machine, a: usize, b: usize, d: usize)
    requires a < REGISTER_COUNT && b < REGISTER_COUNT && d < REGISTER_COUNT
    ensures CompareOp(m, Ops.CmpOp.Neq, a, b, d).registers[d] == 1 - CompareOp(m, Ops.CmpOp.Eq, a, b, d).registers[d]
    ensures CompareOp(m, Ops.CmpOp.Lte, a, b, d).registers[d] == 1 - CompareOp(m, Ops.CmpOp.Gt, a, b, d).registers[d]
    ensures CompareOp(m, Ops.CmpOp.Gte, a, b, d).registers[d] == 1 - CompareOp(m, Ops.CmpOp.Lt, a, b, d).registers[d]
    ensures CompareOp(m, Ops.CmpOp.Gt, a, b, d).registers[d] == CompareOp(m, Ops.CmpOp.Lt, b, a, d).registers[d]
    ensures CompareOp(m, Ops.CmpOp.Gte, a, b, d).registers[d] == CompareOp(m, Ops.CmpOp.Lte, b, a, d).registers[d]
  {
  }

  /** Writing a register and reading it back yields the written value. */
  lemma SetRegThenRead(m: Machine, r: usize, v: i32)
    requires r < REGISTER_COUNT
    ensures SetReg(m, r, v).registers[r] == v
  {
  }

  /** From `a`, every run of at least `k` steps agrees with the run from `b`
      shortened by `k` steps: `b` is where `a` is after `k` running steps. */
  ghost predicate Leads(program: Isa.Program, a: Machine, b: Machine, k: nat) {
    forall n: nat :: k <= n ==> Run(program, a, n) == Run(program, b, n - k)
  }

  /** One step that leaves the machine running leads to its result. */
  lemma StepLeads(program: Isa.Program, a: Machine, b: Machine)
    requires Step(program, a) == Running(b)
    ensures Leads(program, a, b, 1)
  {
    forall n: nat | 1 <= n
      ensures Run(program, a, n) == Run(program, b, n - 1)
    {
      RunUnroll(program, a, n);
    }
  }

  /** Running steps compose: `k` steps from `b` after `j` steps from `a`. */
  lemma LeadsTrans(program: Isa.Program, a: Machine, b: Machine, c: Machine, j: nat, k: nat)
    requires Leads(program, a, b, j) && Leads(program, b, c, k)
    ensures Leads(program, a, c, j + k)
  {
    forall n: nat | j + k <= n
      ensures Run(program, a, n) == Run(program, c, n - (j + k))
    {
      assert Run(program, a, n) == Run(program, b, n - j);
      assert Run(program, b, n - j) == Run(program, c, n - j - k);
    }
  }

  /** A machine led to one that fetches `Halt` halts in any longer run. */
  lemma LeadsToHalt(program: Isa.Program, a: Machine, b: Machine, k: nat, final: Machine)
    requires Leads(program, a, b, k) && Step(program, b) == Halted(final)
    ensures forall n: nat :: k < n ==> Run(program, a, n) == Halted(final)
  {
    forall n: nat | k < n
      ensures Run(program, a, n) == Halted(final)
    {
      assert Run(program, a, n) == Run(program, b, n - k);
      RunUnroll(program, b, n - k);
    }
  }
}
