/** Whole programs run from a fresh VM, with their final state. */
module Scenarios {
  import opened Prims
  import Isa
  import opened Semantics
  import opened Properties

  /** A program that is only `Halt` stops at once with all registers 0 and no memory. */
  lemma HaltOnly()
    ensures Run([Isa.Halt], Init(), 1) == Halted(Init().(pc := 1))
    ensures Run([Isa.Halt], Init(), 1).machine.registers == [0, 0, 0, 0, 0, 0, 0, 0]
    ensures Run([Isa.Halt], Init(), 1).machine.memory == map[]
  {
  }

  /** 42 + 58 lands in register 2 and the operands stay put. */
  lemma AddProgram()
    ensures var p := [Isa.SetReg(0, 42), Isa.SetReg(1, 58), Isa.Add(0, 1, 2), Isa.Halt];
      Run(p, Init(), 4).Halted?
      && Run(p, Init(), 4).machine.registers == [42, 58, 100, 0, 0, 0, 0, 0]
  {
    var p := [Isa.SetReg(0, 42), Isa.SetReg(1, 58), Isa.Add(0, 1, 2), Isa.Halt];
    var m1 := Init().(pc := 1, registers := [42, 0, 0, 0, 0, 0, 0, 0]);
    var m2 := m1.(pc := 2, registers := [42, 58, 0, 0, 0, 0, 0, 0]);
    var m3 := m2.(pc := 3, registers := [42, 58, 100, 0, 0, 0, 0, 0]);
    assert Step(p, Init()) == Running(m1);
    assert Step(p, m1) == Running(m2);
    assert Step(p, m2) == Running(m3);
    assert Step(p, m3) == Halted(m3.(pc := 4));
  }

  /** `Add(0, 1, 0)` reads both operands before writing register 0. */
  lemma AddIntoOperand()
    ensures var p := [Isa.SetReg(0, 2), Isa.SetReg(1, 3), Isa.Add(0, 1, 0)];
      Run(p, Init(), 4).Halted? && Run(p, Init(), 4).machine.registers[0] == 5
  {
    var p := [Isa.SetReg(0, 2), Isa.SetReg(1, 3), Isa.Add(0, 1, 0)];
    var m1 := Init().(pc := 1, registers := [2, 0, 0, 0, 0, 0, 0, 0]);
    var m2 := m1.(pc := 2, registers := [2, 3, 0, 0, 0, 0, 0, 0]);
    var m3 := m2.(pc := 3, registers := [5, 3, 0, 0, 0, 0, 0, 0]);
    assert Step(p, Init()) == Running(m1);
    assert Step(p, m1) == Running(m2);
    assert Step(p, m2) == Running(m3);
  }

  /** A conditional jump may not land one past the last instruction: the
      target 4 of this four-instruction program is rejected, so nothing is
      skipped; an offset of 1 does skip the third instruction. */
  lemma JumpIfZeroTargets()
    ensures var p := [Isa.SetReg(0, 0), Isa.JumpIfZero(0, 2), Isa.SetReg(1, 100), Isa.SetReg(2, 200)];
      Run(p, Init(), 5).Halted?
      && Run(p, Init(), 5).machine.registers[1] == 100
      && Run(p, Init(), 5).machine.registers[2] == 200
    ensures var q := [Isa.SetReg(0, 0), Isa.JumpIfZero(0, 1), Isa.SetReg(1, 100), Isa.SetReg(2, 200)];
      Run(q, Init(), 4).Halted?
      && Run(q, Init(), 4).machine.registers[1] == 0
      && Run(q, Init(), 4).machine.registers[2] == 200
  {
    var p := [Isa.SetReg(0, 0), Isa.JumpIfZero(0, 2), Isa.SetReg(1, 100), Isa.SetReg(2, 200)];
    var m1 := Init().(pc := 1);
    var m2 := Init().(pc := 2);
    var m3 := m2.(pc := 3, registers := [0, 100, 0, 0, 0, 0, 0, 0]);
    var m4 := m3.(pc := 4, registers := [0, 100, 200, 0, 0, 0, 0, 0]);
    assert Step(p, Init()) == Running(m1);
    assert Step(p, m1) == Running(m2);
    assert Step(p, m2) == Running(m3);
    assert Step(p, m3) == Running(m4);
    assert Step(p, m4) == Halted(m4);

    var q := [Isa.SetReg(0, 0), Isa.JumpIfZero(0, 1), Isa.SetReg(1, 100), Isa.SetReg(2, 200)];
    var n3 := Init().(pc := 3);
    var n4 := n3.(pc := 4, registers := [0, 0, 200, 0, 0, 0, 0, 0]);
    assert Step(q, Init()) == Running(m1);
    assert Step(q, m1) == Running(n3);
    assert Step(q, n3) == Running(n4);
    assert Step(q, n4) == Halted(n4);
  }

  /** Allocations get consecutive addresses, and freeing the first region
      does not let the third allocation reuse address 0. */
  lemma AllocationAddresses(s1: usize, s2: usize, s3: usize)
    requires 0 < s1 && 0 < s2 && s1 + s2 + s3 < USIZE_LIMIT && s1 + s2 + s3 <= ISIZE_MAX
    ensures var p := [Isa.AllocateMemory(s1), Isa.AllocateMemory(s2), Isa.FreeMemory(0), Isa.AllocateMemory(s3)];
      var r := Run(p, Init(), 4);
      r.Running? && r.machine.memory.Keys == {s1, s1 + s2}
      && |r.machine.memory[s1]| == s2 && |r.machine.memory[s1 + s2]| == s3
      && r.machine.nextFree == s1 + s2 + s3
  {
    var p := [Isa.AllocateMemory(s1), Isa.AllocateMemory(s2), Isa.FreeMemory(0), Isa.AllocateMemory(s3)];
    var m1 := Init().(pc := 1, memory := map[0 := Zeros(s1)], nextFree := s1);
    var m2 := m1.(pc := 2, memory := map[0 := Zeros(s1), s1 := Zeros(s2)], nextFree := s1 + s2);
    var m3 := m2.(pc := 3, memory := map[s1 := Zeros(s2)]);
    var m4 := m3.(pc := 4, memory := map[s1 := Zeros(s2), s1 + s2 := Zeros(s3)], nextFree := s1 + s2 + s3);
    assert Step(p, Init()) == Running(m1);
    assert Step(p, m1) == Running(m2);
    assert m2.memory - {0} == m3.memory;
    assert Step(p, m2) == Running(m3);
    assert Step(p, m3) == Running(m4);
  }

  /** A size-0 region sits at the cursor itself, which does not move, so the
      next allocation gets the same address and replaces it. */
  lemma ZeroSizeAllocation()
    ensures var r := Run([Isa.AllocateMemory(0)], Init(), 1);
      r.Running? && 0 in r.machine.memory && r.machine.nextFree == 0
    ensures var r := Run([Isa.AllocateMemory(0), Isa.AllocateMemory(5)], Init(), 2);
      r.Running? && r.machine.memory == map[0 := Zeros(5)] && r.machine.nextFree == 5
  {
    var p := [Isa.AllocateMemory(0), Isa.AllocateMemory(5)];
    var m1 := Init().(pc := 1, memory := map[0 := Zeros(0)]);
    assert Step(p, Init()) == Running(m1);
    assert m1.memory[0 := Zeros(5)] == map[0 := Zeros(5)];
  }

  /** A freed size-0 region's address is the cursor itself, so the next
      allocation is placed there again. */
  lemma FreedEmptyRegionReused()
    ensures var r := Run([Isa.AllocateMemory(0), Isa.FreeMemory(0), Isa.AllocateMemory(5)], Init(), 3);
      r.Running? && r.machine.memory == map[0 := Zeros(5)] && r.machine.nextFree == 5
  {
    var p := [Isa.AllocateMemory(0), Isa.FreeMemory(0), Isa.AllocateMemory(5)];
    var m1 := Init().(pc := 1, memory := map[0 := Zeros(0)]);
    var m2 := Init().(pc := 2);
    assert Step(p, Init()) == Running(m1);
    assert m1.memory - {0} == map[];
    assert Step(p, m1) == Running(m2);
  }

  /** A zero divisor aborts the run. */
  lemma DivideByZeroFaults()
    ensures Run([Isa.SetReg(0, 7), Isa.Div(0, 1, 2), Isa.Halt], Init(), 3) == Faulted(DivideByZero)
  {
    var p := [Isa.SetReg(0, 7), Isa.Div(0, 1, 2), Isa.Halt];
    var m1 := Init().(pc := 1, registers := [7, 0, 0, 0, 0, 0, 0, 0]);
    assert Step(p, Init()) == Running(m1);
    assert Step(p, m1) == Faulted(DivideByZero);
  }

  /** The demonstration program of `main`: it stores 42 and reads it back,
      calls a routine that leaves 33 in register 4, returns, and prints. */
  function Demo(): Isa.Program {
    [ Isa.AllocateMemory(100),
      Isa.SetReg(0, 42),
      Isa.StoreToMemory(0, 0, 0),
      Isa.LoadFromMemory(0, 1),
      Isa.Print(1),
      Isa.FreeMemory(0),
      Isa.SetReg(0, 2),
      Isa.SetReg(1, 3),
      Isa.Call(5),
      Isa.Print(0),
      Isa.JumpIfZero(4, 1),
      Isa.Print(4),
      Isa.Print(2),
      Isa.Halt,
      Isa.SetReg(2, 11),
      Isa.SetReg(3, 22),
      Isa.Add(2, 3, 4),
      Isa.Print(4),
      Isa.Return ]
  }

  /** The demonstration's state after `AllocateMemory` .. `FreeMemory` (6 steps). */
  function DemoAfterFree(): Machine {
    Init().(pc := 6, registers := [42, 42, 0, 0, 0, 0, 0, 0], nextFree := 100, printed := [42])
  }

  /** The demonstration's state on entering the routine (9 steps). */
  function DemoInRoutine(): Machine {
    DemoAfterFree().(pc := 14, registers := [2, 3, 0, 0, 0, 0, 0, 0], stack := [9])
  }

  /** The demonstration's state just after `Return` (14 steps). */
  function DemoAfterReturn(): Machine {
    DemoInRoutine().(pc := 9, registers := [2, 3, 11, 22, 33, 0, 0, 0], stack := [], printed := [42, 33])
  }

  /** The demonstration's state after allocating and storing 42 at offset 0 (3 steps). */
  function DemoAfterStore(): Machine {
    Init().(pc := 3, registers := [42, 0, 0, 0, 0, 0, 0, 0],
            memory := map[0 := Zeros(100)[0 := 42]], nextFree := 100)
  }

  /** The demonstration's state once the routine has added 11 and 22 (12 steps). */
  function DemoAfterAdd(): Machine {
    DemoInRoutine().(pc := 17, registers := [2, 3, 11, 22, 33, 0, 0, 0])
  }

  /** The demonstration's state when it fetches `Halt` (18 steps). */
  function DemoBeforeHalt(): Machine {
    DemoAfterReturn().(pc := 13, printed := [42, 33, 2, 33, 11])
  }

  /** Three running steps `a` to `b` to `c` to `d`. */
  lemma ThreeSteps(p: Isa.Program, a: Machine, b: Machine, c: Machine, d: Machine)
    requires Step(p, a) == Running(b) && Step(p, b) == Running(c) && Step(p, c) == Running(d)
    ensures Leads(p, a, d, 3)
  {
    StepLeads(p, a, b);
    StepLeads(p, b, c);
    StepLeads(p, c, d);
    LeadsTrans(p, a, b, c, 1, 1);
    LeadsTrans(p, a, c, d, 2, 1);
  }

  /** Allocate 100 bytes at address 0, set register 0 to 42, store it at offset 0. */
  lemma DemoStorePart(p: Isa.Program)
    requires p == Demo()
    ensures Leads(p, Init(), DemoAfterStore(), 3)
  {
    var s1 := Init().(pc := 1, memory := map[0 := Zeros(100)], nextFree := 100);
    var s2 := s1.(pc := 2, registers := [42, 0, 0, 0, 0, 0, 0, 0]);
    assert Step(p, Init()) == Running(s1);
    assert Step(p, s1) == Running(s2);
    assert Step(p, s2) == Running(DemoAfterStore());
    ThreeSteps(p, Init(), s1, s2, DemoAfterStore());
  }

  /** Load byte 0 back into register 1, print it, free the region. */
  lemma DemoLoadPart(p: Isa.Program)
    requires p == Demo()
    ensures Leads(p, DemoAfterStore(), DemoAfterFree(), 3)
  {
    var s3 := DemoAfterStore();
    var s4 := s3.(pc := 4, registers := [42, 42, 0, 0, 0, 0, 0, 0]);
    var s5 := s4.(pc := 5, printed := [42]);
    assert Step(p, s3) == Running(s4);
    assert Step(p, s4) == Running(s5);
    assert s5.(pc := 6, memory := map[]) == DemoAfterFree();
    assert Step(p, s5) == Running(DemoAfterFree());
    ThreeSteps(p, s3, s4, s5, DemoAfterFree());
  }

  /** Set registers 0 and 1, then call the routine five instructions on. */
  lemma DemoCallPart(p: Isa.Program)
    requires p == Demo()
    ensures Leads(p, DemoAfterFree(), DemoInRoutine(), 3)
  {
    var s6 := DemoAfterFree();
    var s7 := s6.(pc := 7, registers := [2, 42, 0, 0, 0, 0, 0, 0]);
    var s8 := s7.(pc := 8, registers := [2, 3, 0, 0, 0, 0, 0, 0]);
    assert Step(p, s6) == Running(s7);
    assert Step(p, s7) == Running(s8);
    assert Step(p, s8) == Running(DemoInRoutine());
    ThreeSteps(p, s6, s7, s8, DemoInRoutine());
  }

  /** The routine's body: 11 and 22 into registers 2 and 3, their sum into register 4. */
  lemma DemoRoutinePart(p: Isa.Program)
    requires p == Demo()
    ensures Leads(p, DemoInRoutine(), DemoAfterAdd(), 3)
  {
    var s9 := DemoInRoutine();
    var s10 := s9.(pc := 15, registers := [2, 3, 11, 0, 0, 0, 0, 0]);
    var s11 := s10.(pc := 16, registers := [2, 3, 11, 22, 0, 0, 0, 0]);
    assert Step(p, s9) == Running(s10);
    assert Step(p, s10) == Running(s11);
    assert Step(p, s11) == Running(DemoAfterAdd());
    ThreeSteps(p, s9, s10, s11, DemoAfterAdd());
  }

  /** The routine prints register 4 and returns to the instruction after the
      call; back in the caller, register 0 is printed. */
  lemma DemoReturnPart(p: Isa.Program)
    requires p == Demo()
    ensures Leads(p, DemoAfterAdd(), DemoAfterReturn().(pc := 10, printed := [42, 33, 2]), 3)
  {
    var s12 := DemoAfterAdd();
    var s13 := s12.(pc := 18, printed := [42, 33]);
    var s14 := DemoAfterReturn();
    assert Step(p, s12) == Running(s13);
    assert Step(p, s13) == Running(s14);
    assert Step(p, s14) == Running(s14.(pc := 10, printed := [42, 33, 2]));
    ThreeSteps(p, s12, s13, s14, s14.(pc := 10, printed := [42, 33, 2]));
  }

  /** Register 4 is 33, so the conditional jump falls through; registers 4
      and 2 are printed and `Halt` is fetched next. */
  lemma DemoEpiloguePart(p: Isa.Program)
    requires p == Demo()
    ensures Leads(p, DemoAfterReturn().(pc := 10, printed := [42, 33, 2]), DemoBeforeHalt(), 3)
  {
    var s15 := DemoAfterReturn().(pc := 10, printed := [42, 33, 2]);
    var s16 := s15.(pc := 11);
    var s17 := s16.(pc := 12, printed := [42, 33, 2, 33]);
    assert Step(p, s15) == Running(s16);
    assert Step(p, s16) == Running(s17);
    assert Step(p, s17) == Running(DemoBeforeHalt());
    ThreeSteps(p, s15, s16, s17, DemoBeforeHalt());
  }

  /** The eighteen running steps of the demonstration, end to end. */
  lemma DemoReachesHalt(p: Isa.Program)
    requires p == Demo()
    ensures Leads(p, Init(), DemoBeforeHalt(), 18)
  {
    var s15 := DemoAfterReturn().(pc := 10, printed := [42, 33, 2]);
    DemoStorePart(p);
    DemoLoadPart(p);
    LeadsTrans(p, Init(), DemoAfterStore(), DemoAfterFree(), 3, 3);
    DemoCallPart(p);
    LeadsTrans(p, Init(), DemoAfterFree(), DemoInRoutine(), 6, 3);
    DemoRoutinePart(p);
    LeadsTrans(p, Init(), DemoInRoutine(), DemoAfterAdd(), 9, 3);
    DemoReturnPart(p);
    LeadsTrans(p, Init(), DemoAfterAdd(), s15, 12, 3);
    DemoEpiloguePart(p);
    LeadsTrans(p, Init(), s15, DemoBeforeHalt(), 15, 3);
  }

  /** Given at least 19 steps, the demonstration halts having printed 42, 33,
      2, 33, 11, with its region freed and the routine's registers visible to
      the caller. */
  lemma DemoRun(p: Isa.Program, fuel: nat)
    requires p == Demo() && fuel >= 19
    ensures Run(p, Init(), fuel).Halted?
    ensures Run(p, Init(), fuel).machine.printed == [42, 33, 2, 33, 11]
    ensures Run(p, Init(), fuel).machine.registers == [2, 3, 11, 22, 33, 0, 0, 0]
    ensures Run(p, Init(), fuel).machine.memory == map[]
  {
    var final := DemoBeforeHalt().(pc := 14);
    assert Step(p, DemoBeforeHalt()) == Halted(final);
    DemoReachesHalt(p);
    LeadsToHalt(p, Init(), DemoBeforeHalt(), 18, final);
  }
}
