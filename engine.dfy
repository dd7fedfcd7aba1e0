/** The VM as the source has it: an object whose handlers update its fields
    in place. Every method is proved to have exactly the effect of the
    corresponding function of `Semantics`, so what `Properties` proves about
    those functions holds of the object. */
module Engine {
  import opened Prims
  import Ops
  import Isa
  import Semantics

  /** What one iteration of the loop tells it: go on, stop, or abort on a panic. */
  datatype Outcome = Continue | Stop | Abort(fault: Fault)

  /** Continue after a handler, unless it panicked. */
  function Resume(fault: Option<Fault>): Outcome {
    if fault.Some? then Abort(fault.value) else Continue
  }

  /** `SetReg`, the arithmetic and comparison instructions, and `Print`. */
  predicate ActsOnRegisters(instruction: Isa.Instr) {
    instruction.SetReg? || instruction.Add? || instruction.Sub? || instruction.Mul?
    || instruction.Div? || instruction.Mod? || instruction.Eq? || instruction.Neq?
    || instruction.Gt? || instruction.Lt? || instruction.Gte? || instruction.Lte?
    || instruction.Print?
  }

  class VM {
    var pc: usize
    const program: Isa.Program
    const registers: array<i32>
    var memory: map<usize, Semantics.Region>
    var nextFreeAddress: usize
    var stack: seq<usize>
    /** The values `print` has written to the console, oldest first. */
    ghost var printed: seq<i32>

    ghost predicate Valid()
      reads this
    {
      registers.Length == Semantics.REGISTER_COUNT
    }

    /** The VM's fields as a `Semantics.Machine` value. */
    ghost function Snapshot(): Semantics.Machine
      reads this, registers
      requires Valid()
    {
      Semantics.Machine(pc, registers[..], memory, nextFreeAddress, stack, printed)
    }

    /** The current state, or the panic a handler reported. */
    ghost function Result(fault: Option<Fault>): Checked<Semantics.Machine>
      reads this, registers
      requires Valid()
    {
      if fault.Some? then Panic(fault.value) else Ok(Snapshot())
    }

    ghost function Observed(outcome: Outcome): Semantics.Status
      reads this, registers
      requires Valid()
    {
      match outcome
      case Continue => Semantics.Running(Snapshot())
      case Stop => Semantics.Halted(Snapshot())
      case Abort(f) => Semantics.Faulted(f)
    }

    /** `VM::new`. */
    constructor (program: Isa.Program)
      ensures Valid() && fresh(registers)
      ensures this.program == program && Snapshot() == Semantics.Init()
    {
      this.program := program;
      pc := 0;
      registers := new i32[Semantics.REGISTER_COUNT](_ => 0);
      memory := map[];
      nextFreeAddress := 0;
      stack := [];
      printed := [];
      new;
      assert registers[..] == [0, 0, 0, 0, 0, 0, 0, 0];
    }

    /** `run`, cut off after `fuel` iterations of its loop. */
    method Run(fuel: nat) returns (outcome: Outcome)
      requires Valid()
      modifies this, registers
      ensures Valid()
      ensures Observed(outcome) == Semantics.Run(program, old(Snapshot()), fuel)
    {
      outcome := Continue;
      var steps := 0;
      while steps < fuel
        invariant 0 <= steps <= fuel
        invariant Valid()
        invariant outcome == Continue
        invariant Semantics.Run(program, old(Snapshot()), fuel) == Semantics.Run(program, Snapshot(), fuel - steps)
      {
        ghost var before := Snapshot();
        outcome := Step();
        Semantics.RunUnroll(program, before, fuel - steps);
        if !outcome.Continue? {
          return;
        }
        steps := steps + 1;
      }
    }

    /** One iteration of `run`'s loop: the bounds check, the fetch and the
        increment of `pc`, then the dispatch. */
    method Step() returns (outcome: Outcome)
      requires Valid()
      modifies this, registers
      ensures Valid()
      ensures Observed(outcome) == Semantics.Step(program, old(Snapshot()))
    {
      if pc >= |program| {
        return Stop;
      }
      var instruction := program[pc];
      pc := pc + 1;
      outcome := Execute(instruction);
    }

    /** The `match` of `run`'s loop: one handler per instruction, the
        register instructions here and the others in `ExecuteControl`. */
    method Execute(instruction: Isa.Instr) returns (outcome: Outcome)
      requires Valid()
      modifies this, registers
      ensures Valid()
      ensures Observed(outcome) == Semantics.Execute(old(Snapshot()), instruction, |program|)
    {
      if !ActsOnRegisters(instruction) {
        outcome := ExecuteControl(instruction);
        return;
      }
      match instruction {
        case SetReg(r, v) =>
          SetReg(r, v);
          return Continue;
        case Add(a, b, d) =>
          var fault := BinaryOp(a, b, d, Ops.ArithOp.Add);
          return Resume(fault);
        case Sub(a, b, d) =>
          var fault := BinaryOp(a, b, d, Ops.ArithOp.Sub);
          return Resume(fault);
        case Mul(a, b, d) =>
          var fault := BinaryOp(a, b, d, Ops.ArithOp.Mul);
          return Resume(fault);
        case Div(a, b, d) =>
          var fault := BinaryOp(a, b, d, Ops.ArithOp.Div);
          return Resume(fault);
        case Mod(a, b, d) =>
          var fault := BinaryOp(a, b, d, Ops.ArithOp.Mod);
          return Resume(fault);
        case Eq(a, b, d) =>
          CompareOp(a, b, d, Ops.CmpOp.Eq);
          return Continue;
        case Neq(a, b, d) =>
          CompareOp(a, b, d, Ops.CmpOp.Neq);
          return Continue;
        case Gt(a, b, d) =>
          CompareOp(a, b, d, Ops.CmpOp.Gt);
          return Continue;
        case Lt(a, b, d) =>
          CompareOp(a, b, d, Ops.CmpOp.Lt);
          return Continue;
        case Gte(a, b, d) =>
          CompareOp(a, b, d, Ops.CmpOp.Gte);
          return Continue;
        case Lte(a, b, d) =>
          CompareOp(a, b, d, Ops.CmpOp.Lte);
          return Continue;
        case Print(r) =>
          Print(r);
          return Continue;
      }
    }

    /** The arms of `run`'s `match` for the jumps, `Halt`, memory, `call` and `return`. */
    method ExecuteControl(instruction: Isa.Instr) returns (outcome: Outcome)
      requires Valid() && !ActsOnRegisters(instruction)
      modifies this, registers
      ensures Valid()
      ensures Observed(outcome) == Semantics.Execute(old(Snapshot()), instruction, |program|)
    {
      match instruction {
        case Jump(off) =>
          var fault := Jump(off);
          return Resume(fault);
        case JumpIfZero(r, off) =>
          var fault := JumpIfZero(r, off);
          return Resume(fault);
        case JumpIfNonZero(r, off) =>
          var fault := JumpIfNonZero(r, off);
          return Resume(fault);
        case Halt =>
          return Stop;
        case AllocateMemory(size) =>
          var fault := AllocateMemory(size);
          return Resume(fault);
        case FreeMemory(address) =>
          FreeMemory(address);
          return Continue;
        case StoreToMemory(address, r, off) =>
          var fault := StoreToMemory(address, r, off);
          return Resume(fault);
        case LoadFromMemory(address, r) =>
          var fault := LoadFromMemory(address, r);
          return Resume(fault);
        case Call(off) =>
          var fault := Call(off);
          return Resume(fault);
        case Return =>
          ReturnFromFunction();
          return Continue;
      }
    }

    /** `set_reg`. */
    method SetReg(r: usize, v: i32)
      requires Valid()
      modifies registers
      ensures Snapshot() == Semantics.SetReg(old(Snapshot()), r, v)
    {
      if r < registers.Length {
        registers[r] := v;
      }
    }

    /** `binary_op`, with the closure named by `op`. */
    method BinaryOp(a: usize, b: usize, d: usize, op: Ops.ArithOp) returns (fault: Option<Fault>)
      requires Valid()
      modifies registers
      ensures Result(fault) == Semantics.BinaryOp(old(Snapshot()), op, a, b, d)
    {
      fault := None;
      if a < registers.Length && b < registers.Length && d < registers.Length {
        match Ops.Apply(op, registers[a], registers[b]) {
          case Ok(x) => registers[d] := x;
          case Panic(f) => fault := Some(f);
        }
      }
    }

    /** `compare_op`, with the closure named by `op`. */
    method CompareOp(a: usize, b: usize, d: usize, op: Ops.CmpOp)
      requires Valid()
      modifies registers
      ensures Snapshot() == Semantics.CompareOp(old(Snapshot()), op, a, b, d)
    {
      if a < registers.Length && b < registers.Length && d < registers.Length {
        var holds := Ops.Holds(op, registers[a], registers[b]);
        registers[d] := if holds then 1 else 0;
      }
    }

    /** `allocate_memory`. */
    method AllocateMemory(size: usize) returns (fault: Option<Fault>)
      requires Valid()
      modifies this
      ensures Valid()
      ensures Result(fault) == Semantics.AllocateMemory(old(Snapshot()), size)
    {
      if size > ISIZE_MAX {
        return Some(CapacityOverflow);
      }
      var address := nextFreeAddress;
      if address + size >= USIZE_LIMIT {
        return Some(Overflow);
      }
      memory := memory[address := Semantics.Zeros(size)];
      nextFreeAddress := address + size;
      fault := None;
    }

    /** `free_memory`. */
    method FreeMemory(address: usize)
      requires Valid()
      modifies this
      ensures Valid()
      ensures Snapshot() == Semantics.FreeMemory(old(Snapshot()), address)
    {
      if address in memory {
        memory := memory - {address};
      }
    }

    /** `store_to_memory`. */
    method StoreToMemory(address: usize, r: usize, offset: usize) returns (fault: Option<Fault>)
      requires Valid()
      modifies this
      ensures Valid()
      ensures Result(fault) == Semantics.StoreToMemory(old(Snapshot()), address, r, offset)
    {
      fault := None;
      if address in memory {
        var region := memory[address];
        if offset < |region| {
          if r >= registers.Length {
            return Some(IndexOutOfBounds);
          }
          memory := memory[address := region[offset := LowByte(registers[r])]];
        }
      }
    }

    /** `load_from_memory`. */
    method LoadFromMemory(address: usize, r: usize) returns (fault: Option<Fault>)
      requires Valid()
      modifies registers
      ensures Result(fault) == Semantics.LoadFromMemory(old(Snapshot()), address, r)
    {
      fault := None;
      if address in memory {
        var region := memory[address];
        if |region| == 0 {
          return Some(IndexOutOfBounds);
        }
        var value := region[0];
        if r >= registers.Length {
          return Some(IndexOutOfBounds);
        }
        registers[r] := value;
      }
    }

    /** `jump`. */
    method Jump(offset: usize) returns (fault: Option<Fault>)
      requires Valid()
      modifies this
      ensures Valid()
      ensures Result(fault) == Semantics.Jump(old(Snapshot()), |program|, offset)
    {
      if pc + offset >= USIZE_LIMIT {
        return Some(Overflow);
      }
      if pc + offset < |program| {
        pc := pc + offset;
      }
      fault := None;
    }

    /** `jump_if_zero`. */
    method JumpIfZero(r: usize, offset: usize) returns (fault: Option<Fault>)
      requires Valid()
      modifies this
      ensures Valid()
      ensures Result(fault) == Semantics.JumpIfZero(old(Snapshot()), |program|, r, offset)
    {
      if r >= registers.Length {
        return Some(IndexOutOfBounds);
      }
      fault := None;
      if registers[r] == 0 {
        fault := Jump(offset);
      }
    }

    /** `jump_if_non_zero`. */
    method JumpIfNonZero(r: usize, offset: usize) returns (fault: Option<Fault>)
      requires Valid()
      modifies this
      ensures Valid()
      ensures Result(fault) == Semantics.JumpIfNonZero(old(Snapshot()), |program|, r, offset)
    {
      if r >= registers.Length {
        return Some(IndexOutOfBounds);
      }
      fault := None;
      if registers[r] != 0 {
        fault := Jump(offset);
      }
    }

    /** `print`. */
    method Print(r: usize)
      requires Valid()
      modifies this
      ensures Valid()
      ensures Snapshot() == Semantics.Print(old(Snapshot()), r)
    {
      if r < registers.Length {
        printed := printed + [registers[r]];
      }
    }

    /** `call`. */
    method Call(offset: usize) returns (fault: Option<Fault>)
      requires Valid()
      modifies this
      ensures Valid()
      ensures Result(fault) == Semantics.Call(old(Snapshot()), offset)
    {
      stack := stack + [pc];
      if pc + offset >= USIZE_LIMIT {
        return Some(Overflow);
      }
      pc := pc + offset;
      fault := None;
    }

    /** `return_from_function`. */
    method ReturnFromFunction()
      requires Valid()
      modifies this
      ensures Valid()
      ensures Snapshot() == Semantics.Return(old(Snapshot()))
    {
      if stack != [] {
        pc := stack[|stack| - 1];
        stack := stack[..|stack| - 1];
      }
    }
  }
}
