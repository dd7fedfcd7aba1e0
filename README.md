# A verified model of `basic_rust_vm`

`basic_rust_vm` is a register-based bytecode interpreter written in Rust. A `VM` has:

- a program counter `pc`;
- eight `i32` registers;
- a heap of byte regions keyed by address, handed out by a bump cursor `next_free_address`;
- a stack of return addresses.

It runs a closed `Instruction` enum with a fetch, increment and dispatch loop. This project models that engine in Dafny and proves what its handlers and its loop guarantee.

The model has two layers:

- **`Semantics`** defines every handler, one step of `run` and a bounded run as functions on a `Machine` value. Each handler's contract says what it changes and that nothing else changes.
- **`Engine.VM`** is the imperative form. It is a class with the VM's fields, which its methods update in place; the register file is an `array<i32>`. Each method is proved to leave the object in exactly the state the matching `Semantics` function computes. `Engine.VM.Run` is a `while` loop whose invariant ties the object to `Semantics.Run`. The dispatch `match` is split over two methods, `Execute` and `ExecuteControl`, which together cover every arm.

What is proved about the functions therefore holds of the object. `Properties` proves the arena and call-stack invariants and the monotone cursor. `Scenarios` proves what concrete programs compute, including the demonstration program of `main`.

The other modules:

- `Prims` holds Rust's integer types, truncating `/` and `%`, the `as u8` cast, and the panics that end a run.
- `Ops` holds the closures passed to `binary_op` and `compare_op`.
- `Isa` holds the instruction set.

Arithmetic follows a debug build. An `i32` `+`, `-` or `*` that overflows panics. `i32::MIN / -1` and `i32::MIN % -1` panic, as they do in every build. A `usize` sum that overflows panics in these places:

- `pc + offset` in `jump` and `call`;
- the allocation cursor.

Separately, `vec![0; size]` panics with a capacity overflow when `size` is above `isize::MAX`. Indexing past a `Vec` panics. A panic ends the run, so a run that panics ends in `Faulted(fault)`, and no machine state is kept.

Behaviours of the code that the model keeps as written:

- **A jump may not land one past the last instruction.** `jump` requires `pc + offset < program.len()`. So in `[SetReg(0,0), JumpIfZero(0,2), SetReg(1,100), SetReg(2,200)]` the jump to 4 is rejected, and register 1 ends up 100 (`Scenarios.JumpIfZeroTargets`).
- **Some handlers panic on a bad register index.** `store_to_memory`, `load_from_memory`, `jump_if_zero` and `jump_if_non_zero` index the register file without a check. An index of 8 or more therefore panics, while `set_reg`, `binary_op`, `compare_op` and `print` check it and skip the instruction.
- **Loading from an empty region panics.** `load_from_memory` reads byte 0 of the region, and on a region of size 0 that panics.
- **A size-0 allocation sits at the cursor.** It does not move the cursor, so the next allocation gets the same address and replaces it (`Scenarios.ZeroSizeAllocation`). In the same way, once a size-0 region is freed, its address, the cursor, is handed out again (`Scenarios.FreedEmptyRegionReused`). The arena invariant is therefore stated as "every region ends at or below the cursor", not "every address is below the cursor".

## Model

| member | source | states |
|---|---|---|
| Prims.TruncDivRem | src/main.rs:159-165 | Rust's truncating `/` and `%` satisfy `a == q*b + r`. The remainder is smaller than the divisor in magnitude. A non-zero remainder has the dividend's sign. |
| Prims.DivRemRange | src/main.rs:159-165 | On `i32` operands the quotient stays in range unless the operands are `i32::MIN` and `-1`. The remainder always stays in range. |
| Prims.LowByte | src/main.rs:269 | `v as u8` is the byte congruent to `v` modulo 256. It is `v` itself when `0 <= v < 256`. |
| Ops.Apply | src/main.rs:147-165 | For each arithmetic closure: a zero divisor panics with divide-by-zero. Division panics exactly for `MIN, -1`. `+ - *` panic with an overflow exactly when the true result leaves `i32`. Otherwise the result is the true result. |
| Prims.TruncDiv | src/main.rs:160 | Defines Rust's `/` on signed integers: the quotient of the magnitudes, negated when the signs differ. Its properties are stated by `Prims.TruncDivRem`. |
| Prims.TruncRem | src/main.rs:164 | Defines Rust's `%` on signed integers: the remainder of the magnitudes, with the dividend's sign. Its properties are stated by `Prims.TruncDivRem`. |
| Ops.Exact | src/main.rs:147-165 | Defines the mathematical value of each arithmetic closure on unbounded integers. `Ops.Apply` states when the `i32` closure agrees with it. |
| Ops.Holds | src/main.rs:192-214 | Defines the predicate each comparison closure computes. `Properties.CompareOpDuality` relates the six of them through `compare_op`. |
| Semantics.Zeros | src/main.rs:251 | `vec![0; n]` has length `n` and every byte 0. |
| Semantics.SetReg | src/main.rs:138-145 | A valid index writes that register only and changes no other state. An index of 8 or more changes nothing. |
| Semantics.BinaryOp | src/main.rs:167-190 | Any invalid index: nothing changes. Otherwise the closure is applied to both operands as they were before the write. Its panic ends the run. Its value lands in `d` alone. |
| Semantics.CompareOp | src/main.rs:216-243 | Any invalid index: nothing changes. Otherwise `d` becomes 1 if the comparison holds and 0 if not, and nothing else changes. |
| Semantics.AllocateMemory | src/main.rs:245-256 | A region of `size` zero bytes is placed at the old cursor and the cursor advances by exactly `size`. Every other address and region is unchanged. A size above `isize::MAX` panics with a capacity overflow; otherwise a cursor that would leave `usize` panics with an overflow, and nothing else panics. |
| Semantics.FreeMemory | src/main.rs:258-264 | The address has no region afterwards. Every other region is unchanged. The cursor and all other fields are unchanged. An absent address leaves memory as it was. |
| Semantics.StoreToMemory | src/main.rs:266-280 | When the region exists and `offset` is in bounds, exactly that byte becomes the low byte of the register. A bad register index then panics. A missing region or out-of-bounds offset changes nothing. |
| Semantics.LoadFromMemory | src/main.rs:282-293 | Register `r` alone gets byte 0 of the region, a value in 0..255. A missing region changes nothing. An empty region or a bad register panics. |
| Semantics.Jump | src/main.rs:295-302 | `pc` moves to `pc + offset` exactly when that target is below the program length (or the offset is 0). Otherwise only `pc` could change and it stays. A `usize` overflow panics. |
| Semantics.JumpIfZero | src/main.rs:304-308 | Register 0-valued: behaves as `jump`. Otherwise nothing changes. An unchecked bad index panics. |
| Semantics.JumpIfNonZero | src/main.rs:310-314 | Register non-zero: behaves as `jump`. Otherwise nothing changes. An unchecked bad index panics. |
| Semantics.Print | src/main.rs:316-325 | A valid register's value is appended to the output. No other state changes. |
| Semantics.Call | src/main.rs:327-333 | The post-fetch `pc` is pushed, and `pc` moves forward by `offset` with no bounds check. Only `pc` and the stack change. A `usize` overflow panics. |
| Semantics.Return | src/main.rs:335-340 | A non-empty stack loses its top, which becomes `pc`. An empty stack changes nothing. |
| Semantics.Init | src/main.rs:46-55 | Defines the state `VM::new` builds. Its fields are stated by `Properties.InitWf`. |
| Semantics.Execute | src/main.rs:66-134 | Defines the dispatch: each instruction runs its handler on the machine after the fetch, `Halt` stops, and a handler's panic ends the run. What each arm does is stated by the handlers' contracts. |
| Semantics.Run | src/main.rs:57-136 | Defines `run` cut off after at most `fuel` iterations: `Running` when the fuel runs out, otherwise the first `Halted` or `Faulted` step. Its properties are stated by the `Properties` run lemmas. |
| Semantics.Step | src/main.rs:57-136 | The loop stops exactly when `pc` is past the end or `Halt` is fetched. Past the end the machine is untouched. `Halt` stops after the increment of `pc`. |
| Semantics.RunUnroll | src/main.rs:57-136 | A run of `n > 0` iterations is one step followed, if still running, by `n - 1` more. |
| Properties.InitWf | src/main.rs:46-55 | A fresh VM has `pc` 0, all eight registers 0, no memory, cursor 0 and an empty stack, and satisfies the invariant. |
| Properties.AllocatePreservesLayout | src/main.rs:245-256 | Allocation keeps every region below the cursor and regions disjoint. |
| Properties.ShapeKeepsLayout | src/main.rs:258-280 | A step that keeps the cursor and adds or resizes no region keeps the layout. |
| Properties.ExecuteKeepsArena | src/main.rs:66-134 | Every handler except allocate, free and store leaves memory and the cursor unchanged. |
| Properties.StepRegionShape | src/main.rs:57-136 | Every step that does not fetch `AllocateMemory`, including a step past the end, keeps the cursor, adds no address and resizes no region. |
| Properties.StepPreservesLayout | src/main.rs:57-136 | Every step that does not panic keeps regions below the cursor and disjoint. |
| Properties.StepPreservesReturns | src/main.rs:327-340 | Every step that does not panic keeps every saved return address right after a `Call`. |
| Properties.StepPreservesWf | src/main.rs:57-136 | Every step that does not panic preserves the whole invariant. |
| Properties.RunPreservesWf | src/main.rs:57-136 | A bounded run that does not panic ends in a state satisfying the invariant. |
| Properties.HaltedRunStoppedProperly | src/main.rs:57-136 | A halted run stopped past the end of the program or right after fetching `Halt`. |
| Properties.StepCursorMonotone | src/main.rs:245-264 | No step moves the allocation cursor backwards. |
| Properties.RunCursorMonotone | src/main.rs:57-136 | No run moves the allocation cursor backwards. |
| Properties.StepKeepsFreed | src/main.rs:245-264 | A freed address below the cursor stays below it and stays free after any step. |
| Properties.FreedAddressNeverReused | src/main.rs:245-264 | Once an address below the cursor is free, no later run puts a region there again. The address must be below the cursor: a freed size-0 region sits at the cursor and its address is reused (`Scenarios.FreedEmptyRegionReused`). |
| Properties.ReturnResumesAfterCall | src/main.rs:327-340 | Under the invariant, `Return` on a non-empty stack resumes right after a `Call`. |
| Properties.CallThenReturn | src/main.rs:327-340 | Whatever the callee does, a `Return` reached with the stack as `Call` left it does three things. It resumes after the `Call` and restores the caller's stack. It keeps the callee's registers and memory, which are shared. |
| Properties.StoreLoadRoundTrip | src/main.rs:266-293 | Storing register `r` at offset 0 of a non-empty region and loading into `r2` yields the low byte of `r`. For `r` in 0..255 that is `r`'s value. |
| Properties.CompareOpDuality | src/main.rs:192-243 | On valid indices, `neq`, `lte` and `gte` write 1 minus what `eq`, `gt` and `lt` write. `gt` and `gte` with the operands swapped write what `lt` and `lte` write. |
| Properties.SetRegThenRead | src/main.rs:138-145 | A register written by `set_reg` reads back the written value. |
| Properties.StepLeads | src/main.rs:57-136 | One step that keeps the machine running can be peeled off every longer run. |
| Properties.LeadsTrans | src/main.rs:57-136 | Sequences of running steps compose. |
| Properties.LeadsToHalt | src/main.rs:57-136 | A state led to one that fetches `Halt` halts in every longer run. |
| Scenarios.HaltOnly | src/main.rs:115 | `[Halt]` halts at once with all registers 0 and no memory. |
| Scenarios.AddProgram | src/main.rs:147-190 | 42 + 58 lands in register 2, and the operands are kept. |
| Scenarios.AddIntoOperand | src/main.rs:177-182 | `Add(0, 1, 0)` with 2 and 3 leaves 5 in register 0, because operands are read before the write. |
| Scenarios.JumpIfZeroTargets | src/main.rs:295-308 | A conditional jump to one past the last instruction is rejected. An offset of 1 skips one instruction. |
| Scenarios.AllocationAddresses | src/main.rs:245-264 | Allocations get consecutive addresses. After freeing the first region, the next allocation does not reuse its address. |
| Scenarios.ZeroSizeAllocation | src/main.rs:245-256 | A size-0 region sits at the cursor, which does not move. The next allocation replaces it. |
| Scenarios.FreedEmptyRegionReused | src/main.rs:245-264 | After a size-0 region at 0 is freed, the next allocation is placed at 0 again. |
| Scenarios.DivideByZeroFaults | src/main.rs:159-161 | Dividing by a zero register aborts the run with divide-by-zero. |
| Scenarios.DemoStorePart | src/main.rs:344-347 | The demonstration allocates 100 bytes at 0, sets register 0 to 42 and stores it at offset 0. |
| Scenarios.DemoLoadPart | src/main.rs:348-350 | It loads 42 into register 1, prints it and frees the region. |
| Scenarios.DemoCallPart | src/main.rs:351-353 | It sets registers 0 and 1 and calls the routine, saving return address 9. |
| Scenarios.DemoRoutinePart | src/main.rs:360-362 | The routine puts 11, 22 and their sum 33 in registers 2, 3 and 4. |
| Scenarios.DemoReturnPart | src/main.rs:354-364 | The routine prints 33 and returns to instruction 9, which prints register 0. |
| Scenarios.DemoEpiloguePart | src/main.rs:355-357 | Register 4 is non-zero, so nothing is skipped. Registers 4 and 2 are printed. |
| Scenarios.DemoReachesHalt | src/main.rs:343-368 | All eighteen running steps of the demonstration compose. |
| Scenarios.ThreeSteps | src/main.rs:57-136 | Three consecutive running steps compose. |
| Scenarios.DemoRun | src/main.rs:343-368 | Given 19 or more iterations, `main`'s program halts having printed 42, 33, 2, 33, 11. It ends with registers `[2, 3, 11, 22, 33, 0, 0, 0]` and no memory. |
| Engine.VM.constructor | src/main.rs:46-55 | `VM::new` builds exactly the initial machine over the given program. |
| Engine.VM.Run | src/main.rs:57-136 | The loop, cut off after `fuel` iterations, ends as `Semantics.Run` says: running, halted or faulted. |
| Engine.VM.Step | src/main.rs:59-64 | The bounds check, the fetch and the increment, then the dispatch, have exactly the effect of `Semantics.Step`. |
| Engine.VM.Execute | src/main.rs:66-134 | The dispatch has the effect of `Semantics.Execute`. |
| Engine.VM.ExecuteControl | src/main.rs:103-133 | The arms for the jumps, `Halt`, memory, `call` and `return` have the effect of `Semantics.Execute`. |
| Engine.VM.SetReg | src/main.rs:138-145 | The in-place update equals `Semantics.SetReg`. |
| Engine.VM.BinaryOp | src/main.rs:167-190 | The in-place update or panic equals `Semantics.BinaryOp`. |
| Engine.VM.CompareOp | src/main.rs:216-243 | The in-place update equals `Semantics.CompareOp`. |
| Engine.VM.AllocateMemory | src/main.rs:245-256 | The map insert and cursor bump, or the panic, equal `Semantics.AllocateMemory`. |
| Engine.VM.FreeMemory | src/main.rs:258-264 | The map removal equals `Semantics.FreeMemory`. |
| Engine.VM.StoreToMemory | src/main.rs:266-280 | The byte write or panic equals `Semantics.StoreToMemory`. |
| Engine.VM.LoadFromMemory | src/main.rs:282-293 | The register write or panic equals `Semantics.LoadFromMemory`. |
| Engine.VM.Jump | src/main.rs:295-302 | The `pc` update or panic equals `Semantics.Jump`. |
| Engine.VM.JumpIfZero | src/main.rs:304-308 | The result equals `Semantics.JumpIfZero`. |
| Engine.VM.JumpIfNonZero | src/main.rs:310-314 | The result equals `Semantics.JumpIfNonZero`. |
| Engine.VM.Print | src/main.rs:316-325 | The output trace grows as `Semantics.Print` says. |
| Engine.VM.Call | src/main.rs:327-333 | The push and `pc` update, or panic, equal `Semantics.Call`. |
| Engine.VM.ReturnFromFunction | src/main.rs:335-340 | The pop and `pc` restore equal `Semantics.Return`. |

## Left out

- The text of every `println!` is left out. That covers the trace lines and the error diagnostics for invalid indices, missing regions and rejected jumps. Only `print`'s value is kept, as the sequence `printed`.
- Release builds, where `i32` and `usize` arithmetic wraps, are not modelled; the model follows debug builds.
- A host allocation failure in `vec![0; size]` is not modelled. Any size up to `isize::MAX` is assumed to be allocatable, and only the capacity overflow above it panics.
- The state left behind by a panic is not kept. This matters in two places:
  - `allocate_memory` inserts the region before the cursor addition overflows;
  - `call` pushes before `pc + offset` overflows.
  After the panic ends the run, neither is observable.
- `MemoryRegion.size` is not a separate field, because it always equals the length of `data`; a region is its bytes.
- `HashMap` and `Vec` internals, such as hashing and capacity, are left out; memory is a `map` and the stack a `seq`.
- Termination of `run` is not proved here, although every offset is a forward one and `Return` only resumes right after its `Call`. Runs are bounded by a fuel count, and `Running` means the fuel ran out.
- The `op_name` labels passed to `binary_op` and `compare_op` only feed the trace, so they are left out.
- `main` itself is not modelled as a method. Its program is `Scenarios.Demo`, and its run is `Scenarios.DemoRun`.
