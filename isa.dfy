/** The closed instruction set. Register indices, offsets, sizes and
    addresses are `usize`; the only immediate value is the `i32` of `SetReg`. */
module Isa {
  import opened Prims

  datatype Instr =
    | SetReg(reg: usize, value: i32)
    | Add(a: usize, b: usize, dest: usize)
    | Sub(a: usize, b: usize, dest: usize)
    | Mul(a: usize, b: usize, dest: usize)
    | Div(a: usize, b: usize, dest: usize)
    | Mod(a: usize, b: usize, dest: usize)
    | Eq(a: usize, b: usize, dest: usize)
    | Neq(a: usize, b: usize, dest: usize)
    | Gt(a: usize, b: usize, dest: usize)
    | Lt(a: usize, b: usize, dest: usize)
    | Gte(a: usize, b: usize, dest: usize)
    | Lte(a: usize, b: usize, dest: usize)
    | Jump(offset: usize)
    | JumpIfZero(reg: usize, offset: usize)
    | JumpIfNonZero(reg: usize, offset: usize)
    | Print(reg: usize)
    | Halt
    | AllocateMemory(size: usize)
    | FreeMemory(address: usize)
    | StoreToMemory(address: usize, reg: usize, offset: usize)
    | LoadFromMemory(address: usize, reg: usize)
    | Call(offset: usize)
    | Return

  /** A program is a `Vec<Instruction>`, so its length is a `usize`. */
  type Program = p: seq<Instr> | |p| < USIZE_LIMIT
}
