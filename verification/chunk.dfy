/** The bytecode representation (src/chunk.rs): opcodes, the units of the
    instruction stream, chunks, and the function objects of src/object.rs
    that own them. */
module Bytecode {
  import opened Values

  /** Rust's `u8`. */
  newtype u8 = x: int | 0 <= x < 0x100

  /** Rust's `u16`, the width of a line-table entry. */
  newtype u16 = x: int | 0 <= x < 0x1_0000

  /** The opcodes. `IntDivide` is used by the compiler and the machine
      (src/parser.rs:220, src/vm.rs:129) although the enumeration of
      src/chunk.rs lacks it; it is included here so that both sides agree. */
  datatype Op =
    | Constant | True | False
    | Add | Subtract | Multiply | Divide | IntDivide | Exponent
    | ValueEqual | NotValueEqual | Greater | GreaterEqual | Less | LessEqual
    | Not | Negative
    | Noop | Pop | Return
    | Assert

  /** One unit of the instruction stream: a bare opcode, a one-byte
      constant-pool index, or a one-byte jump distance. */
  datatype BytecodeOp =
    | Op(op: Op)
    | ConstantIndex(index: u8)
    | JumpDistance(distance: u8)

  /** The instruction stream, its line table and the constant pool. */
  datatype Chunk = Chunk(codes: seq<BytecodeOp>, lines: seq<u16>, constants: seq<Value>)

  /** A function object: only its arity and its chunk matter to the
      machine. */
  datatype ObjFunction = ObjFunction(arity: u8, chunk: Chunk, name: string)

  /** Every pool entry an index operand of this chunk's stream refers to. */
  function ReferencedConstants(c: Chunk): (r: set<nat>)
    ensures forall k :: k in r ==> k < 0x100
    ensures forall i :: 0 <= i < |c.codes| && c.codes[i].ConstantIndex? ==> c.codes[i].index as nat in r
  {
    set i | 0 <= i < |c.codes| && c.codes[i].ConstantIndex? :: c.codes[i].index as nat
  }

  /** Pool entries from 256 on are out of reach of every index operand. */
  lemma {:induction false} HighConstantsUnreachable(c: Chunk, k: nat)
    requires 0x100 <= k < |c.constants|
    ensures k !in ReferencedConstants(c)
  {
  }

  /** The immediate operands an opcode takes in the stream: one constant
      index after `Constant`, none after any other opcode. */
  function OperandCount(op: Op): (n: nat)
    ensures n <= 1
    ensures n == 1 <==> op == Constant
  {
    if op == Constant then 1 else 0
  }
}
