/** Run-time values (`Value` of src/value.rs) and the arithmetic the machine
    applies to them, which the model takes as a parameter. */
module Values {
  import TokenKinds

  /** A 32-bit signed integer, as Rust's `i32`. */
  newtype i32 = x: int | -0x8000_0000 <= x < 0x8000_0000

  /** A tagged value. A float and a complex number each carry one IEEE-754
      double, kept here as its 64-bit pattern; the object variant stands
      for a heap object whose contents do not matter to the core. */
  datatype Value =
    | Bool(b: bool)
    | Integer(i: i32)
    | Float(bits: bv64)
    | Complex(bits: bv64)
    | Object

  /** The value-level operations the machine relies on but whose code is
      outside the core: `is_number`, and `Operator::doit`, which applies a
      binary operator to a left and a right operand. */
  datatype Arith = Arith(
    isNumber: Value -> bool,
    apply: (TokenKinds.Operator, Value, Value) -> Value)
}
