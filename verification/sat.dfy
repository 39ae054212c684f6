/** Vocabulary of the boolean engine that the e-graph's local search talks to:
    literals, clauses, three-valued answers and the 32-bit unsigned width the
    step budget is computed in. */
module Sat {

  /** Unsigned 32-bit integers (C++ `unsigned`). */
  type u32 = x: int | 0 <= x < 0x1_0000_0000

  /** The number of values of `u32`: unsigned arithmetic is taken modulo this. */
  const U32Modulus: int := 0x1_0000_0000

  datatype Option<T> = None | Some(value: T)

  /** A boolean variable together with a polarity bit (`sat::literal`). */
  datatype Literal = Literal(bvar: nat, negated: bool)

  /** A clause is the ordered sequence of its literals. */
  type Clause = seq<Literal>

  /** Three-valued answers (`lbool`). */
  datatype LBool = LTrue | LFalse | LUndef
}
