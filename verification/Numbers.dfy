/** Doubles as IEEE 754 bit patterns.  What the arithmetic instructions do to those patterns is a
    parameter, so every statement about the compiler holds for any floating-point unit. */
module Numbers {
  import opened Common

  const TWO_TO_64 := 0x1_0000_0000_0000_0000

  type F64 = bits: nat | bits < TWO_TO_64 witness 0

  const F64_ZERO: F64 := 0
  const F64_ONE: F64 := 0x3FF0_0000_0000_0000

  datatype ArithOp = Add | Sub | Mul | Div | Min | Max

  datatype SignOp = Negate | Magnitude

  datatype CmpOp = Eq | Ne | Lt | Gt | Le | Ge

  /** One host call that leaves the sandbox, with the bytes the host read from guest memory. */
  datatype Event =
    | FrameStat(key: Bytes)
    | Emitted(record: Bytes)
    | Logged(message: Bytes)

  /** The arithmetic unit and the host.  A host answer may depend on every earlier call. */
  datatype World = World(
    arith: (ArithOp, F64, F64) -> F64,
    sign: (SignOp, F64) -> F64,
    cmp: (CmpOp, F64, F64) -> bool,
    ofInt: int -> F64,
    frameStat: (seq<Event>, Bytes) -> F64,
    emit: (seq<Event>, Bytes) -> int
  )
  {
    /** Whether a double counts as true: it compares unequal to 0.0. */
    predicate Truthy(v: F64) {
      cmp(Ne, v, F64_ZERO)
    }

    function Flag(b: bool): F64 {
      if b then F64_ONE else F64_ZERO
    }

    /** `f64.convert_i32_s`, exact on the two integers that comparisons produce. */
    function Convert(i: int): F64 {
      if i == 0 then F64_ZERO else if i == 1 then F64_ONE else ofInt(i)
    }
  }
}
