/** The slice of WebAssembly the encoder can produce: structured code, its evaluation, and the
    validation algorithm of section 3.3 of the WebAssembly Core Specification. */
module WasmMachine {
  import opened Common
  import opened Numbers

  datatype ValType = I32 | F64Type

  datatype BlockType = Void | Yields(t: ValType)

  datatype Instr =
    | F64Const(v: F64)
    | I32Const(i: int)
    | LocalGet(x: nat)
    | LocalSet(x: nat)
    | LocalTee(x: nat)
    | Drop
    | I32Eqz
    | ConvertI32S
    | Sign(sop: SignOp)
    | Arith(aop: ArithOp)
    | Compare(cop: CmpOp)
    | Call(f: nat)
    | Br(depth: nat)
    | BrIf(depth: nat)
    | Block(bt: BlockType, body: seq<Instr>)
    | Loop(bt: BlockType, body: seq<Instr>)
    | If(bt: BlockType, thn: seq<Instr>, els: ElsePart)

  /** An absent else part and an empty one mean the same and are written differently. */
  datatype ElsePart = NoElse | Else(code: seq<Instr>)

  const IMPORT_FRAME_STAT := 0
  const IMPORT_EMIT := 1
  const IMPORT_LOG := 2

  function ResultTypes(bt: BlockType): seq<ValType> {
    match bt
    case Void => []
    case Yields(t) => [t]
  }

  // ----- evaluation -----

  datatype Value = IntV(i: int) | FloatV(v: F64)

  datatype State = State(stack: seq<Value>, locals: seq<F64>, tr: seq<Event>)

  datatype Outcome =
    | Next(st: State)
    | Branch(depth: nat, st: State)
    | OutOfTurns(tr: seq<Event>)
    | Stuck

  /** What the host sees of guest memory: nothing when the range leaves it. */
  function ReadMemory(mem: Bytes, ptr: int, n: int): Bytes {
    if 0 <= ptr && 0 <= n && ptr + n <= |mem| then mem[ptr..ptr + n] else []
  }

  function Push(st: State, v: Value): State {
    st.(stack := st.stack + [v])
  }

  predicate TopIs(st: State, floats: nat) {
    |st.stack| >= floats && forall k :: |st.stack| - floats <= k < |st.stack| ==> st.stack[k].FloatV?
  }

  predicate TopIsInt(st: State) {
    |st.stack| >= 1 && st.stack[|st.stack| - 1].IntV?
  }

  function PopN(st: State, n: nat): State
    requires |st.stack| >= n
  {
    st.(stack := st.stack[..|st.stack| - n])
  }

  function Top(st: State): Value
    requires |st.stack| >= 1
  {
    st.stack[|st.stack| - 1]
  }

  function Second(st: State): Value
    requires |st.stack| >= 2
  {
    st.stack[|st.stack| - 2]
  }

  function CallHost(w: World, mem: Bytes, f: nat, st: State): Outcome {
    if !(|st.stack| >= 2 && Top(st).IntV? && Second(st).IntV?) then Stuck
    else
      var read := ReadMemory(mem, Second(st).i, Top(st).i);
      var below := PopN(st, 2);
      if f == IMPORT_FRAME_STAT then
        Next(Push(below, FloatV(w.frameStat(st.tr, read))).(tr := st.tr + [FrameStat(read)]))
      else if f == IMPORT_EMIT then
        Next(Push(below, IntV(w.emit(st.tr, read))).(tr := st.tr + [Emitted(read)]))
      else if f == IMPORT_LOG then
        Next(below.(tr := st.tr + [Logged(read)]))
      else Stuck
  }

  /** Leaving a block: its results move on to the surrounding stack. */
  function Leave(outer: State, inner: State, arity: nat): Outcome {
    if |inner.stack| < arity then Stuck
    else Next(inner.(stack := outer.stack + inner.stack[|inner.stack| - arity..]))
  }

  function FinishBlock(outer: State, o: Outcome, arity: nat): Outcome {
    match o
    case Next(inner) => if |inner.stack| == arity then Leave(outer, inner, arity) else Stuck
    case Branch(0, inner) => Leave(outer, inner, arity)
    case Branch(d, inner) => Branch(d - 1, inner)
    case _ => o
  }

  function Step(w: World, mem: Bytes, ins: Instr, st: State, turns: nat): Outcome
    decreases turns, ins, 0
  {
    match ins
    case F64Const(v) => Next(Push(st, FloatV(v)))
    case I32Const(i) => Next(Push(st, IntV(i)))
    case LocalGet(x) => if x < |st.locals| then Next(Push(st, FloatV(st.locals[x]))) else Stuck
    case LocalSet(x) =>
      if TopIs(st, 1) && x < |st.locals| then
        Next(PopN(st, 1).(locals := st.locals[x := Top(st).v]))
      else Stuck
    case LocalTee(x) =>
      if TopIs(st, 1) && x < |st.locals| then Next(st.(locals := st.locals[x := Top(st).v])) else Stuck
    case Drop => if |st.stack| >= 1 then Next(PopN(st, 1)) else Stuck
    case I32Eqz =>
      if TopIsInt(st) then Next(Push(PopN(st, 1), IntV(if Top(st).i == 0 then 1 else 0))) else Stuck
    case ConvertI32S =>
      if TopIsInt(st) then Next(Push(PopN(st, 1), FloatV(w.Convert(Top(st).i)))) else Stuck
    case Sign(op) =>
      if TopIs(st, 1) then Next(Push(PopN(st, 1), FloatV(w.sign(op, Top(st).v)))) else Stuck
    case Arith(op) =>
      if TopIs(st, 2) then Next(Push(PopN(st, 2), FloatV(w.arith(op, Second(st).v, Top(st).v)))) else Stuck
    case Compare(op) =>
      if TopIs(st, 2) then
        Next(Push(PopN(st, 2), IntV(if w.cmp(op, Second(st).v, Top(st).v) then 1 else 0)))
      else Stuck
    case Call(f) => CallHost(w, mem, f, st)
    case Br(d) => Branch(d, st)
    case BrIf(d) =>
      if !TopIsInt(st) then Stuck
      else if Top(st).i != 0 then Branch(d, PopN(st, 1))
      else Next(PopN(st, 1))
    case Block(bt, body) =>
      FinishBlock(st, Steps(w, mem, body, st.(stack := []), turns), |ResultTypes(bt)|)
    case Loop(bt, body) => StepLoop(w, mem, bt, body, st, turns)
    case If(bt, thn, els) =>
      if !TopIsInt(st) then Stuck
      else
        var below := PopN(st, 1);
        var start := below.(stack := []);
        var o := if Top(st).i != 0 then Steps(w, mem, thn, start, turns)
                 else match els
                      case NoElse => Next(start)
                      case Else(code) => Steps(w, mem, code, start, turns);
        FinishBlock(below, o, |ResultTypes(bt)|)
  }

  /** A branch to a loop's label starts the body again, on an empty operand stack. */
  function StepLoop(w: World, mem: Bytes, bt: BlockType, body: seq<Instr>, st: State, turns: nat): Outcome
    decreases turns, body, 1
  {
    match Steps(w, mem, body, st.(stack := []), turns)
    case Branch(0, again) =>
      if turns == 0 then OutOfTurns(again.tr)
      else StepLoop(w, mem, bt, body, again.(stack := st.stack), turns - 1)
    case o => FinishBlock(st, o, |ResultTypes(bt)|)
  }

  function Steps(w: World, mem: Bytes, code: seq<Instr>, st: State, turns: nat): Outcome
    decreases turns, code, 0
  {
    if code == [] then Next(st)
    else
      match Step(w, mem, code[0], st, turns)
      case Next(st1) => Steps(w, mem, code[1..], st1, turns)
      case o => o
  }

  lemma {:induction false} StepsAppend(w: World, mem: Bytes, a: seq<Instr>, b: seq<Instr>, st: State, turns: nat)
    ensures Steps(w, mem, a + b, st, turns)
         == match Steps(w, mem, a, st, turns)
            case Next(st1) => Steps(w, mem, b, st1, turns)
            case o => o
    decreases |a|
  {
    if a == [] {
      assert a + b == b;
    } else {
      assert (a + b)[1..] == a[1..] + b;
      var o := Step(w, mem, a[0], st, turns);
      if o.Next? {
        StepsAppend(w, mem, a[1..], b, o.st, turns);
      }
    }
  }

  // ----- validation -----

  /** The operand stack the validator tracks; after an unconditional branch it is polymorphic. */
  datatype Operands = Operands(types: seq<ValType>, unreachable: bool)

  function Expect(ops: Operands, t: ValType): Option<Operands> {
    if ops.types == [] then (if ops.unreachable then Some(ops) else None)
    else if ops.types[|ops.types| - 1] == t then Some(ops.(types := ops.types[..|ops.types| - 1]))
    else None
  }

  function ExpectAny(ops: Operands): Option<Operands> {
    if ops.types == [] then (if ops.unreachable then Some(ops) else None)
    else Some(ops.(types := ops.types[..|ops.types| - 1]))
  }

  function ExpectAll(ops: Operands, ts: seq<ValType>): Option<Operands>
    decreases |ts|
  {
    if ts == [] then Some(ops)
    else
      match Expect(ops, ts[|ts| - 1])
      case None => None
      case Some(rest) => ExpectAll(rest, ts[..|ts| - 1])
  }

  function Produce(ops: Option<Operands>, ts: seq<ValType>): Option<Operands> {
    match ops
    case None => None
    case Some(o) => Some(o.(types := o.types + ts))
  }

  /** A block body must end with exactly the block's results on the stack. */
  predicate EndsWith(ops: Option<Operands>, ts: seq<ValType>) {
    ops.Some? &&
    match ExpectAll(ops.value, ts)
    case None => false
    case Some(rest) => rest.types == []
  }

  function ValidateInstr(ins: Instr, nLocals: nat, labels: seq<seq<ValType>>, ops: Operands): Option<Operands>
    decreases ins, 0
  {
    match ins
    case F64Const(_) => Produce(Some(ops), [F64Type])
    case I32Const(_) => Produce(Some(ops), [I32])
    case LocalGet(x) => if x < nLocals then Produce(Some(ops), [F64Type]) else None
    case LocalSet(x) => if x < nLocals then Expect(ops, F64Type) else None
    case LocalTee(x) => if x < nLocals then Produce(Expect(ops, F64Type), [F64Type]) else None
    case Drop => ExpectAny(ops)
    case I32Eqz => Produce(Expect(ops, I32), [I32])
    case ConvertI32S => Produce(Expect(ops, I32), [F64Type])
    case Sign(_) => Produce(Expect(ops, F64Type), [F64Type])
    case Arith(_) => Produce(ExpectAll(ops, [F64Type, F64Type]), [F64Type])
    case Compare(_) => Produce(ExpectAll(ops, [F64Type, F64Type]), [I32])
    case Call(f) =>
      if f == IMPORT_FRAME_STAT then Produce(ExpectAll(ops, [I32, I32]), [F64Type])
      else if f == IMPORT_EMIT then Produce(ExpectAll(ops, [I32, I32]), [I32])
      else if f == IMPORT_LOG then ExpectAll(ops, [I32, I32])
      else None
    case Br(d) =>
      if d < |labels| && ExpectAll(ops, labels[d]).Some? then Some(Operands([], true)) else None
    case BrIf(d) =>
      if d >= |labels| then None
      else
        (match Expect(ops, I32)
         case None => None
         case Some(rest) => Produce(ExpectAll(rest, labels[d]), labels[d]))
    case Block(bt, body) =>
      var ts := ResultTypes(bt);
      if EndsWith(Validate(body, nLocals, [ts] + labels, Operands([], false)), ts) then
        Produce(Some(ops), ts)
      else None
    case Loop(bt, body) =>
      var ts := ResultTypes(bt);
      if EndsWith(Validate(body, nLocals, [[]] + labels, Operands([], false)), ts) then
        Produce(Some(ops), ts)
      else None
    case If(bt, thn, els) =>
      var ts := ResultTypes(bt);
      if EndsWith(Validate(thn, nLocals, [ts] + labels, Operands([], false)), ts)
         && (match els
             case NoElse => ts == []
             case Else(code) => EndsWith(Validate(code, nLocals, [ts] + labels, Operands([], false)), ts)) then
        Produce(Expect(ops, I32), ts)
      else None
  }

  function Validate(code: seq<Instr>, nLocals: nat, labels: seq<seq<ValType>>, ops: Operands): Option<Operands>
    decreases code, 0
  {
    if code == [] then Some(ops)
    else
      match ValidateInstr(code[0], nLocals, labels, ops)
      case None => None
      case Some(ops1) => Validate(code[1..], nLocals, labels, ops1)
  }

  /** The body of `run`: no parameters, no results, its own label outermost. */
  predicate BodyValid(body: seq<Instr>, nLocals: nat) {
    EndsWith(Validate(body, nLocals, [[]], Operands([], false)), [])
  }

  lemma {:induction false} ValidateAppend(a: seq<Instr>, b: seq<Instr>, nLocals: nat, labels: seq<seq<ValType>>,
                                          ops: Operands)
    ensures Validate(a + b, nLocals, labels, ops)
         == match Validate(a, nLocals, labels, ops)
            case None => None
            case Some(ops1) => Validate(b, nLocals, labels, ops1)
    decreases |a|
  {
    if a == [] {
      assert a + b == b;
    } else {
      assert (a + b)[1..] == a[1..] + b;
      var o := ValidateInstr(a[0], nLocals, labels, ops);
      if o.Some? {
        ValidateAppend(a[1..], b, nLocals, labels, o.value);
      }
    }
  }
}
