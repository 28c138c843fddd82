/** Validated code never gets stuck: whatever the host answers and whatever the locals hold, every
    instruction finds operands of the types it wants and every branch finds its label. */
module WasmSoundness {
  import opened Common
  import opened Numbers
  import opened WasmMachine

  function TypeOf(v: Value): ValType {
    if v.IntV? then I32 else F64Type
  }

  predicate StackHas(stack: seq<Value>, types: seq<ValType>) {
    |stack| == |types| && forall k :: 0 <= k < |stack| ==> TypeOf(stack[k]) == types[k]
  }

  /** The top of `stack` has types `types`; anything may lie below. */
  predicate TopHas(stack: seq<Value>, types: seq<ValType>) {
    |types| <= |stack| && StackHas(stack[|stack| - |types|..], types)
  }

  type Labels = seq<seq<ValType>>

  /** `o` is an outcome the validator allows for code it says ends in `ops`. */
  predicate Allowed(o: Outcome, n: nat, labels: Labels, ops: Operands) {
    match o
    case Next(st) => !ops.unreachable && StackHas(st.stack, ops.types) && |st.locals| == n
    case Branch(d, st) => d < |labels| && |st.locals| == n && TopHas(st.stack, labels[d])
    case OutOfTurns(_) => true
    case Stuck => false
  }

  predicate Ready(st: State, n: nat, ops: Operands) {
    !ops.unreachable && StackHas(st.stack, ops.types) && |st.locals| == n
  }

  lemma {:induction false} ExpectAllSplits(ops: Operands, ts: seq<ValType>)
    requires !ops.unreachable && ExpectAll(ops, ts).Some?
    ensures var rest := ExpectAll(ops, ts).value;
            !rest.unreachable && ops.types == rest.types + ts
    decreases |ts|
  {
    if ts != [] {
      var rest := Expect(ops, ts[|ts| - 1]).value;
      ExpectAllSplits(rest, ts[..|ts| - 1]);
      assert ts == ts[..|ts| - 1] + [ts[|ts| - 1]];
      assert ops.types == rest.types + [ts[|ts| - 1]];
    } else {
      assert ops.types + ts == ops.types;
    }
  }

  lemma PopsTop(st: State, n: nat, ops: Operands, ts: seq<ValType>)
    requires Ready(st, n, ops) && ExpectAll(ops, ts).Some?
    ensures TopHas(st.stack, ts)
    ensures Ready(PopN(st, |ts|), n, ExpectAll(ops, ts).value)
    ensures forall k :: 0 <= k < |ts| ==> TypeOf(st.stack[|st.stack| - |ts| + k]) == ts[k]
  {
    ExpectAllSplits(ops, ts);
  }

  lemma ExpectIsExpectAll(ops: Operands, t: ValType)
    ensures ExpectAll(ops, [t]) == Expect(ops, t)
  {
    assert [t][..0] == [];
    var r := Expect(ops, t);
    if r.Some? {
      assert ExpectAll(r.value, [t][..0]) == r;
    }
  }

  /** Instructions with one operand. */
  lemma UnarySound(w: World, mem: Bytes, ins: Instr, n: nat, labels: Labels, ops: Operands, st: State, turns: nat)
    requires ins.Sign? || ins.I32Eqz? || ins.ConvertI32S?
    requires Ready(st, n, ops) && ValidateInstr(ins, n, labels, ops).Some?
    ensures Allowed(Step(w, mem, ins, st, turns), n, labels, ValidateInstr(ins, n, labels, ops).value)
  {
    var want := if ins.Sign? then F64Type else I32;
    ExpectIsExpectAll(ops, want);
    PopsTop(st, n, ops, [want]);
  }

  /** Instructions with two double operands. */
  lemma BinarySound(w: World, mem: Bytes, ins: Instr, n: nat, labels: Labels, ops: Operands, st: State, turns: nat)
    requires ins.Arith? || ins.Compare?
    requires Ready(st, n, ops) && ValidateInstr(ins, n, labels, ops).Some?
    ensures Allowed(Step(w, mem, ins, st, turns), n, labels, ValidateInstr(ins, n, labels, ops).value)
  {
    PopsTop(st, n, ops, [F64Type, F64Type]);
  }

  /** A host call finds its pointer and length, and pushes what the import declares. */
  lemma CallSound(w: World, mem: Bytes, f: nat, n: nat, labels: Labels, ops: Operands, st: State)
    requires Ready(st, n, ops) && ValidateInstr(Call(f), n, labels, ops).Some?
    ensures Allowed(CallHost(w, mem, f, st), n, labels, ValidateInstr(Call(f), n, labels, ops).value)
  {
    PopsTop(st, n, ops, [I32, I32]);
  }

  /** Locals, constants and branches. */
  lemma PlainSound(w: World, mem: Bytes, ins: Instr, n: nat, labels: Labels, ops: Operands, st: State, turns: nat)
    requires !ins.Block? && !ins.Loop? && !ins.If? && !ins.Call?
    requires !(ins.Sign? || ins.I32Eqz? || ins.ConvertI32S? || ins.Arith? || ins.Compare?)
    requires Ready(st, n, ops) && ValidateInstr(ins, n, labels, ops).Some?
    ensures Allowed(Step(w, mem, ins, st, turns), n, labels, ValidateInstr(ins, n, labels, ops).value)
  {
    match ins
    case LocalSet(x) => StoreSound(w, mem, x, n, labels, ops, st, turns);
    case LocalTee(x) => StoreSound(w, mem, x, n, labels, ops, st, turns);
    case Br(d) => PopsTop(st, n, ops, labels[d]);
    case BrIf(d) => BrIfSound(w, mem, d, n, labels, ops, st, turns);
    case _ =>
  }

  lemma StoreSound(w: World, mem: Bytes, x: nat, n: nat, labels: Labels, ops: Operands, st: State, turns: nat)
    requires Ready(st, n, ops) && x < n && Expect(ops, F64Type).Some?
    ensures Allowed(Step(w, mem, LocalSet(x), st, turns), n, labels, Expect(ops, F64Type).value)
    ensures Allowed(Step(w, mem, LocalTee(x), st, turns), n, labels, Produce(Expect(ops, F64Type), [F64Type]).value)
  {
    ExpectIsExpectAll(ops, F64Type);
    PopsTop(st, n, ops, [F64Type]);
    ExpectAllSplits(ops, [F64Type]);
  }

  lemma BrIfSound(w: World, mem: Bytes, d: nat, n: nat, labels: Labels, ops: Operands, st: State, turns: nat)
    requires Ready(st, n, ops) && ValidateInstr(BrIf(d), n, labels, ops).Some?
    ensures Allowed(Step(w, mem, BrIf(d), st, turns), n, labels, ValidateInstr(BrIf(d), n, labels, ops).value)
  {
    ExpectIsExpectAll(ops, I32);
    PopsTop(st, n, ops, [I32]);
    var rest := Expect(ops, I32).value;
    PopsTop(PopN(st, 1), n, rest, labels[d]);
    ExpectAllSplits(rest, labels[d]);
  }

  /** Leaving a block whose body behaved as validated. */
  lemma FinishSound(outer: State, o: Outcome, n: nat, labels: Labels, inner: Operands, ts: seq<ValType>, ops: Operands)
    requires Ready(outer, n, ops) && Allowed(o, n, [ts] + labels, inner) && EndsWith(Some(inner), ts)
    ensures Allowed(FinishBlock(outer, o, |ts|), n, labels, ops.(types := ops.types + ts))
  {
    match o
    case Next(st) => ExpectAllSplits(inner, ts);
    case Branch(d, st) => assert d > 0 ==> ([ts] + labels)[d] == labels[d - 1];
    case _ =>
  }

  lemma {:induction false} InstrSound(w: World, mem: Bytes, ins: Instr, n: nat, labels: Labels, ops: Operands,
                                      st: State, turns: nat)
    requires Ready(st, n, ops) && ValidateInstr(ins, n, labels, ops).Some?
    ensures Allowed(Step(w, mem, ins, st, turns), n, labels, ValidateInstr(ins, n, labels, ops).value)
    decreases turns, ins, 0
  {
    var start := st.(stack := []);
    var none := Operands([], false);
    match ins
    case Block(bt, body) =>
      var ts := ResultTypes(bt);
      CodeSound(w, mem, body, n, [ts] + labels, none, start, turns);
      FinishSound(st, Steps(w, mem, body, start, turns), n, labels, Validate(body, n, [ts] + labels, none).value, ts,
        ops);
    case Loop(bt, body) =>
      LoopSound(w, mem, bt, body, n, labels, ops, st, turns);
    case If(bt, thn, els) =>
      var ts := ResultTypes(bt);
      ExpectIsExpectAll(ops, I32);
      PopsTop(st, n, ops, [I32]);
      var below := PopN(st, 1);
      var rest := Expect(ops, I32).value;
      if Top(st).i == 0 && els.NoElse? {
        FinishSound(below, Next(below.(stack := [])), n, labels, none, ts, rest);
      } else {
        var arm := if Top(st).i != 0 then thn else els.code;
        CodeSound(w, mem, arm, n, [ts] + labels, none, below.(stack := []), turns);
        FinishSound(below, Steps(w, mem, arm, below.(stack := []), turns), n, labels,
                    Validate(arm, n, [ts] + labels, none).value, ts, rest);
      }
    case Call(f) => CallSound(w, mem, f, n, labels, ops, st);
    case _ =>
      if ins.Sign? || ins.I32Eqz? || ins.ConvertI32S? {
        UnarySound(w, mem, ins, n, labels, ops, st, turns);
      } else if ins.Arith? || ins.Compare? {
        BinarySound(w, mem, ins, n, labels, ops, st, turns);
      } else {
        PlainSound(w, mem, ins, n, labels, ops, st, turns);
      }
  }

  lemma {:induction false} LoopSound(w: World, mem: Bytes, bt: BlockType, body: seq<Instr>, n: nat, labels: Labels,
                                     ops: Operands, st: State, turns: nat)
    requires Ready(st, n, ops)
    requires EndsWith(Validate(body, n, [[]] + labels, Operands([], false)), ResultTypes(bt))
    ensures Allowed(StepLoop(w, mem, bt, body, st, turns), n, labels, ops.(types := ops.types + ResultTypes(bt)))
    decreases turns, body, 1
  {
    var none := Operands([], false);
    var ts := ResultTypes(bt);
    var start := st.(stack := []);
    CodeSound(w, mem, body, n, [[]] + labels, none, start, turns);
    var inner := Validate(body, n, [[]] + labels, none).value;
    var o := Steps(w, mem, body, start, turns);
    match o
    case Branch(0, again) =>
      if turns > 0 {
        LoopSound(w, mem, bt, body, n, labels, ops, again.(stack := st.stack), turns - 1);
      }
    case Branch(d, out) =>
      assert ([[]] + labels)[d] == labels[d - 1];
    case Next(out) => ExpectAllSplits(inner, ts);
    case _ =>
  }

  lemma {:induction false} CodeSound(w: World, mem: Bytes, code: seq<Instr>, n: nat, labels: Labels, ops: Operands,
                                     st: State, turns: nat)
    requires Ready(st, n, ops) && Validate(code, n, labels, ops).Some?
    ensures Allowed(Steps(w, mem, code, st, turns), n, labels, Validate(code, n, labels, ops).value)
    decreases turns, code, 0
  {
    if code != [] {
      InstrSound(w, mem, code[0], n, labels, ops, st, turns);
      var o := Step(w, mem, code[0], st, turns);
      if o.Next? {
        CodeSound(w, mem, code[1..], n, labels, ValidateInstr(code[0], n, labels, ops).value, o.st, turns);
      }
    }
  }

  /** A validated body of `run`, started as the runtime starts it, returns or keeps turning. */
  lemma ValidBodyNeverStuck(w: World, mem: Bytes, body: seq<Instr>, n: nat, locals: seq<F64>, turns: nat)
    requires BodyValid(body, n) && |locals| == n
    ensures var o := Steps(w, mem, body, State([], locals, []), turns);
            || (o.Next? && o.st.stack == [])
            || (o.Branch? && o.depth == 0)
            || o.OutOfTurns?
  {
    var none := Operands([], false);
    CodeSound(w, mem, body, n, [[]], none, State([], locals, []), turns);
    var o := Steps(w, mem, body, State([], locals, []), turns);
    if o.Next? {
      ExpectAllSplits(Validate(body, n, [[]], none).value, []);
    }
  }
}
