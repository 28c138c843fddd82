/** The compiled body does what the routine means: the same host calls in the same order, the same
    value for every name, and the same number of loop turns, for every host.

    The proof is one simulation, syntax by syntax: `ExprCorrect` and `FoldCorrect` for expressions and
    short-circuit chains, `StmtsCorrect` and `LoopCorrect` for statements.  A state of the machine
    represents the source's names through the final tables; the scratch slot belongs to no name. */
module PierTranslation {
  import opened Common
  import opened Numbers
  import opened WasmMachine
  import opened CompilerSpec
  import S = PierSource

  // ----- relation between names and local slots -----

  predicate Represents(env: S.Env, fin: Tables, locals: seq<F64>) {
    && |locals| == |fin.locals|
    && forall x :: x in env ==> x in fin.locals && fin.locals[x] < |locals| && locals[fin.locals[x]] == env[x]
  }

  predicate SameButScratch(fin: Tables, a: seq<F64>, b: seq<F64>) {
    |a| == |b| && forall k :: 0 <= k < |a| && fin.scratch != Some(k) ==> a[k] == b[k]
  }

  lemma ScratchIsUnnamed(env: S.Env, fin: Tables, a: seq<F64>, b: seq<F64>)
    requires TablesValid(fin) && Represents(env, fin, a) && SameButScratch(fin, a, b)
    ensures Represents(env, fin, b)
  {
    forall x | x in env
      ensures b[fin.locals[x]] == env[x]
    {
      assert '$' in SCRATCH;
      assert x != SCRATCH;
      assert fin.scratch != Some(fin.locals[x]);
    }
  }

  /** `c` is code the routine's final tables `fin` were built on. */
  predicate Part(c: Compiled, fin: Tables) {
    c.Ok? && Extends(c.value.1, fin)
  }

  // ----- short runs of the machine -----

  lemma Continue(w: World, mem: Bytes, a: seq<Instr>, b: seq<Instr>, st: State, mid: State, turns: nat)
    requires Steps(w, mem, a, st, turns) == Next(mid)
    ensures Steps(w, mem, a + b, st, turns) == Steps(w, mem, b, mid, turns)
  {
    StepsAppend(w, mem, a, b, st, turns);
  }

  lemma Two(w: World, mem: Bytes, a: Instr, b: Instr, st: State, mid: State, end: State, turns: nat)
    requires Step(w, mem, a, st, turns) == Next(mid)
    requires Step(w, mem, b, mid, turns) == Next(end)
    ensures Steps(w, mem, [a, b], st, turns) == Next(end)
  {
    assert [a, b][1..] == [b];
    assert Steps(w, mem, [b], mid, turns) == Next(end);
  }

  /** `code` pushes the one double `v`, moves the trace to `tr`, and touches no named slot. */
  predicate Gives(w: World, fin: Tables, code: seq<Instr>, st: State, turns: nat, st': State, v: F64, tr: seq<Event>) {
    && Steps(w, fin.pool, code, st, turns) == Next(st')
    && st'.stack == st.stack + [FloatV(v)]
    && st'.tr == tr
    && SameButScratch(fin, st.locals, st'.locals)
  }

  predicate GivesTwo(w: World, fin: Tables, code: seq<Instr>, st: State, turns: nat, st': State, a: F64, b: F64,
                     tr: seq<Event>) {
    && Steps(w, fin.pool, code, st, turns) == Next(st')
    && st'.stack == (st.stack + [FloatV(a)]) + [FloatV(b)]
    && st'.tr == tr
    && SameButScratch(fin, st.locals, st'.locals)
  }

  lemma AfterSign(w: World, fin: Tables, op: SignOp, code: seq<Instr>, st: State, turns: nat, mid: State, v: F64,
                  tr: seq<Event>)
    returns (st': State)
    requires Gives(w, fin, code, st, turns, mid, v, tr)
    ensures Gives(w, fin, code + [Sign(op)], st, turns, st', w.sign(op, v), tr)
  {
    assert PopN(mid, 1).stack == st.stack;
    st' := mid.(stack := st.stack + [FloatV(w.sign(op, v))]);
    assert Steps(w, fin.pool, [Sign(op)], mid, turns) == Next(st');
    Continue(w, fin.pool, code, [Sign(op)], st, mid, turns);
  }

  lemma AfterArith(w: World, fin: Tables, op: ArithOp, code: seq<Instr>, st: State, turns: nat, mid: State, a: F64,
                   b: F64, tr: seq<Event>)
    returns (st': State)
    requires GivesTwo(w, fin, code, st, turns, mid, a, b, tr)
    ensures Gives(w, fin, code + [Arith(op)], st, turns, st', w.arith(op, a, b), tr)
  {
    assert PopN(mid, 2).stack == st.stack;
    st' := mid.(stack := st.stack + [FloatV(w.arith(op, a, b))]);
    assert Steps(w, fin.pool, [Arith(op)], mid, turns) == Next(st');
    Continue(w, fin.pool, code, [Arith(op)], st, mid, turns);
  }

  lemma AfterCompare(w: World, fin: Tables, op: CmpOp, code: seq<Instr>, st: State, turns: nat, mid: State, a: F64,
                     b: F64, tr: seq<Event>)
    returns (st': State)
    requires GivesTwo(w, fin, code, st, turns, mid, a, b, tr)
    ensures Gives(w, fin, code + [Compare(op), ConvertI32S], st, turns, st', w.Flag(w.cmp(op, a, b)), tr)
  {
    assert PopN(mid, 2).stack == st.stack;
    var tested := mid.(stack := st.stack + [IntV(if w.cmp(op, a, b) then 1 else 0)]);
    assert PopN(tested, 1).stack == st.stack;
    st' := mid.(stack := st.stack + [FloatV(w.Flag(w.cmp(op, a, b)))]);
    Two(w, fin.pool, Compare(op), ConvertI32S, mid, tested, st', turns);
    Continue(w, fin.pool, code, [Compare(op), ConvertI32S], st, mid, turns);
  }

  /** Truth test: the operand becomes the integer 1 or 0. */
  lemma Truth(w: World, mem: Bytes, below: seq<Value>, v: F64, mid: State, turns: nat)
    requires mid.stack == below + [FloatV(v)]
    ensures Steps(w, mem, TO_BOOL, mid, turns)
         == Next(mid.(stack := below + [IntV(if w.Truthy(v) then 1 else 0)]))
  {
    var mid1 := Push(mid, FloatV(F64_ZERO));
    assert PopN(mid1, 2).stack == below;
    Two(w, mem, F64Const(F64_ZERO), Compare(Ne), mid, mid1,
        mid.(stack := below + [IntV(if w.Truthy(v) then 1 else 0)]), turns);
  }

  lemma AfterTruth(w: World, fin: Tables, code: seq<Instr>, tail: seq<Instr>, st: State, turns: nat, mid: State,
                   v: F64, tr: seq<Event>)
    requires Gives(w, fin, code, st, turns, mid, v, tr)
    ensures Steps(w, fin.pool, code + TO_BOOL + tail, st, turns)
         == Steps(w, fin.pool, tail, mid.(stack := st.stack + [IntV(if w.Truthy(v) then 1 else 0)]), turns)
  {
    Truth(w, fin.pool, st.stack, v, mid, turns);
    Continue(w, fin.pool, code, TO_BOOL, st, mid, turns);
    Continue(w, fin.pool, code + TO_BOOL, tail, st, mid.(stack := st.stack + [IntV(if w.Truthy(v) then 1 else 0)]),
      turns);
  }

  lemma AfterNot(w: World, fin: Tables, code: seq<Instr>, st: State, turns: nat, mid: State, v: F64, tr: seq<Event>)
    returns (st': State)
    requires Gives(w, fin, code, st, turns, mid, v, tr)
    ensures Gives(w, fin, code + (TO_BOOL + [I32Eqz, ConvertI32S]), st, turns, st', w.Flag(!w.Truthy(v)), tr)
  {
    var tail := [I32Eqz, ConvertI32S];
    AfterTruth(w, fin, code, tail, st, turns, mid, v, tr);
    assert code + TO_BOOL + tail == code + (TO_BOOL + tail);
    var i := if w.Truthy(v) then 1 else 0;
    var tested := mid.(stack := st.stack + [IntV(i)]);
    var flipped := mid.(stack := st.stack + [IntV(1 - i)]);
    st' := mid.(stack := st.stack + [FloatV(w.Flag(!w.Truthy(v)))]);
    assert PopN(tested, 1).stack == st.stack;
    assert PopN(flipped, 1).stack == st.stack;
    Two(w, fin.pool, I32Eqz, ConvertI32S, tested, flipped, st', turns);
  }

  /** Offset and length are pushed, and the host reads exactly the interned bytes. */
  lemma StringCall(w: World, fin: Tables, f: nat, b: Bytes, t: Tables, st: State, turns: nat)
    requires TablesValid(t) && Part(CompileStringCall(f, b, t), fin)
    requires f <= IMPORT_LOG
    ensures Steps(w, fin.pool, CompileStringCall(f, b, t).value.0, st, turns)
         == if f == IMPORT_FRAME_STAT then
              Next(State(st.stack + [FloatV(w.frameStat(st.tr, b))], st.locals, st.tr + [FrameStat(b)]))
            else if f == IMPORT_EMIT then
              Next(State(st.stack + [IntV(w.emit(st.tr, b))], st.locals, st.tr + [Emitted(b)]))
            else
              Next(State(st.stack, st.locals, st.tr + [Logged(b)]))
  {
    InternGrows(t, b);
    var (t1, off, len) := Intern(t, b);
    InPoolGrows(t1.pool, fin.pool, off, len, b);
    var mid1 := Push(st, IntV(off));
    var mid2 := Push(mid1, IntV(len));
    assert ReadMemory(fin.pool, off, len) == b;
    assert PopN(mid2, 2).stack == st.stack;
    Two(w, fin.pool, I32Const(off), I32Const(len), st, mid1, mid2, turns);
    Continue(w, fin.pool, [I32Const(off), I32Const(len)], [Call(f)], st, mid2, turns);
    assert [I32Const(off), I32Const(len)] + [Call(f)] == [I32Const(off), I32Const(len), Call(f)];
    assert Steps(w, fin.pool, [Call(f)], mid2, turns) == CallHost(w, fin.pool, f, mid2);
  }

  // ----- expressions -----

  predicate CanRun(fin: Tables, t: Tables, c: Compiled, env: S.Env, locals: seq<F64>) {
    TablesValid(t) && TablesValid(fin) && Part(c, fin) && Represents(env, fin, locals)
  }

  lemma {:induction false} ExprCorrect(w: World, fin: Tables, e: S.Expr, t: Tables, st: State, env: S.Env, turns: nat)
    returns (st': State)
    requires CanRun(fin, t, CompileExpr(e, t), env, st.locals)
    requires S.Eval(w, e, env, st.tr).Some?
    ensures var (v, tr) := S.Eval(w, e, env, st.tr).value;
            Gives(w, fin, CompileExpr(e, t).value.0, st, turns, st', v, tr)
    decreases e, 2
  {
    match e
    case Num(v) => st' := Push(st, FloatV(v));
    case Name(x) => st' := Push(st, FloatV(env[x]));
    case Neg(a) =>
      st' := ExprCorrect(w, fin, a, t, st, env, turns);
      st' := AfterSign(w, fin, Negate, CompileExpr(a, t).value.0, st, turns, st', S.Eval(w, a, env, st.tr).value.0,
        st'.tr);
    case Abs(a) =>
      st' := ExprCorrect(w, fin, a, t, st, env, turns);
      st' := AfterSign(w, fin, Magnitude, CompileExpr(a, t).value.0, st, turns, st',
        S.Eval(w, a, env, st.tr).value.0, st'.tr);
    case Pos(a) => st' := ExprCorrect(w, fin, a, t, st, env, turns);
    case Not(a) =>
      st' := ExprCorrect(w, fin, a, t, st, env, turns);
      st' := AfterNot(w, fin, CompileExpr(a, t).value.0, st, turns, st', S.Eval(w, a, env, st.tr).value.0, st'.tr);
    case Binary(_, _, _) => st' := TwoOperandsCorrect(w, fin, e, t, st, env, turns);
    case MinMax(_, _, _) => st' := TwoOperandsCorrect(w, fin, e, t, st, env, turns);
    case Compare(_, _, _) => st' := TwoOperandsCorrect(w, fin, e, t, st, env, turns);
    case BoolOp(_, _) => st' := ChainCorrect(w, fin, e, t, st, env, turns);
    case ReadFrame(_) => st' := HostValueCorrect(w, fin, e, t, st, env, turns);
    case Log(_) => st' := HostValueCorrect(w, fin, e, t, st, env, turns);
  }

  lemma HostValueCorrect(w: World, fin: Tables, e: S.Expr, t: Tables, st: State, env: S.Env, turns: nat)
    returns (st': State)
    requires e.ReadFrame? || e.Log?
    requires CanRun(fin, t, CompileExpr(e, t), env, st.locals)
    ensures var (v, tr) := S.Eval(w, e, env, st.tr).value;
            Gives(w, fin, CompileExpr(e, t).value.0, st, turns, st', v, tr)
  {
    match e
    case ReadFrame(key) =>
      StringCall(w, fin, IMPORT_FRAME_STAT, key, t, st, turns);
      st' := State(st.stack + [FloatV(w.frameStat(st.tr, key))], st.locals, st.tr + [FrameStat(key)]);
    case Log(message) =>
      StringCall(w, fin, IMPORT_LOG, message, t, st, turns);
      var mid := State(st.stack, st.locals, st.tr + [Logged(message)]);
      Continue(w, fin.pool, CompileStringCall(IMPORT_LOG, message, t).value.0, [F64Const(F64_ZERO)], st, mid, turns);
      st' := Push(mid, FloatV(F64_ZERO));
  }

  lemma {:induction false} TwoOperandsCorrect(w: World, fin: Tables, e: S.Expr, t: Tables, st: State, env: S.Env,
                                              turns: nat)
    returns (st': State)
    requires e.Binary? || e.MinMax? || e.Compare?
    requires CanRun(fin, t, CompileExpr(e, t), env, st.locals)
    requires S.Eval(w, e, env, st.tr).Some?
    ensures var (v, tr) := S.Eval(w, e, env, st.tr).value;
            Gives(w, fin, CompileExpr(e, t).value.0, st, turns, st', v, tr)
    decreases e, 1
  {
    var code := CompilePair(CompileExpr(e.left, t), e.right).value.0;
    var a, b;
    st', a, b := OperandsCorrect(w, fin, e, t, st, env, turns);
    match e
    case Binary(op, _, _) => st' := AfterArith(w, fin, S.ArithOf(op).value, code, st, turns, st', a, b, st'.tr);
    case MinMax(isMin, _, _) =>
      st' := AfterArith(w, fin, if isMin then Min else Max, code, st, turns, st', a, b, st'.tr);
    case Compare(op, _, _) => st' := AfterCompare(w, fin, op.op, code, st, turns, st', a, b, st'.tr);
  }

  /** The two operands of `e`, left before right. */
  lemma {:induction false} OperandsCorrect(w: World, fin: Tables, e: S.Expr, t: Tables, st: State, env: S.Env,
                                           turns: nat)
    returns (st': State, a: F64, b: F64)
    requires e.Binary? || e.MinMax? || e.Compare?
    requires CanRun(fin, t, CompilePair(CompileExpr(e.left, t), e.right), env, st.locals)
    requires S.Eval(w, e.left, env, st.tr).Some?
    requires S.Eval(w, e.right, env, S.Eval(w, e.left, env, st.tr).value.1).Some?
    ensures var (v1, tr1) := S.Eval(w, e.left, env, st.tr).value;
            a == v1 && (b, st'.tr) == S.Eval(w, e.right, env, tr1).value
    ensures GivesTwo(w, fin, CompilePair(CompileExpr(e.left, t), e.right).value.0, st, turns, st', a, b, st'.tr)
    decreases e, 0
  {
    var left := CompileExpr(e.left, t);
    ExprGrows(e.left, t);
    ExprGrows(e.right, left.value.1);
    var mid := ExprCorrect(w, fin, e.left, t, st, env, turns);
    a := S.Eval(w, e.left, env, st.tr).value.0;
    ScratchIsUnnamed(env, fin, st.locals, mid.locals);
    st' := ExprCorrect(w, fin, e.right, left.value.1, mid, env, turns);
    b := S.Eval(w, e.right, env, mid.tr).value.0;
    Continue(w, fin.pool, left.value.0, CompileExpr(e.right, left.value.1).value.0, st, mid, turns);
  }

  /** The value a chain has once its left part gave `v`. */
  function RestOfChain(w: World, isAnd: bool, v: F64, rest: seq<S.Expr>, env: S.Env, tr: seq<Event>)
    : Option<(F64, seq<Event>)>
  {
    if rest == [] || w.Truthy(v) != isAnd then Some((v, tr)) else S.EvalBool(w, isAnd, rest, env, tr)
  }

  lemma ChainParts(fin: Tables, isAnd: bool, values: seq<S.Expr>, t: Tables, env: S.Env, locals: seq<F64>)
    requires values != [] && CanRun(fin, t, CompileExpr(S.BoolOp(isAnd, values), t), env, locals)
    ensures var first := CompileExpr(values[0], t);
            && CanRun(fin, t, first, env, locals)
            && var (code, t1) := first.value;
               && CanRun(fin, t1, CompileFold(isAnd, values[1..], t1), env, locals)
               && CompileExpr(S.BoolOp(isAnd, values), t).value.0 == code + CompileFold(isAnd, values[1..], t1).value.0
  {
    ExprGrows(values[0], t);
    var t1 := CompileExpr(values[0], t).value.1;
    FoldGrows(isAnd, values[1..], t1);
    ExtendsTransitive(t1, CompileFold(isAnd, values[1..], t1).value.1, fin);
  }

  lemma {:induction false} ChainCorrect(w: World, fin: Tables, e: S.Expr, t: Tables, st: State, env: S.Env, turns: nat)
    returns (st': State)
    requires e.BoolOp? && CanRun(fin, t, CompileExpr(e, t), env, st.locals)
    requires S.Eval(w, e, env, st.tr).Some?
    ensures var (v, tr) := S.Eval(w, e, env, st.tr).value;
            Gives(w, fin, CompileExpr(e, t).value.0, st, turns, st', v, tr)
    decreases e, 0
  {
    ChainParts(fin, e.isAnd, e.values, t, env, st.locals);
    var (code, t1) := CompileExpr(e.values[0], t).value;
    var mid := ExprCorrect(w, fin, e.values[0], t, st, env, turns);
    var (v, tr1) := S.Eval(w, e.values[0], env, st.tr).value;
    assert RestOfChain(w, e.isAnd, v, e.values[1..], env, tr1) == S.EvalBool(w, e.isAnd, e.values, env, st.tr);
    StillCanRun(fin, t1, CompileFold(e.isAnd, e.values[1..], t1), env, st.locals, mid.locals);
    st' := FoldCorrect(w, fin, e.isAnd, e.values[1..], t1, st.stack, mid, v, env, turns);
    Continue(w, fin.pool, code, CompileFold(e.isAnd, e.values[1..], t1).value.0, st, mid, turns);
  }

  lemma StillCanRun(fin: Tables, t: Tables, c: Compiled, env: S.Env, a: seq<F64>, b: seq<F64>)
    requires CanRun(fin, t, c, env, a) && SameButScratch(fin, a, b)
    ensures CanRun(fin, t, c, env, b)
  {
    ScratchIsUnnamed(env, fin, a, b);
  }

  /** How the code of a chain splits at its first operator. */
  lemma FoldParts(fin: Tables, isAnd: bool, rest: seq<S.Expr>, t: Tables, env: S.Env, locals: seq<F64>, v: F64)
    requires rest != [] && CanRun(fin, t, CompileFold(isAnd, rest, t), env, locals)
    ensures var (t1, sb) := ScratchIndex(t);
            var right := CompileExpr(rest[0], t1);
            && right.Ok? && sb < |locals| && SameButScratch(fin, locals, locals[sb := v])
            && CanRun(fin, t1, right, env, locals[sb := v])
            && var (code, t2) := right.value;
               && CanRun(fin, t2, CompileFold(isAnd, rest[1..], t2), env, locals)
               && CompileFold(isAnd, rest, t).value.0
                  == Choose(isAnd, sb, code) + CompileFold(isAnd, rest[1..], t2).value.0
  {
    ScratchIndexGrows(t);
    var (t1, sb) := ScratchIndex(t);
    ExprGrows(rest[0], t1);
    var t2 := CompileExpr(rest[0], t1).value.1;
    FoldGrows(isAnd, rest[1..], t2);
    ExtendsTransitive(t2, CompileFold(isAnd, rest[1..], t2).value.1, fin);
    ExtendsTransitive(t1, t2, fin);
    ScratchIsUnnamed(env, fin, locals, locals[sb := v]);
  }

  /** One shared scratch slot serves every level: the slot is read only before anything else can
      overwrite it, so a nested chain in the right operand does no harm. */
  lemma {:induction false} FoldCorrect(w: World, fin: Tables, isAnd: bool, rest: seq<S.Expr>, t: Tables,
                                       below: seq<Value>, mid: State, v: F64, env: S.Env, turns: nat)
    returns (st': State)
    requires CanRun(fin, t, CompileFold(isAnd, rest, t), env, mid.locals)
    requires mid.stack == below + [FloatV(v)]
    requires RestOfChain(w, isAnd, v, rest, env, mid.tr).Some?
    ensures var (r, tr) := RestOfChain(w, isAnd, v, rest, env, mid.tr).value;
            && Steps(w, fin.pool, CompileFold(isAnd, rest, t).value.0, mid, turns) == Next(st')
            && st'.stack == below + [FloatV(r)]
            && st'.tr == tr
            && SameButScratch(fin, mid.locals, st'.locals)
    decreases rest, 0
  {
    if rest == [] {
      return mid;
    }
    FoldParts(fin, isAnd, rest, t, env, mid.locals, v);
    var (t1, sb) := ScratchIndex(t);
    var (right, t2) := CompileExpr(rest[0], t1).value;
    var inner := State([FloatV(v)], mid.locals[sb := v], mid.tr);
    var v' := v;
    if w.Truthy(v) == isAnd {
      inner := ExprCorrect(w, fin, rest[0], t1, State([], mid.locals[sb := v], mid.tr), env, turns);
      v' := S.Eval(w, rest[0], env, mid.tr).value.0;
    }
    assert RestOfChain(w, isAnd, v', rest[1..], env, inner.tr) == RestOfChain(w, isAnd, v, rest, env, mid.tr);
    ChooseRuns(w, fin.pool, isAnd, sb, right, below, mid, v, inner, v', turns);
    var next := inner.(stack := below + [FloatV(v')]);
    StillCanRun(fin, t2, CompileFold(isAnd, rest[1..], t2), env, mid.locals, next.locals);
    st' := FoldCorrect(w, fin, isAnd, rest[1..], t2, below, next, v', env, turns);
    Continue(w, fin.pool, Choose(isAnd, sb, right), CompileFold(isAnd, rest[1..], t2).value.0, mid, next, turns);
  }

  /** Either arm of `Choose`, given where that arm ends. */
  lemma ChooseRuns(w: World, mem: Bytes, isAnd: bool, sb: nat, right: seq<Instr>, below: seq<Value>, mid: State,
                   v: F64, inner: State, r: F64, turns: nat)
    requires mid.stack == below + [FloatV(v)] && sb < |mid.locals|
    requires inner.stack == [FloatV(r)]
    requires if w.Truthy(v) == isAnd
             then Steps(w, mem, right, State([], mid.locals[sb := v], mid.tr), turns) == Next(inner)
             else inner == State([FloatV(v)], mid.locals[sb := v], mid.tr)
    ensures Steps(w, mem, Choose(isAnd, sb, right), mid, turns) == Next(inner.(stack := below + [FloatV(r)]))
  {
    var tee := mid.(locals := mid.locals[sb := v]);
    var tested := tee.(stack := below + [IntV(if w.Truthy(v) then 1 else 0)]);
    var choice := If(Yields(F64Type), if isAnd then right else [LocalGet(sb)],
                     Else(if isAnd then [LocalGet(sb)] else right));
    assert Steps(w, mem, [LocalTee(sb)], mid, turns) == Next(tee);
    Continue(w, mem, [LocalTee(sb)], TO_BOOL, mid, tee, turns);
    Truth(w, mem, below, v, tee, turns);
    Continue(w, mem, [LocalTee(sb)] + TO_BOOL, [choice], mid, tested, turns);
    ArmRuns(w, mem, isAnd, sb, right, below, tee, v, inner, r, turns);
  }

  /** The chosen arm runs on an empty stack and leaves its one value on what was there. */
  lemma ArmRuns(w: World, mem: Bytes, isAnd: bool, sb: nat, right: seq<Instr>, below: seq<Value>, tee: State,
                v: F64, inner: State, r: F64, turns: nat)
    requires sb < |tee.locals| && tee.locals[sb] == v && inner.stack == [FloatV(r)]
    requires if w.Truthy(v) == isAnd then Steps(w, mem, right, State([], tee.locals, tee.tr), turns) == Next(inner)
             else inner == State([FloatV(v)], tee.locals, tee.tr)
    ensures var choice := If(Yields(F64Type), if isAnd then right else [LocalGet(sb)],
                             Else(if isAnd then [LocalGet(sb)] else right));
            Step(w, mem, choice, tee.(stack := below + [IntV(if w.Truthy(v) then 1 else 0)]), turns)
            == Next(inner.(stack := below + [FloatV(r)]))
  {
    var tested := tee.(stack := below + [IntV(if w.Truthy(v) then 1 else 0)]);
    assert PopN(tested, 1).stack == below;
    var start := State([], tee.locals, tee.tr);
    assert Steps(w, mem, [LocalGet(sb)], start, turns) == Next(State([FloatV(v)], tee.locals, tee.tr));
    assert inner.stack[0..] == [FloatV(r)];
  }

  // ----- statements -----

  /** `o` is where the compiled code must end when the routine's run ends in `r`. */
  predicate Matches(r: S.Run, o: Outcome, fin: Tables, below: seq<Value>) {
    match r
    case Done(env, tr) =>
      o.Next? && o.st.stack == below && o.st.tr == tr && Represents(env, fin, o.st.locals)
    case OutOfTurns(tr) => o == OutOfTurns(tr)
    case Undefined => true
  }

  lemma {:induction false} EmitCorrect(w: World, fin: Tables, e: S.Expr, t: Tables, st: State, turns: nat)
    requires TablesValid(t) && Part(CompileExpr(e, t), fin) && S.EmittedBy(e).Some?
    ensures exists i ::
              Steps(w, fin.pool, CompileExpr(e, t).value.0, st, turns)
              == Next(State(st.stack + [IntV(i)], st.locals, st.tr + [Emitted(S.EmittedBy(e).value)]))
  {
    match e
    case EmitAction(record) => StringCall(w, fin, IMPORT_EMIT, record, t, st, turns);
    case Pos(a) => EmitCorrect(w, fin, a, t, st, turns);
  }

  lemma {:induction false} StmtCorrect(w: World, fin: Tables, s: S.Stmt, t: Tables, st: State, env: S.Env, turns: nat)
    requires CanRun(fin, t, CompileStmt(s, t), env, st.locals)
    ensures Matches(S.ExecStmt(w, s, env, st.tr, turns),
                    Steps(w, fin.pool, CompileStmt(s, t).value.0, st, turns), fin, st.stack)
    decreases turns, s, 1
  {
    if S.ExecStmt(w, s, env, st.tr, turns).Undefined? {
      return;
    }
    match s
    case Pass =>
    case ExprStmt(e) => ExprStmtCorrect(w, fin, e, t, st, env, turns);
    case Assign(x, e) => AssignCorrect(w, fin, x, e, t, st, env, turns);
    case AugAssign(x, op, e) => AugAssignCorrect(w, fin, x, op, e, t, st, env, turns);
    case If(test, body, orelse) => IfCorrect(w, fin, s, t, st, env, turns);
    case While(test, body) => WhileCorrect(w, fin, s, t, st, env, turns);
    case UnsupportedStmt =>
  }

  lemma ExprStmtCorrect(w: World, fin: Tables, e: S.Expr, t: Tables, st: State, env: S.Env, turns: nat)
    requires CanRun(fin, t, CompileStmt(S.ExprStmt(e), t), env, st.locals)
    requires !S.ExecStmt(w, S.ExprStmt(e), env, st.tr, turns).Undefined?
    ensures Matches(S.ExecStmt(w, S.ExprStmt(e), env, st.tr, turns),
                    Steps(w, fin.pool, CompileStmt(S.ExprStmt(e), t).value.0, st, turns), fin, st.stack)
  {
    var code := CompileExpr(e, t).value.0;
    if S.EmittedBy(e).Some? {
      EmitCorrect(w, fin, e, t, st, turns);
      var i :| Steps(w, fin.pool, code, st, turns)
               == Next(State(st.stack + [IntV(i)], st.locals, st.tr + [Emitted(S.EmittedBy(e).value)]));
      var mid := State(st.stack + [IntV(i)], st.locals, st.tr + [Emitted(S.EmittedBy(e).value)]);
      assert PopN(mid, 1).stack == st.stack;
      Continue(w, fin.pool, code, [Drop], st, mid, turns);
    } else {
      var mid := ExprCorrect(w, fin, e, t, st, env, turns);
      assert PopN(mid, 1).stack == st.stack;
      ScratchIsUnnamed(env, fin, st.locals, mid.locals);
      Continue(w, fin.pool, code, [Drop], st, mid, turns);
    }
  }

  /** Storing into the slot of `x` gives `x` its value and keeps every other name. */
  lemma StoreRepresents(env: S.Env, fin: Tables, locals: seq<F64>, x: S.Ident, v: F64)
    requires TablesValid(fin) && Represents(env, fin, locals) && x in fin.locals
    ensures Represents(env[x := v], fin, locals[fin.locals[x] := v])
  {
  }

  lemma StoreCorrect(w: World, fin: Tables, code: seq<Instr>, x: S.Ident, st: State, mid: State, v: F64,
                     tr: seq<Event>, env: S.Env, turns: nat)
    requires TablesValid(fin) && Represents(env, fin, st.locals) && x in fin.locals
    requires Gives(w, fin, code, st, turns, mid, v, tr)
    ensures Matches(S.Done(env[x := v], tr),
                    Steps(w, fin.pool, code + [LocalSet(fin.locals[x])], st, turns), fin, st.stack)
  {
    assert PopN(mid, 1).stack == st.stack;
    ScratchIsUnnamed(env, fin, st.locals, mid.locals);
    StoreRepresents(env, fin, mid.locals, x, v);
    Continue(w, fin.pool, code, [LocalSet(fin.locals[x])], st, mid, turns);
  }

  lemma AssignCorrect(w: World, fin: Tables, x: S.Ident, e: S.Expr, t: Tables, st: State, env: S.Env, turns: nat)
    requires CanRun(fin, t, CompileStmt(S.Assign(x, e), t), env, st.locals)
    requires S.Eval(w, e, env, st.tr).Some?
    ensures Matches(S.ExecStmt(w, S.Assign(x, e), env, st.tr, turns),
                    Steps(w, fin.pool, CompileStmt(S.Assign(x, e), t).value.0, st, turns), fin, st.stack)
  {
    ExprGrows(e, t);
    var (code, t1) := CompileExpr(e, t).value;
    LocalIndexGrows(t1, x);
    ExtendsTransitive(t1, LocalIndex(t1, x).0, fin);
    var mid := ExprCorrect(w, fin, e, t, st, env, turns);
    StoreCorrect(w, fin, code, x, st, mid, S.Eval(w, e, env, st.tr).value.0, mid.tr, env, turns);
  }

  lemma AugAssignCorrect(w: World, fin: Tables, x: S.Ident, op: S.BinaryOp, e: S.Expr, t: Tables, st: State,
                         env: S.Env, turns: nat)
    requires CanRun(fin, t, CompileStmt(S.AugAssign(x, op, e), t), env, st.locals)
    requires S.Eval(w, S.Binary(op, S.Name(x), e), env, st.tr).Some?
    ensures Matches(S.ExecStmt(w, S.AugAssign(x, op, e), env, st.tr, turns),
                    Steps(w, fin.pool, CompileStmt(S.AugAssign(x, op, e), t).value.0, st, turns), fin, st.stack)
  {
    var whole := S.Binary(op, S.Name(x), e);
    var t1 := LocalIndex(t, x).0;
    AugAssignCode(x, op, e, t);
    LocalIndexGrows(t, x);
    ExprGrows(whole, t1);
    ExtendsTransitive(t1, CompileExpr(whole, t1).value.1, fin);
    var code := CompileExpr(whole, t1).value.0;
    var mid := ExprCorrect(w, fin, whole, t1, st, env, turns);
    StoreCorrect(w, fin, code, x, st, mid, S.Eval(w, whole, env, st.tr).value.0, mid.tr, env, turns);
  }

  /** The pieces of a conditional or a loop, each ready to run from the same environment. */
  lemma BranchParts(fin: Tables, s: S.Stmt, t: Tables, env: S.Env, locals: seq<F64>)
    requires s.If? || s.While?
    requires CanRun(fin, t, CompileStmt(s, t), env, locals)
    ensures CanRun(fin, t, CompileExpr(s.test, t), env, locals)
    ensures var t1 := CompileExpr(s.test, t).value.1;
            && CanRun(fin, t1, CompileStmts(s.body, t1), env, locals)
            && (s.If? ==>
                  var t2 := CompileStmts(s.body, t1).value.1;
                  CanRun(fin, t2, CompileStmts(s.orelse, t2), env, locals))
  {
    ExprGrows(s.test, t);
    var t1 := CompileExpr(s.test, t).value.1;
    StmtsGrow(s.body, t1);
    var t2 := CompileStmts(s.body, t1).value.1;
    if s.If? {
      StmtsGrow(s.orelse, t2);
      ExtendsTransitive(t2, CompileStmts(s.orelse, t2).value.1, fin);
    }
    ExtendsTransitive(t1, t2, fin);
  }

  lemma {:induction false} IfCorrect(w: World, fin: Tables, s: S.Stmt, t: Tables, st: State, env: S.Env, turns: nat)
    requires s.If? && CanRun(fin, t, CompileStmt(s, t), env, st.locals)
    requires S.Eval(w, s.test, env, st.tr).Some?
    ensures Matches(S.ExecStmt(w, s, env, st.tr, turns),
                    Steps(w, fin.pool, CompileStmt(s, t).value.0, st, turns), fin, st.stack)
    decreases turns, s, 0
  {
    BranchParts(fin, s, t, env, st.locals);
    var (code, t1) := CompileExpr(s.test, t).value;
    var (thn, t2) := CompileStmts(s.body, t1).value;
    var els := CompileStmts(s.orelse, t2).value.0;
    var mid := ExprCorrect(w, fin, s.test, t, st, env, turns);
    var v := S.Eval(w, s.test, env, st.tr).value.0;
    AfterTest(w, fin, code, thn, ElseOf(s.orelse, els), st, mid, v, turns);
    var inner := State([], mid.locals, mid.tr);
    if w.Truthy(v) {
      StillCanRun(fin, t1, CompileStmts(s.body, t1), env, st.locals, mid.locals);
      StmtsCorrect(w, fin, s.body, t1, inner, env, turns);
    } else {
      StillCanRun(fin, t2, CompileStmts(s.orelse, t2), env, st.locals, mid.locals);
      StmtsCorrect(w, fin, s.orelse, t2, inner, env, turns);
    }
  }

  lemma AfterTest(w: World, fin: Tables, code: seq<Instr>, thn: seq<Instr>, els: ElsePart, st: State, mid: State,
                  v: F64, turns: nat)
    requires Gives(w, fin, code, st, turns, mid, v, mid.tr)
    ensures Steps(w, fin.pool, code + TO_BOOL + [WasmMachine.If(Void, thn, els)], st, turns)
         == FinishBlock(mid.(stack := st.stack),
                        Steps(w, fin.pool, if w.Truthy(v) then thn else if els.Else? then els.code else [],
                              State([], mid.locals, mid.tr), turns), 0)
  {
    var choice := WasmMachine.If(Void, thn, els);
    AfterTruth(w, fin, code, [choice], st, turns, mid, v, mid.tr);
    var tested := mid.(stack := st.stack + [IntV(if w.Truthy(v) then 1 else 0)]);
    assert PopN(tested, 1).stack == st.stack;
    assert Steps(w, fin.pool, [choice], tested, turns) == Step(w, fin.pool, choice, tested, turns);
  }

  lemma {:induction false} StmtsCorrect(w: World, fin: Tables, ss: seq<S.Stmt>, t: Tables, st: State, env: S.Env,
                                        turns: nat)
    requires CanRun(fin, t, CompileStmts(ss, t), env, st.locals)
    ensures Matches(S.ExecStmts(w, ss, env, st.tr, turns),
                    Steps(w, fin.pool, CompileStmts(ss, t).value.0, st, turns), fin, st.stack)
    decreases turns, ss, 0
  {
    if ss != [] {
      StmtGrows(ss[0], t);
      var (code, t1) := CompileStmt(ss[0], t).value;
      StmtsGrow(ss[1..], t1);
      ExtendsTransitive(t1, CompileStmts(ss[1..], t1).value.1, fin);
      StmtCorrect(w, fin, ss[0], t, st, env, turns);
      StepsAppend(w, fin.pool, code, CompileStmts(ss[1..], t1).value.0, st, turns);
      var r := S.ExecStmt(w, ss[0], env, st.tr, turns);
      if r.Done? {
        StmtsCorrect(w, fin, ss[1..], t1, Steps(w, fin.pool, code, st, turns).st, r.env, turns);
      }
    }
  }

  lemma {:induction false} WhileCorrect(w: World, fin: Tables, s: S.Stmt, t: Tables, st: State, env: S.Env, turns: nat)
    requires s.While? && CanRun(fin, t, CompileStmt(s, t), env, st.locals)
    ensures Matches(S.ExecStmt(w, s, env, st.tr, turns),
                    Steps(w, fin.pool, CompileStmt(s, t).value.0, st, turns), fin, st.stack)
    decreases turns, s, 0
  {
    BranchParts(fin, s, t, env, st.locals);
    var (code, t1) := CompileExpr(s.test, t).value;
    var body := LoopBody(code, CompileStmts(s.body, t1).value.0);
    var inner := State([], st.locals, st.tr);
    LoopCorrect(w, fin, s.test, s.body, t, inner, env, turns);
    LoopInBlock(w, fin.pool, body, st, turns);
  }

  /** A loop alone inside a block. */
  lemma LoopInBlock(w: World, mem: Bytes, body: seq<Instr>, st: State, turns: nat)
    ensures Steps(w, mem, [Block(Void, [Loop(Void, body)])], st, turns)
         == FinishBlock(st, StepLoop(w, mem, Void, body, State([], st.locals, st.tr), turns), 0)
  {
    var inner := State([], st.locals, st.tr);
    var o := StepLoop(w, mem, Void, body, inner, turns);
    assert Step(w, mem, Loop(Void, body), inner, turns) == o;
    assert Steps(w, mem, [Loop(Void, body)], inner, turns) == o;
    assert Step(w, mem, Block(Void, [Loop(Void, body)]), st, turns) == FinishBlock(st, o, 0);
  }

  /** Turn for turn: a finished loop leaves through the outer block, label 0 seen from outside. */
  predicate LoopMatches(r: S.Run, o: Outcome, fin: Tables) {
    match r
    case Done(env, tr) =>
      o.Branch? && o.depth == 0 && o.st.stack == [] && o.st.tr == tr && Represents(env, fin, o.st.locals)
    case OutOfTurns(tr) => o == OutOfTurns(tr)
    case Undefined => true
  }

  /** The routine's loop and the machine's run alike from here. */
  predicate LoopRuns(w: World, fin: Tables, test: S.Expr, body: seq<S.Stmt>, code: seq<Instr>, st: State, env: S.Env,
                     turns: nat) {
    LoopMatches(S.ExecWhile(w, test, body, env, st.tr, turns), StepLoop(w, fin.pool, Void, code, st, turns), fin)
  }

  /** What follows a turn's body in the routine. */
  function WhileRest(w: World, test: S.Expr, body: seq<S.Stmt>, r: S.Run, turns: nat): S.Run {
    match r
    case Done(env, tr) => if turns == 0 then S.OutOfTurns(tr) else S.ExecWhile(w, test, body, env, tr, turns - 1)
    case other => other
  }

  /** What follows a turn's body in the machine: label 0 of the loop starts the next turn. */
  function LoopRest(w: World, mem: Bytes, code: seq<Instr>, o: Outcome, turns: nat): Outcome {
    match o
    case Next(st) => NextTurn(w, mem, code, st, turns)
    case Branch(0, st) => NextTurn(w, mem, code, st, turns)
    case other => FinishBlock(State([], [], []), o, 0)
  }

  function NextTurn(w: World, mem: Bytes, code: seq<Instr>, st: State, turns: nat): Outcome {
    if turns == 0 then OutOfTurns(st.tr) else StepLoop(w, mem, Void, code, st.(stack := []), turns - 1)
  }

  lemma WhileTurn(w: World, test: S.Expr, body: seq<S.Stmt>, env: S.Env, tr: seq<Event>, turns: nat)
    requires S.Eval(w, test, env, tr).Some?
    ensures var (v, tr1) := S.Eval(w, test, env, tr).value;
            S.ExecWhile(w, test, body, env, tr, turns)
            == if w.Truthy(v) then WhileRest(w, test, body, S.ExecStmts(w, body, env, tr1, turns), turns)
              else S.Done(env, tr1)
  {
  }

  /** The test of a turn, compiled: where it leaves the machine, and what the loop does from there. */
  lemma LoopHead(w: World, fin: Tables, test: S.Expr, body: seq<S.Stmt>, t: Tables, st: State, env: S.Env, turns: nat)
    returns (entered: State)
    requires CanRun(fin, t, CompileExpr(test, t), env, st.locals) && st.stack == []
    requires var t1 := CompileExpr(test, t).value.1;
             CanRun(fin, t1, CompileStmts(body, t1), env, st.locals)
    requires S.Eval(w, test, env, st.tr).Some?
    ensures entered.stack == [] && entered.tr == S.Eval(w, test, env, st.tr).value.1
    ensures var (code, t1) := CompileExpr(test, t).value;
            var inner := CompileStmts(body, t1).value.0;
            && CanRun(fin, t1, CompileStmts(body, t1), env, entered.locals)
            && StepLoop(w, fin.pool, Void, LoopBody(code, inner), st, turns)
               == if w.Truthy(S.Eval(w, test, env, st.tr).value.0)
                  then LoopRest(w, fin.pool, LoopBody(code, inner), Steps(w, fin.pool, inner, entered, turns), turns)
                  else Branch(0, entered)
  {
    var (code, t1) := CompileExpr(test, t).value;
    var mid := ExprCorrect(w, fin, test, t, st, env, turns);
    entered := State([], mid.locals, mid.tr);
    StillCanRun(fin, t1, CompileStmts(body, t1), env, st.locals, mid.locals);
    LoopTurn(w, fin, code, CompileStmts(body, t1).value.0, st, mid, S.Eval(w, test, env, st.tr).value.0, turns);
  }

  lemma {:induction false} LoopCorrect(w: World, fin: Tables, test: S.Expr, body: seq<S.Stmt>, t: Tables, st: State,
                                       env: S.Env, turns: nat)
    requires CanRun(fin, t, CompileExpr(test, t), env, st.locals) && st.stack == []
    requires var t1 := CompileExpr(test, t).value.1;
             CanRun(fin, t1, CompileStmts(body, t1), env, st.locals)
    ensures var (code, t1) := CompileExpr(test, t).value;
            LoopRuns(w, fin, test, body, LoopBody(code, CompileStmts(body, t1).value.0), st, env, turns)
    decreases turns, body, 2
  {
    if S.Eval(w, test, env, st.tr).Some? {
      WhileTurn(w, test, body, env, st.tr, turns);
      var entered := LoopHead(w, fin, test, body, t, st, env, turns);
      if w.Truthy(S.Eval(w, test, env, st.tr).value.0) {
        TurnCorrect(w, fin, test, body, t, entered, env, turns);
      }
    }
  }

  /** From the body of a turn to the end of the loop. */
  lemma {:induction false} TurnCorrect(w: World, fin: Tables, test: S.Expr, body: seq<S.Stmt>, t: Tables, st: State,
                                       env: S.Env, turns: nat)
    requires CanRun(fin, t, CompileExpr(test, t), env, st.locals) && st.stack == []
    requires var t1 := CompileExpr(test, t).value.1;
             CanRun(fin, t1, CompileStmts(body, t1), env, st.locals)
    ensures var (code, t1) := CompileExpr(test, t).value;
            var inner := CompileStmts(body, t1).value.0;
            LoopMatches(WhileRest(w, test, body, S.ExecStmts(w, body, env, st.tr, turns), turns),
                        LoopRest(w, fin.pool, LoopBody(code, inner), Steps(w, fin.pool, inner, st, turns), turns), fin)
    decreases turns, body, 1
  {
    var (code, t1) := CompileExpr(test, t).value;
    var inner := CompileStmts(body, t1).value.0;
    StmtsCorrect(w, fin, body, t1, st, env, turns);
    var r := S.ExecStmts(w, body, env, st.tr, turns);
    var o := Steps(w, fin.pool, inner, st, turns);
    assert Matches(r, o, fin, []);
    if r.Done? && turns > 0 {
      LoopCorrect(w, fin, test, body, t, o.st, r.env, turns - 1);
    }
    RestCorrect(w, fin, test, body, LoopBody(code, inner), r, o, turns);
  }

  lemma RestCorrect(w: World, fin: Tables, test: S.Expr, body: seq<S.Stmt>, code: seq<Instr>, r: S.Run, o: Outcome,
                    turns: nat)
    requires Matches(r, o, fin, [])
    requires r.Done? && turns > 0 ==> LoopRuns(w, fin, test, body, code, o.st, r.env, turns - 1)
    ensures LoopMatches(WhileRest(w, test, body, r, turns), LoopRest(w, fin.pool, code, o, turns), fin)
  {
    if r.Done? {
      assert o.st.(stack := []) == o.st;
    }
  }

  /** One turn of the machine's loop, in terms of the test value and of the body. */
  lemma LoopTurn(w: World, fin: Tables, code: seq<Instr>, inner: seq<Instr>, st: State, mid: State, v: F64, turns: nat)
    requires st.stack == [] && Gives(w, fin, code, st, turns, mid, v, mid.tr)
    ensures var entered := State([], mid.locals, mid.tr);
            var body := LoopBody(code, inner);
            StepLoop(w, fin.pool, Void, body, st, turns)
            == if w.Truthy(v) then LoopRest(w, fin.pool, body, Steps(w, fin.pool, inner, entered, turns), turns)
               else Branch(0, entered)
  {
    var entered := State([], mid.locals, mid.tr);
    assert st.(stack := []) == st;
    LoopGuard(w, fin, code, inner, st, mid, v, turns);
    StepsAppend(w, fin.pool, inner, [Br(0)], entered, turns);
    var o := Steps(w, fin.pool, inner, entered, turns);
    if o.Next? {
      assert Steps(w, fin.pool, [Br(0)], o.st, turns) == Branch(0, o.st);
    }
  }

  /** The head of a loop turn: fall into the body, or leave two labels up. */
  lemma LoopGuard(w: World, fin: Tables, code: seq<Instr>, inner: seq<Instr>, start: State, mid: State, v: F64,
                  turns: nat)
    requires start.stack == [] && Gives(w, fin, code, start, turns, mid, v, mid.tr)
    ensures var entered := State([], mid.locals, mid.tr);
            Steps(w, fin.pool, LoopBody(code, inner), start, turns)
            == if w.Truthy(v) then Steps(w, fin.pool, inner + [Br(0)], entered, turns) else Branch(1, entered)
  {
    var guard := [I32Eqz, BrIf(1)];
    var tail := guard + (inner + [Br(0)]);
    Assoc(code, TO_BOOL, tail);
    AfterTruth(w, fin, code, tail, start, turns, mid, v, mid.tr);
    var tested := mid.(stack := [] + [IntV(if w.Truthy(v) then 1 else 0)]);
    GuardSteps(w, fin.pool, mid, w.Truthy(v), turns);
    StepsAppend(w, fin.pool, guard, inner + [Br(0)], tested, turns);
  }

  lemma GuardSteps(w: World, mem: Bytes, mid: State, stay: bool, turns: nat)
    ensures Steps(w, mem, [I32Eqz, BrIf(1)], mid.(stack := [] + [IntV(if stay then 1 else 0)]), turns)
         == if stay then Next(mid.(stack := [])) else Branch(1, mid.(stack := []))
  {
    assert [I32Eqz, BrIf(1)][1..] == [BrIf(1)];
    GuardFlips(w, mem, mid, stay, turns);
    GuardBranches(w, mem, mid, stay, turns);
  }

  lemma GuardFlips(w: World, mem: Bytes, mid: State, stay: bool, turns: nat)
    ensures Step(w, mem, I32Eqz, mid.(stack := [] + [IntV(if stay then 1 else 0)]), turns)
         == Next(mid.(stack := [IntV(if stay then 0 else 1)]))
  {
    assert PopN(mid.(stack := [] + [IntV(if stay then 1 else 0)]), 1).stack == [];
  }

  lemma GuardBranches(w: World, mem: Bytes, mid: State, stay: bool, turns: nat)
    ensures Steps(w, mem, [BrIf(1)], mid.(stack := [IntV(if stay then 0 else 1)]), turns)
         == if stay then Next(mid.(stack := [])) else Branch(1, mid.(stack := []))
  {
    var flipped := mid.(stack := [IntV(if stay then 0 else 1)]);
    assert PopN(flipped, 1) == mid.(stack := []);
    assert Steps(w, mem, [BrIf(1)], flipped, turns) == Step(w, mem, BrIf(1), flipped, turns);
  }
}
