/** Exactly which routines compile to a body the WebAssembly validator accepts, and why a body it
    accepts never gets stuck. */
module CompilerValidity {
  import opened Common
  import opened Numbers
  import opened WasmMachine
  import opened CompilerSpec
  import S = PierSource

  // ----- the condition on the source -----

  /** What an expression leaves on the operand stack: an integer only when it is an emit action
      (behind any number of unary plus signs), a double otherwise, and nothing well-typed when an
      emit action is used as an operand. */
  function Shape(e: S.Expr): Option<ValType>
    decreases e, 0
  {
    match e
    case EmitAction(_) => Some(I32)
    case Pos(a) => Shape(a)
    case Neg(a) => if Shape(a) == Some(F64Type) then Some(F64Type) else None
    case Not(a) => if Shape(a) == Some(F64Type) then Some(F64Type) else None
    case Abs(a) => if Shape(a) == Some(F64Type) then Some(F64Type) else None
    case Binary(_, l, r) => if Shape(l) == Some(F64Type) && Shape(r) == Some(F64Type) then Some(F64Type) else None
    case Compare(_, l, r) => if Shape(l) == Some(F64Type) && Shape(r) == Some(F64Type) then Some(F64Type) else None
    case MinMax(_, l, r) => if Shape(l) == Some(F64Type) && Shape(r) == Some(F64Type) then Some(F64Type) else None
    case BoolOp(_, values) =>
      if |values| == 1 then Shape(values[0])
      else if AllDoubles(values) then Some(F64Type) else None
    case _ => Some(F64Type)
  }

  predicate AllDoubles(values: seq<S.Expr>)
    decreases values, 0
  {
    values == [] || (Shape(values[0]) == Some(F64Type) && AllDoubles(values[1..]))
  }

  /** Emit actions stand only as whole statements. */
  predicate EmitsAreStatements(s: S.Stmt)
    decreases s, 0
  {
    match s
    case ExprStmt(e) => Shape(e).Some?
    case Assign(_, e) => Shape(e) == Some(F64Type)
    case AugAssign(_, _, e) => Shape(e) == Some(F64Type)
    case If(test, body, orelse) =>
      Shape(test) == Some(F64Type) && AllEmitsAreStatements(body) && AllEmitsAreStatements(orelse)
    case While(test, body) => Shape(test) == Some(F64Type) && AllEmitsAreStatements(body)
    case _ => true
  }

  predicate AllEmitsAreStatements(ss: seq<S.Stmt>)
    decreases ss, 0
  {
    ss == [] || (EmitsAreStatements(ss[0]) && AllEmitsAreStatements(ss[1..]))
  }

  // ----- the validator follows it -----

  type Labels = seq<seq<ValType>>

  /** The validator on `code`, started on a reachable stack of types `below`. */
  function From(code: seq<Instr>, n: nat, labels: Labels, below: seq<ValType>): Option<Operands> {
    Validate(code, n, labels, Operands(below, false))
  }

  function Leaves(shape: Option<ValType>, below: seq<ValType>): Option<Operands> {
    match shape
    case None => None
    case Some(t) => Some(Operands(below + [t], false))
  }

  lemma One(ins: Instr, n: nat, labels: Labels, below: seq<ValType>)
    ensures From([ins], n, labels, below) == ValidateInstr(ins, n, labels, Operands(below, false))
  {
    var o := ValidateInstr(ins, n, labels, Operands(below, false));
    if o.Some? {
      assert Validate([ins][1..], n, labels, o.value) == o;
    }
  }

  lemma Two(a: Instr, b: Instr, n: nat, labels: Labels, below: seq<ValType>)
    ensures From([a, b], n, labels, below)
         == match ValidateInstr(a, n, labels, Operands(below, false))
            case None => None
            case Some(ops) => ValidateInstr(b, n, labels, ops)
  {
    var o := ValidateInstr(a, n, labels, Operands(below, false));
    assert [a, b][1..] == [b];
    if o.Some? {
      var o2 := ValidateInstr(b, n, labels, o.value);
      assert Validate([b], n, labels, o.value) == o2 by {
        if o2.Some? {
          assert Validate([b][1..], n, labels, o2.value) == o2;
        }
      }
    }
  }

  lemma TopType(below: seq<ValType>, t: ValType, want: ValType)
    ensures Expect(Operands(below + [t], false), want)
         == if t == want then Some(Operands(below, false)) else None
  {
    assert (below + [t])[..|below|] == below;
  }

  lemma TopTwoTypes(below: seq<ValType>, a: ValType, b: ValType, want: ValType)
    ensures ExpectAll(Operands((below + [a]) + [b], false), [want, want])
         == if a == want && b == want then Some(Operands(below, false)) else None
  {
    TopType(below + [a], b, want);
    TopType(below, a, want);
    assert [want, want][..1] == [want];
    assert ExpectAll(Operands(below + [a], false), [want])
        == match Expect(Operands(below + [a], false), want)
           case None => None
           case Some(rest) => ExpectAll(rest, [want][..0]);
  }

  lemma SignTail(op: SignOp, n: nat, labels: Labels, below: seq<ValType>, t: ValType)
    ensures From([Sign(op)], n, labels, below + [t])
         == if t == F64Type then Some(Operands(below + [F64Type], false)) else None
  {
    One(Sign(op), n, labels, below + [t]);
    TopType(below, t, F64Type);
  }

  lemma TruthTail(n: nat, labels: Labels, below: seq<ValType>, t: ValType)
    ensures From(TO_BOOL, n, labels, below + [t])
         == if t == F64Type then Some(Operands(below + [I32], false)) else None
  {
    Two(F64Const(F64_ZERO), Compare(Ne), n, labels, below + [t]);
    TopTwoTypes(below, t, F64Type, F64Type);
  }

  lemma NotTail(n: nat, labels: Labels, below: seq<ValType>, t: ValType)
    ensures From(TO_BOOL + [I32Eqz, ConvertI32S], n, labels, below + [t])
         == if t == F64Type then Some(Operands(below + [F64Type], false)) else None
  {
    TruthTail(n, labels, below, t);
    ValidateAppend(TO_BOOL, [I32Eqz, ConvertI32S], n, labels, Operands(below + [t], false));
    Two(I32Eqz, ConvertI32S, n, labels, below + [I32]);
    TopType(below, I32, I32);
  }

  lemma ArithTail(op: ArithOp, n: nat, labels: Labels, below: seq<ValType>, a: ValType, b: ValType)
    ensures From([Arith(op)], n, labels, (below + [a]) + [b])
         == if a == F64Type && b == F64Type then Some(Operands(below + [F64Type], false)) else None
  {
    One(Arith(op), n, labels, (below + [a]) + [b]);
    TopTwoTypes(below, a, b, F64Type);
  }

  lemma CompareTail(op: CmpOp, n: nat, labels: Labels, below: seq<ValType>, a: ValType, b: ValType)
    ensures From([Compare(op), ConvertI32S], n, labels, (below + [a]) + [b])
         == if a == F64Type && b == F64Type then Some(Operands(below + [F64Type], false)) else None
  {
    Two(Compare(op), ConvertI32S, n, labels, (below + [a]) + [b]);
    TopTwoTypes(below, a, b, F64Type);
    TopType(below, I32, I32);
  }

  lemma StringCallShape(f: nat, b: Bytes, t: Tables, n: nat, labels: Labels, below: seq<ValType>)
    requires f <= IMPORT_LOG
    ensures From(CompileStringCall(f, b, t).value.0, n, labels, below)
         == Some(Operands(
                   below + (if f == IMPORT_FRAME_STAT then [F64Type] else if f == IMPORT_EMIT then [I32] else []),
                   false))
  {
    var (_, off, len) := Intern(t, b);
    assert [I32Const(off), I32Const(len), Call(f)] == [I32Const(off), I32Const(len)] + [Call(f)];
    ValidateAppend([I32Const(off), I32Const(len)], [Call(f)], n, labels, Operands(below, false));
    Two(I32Const(off), I32Const(len), n, labels, below);
    One(Call(f), n, labels, (below + [I32]) + [I32]);
    TopTwoTypes(below, I32, I32, I32);
    assert below + [] == below;
  }

  predicate Compiles(c: Compiled, n: nat) {
    c.Ok? && |c.value.1.locals| <= n
  }

  lemma {:induction false} ExprShape(e: S.Expr, t: Tables, n: nat, labels: Labels, below: seq<ValType>)
    requires TablesValid(t) && Compiles(CompileExpr(e, t), n)
    ensures From(CompileExpr(e, t).value.0, n, labels, below) == Leaves(Shape(e), below)
    decreases e, 1
  {
    var ops := Operands(below, false);
    match e
    case Num(v) => One(F64Const(v), n, labels, below);
    case Name(x) => One(LocalGet(t.locals[x]), n, labels, below);
    case Pos(a) => ExprShape(a, t, n, labels, below);
    case Neg(a) =>
      ExprShape(a, t, n, labels, below);
      ValidateAppend(CompileExpr(a, t).value.0, [Sign(Negate)], n, labels, ops);
      if Shape(a).Some? {
        SignTail(Negate, n, labels, below, Shape(a).value);
      }
    case Abs(a) =>
      ExprShape(a, t, n, labels, below);
      ValidateAppend(CompileExpr(a, t).value.0, [Sign(Magnitude)], n, labels, ops);
      if Shape(a).Some? {
        SignTail(Magnitude, n, labels, below, Shape(a).value);
      }
    case Not(a) =>
      ExprShape(a, t, n, labels, below);
      ValidateAppend(CompileExpr(a, t).value.0, TO_BOOL + [I32Eqz, ConvertI32S], n, labels, ops);
      if Shape(a).Some? {
        NotTail(n, labels, below, Shape(a).value);
      }
    case Binary(_, _, _) => TwoOperandsShape(e, t, n, labels, below);
    case MinMax(_, _, _) => TwoOperandsShape(e, t, n, labels, below);
    case Compare(_, _, _) => TwoOperandsShape(e, t, n, labels, below);
    case BoolOp(isAnd, values) => ChainShape(e, t, n, labels, below);
    case ReadFrame(b) => StringCallShape(IMPORT_FRAME_STAT, b, t, n, labels, below);
    case EmitAction(b) => StringCallShape(IMPORT_EMIT, b, t, n, labels, below);
    case Log(b) =>
      StringCallShape(IMPORT_LOG, b, t, n, labels, below);
      ValidateAppend(CompileStringCall(IMPORT_LOG, b, t).value.0, [F64Const(F64_ZERO)], n, labels, ops);
      One(F64Const(F64_ZERO), n, labels, below);
      assert below + [] == below;
  }

  function Tail(e: S.Expr): Option<seq<Instr>>
    requires e.Binary? || e.MinMax? || e.Compare?
  {
    match e
    case Binary(op, _, _) => if S.ArithOf(op).None? then None else Some([Arith(S.ArithOf(op).value)])
    case MinMax(isMin, _, _) => Some([Arith(if isMin then Min else Max)])
    case Compare(op, _, _) => if op.OtherCompare? then None else Some([WasmMachine.Compare(op.op), ConvertI32S])
  }

  lemma OperandsParts(e: S.Expr, t: Tables, n: nat)
    requires e.Binary? || e.MinMax? || e.Compare?
    requires TablesValid(t) && Compiles(CompileExpr(e, t), n)
    ensures Tail(e).Some? && Compiles(CompileExpr(e.left, t), n)
    ensures var (left, t1) := CompileExpr(e.left, t).value;
            && TablesValid(t1) && Compiles(CompileExpr(e.right, t1), n)
            && CompileExpr(e, t).value.0 == (left + CompileExpr(e.right, t1).value.0) + Tail(e).value
  {
    ExprGrows(e.left, t);
    assert CompilePair(CompileExpr(e.left, t), e.right).Ok?;
    ExprGrows(e.right, CompileExpr(e.left, t).value.1);
  }

  lemma TailShape(e: S.Expr, n: nat, labels: Labels, below: seq<ValType>, a: ValType, b: ValType)
    requires (e.Binary? || e.MinMax? || e.Compare?) && Tail(e).Some?
    ensures From(Tail(e).value, n, labels, (below + [a]) + [b])
         == if a == F64Type && b == F64Type then Some(Operands(below + [F64Type], false)) else None
  {
    match e
    case Binary(op, _, _) => ArithTail(S.ArithOf(op).value, n, labels, below, a, b);
    case MinMax(isMin, _, _) => ArithTail(if isMin then Min else Max, n, labels, below, a, b);
    case Compare(op, _, _) => CompareTail(op.op, n, labels, below, a, b);
  }

  lemma {:induction false} TwoOperandsShape(e: S.Expr, t: Tables, n: nat, labels: Labels, below: seq<ValType>)
    requires e.Binary? || e.MinMax? || e.Compare?
    requires TablesValid(t) && Compiles(CompileExpr(e, t), n)
    ensures From(CompileExpr(e, t).value.0, n, labels, below) == Leaves(Shape(e), below)
    decreases e, 0
  {
    OperandsParts(e, t, n);
    var (left, t1) := CompileExpr(e.left, t).value;
    var right := CompileExpr(e.right, t1).value.0;
    ExprShape(e.left, t, n, labels, below);
    ValidateAppend(left, right, n, labels, Operands(below, false));
    ValidateAppend(left + right, Tail(e).value, n, labels, Operands(below, false));
    if Shape(e.left).Some? {
      var a := Shape(e.left).value;
      ExprShape(e.right, t1, n, labels, below + [a]);
      if Shape(e.right).Some? {
        TailShape(e, n, labels, below, a, Shape(e.right).value);
      }
    }
  }

  lemma {:induction false} ChainShape(e: S.Expr, t: Tables, n: nat, labels: Labels, below: seq<ValType>)
    requires e.BoolOp? && TablesValid(t) && Compiles(CompileExpr(e, t), n)
    ensures From(CompileExpr(e, t).value.0, n, labels, below) == Leaves(Shape(e), below)
    decreases e, 0
  {
    var values := e.values;
    ExprGrows(values[0], t);
    var (first, t1) := CompileExpr(values[0], t).value;
    FoldGrows(e.isAnd, values[1..], t1);
    ExprShape(values[0], t, n, labels, below);
    ValidateAppend(first, CompileFold(e.isAnd, values[1..], t1).value.0, n, labels, Operands(below, false));
    if Shape(values[0]).Some? {
      FoldShape(e.isAnd, values[1..], t1, n, labels, below, Shape(values[0]).value);
    }
  }

  /** A chain link wants a double on its left and a double on its right. */
  lemma {:induction false} FoldShape(isAnd: bool, rest: seq<S.Expr>, t: Tables, n: nat, labels: Labels,
                                     below: seq<ValType>, left: ValType)
    requires TablesValid(t) && Compiles(CompileFold(isAnd, rest, t), n)
    ensures From(CompileFold(isAnd, rest, t).value.0, n, labels, below + [left])
         == if rest == [] then Some(Operands(below + [left], false))
            else if left == F64Type && AllDoubles(rest) then Some(Operands(below + [F64Type], false))
            else None
    decreases rest, 0
  {
    if rest == [] {
      return;
    }
    ScratchIndexGrows(t);
    var (t1, sb) := ScratchIndex(t);
    ExprGrows(rest[0], t1);
    var (right, t2) := CompileExpr(rest[0], t1).value;
    FoldGrows(isAnd, rest[1..], t2);
    ExprShape(rest[0], t1, n, [[F64Type]] + labels, []);
    ChooseShape(isAnd, sb, right, Shape(rest[0]), n, labels, below, left);
    ValidateAppend(Choose(isAnd, sb, right), CompileFold(isAnd, rest[1..], t2).value.0, n, labels,
                   Operands(below + [left], false));
    FoldShape(isAnd, rest[1..], t2, n, labels, below, F64Type);
  }

  lemma ChooseShape(isAnd: bool, sb: nat, right: seq<Instr>, shape: Option<ValType>, n: nat, labels: Labels,
                    below: seq<ValType>, left: ValType)
    requires sb < n && From(right, n, [[F64Type]] + labels, []) == Leaves(shape, [])
    ensures From(Choose(isAnd, sb, right), n, labels, below + [left])
         == if left == F64Type && shape == Some(F64Type) then Some(Operands(below + [F64Type], false)) else None
  {
    var get := [LocalGet(sb)];
    var choice := WasmMachine.If(Yields(F64Type), if isAnd then right else get, Else(if isAnd then get else right));
    var ops := Operands(below + [left], false);
    ValidateAppend([LocalTee(sb)] + TO_BOOL, [choice], n, labels, ops);
    ValidateAppend([LocalTee(sb)], TO_BOOL, n, labels, ops);
    One(LocalTee(sb), n, labels, below + [left]);
    TopType(below, left, F64Type);
    TruthTail(n, labels, below, left);
    ArmsShape(isAnd, sb, right, shape, n, labels, below);
  }

  /** Both arms must leave exactly one double. */
  lemma ArmsShape(isAnd: bool, sb: nat, right: seq<Instr>, shape: Option<ValType>, n: nat, labels: Labels,
                  below: seq<ValType>)
    requires sb < n && From(right, n, [[F64Type]] + labels, []) == Leaves(shape, [])
    ensures var get := [LocalGet(sb)];
            var choice := WasmMachine.If(Yields(F64Type), if isAnd then right else get,
                                         Else(if isAnd then get else right));
            From([choice], n, labels, below + [I32])
            == if shape == Some(F64Type) then Some(Operands(below + [F64Type], false)) else None
  {
    var get := [LocalGet(sb)];
    var choice := WasmMachine.If(Yields(F64Type), if isAnd then right else get, Else(if isAnd then get else right));
    One(LocalGet(sb), n, [[F64Type]] + labels, []);
    EndsWithOne(Some(F64Type));
    EndsWithOne(shape);
    One(choice, n, labels, below + [I32]);
    TopType(below, I32, I32);
  }

  lemma EndsWithOne(shape: Option<ValType>)
    ensures EndsWith(Leaves(shape, []), [F64Type]) <==> shape == Some(F64Type)
  {
    if shape.Some? {
      TopType([], shape.value, F64Type);
      assert [F64Type][..0] == [];
      assert ExpectAll(Operands([] + [shape.value], false), [F64Type])
          == match Expect(Operands([] + [shape.value], false), F64Type)
             case None => None
             case Some(rest) => ExpectAll(rest, []);
    }
  }

  function Neutral(ok: bool, below: seq<ValType>): Option<Operands> {
    if ok then Some(Operands(below, false)) else None
  }

  lemma {:induction false} StmtShape(s: S.Stmt, t: Tables, n: nat, labels: Labels, below: seq<ValType>)
    requires TablesValid(t) && Compiles(CompileStmt(s, t), n)
    ensures From(CompileStmt(s, t).value.0, n, labels, below) == Neutral(EmitsAreStatements(s), below)
    decreases s, 1
  {
    var ops := Operands(below, false);
    match s
    case Pass =>
    case ExprStmt(e) =>
      ExprShape(e, t, n, labels, below);
      ValidateAppend(CompileExpr(e, t).value.0, [Drop], n, labels, ops);
      if Shape(e).Some? {
        One(Drop, n, labels, below + [Shape(e).value]);
        assert (below + [Shape(e).value])[..|below|] == below;
      }
    case Assign(x, e) =>
      ExprGrows(e, t);
      var (code, t1) := CompileExpr(e, t).value;
      LocalIndexGrows(t1, x);
      var (t2, i) := LocalIndex(t1, x);
      ExprShape(e, t, n, labels, below);
      ValidateAppend(code, [LocalSet(i)], n, labels, ops);
      if Shape(e).Some? {
        One(LocalSet(i), n, labels, below + [Shape(e).value]);
        TopType(below, Shape(e).value, F64Type);
      }
    case AugAssign(x, op, e) => AugAssignShape(x, op, e, t, n, labels, below);
    case If(_, _, _) => IfShape(s, t, n, labels, below);
    case While(_, _) => WhileShape(s, t, n, labels, below);
  }

  lemma AugAssignShape(x: S.Ident, op: S.BinaryOp, e: S.Expr, t: Tables, n: nat, labels: Labels, below: seq<ValType>)
    requires TablesValid(t) && Compiles(CompileStmt(S.AugAssign(x, op, e), t), n)
    ensures From(CompileStmt(S.AugAssign(x, op, e), t).value.0, n, labels, below)
         == Neutral(Shape(e) == Some(F64Type), below)
  {
    var whole := S.Binary(op, S.Name(x), e);
    AugAssignCode(x, op, e, t);
    LocalIndexGrows(t, x);
    var (t1, i) := LocalIndex(t, x);
    ExprShape(whole, t1, n, labels, below);
    assert Shape(S.Name(x)) == Some(F64Type);
    ValidateAppend(CompileExpr(whole, t1).value.0, [LocalSet(i)], n, labels, Operands(below, false));
    if Shape(whole).Some? {
      ExprGrows(whole, t1);
      One(LocalSet(i), n, labels, below + [F64Type]);
      TopType(below, F64Type, F64Type);
    }
  }

  lemma {:induction false} IfShape(s: S.Stmt, t: Tables, n: nat, labels: Labels, below: seq<ValType>)
    requires s.If? && TablesValid(t) && Compiles(CompileStmt(s, t), n)
    ensures From(CompileStmt(s, t).value.0, n, labels, below) == Neutral(EmitsAreStatements(s), below)
    decreases s, 0
  {
    ExprGrows(s.test, t);
    var (code, t1) := CompileExpr(s.test, t).value;
    StmtsGrow(s.body, t1);
    var (thn, t2) := CompileStmts(s.body, t1).value;
    StmtsGrow(s.orelse, t2);
    var els := CompileStmts(s.orelse, t2).value.0;
    ExprShape(s.test, t, n, labels, below);
    StmtsShape(s.body, t1, n, [[]] + labels, []);
    StmtsShape(s.orelse, t2, n, [[]] + labels, []);
    ConditionalShape(code, thn, ElseOf(s.orelse, els), Shape(s.test), AllEmitsAreStatements(s.body),
      AllEmitsAreStatements(s.orelse), n, labels, below);
  }

  lemma ConditionalShape(code: seq<Instr>, thn: seq<Instr>, els: ElsePart, test: Option<ValType>,
                         thnOk: bool, elsOk: bool, n: nat, labels: Labels, below: seq<ValType>)
    requires From(code, n, labels, below) == Leaves(test, below)
    requires From(thn, n, [[]] + labels, []) == Neutral(thnOk, [])
    requires match els
             case NoElse => elsOk
             case Else(c) => From(c, n, [[]] + labels, []) == Neutral(elsOk, [])
    ensures From(code + TO_BOOL + [WasmMachine.If(Void, thn, els)], n, labels, below)
         == Neutral(test == Some(F64Type) && thnOk && elsOk, below)
  {
    var choice := WasmMachine.If(Void, thn, els);
    var ops := Operands(below, false);
    ValidateAppend(code + TO_BOOL, [choice], n, labels, ops);
    ValidateAppend(code, TO_BOOL, n, labels, ops);
    if test.Some? {
      TruthTail(n, labels, below, test.value);
      One(choice, n, labels, below + [I32]);
      TopType(below, I32, I32);
      assert below + [] == below;
    }
  }

  lemma {:induction false} WhileShape(s: S.Stmt, t: Tables, n: nat, labels: Labels, below: seq<ValType>)
    requires s.While? && TablesValid(t) && Compiles(CompileStmt(s, t), n)
    ensures From(CompileStmt(s, t).value.0, n, labels, below) == Neutral(EmitsAreStatements(s), below)
    decreases s, 0
  {
    ExprGrows(s.test, t);
    var (code, t1) := CompileExpr(s.test, t).value;
    StmtsGrow(s.body, t1);
    var inner := CompileStmts(s.body, t1).value.0;
    var body := LoopBody(code, inner);
    var labels2 := [[]] + ([[]] + labels);
    ExprShape(s.test, t, n, labels2, []);
    StmtsShape(s.body, t1, n, labels2, []);
    LoopBodyShape(code, inner, n, labels, Shape(s.test), AllEmitsAreStatements(s.body));
    LoopShape(body, EmitsAreStatements(s), n, labels, below);
  }

  lemma LoopShape(body: seq<Instr>, ok: bool, n: nat, labels: Labels, below: seq<ValType>)
    requires EndsWith(From(body, n, [[]] + ([[]] + labels), []), []) <==> ok
    ensures From([Block(Void, [Loop(Void, body)])], n, labels, below) == Neutral(ok, below)
  {
    One(Loop(Void, body), n, [[]] + labels, []);
    One(Block(Void, [Loop(Void, body)]), n, labels, below);
    assert below + [] == below;
    var none: seq<ValType> := [];
    assert none + [] == none;
  }

  /** Both branches of a loop stay in range, and its body ends polymorphic after `br 0`. */
  lemma LoopBodyShape(code: seq<Instr>, inner: seq<Instr>, n: nat, labels: Labels, test: Option<ValType>, bodyOk: bool)
    requires var labels2 := [[]] + ([[]] + labels);
             && From(code, n, labels2, []) == Leaves(test, [])
             && From(inner, n, labels2, []) == Neutral(bodyOk, [])
    ensures EndsWith(From(LoopBody(code, inner), n, [[]] + ([[]] + labels), []), [])
       <==> test == Some(F64Type) && bodyOk
  {
    var labels2: Labels := [[]] + ([[]] + labels);
    var guard := [I32Eqz, BrIf(1)];
    var tail := inner + [Br(0)];
    ValidateAppend(code, TO_BOOL + (guard + tail), n, labels2, Operands([], false));
    if test.Some? {
      TruthTail(n, labels2, [], test.value);
      ValidateAppend(TO_BOOL, guard + tail, n, labels2, Operands([] + [test.value], false));
    }
    ValidateAppend(guard, tail, n, labels2, Operands([] + [I32], false));
    GuardShape(n, labels2);
    BackShape(n, labels2);
    ValidateAppend(inner, [Br(0)], n, labels2, Operands([], false));
  }

  lemma GuardShape(n: nat, labels: Labels)
    requires |labels| >= 2 && labels[1] == []
    ensures From([I32Eqz, BrIf(1)], n, labels, [] + [I32]) == Some(Operands([], false))
  {
    var tested := Operands([] + [I32], false);
    TopType([], I32, I32);
    assert ValidateInstr(I32Eqz, n, labels, tested) == Some(tested);
    BrIfShape(n, labels);
    Two(I32Eqz, BrIf(1), n, labels, [] + [I32]);
  }

  lemma BrIfShape(n: nat, labels: Labels)
    requires |labels| >= 2 && labels[1] == []
    ensures ValidateInstr(BrIf(1), n, labels, Operands([] + [I32], false)) == Some(Operands([], false))
  {
    var none := Operands([], false);
    TopType([], I32, I32);
    assert ExpectAll(none, labels[1]) == Some(none);
    assert none.types + labels[1] == none.types;
  }

  lemma BackShape(n: nat, labels: Labels)
    requires |labels| >= 1 && labels[0] == []
    ensures From([Br(0)], n, labels, []) == Some(Operands([], true))
  {
    One(Br(0), n, labels, []);
    assert ExpectAll(Operands([], false), labels[0]) == Some(Operands([], false));
  }

  lemma {:induction false} StmtsShape(ss: seq<S.Stmt>, t: Tables, n: nat, labels: Labels, below: seq<ValType>)
    requires TablesValid(t) && Compiles(CompileStmts(ss, t), n)
    ensures From(CompileStmts(ss, t).value.0, n, labels, below) == Neutral(AllEmitsAreStatements(ss), below)
    decreases ss, 0
  {
    if ss != [] {
      StmtGrows(ss[0], t);
      var (code, t1) := CompileStmt(ss[0], t).value;
      StmtsGrow(ss[1..], t1);
      StmtShape(ss[0], t, n, labels, below);
      StmtsShape(ss[1..], t1, n, labels, below);
      ValidateAppend(code, CompileStmts(ss[1..], t1).value.0, n, labels, Operands(below, false));
    }
  }

  /** The compiler accepts emit actions as operands, and then its output is not valid WebAssembly;
      every other routine it accepts passes validation with exactly the declared local count. */
  lemma BodyValidExactlyWhen(routine: seq<S.Stmt>)
    requires CompileRoutine(routine).Ok?
    ensures var (body, fin) := CompileRoutine(routine).value;
            BodyValid(body, |fin.locals|) <==> AllEmitsAreStatements(routine)
  {
    var (body, fin) := CompileRoutine(routine).value;
    StmtsShape(routine, EMPTY_TABLES, |fin.locals|, [[]], []);
  }

  /** `x = board_post("hi")` is accepted, and its module is rejected by any WebAssembly engine. */
  lemma EmitAsOperandIsAcceptedButInvalid(record: Bytes)
    ensures var c := CompileRoutine([S.Assign("x", S.EmitAction(record))]);
            c.Ok? && !BodyValid(c.value.0, |c.value.1.locals|)
  {
    var s := S.Assign("x", S.EmitAction(record));
    var c := CompileStmt(s, EMPTY_TABLES);
    assert CompileExpr(s.e, EMPTY_TABLES).Ok?;
    assert [s][1..] == [];
    assert CompileStmts([], c.value.1).Ok?;
    assert CompileStmts([s], EMPTY_TABLES) == Prefix(c.value.0, CompileStmts([s][1..], c.value.1));
    assert !AllEmitsAreStatements([s]);
    BodyValidExactlyWhen([s]);
  }
}
