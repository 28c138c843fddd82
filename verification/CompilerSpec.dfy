/** What the routine compiler produces, as functions of the syntax and of the compiler's tables.
    Module `PierCompiler` holds the object that computes it by appending to a byte buffer. */
module CompilerSpec {
  import opened Common
  import opened Numbers
  import opened WasmMachine
  import S = PierSource

  /** The exceptions that end a build. */
  datatype Failure =
    | NotInSubset
    | UsedBeforeAssignment(name: string)
    | OperatorKeyError
    | NoOperands

  const SCRATCH := "$scratch"

  /** The tables: local slots by name, the shared scratch slot, the string pool and its index. */
  datatype Tables = Tables(
    locals: map<string, nat>,
    scratch: Option<nat>,
    pool: Bytes,
    interned: map<Bytes, (nat, nat)>
  )

  const EMPTY_TABLES := Tables(map[], None, [], map[])

  function Intern(t: Tables, b: Bytes): (Tables, nat, nat) {
    if b in t.interned then (t, t.interned[b].0, t.interned[b].1)
    else (t.(pool := t.pool + b, interned := t.interned[b := (|t.pool|, |b|)]), |t.pool|, |b|)
  }

  function LocalIndex(t: Tables, name: string): (Tables, nat) {
    if name in t.locals then (t, t.locals[name])
    else (t.(locals := t.locals[name := |t.locals|]), |t.locals|)
  }

  function ScratchIndex(t: Tables): (Tables, nat) {
    match t.scratch
    case Some(i) => (t, i)
    case None => (t.(scratch := Some(|t.locals|), locals := t.locals[SCRATCH := |t.locals|]), |t.locals|)
  }

  type Compiled = Result<(seq<Instr>, Tables), Failure>

  /** The code of `c`, then `tail`. */
  function Then(c: Compiled, tail: seq<Instr>): Compiled {
    match c
    case Err(f) => Err(f)
    case Ok((code, t)) => Ok((code + tail, t))
  }

  const TO_BOOL: seq<Instr> := [F64Const(F64_ZERO), Compare(Ne)]

  function CompileStringCall(f: nat, b: Bytes, t: Tables): Compiled {
    var (t1, off, len) := Intern(t, b);
    Ok(([I32Const(off), I32Const(len), Call(f)], t1))
  }

  function CompileExpr(e: S.Expr, t: Tables): Compiled
    decreases e, 0
  {
    match e
    case Num(v) => Ok(([F64Const(v)], t))
    case Name(x) =>
      if x in t.locals then Ok(([LocalGet(t.locals[x])], t)) else Err(UsedBeforeAssignment(x))
    case Neg(a) => Then(CompileExpr(a, t), [Sign(Negate)])
    case Pos(a) => CompileExpr(a, t)
    case Not(a) => Then(CompileExpr(a, t), TO_BOOL + [I32Eqz, ConvertI32S])
    case Binary(op, l, r) =>
      (match S.ArithOf(op)
       case None => Err(NotInSubset)
       case Some(f) => Then(CompilePair(CompileExpr(l, t), r), [Arith(f)]))
    case BoolOp(isAnd, values) =>
      if values == [] then Err(NoOperands)
      else
        (match CompileExpr(values[0], t)
         case Err(f) => Err(f)
         case Ok((code, t1)) => Prefix(code, CompileFold(isAnd, values[1..], t1)))
    case Compare(op, l, r) =>
      // an unknown operator is noticed only after both operands were compiled
      (match CompilePair(CompileExpr(l, t), r)
       case Err(f) => Err(f)
       case Ok((code, t2)) =>
         match op
         case OtherCompare => Err(NotInSubset)
         case Relational(f) => Ok((code + [Compare(f), ConvertI32S], t2)))
    case ReadFrame(key) => CompileStringCall(IMPORT_FRAME_STAT, key, t)
    case Log(message) => Then(CompileStringCall(IMPORT_LOG, message, t), [F64Const(F64_ZERO)])
    case EmitAction(record) => CompileStringCall(IMPORT_EMIT, record, t)
    case Abs(a) => Then(CompileExpr(a, t), [Sign(Magnitude)])
    case MinMax(isMin, l, r) =>
      Then(CompilePair(CompileExpr(l, t), r), [Arith(if isMin then Min else Max)])
    case UnsupportedExpr => Err(NotInSubset)
  }

  function Prefix(code: seq<Instr>, c: Compiled): Compiled {
    match c
    case Err(f) => Err(f)
    case Ok((more, t)) => Ok((code + more, t))
  }

  function CompilePair(l: Compiled, r: S.Expr): Compiled
    decreases r, 1
  {
    match l
    case Err(f) => Err(f)
    case Ok((code, t1)) => Prefix(code, CompileExpr(r, t1))
  }

  /** Keep the left value on the stack and in the scratch slot, test it, and choose. */
  function Choose(isAnd: bool, sb: nat, right: seq<Instr>): seq<Instr> {
    [LocalTee(sb)] + TO_BOOL
    + [If(Yields(F64Type), if isAnd then right else [LocalGet(sb)], Else(if isAnd then [LocalGet(sb)] else right))]
  }

  function CompileFold(isAnd: bool, rest: seq<S.Expr>, t: Tables): Compiled
    decreases rest, 0
  {
    if rest == [] then Ok(([], t))
    else
      var (t1, sb) := ScratchIndex(t);
      match CompileExpr(rest[0], t1)
      case Err(f) => Err(f)
      case Ok((right, t2)) => Prefix(Choose(isAnd, sb, right), CompileFold(isAnd, rest[1..], t2))
  }

  function CompileStmt(s: S.Stmt, t: Tables): Compiled
    decreases s, 0
  {
    match s
    case Pass => Ok(([], t))
    case ExprStmt(e) => Then(CompileExpr(e, t), [Drop])
    case Assign(x, e) =>
      (match CompileExpr(e, t)
       case Err(f) => Err(f)
       case Ok((code, t1)) =>
         var (t2, i) := LocalIndex(t1, x);
         Ok((code + [LocalSet(i)], t2)))
    case AugAssign(x, op, e) =>
      var (t1, i) := LocalIndex(t, x);
      (match CompileExpr(e, t1)
       case Err(f) => Err(f)
       case Ok((code, t2)) =>
         match S.ArithOf(op)
         case None => Err(OperatorKeyError)
         case Some(f) => Ok(([LocalGet(i)] + code + [Arith(f), LocalSet(i)], t2)))
    case If(test, body, orelse) =>
      (match CompileExpr(test, t)
       case Err(f) => Err(f)
       case Ok((code, t1)) =>
         match CompileStmts(body, t1)
         case Err(f) => Err(f)
         case Ok((thn, t2)) =>
           match CompileStmts(orelse, t2)
           case Err(f) => Err(f)
           case Ok((els, t3)) => Ok((code + TO_BOOL + [If(Void, thn, ElseOf(orelse, els))], t3)))
    case While(test, body) =>
      (match CompileExpr(test, t)
       case Err(f) => Err(f)
       case Ok((code, t1)) =>
         match CompileStmts(body, t1)
         case Err(f) => Err(f)
         case Ok((inner, t2)) => Ok(([Block(Void, [Loop(Void, LoopBody(code, inner))])], t2)))
    case UnsupportedStmt => Err(NotInSubset)
  }

  /** An else part is emitted whenever the source has one, even one that compiles to nothing. */
  function ElseOf(orelse: seq<S.Stmt>, els: seq<Instr>): ElsePart {
    if orelse == [] then NoElse else Else(els)
  }

  function LoopBody(test: seq<Instr>, inner: seq<Instr>): seq<Instr> {
    test + (TO_BOOL + ([I32Eqz, BrIf(1)] + (inner + [Br(0)])))
  }

  lemma Assoc(a: seq<Instr>, b: seq<Instr>, c: seq<Instr>)
    ensures (a + b) + c == a + (b + c)
  {
  }

  function CompileStmts(ss: seq<S.Stmt>, t: Tables): Compiled
    decreases ss, 0
  {
    if ss == [] then Ok(([], t))
    else
      match CompileStmt(ss[0], t)
      case Err(f) => Err(f)
      case Ok((code, t1)) => Prefix(code, CompileStmts(ss[1..], t1))
  }

  function CompileRoutine(routine: seq<S.Stmt>): Compiled {
    CompileStmts(routine, EMPTY_TABLES)
  }

  // ----- what every compilation step keeps -----

  /** Slots are numbered without gaps or sharing, the scratch slot is registered under its own
      name, and every interned string sits in the pool where its entry says. */
  predicate TablesValid(t: Tables) {
    && (forall x :: x in t.locals ==> t.locals[x] < |t.locals|)
    && (forall x, y :: x in t.locals && y in t.locals && t.locals[x] == t.locals[y] ==> x == y)
    && (SCRATCH in t.locals <==> t.scratch.Some?)
    && (t.scratch.Some? ==> t.locals[SCRATCH] == t.scratch.value)
    && (forall b :: b in t.interned ==> InPool(t.pool, t.interned[b].0, t.interned[b].1, b))
  }

  predicate InPool(pool: Bytes, off: nat, len: nat, b: Bytes) {
    off + len <= |pool| && pool[off..off + len] == b
  }

  lemma InPoolGrows(pool: Bytes, later: Bytes, off: nat, len: nat, b: Bytes)
    requires pool <= later && InPool(pool, off, len, b)
    ensures InPool(later, off, len, b)
  {
    assert later[off..off + len] == pool[off..off + len];
  }

  /** `later` was reached from `t` by compiling more code. */
  predicate Extends(t: Tables, later: Tables) {
    && (forall x :: x in t.locals ==> x in later.locals && later.locals[x] == t.locals[x])
    && |t.locals| <= |later.locals|
    && (t.scratch.Some? ==> later.scratch == t.scratch)
    && t.pool <= later.pool
  }

  lemma ExtendsTransitive(a: Tables, b: Tables, c: Tables)
    requires Extends(a, b) && Extends(b, c)
    ensures Extends(a, c)
  {
  }

  predicate Grown(t: Tables, c: Compiled) {
    c.Ok? ==> TablesValid(c.value.1) && Extends(t, c.value.1)
  }

  lemma InternGrows(t: Tables, b: Bytes)
    requires TablesValid(t)
    ensures var (t1, off, len) := Intern(t, b);
            TablesValid(t1) && Extends(t, t1) && t1.locals == t.locals && InPool(t1.pool, off, len, b)
  {
    if b !in t.interned {
      var pool1 := t.pool + b;
      assert pool1[|t.pool|..|t.pool| + |b|] == b;
      forall c | c in t.interned
        ensures InPool(pool1, t.interned[c].0, t.interned[c].1, c)
      {
        InPoolGrows(t.pool, pool1, t.interned[c].0, t.interned[c].1, c);
      }
    }
  }

  lemma NewSlot(slots: map<string, nat>, name: string)
    requires name !in slots && forall x :: x in slots ==> slots[x] < |slots|
    requires forall x, y :: x in slots && y in slots && slots[x] == slots[y] ==> x == y
    ensures var more := slots[name := |slots|];
            && |more| == |slots| + 1
            && (forall x :: x in more ==> more[x] < |more|)
            && (forall x, y :: x in more && y in more && more[x] == more[y] ==> x == y)
  {
  }

  lemma LocalIndexGrows(t: Tables, x: S.Ident)
    requires TablesValid(t)
    ensures var (t1, i) := LocalIndex(t, x);
            TablesValid(t1) && Extends(t, t1) && x in t1.locals && t1.locals[x] == i && t1.pool == t.pool
  {
    assert '$' in SCRATCH;
    assert x != SCRATCH;
    if x !in t.locals {
      NewSlot(t.locals, x);
    }
  }

  lemma ScratchIndexGrows(t: Tables)
    requires TablesValid(t)
    ensures var (t1, i) := ScratchIndex(t);
            TablesValid(t1) && Extends(t, t1) && t1.scratch == Some(i) && i < |t1.locals|
  {
    if t.scratch.None? {
      NewSlot(t.locals, SCRATCH);
    }
  }

  lemma {:induction false} ExprGrows(e: S.Expr, t: Tables)
    requires TablesValid(t)
    ensures Grown(t, CompileExpr(e, t))
    decreases e, 0
  {
    match e
    case Neg(a) => ExprGrows(a, t);
    case Pos(a) => ExprGrows(a, t);
    case Not(a) => ExprGrows(a, t);
    case Abs(a) => ExprGrows(a, t);
    case Binary(_, l, r) => ExprGrows(l, t); PairGrows(t, CompileExpr(l, t), r);
    case Compare(_, l, r) => ExprGrows(l, t); PairGrows(t, CompileExpr(l, t), r);
    case MinMax(_, l, r) => ExprGrows(l, t); PairGrows(t, CompileExpr(l, t), r);
    case BoolOp(isAnd, values) =>
      if values != [] {
        ExprGrows(values[0], t);
        if CompileExpr(values[0], t).Ok? {
          FoldGrows(isAnd, values[1..], CompileExpr(values[0], t).value.1);
        }
      }
    case ReadFrame(b) => InternGrows(t, b);
    case Log(b) => InternGrows(t, b);
    case EmitAction(b) => InternGrows(t, b);
    case _ =>
  }

  lemma {:induction false} PairGrows(t: Tables, l: Compiled, r: S.Expr)
    requires TablesValid(t) && Grown(t, l)
    ensures Grown(t, CompilePair(l, r))
    decreases r, 1
  {
    if l.Ok? {
      ExprGrows(r, l.value.1);
    }
  }

  lemma {:induction false} FoldGrows(isAnd: bool, rest: seq<S.Expr>, t: Tables)
    requires TablesValid(t)
    ensures Grown(t, CompileFold(isAnd, rest, t))
    decreases rest, 0
  {
    if rest != [] {
      ScratchIndexGrows(t);
      var (t1, _) := ScratchIndex(t);
      ExprGrows(rest[0], t1);
      if CompileExpr(rest[0], t1).Ok? {
        FoldGrows(isAnd, rest[1..], CompileExpr(rest[0], t1).value.1);
      }
    }
  }

  lemma {:induction false} StmtGrows(s: S.Stmt, t: Tables)
    requires TablesValid(t)
    ensures Grown(t, CompileStmt(s, t))
    decreases s, 0
  {
    match s
    case ExprStmt(e) => ExprGrows(e, t);
    case Assign(x, e) =>
      ExprGrows(e, t);
      if CompileExpr(e, t).Ok? {
        LocalIndexGrows(CompileExpr(e, t).value.1, x);
      }
    case AugAssign(x, _, e) =>
      LocalIndexGrows(t, x);
      ExprGrows(e, LocalIndex(t, x).0);
    case If(test, body, orelse) =>
      ExprGrows(test, t);
      if CompileExpr(test, t).Ok? {
        var t1 := CompileExpr(test, t).value.1;
        StmtsGrow(body, t1);
        if CompileStmts(body, t1).Ok? {
          StmtsGrow(orelse, CompileStmts(body, t1).value.1);
        }
      }
    case While(test, body) =>
      ExprGrows(test, t);
      if CompileExpr(test, t).Ok? {
        StmtsGrow(body, CompileExpr(test, t).value.1);
      }
    case _ =>
  }

  lemma {:induction false} StmtsGrow(ss: seq<S.Stmt>, t: Tables)
    requires TablesValid(t)
    ensures Grown(t, CompileStmts(ss, t))
    decreases ss, 0
  {
    if ss != [] {
      StmtGrows(ss[0], t);
      if CompileStmt(ss[0], t).Ok? {
        StmtsGrow(ss[1..], CompileStmt(ss[0], t).value.1);
      }
    }
  }

  /** `x op= e` is the code of the expression `x op e`, compiled once x has a slot, then a store. */
  lemma AugAssignCode(x: S.Ident, op: S.BinaryOp, e: S.Expr, t: Tables)
    requires TablesValid(t) && CompileStmt(S.AugAssign(x, op, e), t).Ok?
    ensures var (t1, i) := LocalIndex(t, x);
            Then(CompileExpr(S.Binary(op, S.Name(x), e), t1), [LocalSet(i)]) == CompileStmt(S.AugAssign(x, op, e), t)
  {
    LocalIndexGrows(t, x);
    var (t1, i) := LocalIndex(t, x);
    var (code, t2) := CompileExpr(e, t1).value;
    var f := S.ArithOf(op).value;
    assert CompileExpr(S.Name(x), t1) == Ok(([LocalGet(i)], t1));
    assert CompilePair(CompileExpr(S.Name(x), t1), e) == Ok(([LocalGet(i)] + code, t2));
    assert [LocalGet(i)] + code + [Arith(f)] + [LocalSet(i)] == [LocalGet(i)] + code + [Arith(f), LocalSet(i)];
  }
}
