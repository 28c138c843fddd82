/** The on-pier routine language and what a routine means.

    Expressions may name anything the Python parser can produce in the documented forms; the two
    `Unsupported` nodes stand for every form the compiler turns down by its node type. */
module PierSource {
  import opened Common
  import opened Numbers

  /** A Python identifier: never empty and never containing `$`. */
  type Ident = s: string | |s| > 0 && '$' !in s witness "x"

  /** Source operators.  `OtherOp` stands for %, //, ** and the rest. */
  datatype BinaryOp = Plus | Minus | Times | Divide | OtherOp

  datatype CompareOp = Relational(op: CmpOp) | OtherCompare

  datatype Expr =
    | Num(value: F64)
    | Name(id: Ident)
    | Neg(e: Expr)
    | Pos(e: Expr)
    | Not(e: Expr)
    | Binary(bop: BinaryOp, left: Expr, right: Expr)
    | BoolOp(isAnd: bool, values: seq<Expr>)
    | Compare(cop: CompareOp, left: Expr, right: Expr)
    | ReadFrame(key: Bytes)
    | Log(message: Bytes)
    | EmitAction(record: Bytes)
    | Abs(e: Expr)
    | MinMax(isMin: bool, left: Expr, right: Expr)
    | UnsupportedExpr

  datatype Stmt =
    | Pass
    | ExprStmt(e: Expr)
    | Assign(x: Ident, e: Expr)
    | AugAssign(x: Ident, aop: BinaryOp, e: Expr)
    | If(test: Expr, body: seq<Stmt>, orelse: seq<Stmt>)
    | While(test: Expr, body: seq<Stmt>)
    | UnsupportedStmt

  function ArithOf(op: BinaryOp): Option<ArithOp> {
    match op
    case Plus => Some(Add)
    case Minus => Some(Sub)
    case Times => Some(Mul)
    case Divide => Some(Div)
    case OtherOp => None
  }

  // ----- meaning -----

  type Env = map<Ident, F64>

  /** Value of an expression and the host calls made so far, or `None` when the run reads a name
      that has no value yet (or meets a form outside the language). */
  function Eval(w: World, e: Expr, env: Env, tr: seq<Event>): (r: Option<(F64, seq<Event>)>)
    decreases e, 0
  {
    match e
    case Num(v) => Some((v, tr))
    case Name(x) => if x in env then Some((env[x], tr)) else None
    case Neg(a) =>
      (match Eval(w, a, env, tr)
       case None => None
       case Some((v, tr1)) => Some((w.sign(Negate, v), tr1)))
    case Pos(a) => Eval(w, a, env, tr)
    case Not(a) =>
      (match Eval(w, a, env, tr)
       case None => None
       case Some((v, tr1)) => Some((w.Flag(!w.Truthy(v)), tr1)))
    case Binary(op, l, r) =>
      (match Eval(w, l, env, tr)
       case None => None
       case Some((a, tr1)) =>
         match Eval(w, r, env, tr1)
         case None => None
         case Some((b, tr2)) =>
           match ArithOf(op)
           case None => None
           case Some(f) => Some((w.arith(f, a, b), tr2)))
    case BoolOp(isAnd, values) => EvalBool(w, isAnd, values, env, tr)
    case Compare(op, l, r) =>
      (match Eval(w, l, env, tr)
       case None => None
       case Some((a, tr1)) =>
         match Eval(w, r, env, tr1)
         case None => None
         case Some((b, tr2)) =>
           match op
           case OtherCompare => None
           case Relational(f) => Some((w.Flag(w.cmp(f, a, b)), tr2)))
    case ReadFrame(key) => Some((w.frameStat(tr, key), tr + [FrameStat(key)]))
    case Log(message) => Some((F64_ZERO, tr + [Logged(message)]))
    case EmitAction(_) => None
    case Abs(a) =>
      (match Eval(w, a, env, tr)
       case None => None
       case Some((v, tr1)) => Some((w.sign(Magnitude, v), tr1)))
    case MinMax(isMin, l, r) =>
      (match Eval(w, l, env, tr)
       case None => None
       case Some((a, tr1)) =>
         match Eval(w, r, env, tr1)
         case None => None
         case Some((b, tr2)) => Some((w.arith(if isMin then Min else Max, a, b), tr2)))
    case UnsupportedExpr => None
  }

  /** Python's rule for a chain of operands: stop at the first operand that decides and return
      that operand itself; operands to its right are never evaluated. */
  function EvalBool(w: World, isAnd: bool, values: seq<Expr>, env: Env, tr: seq<Event>)
    : (r: Option<(F64, seq<Event>)>)
    decreases values, 0
  {
    if values == [] then None
    else
      match Eval(w, values[0], env, tr)
      case None => None
      case Some((v, tr1)) =>
        if |values| == 1 || w.Truthy(v) != isAnd then Some((v, tr1))
        else EvalBool(w, isAnd, values[1..], env, tr1)
  }

  /** An emit action stands alone as a statement; unary plus in front of it changes nothing. */
  function EmittedBy(e: Expr): Option<Bytes> {
    match e
    case EmitAction(record) => Some(record)
    case Pos(a) => EmittedBy(a)
    case _ => None
  }

  /** How far a run with a bounded number of loop turns gets.  `OutOfTurns` keeps the host calls
      made up to that point, so runs that never end are compared too. */
  datatype Run =
    | Done(env: Env, tr: seq<Event>)
    | OutOfTurns(tr: seq<Event>)
    | Undefined

  function ExecStmt(w: World, s: Stmt, env: Env, tr: seq<Event>, turns: nat): Run
    decreases turns, s, 0
  {
    match s
    case Pass => Done(env, tr)
    case ExprStmt(e) =>
      (match EmittedBy(e)
       case Some(record) => Done(env, tr + [Emitted(record)])
       case None =>
         match Eval(w, e, env, tr)
         case None => Undefined
         case Some((_, tr1)) => Done(env, tr1))
    case Assign(x, e) =>
      (match Eval(w, e, env, tr)
       case None => Undefined
       case Some((v, tr1)) => Done(env[x := v], tr1))
    case AugAssign(x, op, e) =>
      (match Eval(w, Binary(op, Name(x), e), env, tr)
       case None => Undefined
       case Some((v, tr1)) => Done(env[x := v], tr1))
    case If(test, body, orelse) =>
      (match Eval(w, test, env, tr)
       case None => Undefined
       case Some((v, tr1)) => ExecStmts(w, if w.Truthy(v) then body else orelse, env, tr1, turns))
    case While(test, body) => ExecWhile(w, test, body, env, tr, turns)
    case UnsupportedStmt => Undefined
  }

  function ExecStmts(w: World, ss: seq<Stmt>, env: Env, tr: seq<Event>, turns: nat): Run
    decreases turns, ss, 0
  {
    if ss == [] then Done(env, tr)
    else
      match ExecStmt(w, ss[0], env, tr, turns)
      case Done(env1, tr1) => ExecStmts(w, ss[1..], env1, tr1, turns)
      case other => other
  }

  function ExecWhile(w: World, test: Expr, body: seq<Stmt>, env: Env, tr: seq<Event>, turns: nat): Run
    decreases turns, body, 1
  {
    match Eval(w, test, env, tr)
    case None => Undefined
    case Some((v, tr1)) =>
      if !w.Truthy(v) then Done(env, tr1)
      else
        match ExecStmts(w, body, env, tr1, turns)
        case Done(env2, tr2) =>
          if turns == 0 then OutOfTurns(tr2) else ExecWhile(w, test, body, env2, tr2, turns - 1)
        case other => other
  }

  /** A whole routine starts with no names set and no host calls made. */
  function RunSource(w: World, routine: seq<Stmt>, turns: nat): Run {
    ExecStmts(w, routine, map[], [], turns)
  }

  // ----- more turns never change a finished run -----

  lemma {:induction false} StmtTurnsMonotone(w: World, s: Stmt, env: Env, tr: seq<Event>, turns: nat)
    requires !ExecStmt(w, s, env, tr, turns).OutOfTurns?
    ensures ExecStmt(w, s, env, tr, turns + 1) == ExecStmt(w, s, env, tr, turns)
    decreases turns, s, 0
  {
    match s
    case If(test, body, orelse) =>
      if Eval(w, test, env, tr).Some? {
        var (v, tr1) := Eval(w, test, env, tr).value;
        StmtsTurnsMonotone(w, if w.Truthy(v) then body else orelse, env, tr1, turns);
      }
    case While(test, body) => WhileTurnsMonotone(w, test, body, env, tr, turns);
    case _ =>
  }

  lemma {:induction false} StmtsTurnsMonotone(w: World, ss: seq<Stmt>, env: Env, tr: seq<Event>, turns: nat)
    requires !ExecStmts(w, ss, env, tr, turns).OutOfTurns?
    ensures ExecStmts(w, ss, env, tr, turns + 1) == ExecStmts(w, ss, env, tr, turns)
    decreases turns, ss, 0
  {
    if ss != [] {
      StmtTurnsMonotone(w, ss[0], env, tr, turns);
      var r := ExecStmt(w, ss[0], env, tr, turns);
      if r.Done? {
        StmtsTurnsMonotone(w, ss[1..], r.env, r.tr, turns);
      }
    }
  }

  lemma {:induction false} WhileTurnsMonotone(w: World, test: Expr, body: seq<Stmt>, env: Env, tr: seq<Event>,
                                              turns: nat)
    requires !ExecWhile(w, test, body, env, tr, turns).OutOfTurns?
    ensures ExecWhile(w, test, body, env, tr, turns + 1) == ExecWhile(w, test, body, env, tr, turns)
    decreases turns, body, 1
  {
    if Eval(w, test, env, tr).Some? {
      var (v, tr1) := Eval(w, test, env, tr).value;
      if w.Truthy(v) {
        StmtsTurnsMonotone(w, body, env, tr1, turns);
        var r := ExecStmts(w, body, env, tr1, turns);
        if r.Done? {
          WhileTurnsMonotone(w, test, body, r.env, r.tr, turns - 1);
        }
      }
    }
  }
}
