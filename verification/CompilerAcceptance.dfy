/** Which routines the compiler accepts, and which of those can never read a name that has no value. */
module CompilerAcceptance {
  import opened Common
  import opened Numbers
  import opened WasmMachine
  import opened CompilerSpec
  import opened CompilerValidity
  import S = PierSource

  type Names = set<S.Ident>

  /** Every form is supported and every name is among `names`. */
  predicate Readable(e: S.Expr, names: Names)
    decreases e, 0
  {
    match e
    case Num(_) => true
    case Name(x) => x in names
    case Neg(a) => Readable(a, names)
    case Pos(a) => Readable(a, names)
    case Not(a) => Readable(a, names)
    case Abs(a) => Readable(a, names)
    case Binary(op, l, r) => S.ArithOf(op).Some? && Readable(l, names) && Readable(r, names)
    case Compare(op, l, r) => op.Relational? && Readable(l, names) && Readable(r, names)
    case MinMax(_, l, r) => Readable(l, names) && Readable(r, names)
    case BoolOp(_, values) => values != [] && AllReadable(values, names)
    case ReadFrame(_) => true
    case Log(_) => true
    case EmitAction(_) => true
    case UnsupportedExpr => false
  }

  predicate AllReadable(values: seq<S.Expr>, names: Names)
    decreases values, 0
  {
    values == [] || (Readable(values[0], names) && AllReadable(values[1..], names))
  }

  // ----- what is accepted: names count in source order, whatever the control flow -----

  /** The names known after a statement that is accepted. */
  function Accept(s: S.Stmt, names: Names): Option<Names>
    decreases s, 0
  {
    match s
    case Pass => Some(names)
    case ExprStmt(e) => if Readable(e, names) then Some(names) else None
    case Assign(x, e) => if Readable(e, names) then Some(names + {x}) else None
    case AugAssign(x, op, e) =>
      // the target counts as known in its own right-hand side
      if Readable(e, names + {x}) && S.ArithOf(op).Some? then Some(names + {x}) else None
    case If(test, body, orelse) =>
      if !Readable(test, names) then None
      else
        (match AcceptAll(body, names)
         case None => None
         case Some(known) => AcceptAll(orelse, known))
    case While(test, body) => if Readable(test, names) then AcceptAll(body, names) else None
    case UnsupportedStmt => None
  }

  function AcceptAll(ss: seq<S.Stmt>, names: Names): Option<Names>
    decreases ss, 0
  {
    if ss == [] then Some(names)
    else
      match Accept(ss[0], names)
      case None => None
      case Some(known) => AcceptAll(ss[1..], known)
  }

  /** The compiler's table of slots knows just these names, besides its own scratch entry. */
  ghost predicate Agree(names: Names, t: Tables) {
    forall x: S.Ident :: x in names <==> x in t.locals
  }

  lemma ScratchIsNoName(t: Tables, names: Names)
    requires Agree(names, t)
    ensures Agree(names, ScratchIndex(t).0)
  {
    assert '$' in SCRATCH;
  }

  lemma {:induction false} ExprAccepted(e: S.Expr, t: Tables, names: Names)
    requires Agree(names, t)
    ensures CompileExpr(e, t).Ok? <==> Readable(e, names)
    ensures CompileExpr(e, t).Ok? ==> Agree(names, CompileExpr(e, t).value.1)
    decreases e, 0
  {
    match e
    case Num(_) =>
    case Name(_) =>
    case ReadFrame(_) =>
    case Log(_) =>
    case EmitAction(_) =>
    case UnsupportedExpr =>
    case Neg(a) => ExprAccepted(a, t, names);
    case Pos(a) => ExprAccepted(a, t, names);
    case Not(a) => ExprAccepted(a, t, names);
    case Abs(a) => ExprAccepted(a, t, names);
    case Binary(_, l, r) =>
      ExprAccepted(l, t, names);
      if CompileExpr(l, t).Ok? {
        ExprAccepted(r, CompileExpr(l, t).value.1, names);
      }
    case Compare(_, l, r) =>
      ExprAccepted(l, t, names);
      if CompileExpr(l, t).Ok? {
        ExprAccepted(r, CompileExpr(l, t).value.1, names);
      }
    case MinMax(_, l, r) =>
      ExprAccepted(l, t, names);
      if CompileExpr(l, t).Ok? {
        ExprAccepted(r, CompileExpr(l, t).value.1, names);
      }
    case BoolOp(isAnd, values) =>
      if values != [] {
        ExprAccepted(values[0], t, names);
        if CompileExpr(values[0], t).Ok? {
          FoldAccepted(isAnd, values[1..], CompileExpr(values[0], t).value.1, names);
        }
      }
  }

  lemma {:induction false} FoldAccepted(isAnd: bool, rest: seq<S.Expr>, t: Tables, names: Names)
    requires Agree(names, t)
    ensures CompileFold(isAnd, rest, t).Ok? <==> AllReadable(rest, names)
    ensures CompileFold(isAnd, rest, t).Ok? ==> Agree(names, CompileFold(isAnd, rest, t).value.1)
    decreases rest, 0
  {
    if rest != [] {
      ScratchIsNoName(t, names);
      var t1 := ScratchIndex(t).0;
      ExprAccepted(rest[0], t1, names);
      if CompileExpr(rest[0], t1).Ok? {
        FoldAccepted(isAnd, rest[1..], CompileExpr(rest[0], t1).value.1, names);
      }
    }
  }

  lemma {:induction false} StmtAccepted(s: S.Stmt, t: Tables, names: Names)
    requires Agree(names, t)
    ensures CompileStmt(s, t).Ok? <==> Accept(s, names).Some?
    ensures CompileStmt(s, t).Ok? ==> Agree(Accept(s, names).value, CompileStmt(s, t).value.1)
    decreases s, 0
  {
    match s
    case Pass =>
    case UnsupportedStmt =>
    case ExprStmt(e) => ExprAccepted(e, t, names);
    case Assign(_, e) => ExprAccepted(e, t, names);
    case AugAssign(x, _, e) => ExprAccepted(e, LocalIndex(t, x).0, names + {x});
    case If(test, body, orelse) =>
      ExprAccepted(test, t, names);
      if CompileExpr(test, t).Ok? {
        var t1 := CompileExpr(test, t).value.1;
        StmtsAccepted(body, t1, names);
        if CompileStmts(body, t1).Ok? {
          StmtsAccepted(orelse, CompileStmts(body, t1).value.1, AcceptAll(body, names).value);
        }
      }
    case While(test, body) =>
      ExprAccepted(test, t, names);
      if CompileExpr(test, t).Ok? {
        StmtsAccepted(body, CompileExpr(test, t).value.1, names);
      }
  }

  lemma {:induction false} StmtsAccepted(ss: seq<S.Stmt>, t: Tables, names: Names)
    requires Agree(names, t)
    ensures CompileStmts(ss, t).Ok? <==> AcceptAll(ss, names).Some?
    ensures CompileStmts(ss, t).Ok? ==> Agree(AcceptAll(ss, names).value, CompileStmts(ss, t).value.1)
    decreases ss, 0
  {
    if ss != [] {
      StmtAccepted(ss[0], t, names);
      if CompileStmt(ss[0], t).Ok? {
        StmtsAccepted(ss[1..], CompileStmt(ss[0], t).value.1, Accept(ss[0], names).value);
      }
    }
  }

  /** The compiler accepts a routine exactly when it passes this check: every form is supported and every name it
      reads was assigned earlier in the text, on whatever path, or is the target of the augmented assignment
      that reads it. */
  lemma AcceptedExactlyWhen(routine: seq<S.Stmt>)
    ensures CompileRoutine(routine).Ok? <==> AcceptAll(routine, {}).Some?
  {
    StmtsAccepted(routine, EMPTY_TABLES, {});
  }

  // ----- what never reads an unset name: names count only when every path assigns them -----

  function Settle(s: S.Stmt, names: Names): Option<Names>
    decreases s, 0
  {
    match s
    case Pass => Some(names)
    case ExprStmt(e) =>
      if Readable(e, names) && (S.EmittedBy(e).Some? || Shape(e) == Some(F64Type)) then Some(names) else None
    case Assign(x, e) => if Readable(e, names) then Some(names + {x}) else None
    case AugAssign(x, op, e) => if x in names && Readable(e, names) && S.ArithOf(op).Some? then Some(names) else None
    case If(test, body, orelse) =>
      (match (SettleAll(body, names), SettleAll(orelse, names))
       case (Some(a), Some(b)) => if Readable(test, names) then Some(a * b) else None
       case _ => None)
    case While(test, body) =>
      if Readable(test, names) && SettleAll(body, names).Some? then Some(names) else None
    case UnsupportedStmt => None
  }

  function SettleAll(ss: seq<S.Stmt>, names: Names): Option<Names>
    decreases ss, 0
  {
    if ss == [] then Some(names)
    else
      match Settle(ss[0], names)
      case None => None
      case Some(known) => SettleAll(ss[1..], known)
  }

  lemma {:induction false} ReadableEvaluates(w: World, e: S.Expr, names: Names, env: S.Env, tr: seq<Event>)
    requires Readable(e, names) && Shape(e) == Some(F64Type) && names <= env.Keys
    ensures S.Eval(w, e, env, tr).Some?
    decreases e, 0
  {
    match e
    case Num(_) =>
    case Name(_) =>
    case ReadFrame(_) =>
    case Log(_) =>
    case Neg(a) => ReadableEvaluates(w, a, names, env, tr);
    case Pos(a) => ReadableEvaluates(w, a, names, env, tr);
    case Not(a) => ReadableEvaluates(w, a, names, env, tr);
    case Abs(a) => ReadableEvaluates(w, a, names, env, tr);
    case Binary(_, l, r) =>
      ReadableEvaluates(w, l, names, env, tr);
      ReadableEvaluates(w, r, names, env, S.Eval(w, l, env, tr).value.1);
    case Compare(_, l, r) =>
      ReadableEvaluates(w, l, names, env, tr);
      ReadableEvaluates(w, r, names, env, S.Eval(w, l, env, tr).value.1);
    case MinMax(_, l, r) =>
      ReadableEvaluates(w, l, names, env, tr);
      ReadableEvaluates(w, r, names, env, S.Eval(w, l, env, tr).value.1);
    case BoolOp(isAnd, values) =>
      if |values| == 1 {
        ReadableEvaluates(w, values[0], names, env, tr);
      } else {
        ChainEvaluates(w, isAnd, values, names, env, tr);
      }
  }

  lemma {:induction false} ChainEvaluates(w: World, isAnd: bool, values: seq<S.Expr>, names: Names, env: S.Env,
                                          tr: seq<Event>)
    requires values != [] && AllReadable(values, names) && AllDoubles(values) && names <= env.Keys
    ensures S.EvalBool(w, isAnd, values, env, tr).Some?
    decreases values, 0
  {
    ReadableEvaluates(w, values[0], names, env, tr);
    if |values| > 1 {
      ChainEvaluates(w, isAnd, values[1..], names, env, S.Eval(w, values[0], env, tr).value.1);
    }
  }

  /** A run that is defined, and if it ends has given every one of `names` a value. */
  ghost predicate Settled(r: S.Run, names: Names) {
    !r.Undefined? && (r.Done? ==> names <= r.env.Keys)
  }

  lemma {:induction false} StmtSettles(w: World, s: S.Stmt, names: Names, env: S.Env, tr: seq<Event>, turns: nat)
    requires Settle(s, names).Some? && EmitsAreStatements(s) && names <= env.Keys
    ensures Settled(S.ExecStmt(w, s, env, tr, turns), Settle(s, names).value)
    decreases turns, s, 1
  {
    match s
    case Pass =>
    case ExprStmt(e) =>
      if S.EmittedBy(e).None? {
        ReadableEvaluates(w, e, names, env, tr);
      }
    case Assign(_, e) => ReadableEvaluates(w, e, names, env, tr);
    case AugAssign(x, op, e) => ReadableEvaluates(w, S.Binary(op, S.Name(x), e), names, env, tr);
    case If(test, body, orelse) =>
      ReadableEvaluates(w, test, names, env, tr);
      var (v, tr1) := S.Eval(w, test, env, tr).value;
      StmtsSettle(w, if w.Truthy(v) then body else orelse, names, env, tr1, turns);
    case While(test, body) => WhileSettles(w, test, body, names, env, tr, turns);
  }

  lemma {:induction false} StmtsSettle(w: World, ss: seq<S.Stmt>, names: Names, env: S.Env, tr: seq<Event>, turns: nat)
    requires SettleAll(ss, names).Some? && AllEmitsAreStatements(ss) && names <= env.Keys
    ensures Settled(S.ExecStmts(w, ss, env, tr, turns), SettleAll(ss, names).value)
    decreases turns, ss, 0
  {
    if ss != [] {
      StmtSettles(w, ss[0], names, env, tr, turns);
      var r := S.ExecStmt(w, ss[0], env, tr, turns);
      if r.Done? {
        StmtsSettle(w, ss[1..], Settle(ss[0], names).value, r.env, r.tr, turns);
      }
    }
  }

  lemma {:induction false} SettleGrows(s: S.Stmt, names: Names)
    requires Settle(s, names).Some?
    ensures names <= Settle(s, names).value
    decreases s, 0
  {
    if s.If? {
      SettleAllGrows(s.body, names);
      SettleAllGrows(s.orelse, names);
    }
  }

  lemma {:induction false} SettleAllGrows(ss: seq<S.Stmt>, names: Names)
    requires SettleAll(ss, names).Some?
    ensures names <= SettleAll(ss, names).value
    decreases ss, 0
  {
    if ss != [] {
      SettleGrows(ss[0], names);
      SettleAllGrows(ss[1..], Settle(ss[0], names).value);
    }
  }

  lemma {:induction false} WhileSettles(w: World, test: S.Expr, body: seq<S.Stmt>, names: Names, env: S.Env,
                                        tr: seq<Event>, turns: nat)
    requires Readable(test, names) && Shape(test) == Some(F64Type)
    requires SettleAll(body, names).Some? && AllEmitsAreStatements(body) && names <= env.Keys
    ensures Settled(S.ExecWhile(w, test, body, env, tr, turns), names)
    decreases turns, body, 1
  {
    ReadableEvaluates(w, test, names, env, tr);
    var (v, tr1) := S.Eval(w, test, env, tr).value;
    if w.Truthy(v) {
      StmtsSettle(w, body, names, env, tr1, turns);
      var r := S.ExecStmts(w, body, env, tr1, turns);
      if r.Done? && turns > 0 {
        SettleAllGrows(body, names);
        WhileSettles(w, test, body, names, r.env, r.tr, turns - 1);
      }
    }
  }

  /** A routine in which every name is assigned on every path before it is read never reads an unset
      name, whatever the host answers and however long it runs. */
  lemma SettledRoutineIsDefined(w: World, routine: seq<S.Stmt>, turns: nat)
    requires SettleAll(routine, {}).Some? && AllEmitsAreStatements(routine)
    ensures !S.RunSource(w, routine, turns).Undefined?
  {
    StmtsSettle(w, routine, {}, map[], [], turns);
  }

  // ----- the compiler accepts every such routine -----

  lemma {:induction false} ReadableMore(e: S.Expr, names: Names, more: Names)
    requires Readable(e, names) && names <= more
    ensures Readable(e, more)
    decreases e, 0
  {
    match e
    case Num(_) =>
    case Name(_) =>
    case ReadFrame(_) =>
    case Log(_) =>
    case EmitAction(_) =>
    case Neg(a) => ReadableMore(a, names, more);
    case Pos(a) => ReadableMore(a, names, more);
    case Not(a) => ReadableMore(a, names, more);
    case Abs(a) => ReadableMore(a, names, more);
    case Binary(_, l, r) =>
      ReadableMore(l, names, more);
      ReadableMore(r, names, more);
    case Compare(_, l, r) =>
      ReadableMore(l, names, more);
      ReadableMore(r, names, more);
    case MinMax(_, l, r) =>
      ReadableMore(l, names, more);
      ReadableMore(r, names, more);
    case BoolOp(_, values) => AllReadableMore(values, names, more);
  }

  lemma {:induction false} AllReadableMore(values: seq<S.Expr>, names: Names, more: Names)
    requires AllReadable(values, names) && names <= more
    ensures AllReadable(values, more)
    decreases values, 0
  {
    if values != [] {
      ReadableMore(values[0], names, more);
      AllReadableMore(values[1..], names, more);
    }
  }

  lemma {:induction false} SettledIsAccepted(s: S.Stmt, names: Names, more: Names)
    requires Settle(s, names).Some? && names <= more
    ensures Accept(s, more).Some? && Settle(s, names).value <= Accept(s, more).value
    decreases s, 0
  {
    match s
    case Pass =>
    case ExprStmt(e) => ReadableMore(e, names, more);
    case Assign(_, e) => ReadableMore(e, names, more);
    case AugAssign(x, _, e) => ReadableMore(e, names, more + {x});
    case If(test, body, orelse) =>
      ReadableMore(test, names, more);
      AllSettledAccepted(body, names, more);
      SettleAllGrows(body, names);
      AllSettledAccepted(orelse, names, AcceptAll(body, more).value);
    case While(test, body) =>
      ReadableMore(test, names, more);
      AllSettledAccepted(body, names, more);
      SettleAllGrows(body, names);
  }

  lemma {:induction false} AllSettledAccepted(ss: seq<S.Stmt>, names: Names, more: Names)
    requires SettleAll(ss, names).Some? && names <= more
    ensures AcceptAll(ss, more).Some? && SettleAll(ss, names).value <= AcceptAll(ss, more).value
    decreases ss, 0
  {
    if ss != [] {
      SettledIsAccepted(ss[0], names, more);
      AllSettledAccepted(ss[1..], Settle(ss[0], names).value, Accept(ss[0], more).value);
    }
  }

  lemma SettledRoutineCompiles(routine: seq<S.Stmt>)
    requires SettleAll(routine, {}).Some?
    ensures CompileRoutine(routine).Ok?
  {
    AllSettledAccepted(routine, {}, {});
    AcceptedExactlyWhen(routine);
  }

  /** The converse fails: an augmented assignment to a name that was never set is accepted, although
      running the source reads the unset name.  (The compiled code reads the slot's initial zero.) */
  lemma UnsetTargetIsAccepted(w: World, x: S.Ident, v: F64, turns: nat)
    ensures var routine := [S.AugAssign(x, S.Plus, S.Num(v))];
            && CompileRoutine(routine).Ok?
            && S.RunSource(w, routine, turns).Undefined?
            && SettleAll(routine, {}).None?
  {
    var routine := [S.AugAssign(x, S.Plus, S.Num(v))];
    var sum := S.Binary(S.Plus, S.Name(x), S.Num(v));
    assert routine[1..] == [];
    assert Readable(S.Num(v), {} + {x});
    assert Accept(routine[0], {}) == Some({} + {x});
    AcceptedExactlyWhen(routine);
    assert S.Eval(w, S.Name(x), map[], []) == None;
    assert S.Eval(w, sum, map[], []) == None;
    assert S.ExecStmt(w, routine[0], map[], [], turns).Undefined?;
  }
}
