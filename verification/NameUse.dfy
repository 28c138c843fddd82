/** Where a routine reads and assigns its names: in the order of the text, and along the paths of control. */
module NameUse {
  import opened Common
  import opened CompilerSpec
  import opened CompilerAcceptance
  import S = PierSource

  /** `Target` is the read an augmented assignment makes of the name it assigns. */
  datatype Use = Read(x: S.Ident) | Target(x: S.Ident) | Assigned(x: S.Ident)

  function ExprUses(e: S.Expr): seq<Use>
    decreases e, 0
  {
    match e
    case Num(_) => []
    case Name(x) => [Read(x)]
    case Neg(a) => ExprUses(a)
    case Pos(a) => ExprUses(a)
    case Not(a) => ExprUses(a)
    case Abs(a) => ExprUses(a)
    case Binary(_, l, r) => ExprUses(l) + ExprUses(r)
    case Compare(_, l, r) => ExprUses(l) + ExprUses(r)
    case MinMax(_, l, r) => ExprUses(l) + ExprUses(r)
    case BoolOp(_, values) => AllExprUses(values)
    case ReadFrame(_) => []
    case Log(_) => []
    case EmitAction(_) => []
    case UnsupportedExpr => []
  }

  function AllExprUses(values: seq<S.Expr>): seq<Use>
    decreases values, 0
  {
    if values == [] then [] else ExprUses(values[0]) + AllExprUses(values[1..])
  }

  /** The uses of a statement in the order of the text. */
  function StmtUses(s: S.Stmt): seq<Use>
    decreases s, 0
  {
    match s
    case Pass => []
    case ExprStmt(e) => ExprUses(e)
    case Assign(x, e) => ExprUses(e) + [Assigned(x)]
    case AugAssign(x, _, e) => [Target(x)] + (ExprUses(e) + [Assigned(x)])
    case If(test, body, orelse) => ExprUses(test) + (Uses(body) + Uses(orelse))
    case While(test, body) => ExprUses(test) + Uses(body)
    case UnsupportedStmt => []
  }

  function Uses(ss: seq<S.Stmt>): seq<Use>
    decreases ss, 0
  {
    if ss == [] then [] else StmtUses(ss[0]) + Uses(ss[1..])
  }

  // ----- the forms alone -----

  predicate Supported(e: S.Expr)
    decreases e, 0
  {
    match e
    case Num(_) => true
    case Name(_) => true
    case Neg(a) => Supported(a)
    case Pos(a) => Supported(a)
    case Not(a) => Supported(a)
    case Abs(a) => Supported(a)
    case Binary(op, l, r) => S.ArithOf(op).Some? && Supported(l) && Supported(r)
    case Compare(op, l, r) => op.Relational? && Supported(l) && Supported(r)
    case MinMax(_, l, r) => Supported(l) && Supported(r)
    case BoolOp(_, values) => values != [] && AllSupported(values)
    case ReadFrame(_) => true
    case Log(_) => true
    case EmitAction(_) => true
    case UnsupportedExpr => false
  }

  predicate AllSupported(values: seq<S.Expr>)
    decreases values, 0
  {
    values == [] || (Supported(values[0]) && AllSupported(values[1..]))
  }

  predicate SupportedStmt(s: S.Stmt)
    decreases s, 0
  {
    match s
    case Pass => true
    case ExprStmt(e) => Supported(e)
    case Assign(_, e) => Supported(e)
    case AugAssign(_, op, e) => Supported(e) && S.ArithOf(op).Some?
    case If(test, body, orelse) => Supported(test) && SupportedBlock(body) && SupportedBlock(orelse)
    case While(test, body) => Supported(test) && SupportedBlock(body)
    case UnsupportedStmt => false
  }

  predicate SupportedBlock(ss: seq<S.Stmt>)
    decreases ss, 0
  {
    ss == [] || (SupportedStmt(ss[0]) && SupportedBlock(ss[1..]))
  }

  // ----- names known when they are read -----

  /** To the compiler the target of an augmented assignment is known as soon as it is met; to a run it is read
      first and has a value only once assigned. */
  datatype View = Compiler | Running

  predicate MakesKnown(u: Use, view: View) {
    u.Assigned? || (u.Target? && view == Compiler)
  }

  predicate NeedsKnown(u: Use, view: View) {
    u.Read? || (u.Target? && view == Running)
  }

  function Known(uses: seq<Use>, view: View): Names {
    set i | 0 <= i < |uses| && MakesKnown(uses[i], view) :: uses[i].x
  }

  predicate UnknownAt(uses: seq<Use>, i: nat, names: Names, view: View)
    requires i < |uses|
  {
    NeedsKnown(uses[i], view) && uses[i].x !in names + Known(uses[..i], view)
  }

  /** Every name is known where it is read, starting with `names`. */
  ghost predicate Grounded(uses: seq<Use>, names: Names, view: View) {
    forall i :: 0 <= i < |uses| ==> !UnknownAt(uses, i, names, view)
  }

  lemma KnownAppend(a: seq<Use>, b: seq<Use>, view: View)
    ensures Known(a + b, view) == Known(a, view) + Known(b, view)
  {
    forall x | x in Known(a, view) + Known(b, view)
      ensures x in Known(a + b, view)
    {
      if x in Known(a, view) {
        var i :| 0 <= i < |a| && MakesKnown(a[i], view) && a[i].x == x;
        assert (a + b)[i] == a[i];
      } else {
        var i :| 0 <= i < |b| && MakesKnown(b[i], view) && b[i].x == x;
        assert (a + b)[|a| + i] == b[i];
      }
    }
  }

  lemma UnknownAppend(a: seq<Use>, b: seq<Use>, names: Names, view: View)
    ensures forall i :: 0 <= i < |a| ==> UnknownAt(a + b, i, names, view) == UnknownAt(a, i, names, view)
    ensures forall i :: 0 <= i < |b| ==>
              UnknownAt(a + b, |a| + i, names, view) == UnknownAt(b, i, names + Known(a, view), view)
  {
    forall i | 0 <= i < |a|
      ensures UnknownAt(a + b, i, names, view) == UnknownAt(a, i, names, view)
    {
      assert (a + b)[..i] == a[..i];
    }
    forall i | 0 <= i < |b|
      ensures UnknownAt(a + b, |a| + i, names, view) == UnknownAt(b, i, names + Known(a, view), view)
    {
      assert (a + b)[..|a| + i] == a + b[..i];
      KnownAppend(a, b[..i], view);
      assert names + (Known(a, view) + Known(b[..i], view)) == names + Known(a, view) + Known(b[..i], view);
    }
  }

  lemma GroundedAppend(a: seq<Use>, b: seq<Use>, names: Names, view: View)
    ensures Grounded(a + b, names, view) <==> Grounded(a, names, view) && Grounded(b, names + Known(a, view), view)
  {
    UnknownAppend(a, b, names, view);
    if Grounded(a + b, names, view) {
      forall i | 0 <= i < |b|
        ensures !UnknownAt(b, i, names + Known(a, view), view)
      {
        assert !UnknownAt(a + b, |a| + i, names, view);
      }
    }
    if Grounded(a, names, view) && Grounded(b, names + Known(a, view), view) {
      forall i | 0 <= i < |a + b|
        ensures !UnknownAt(a + b, i, names, view)
      {
        if i >= |a| {
          assert !UnknownAt(b, i - |a|, names + Known(a, view), view);
        }
      }
    }
  }

  lemma OneUse(u: Use, names: Names, view: View)
    ensures Known([u], view) == if MakesKnown(u, view) then {u.x} else {}
    ensures Grounded([u], names, view) <==> (NeedsKnown(u, view) ==> u.x in names)
  {
    assert [u][0] == u && [u][..0] == [];
    assert UnknownAt([u], 0, names, view) <==> NeedsKnown(u, view) && u.x !in names + {};
  }

  lemma NoNewNames(a: seq<Use>, b: seq<Use>, names: Names, view: View)
    requires Known(a, view) == {}
    ensures Known(a + b, view) == Known(b, view)
    ensures Grounded(a + b, names, view) <==> Grounded(a, names, view) && Grounded(b, names, view)
  {
    KnownAppend(a, b, view);
    GroundedAppend(a, b, names, view);
    assert names + {} == names;
  }

  lemma {:induction false} ExprGrounded(e: S.Expr, names: Names, view: View)
    ensures Known(ExprUses(e), view) == {}
    ensures Readable(e, names) <==> Supported(e) && Grounded(ExprUses(e), names, view)
    decreases e, 0
  {
    match e
    case Num(_) =>
    case Name(x) => OneUse(Read(x), names, view);
    case Neg(a) => ExprGrounded(a, names, view);
    case Pos(a) => ExprGrounded(a, names, view);
    case Not(a) => ExprGrounded(a, names, view);
    case Abs(a) => ExprGrounded(a, names, view);
    case Binary(_, l, r) =>
      ExprGrounded(l, names, view);
      ExprGrounded(r, names, view);
      NoNewNames(ExprUses(l), ExprUses(r), names, view);
    case Compare(_, l, r) =>
      ExprGrounded(l, names, view);
      ExprGrounded(r, names, view);
      NoNewNames(ExprUses(l), ExprUses(r), names, view);
    case MinMax(_, l, r) =>
      ExprGrounded(l, names, view);
      ExprGrounded(r, names, view);
      NoNewNames(ExprUses(l), ExprUses(r), names, view);
    case BoolOp(_, values) => AllExprGrounded(values, names, view);
    case ReadFrame(_) =>
    case Log(_) =>
    case EmitAction(_) =>
    case UnsupportedExpr =>
  }

  lemma {:induction false} AllExprGrounded(values: seq<S.Expr>, names: Names, view: View)
    ensures Known(AllExprUses(values), view) == {}
    ensures AllReadable(values, names) <==> AllSupported(values) && Grounded(AllExprUses(values), names, view)
    decreases values, 0
  {
    if values != [] {
      ExprGrounded(values[0], names, view);
      AllExprGrounded(values[1..], names, view);
      NoNewNames(ExprUses(values[0]), AllExprUses(values[1..]), names, view);
    }
  }

  lemma {:induction false} StmtGrounded(s: S.Stmt, names: Names)
    ensures Accept(s, names).Some? <==> SupportedStmt(s) && Grounded(StmtUses(s), names, Compiler)
    ensures Accept(s, names).Some? ==> Accept(s, names).value == names + Known(StmtUses(s), Compiler)
    decreases s, 0
  {
    match s
    case Pass =>
    case ExprStmt(e) => ExprGrounded(e, names, Compiler);
    case Assign(x, e) =>
      ExprGrounded(e, names, Compiler);
      NoNewNames(ExprUses(e), [Assigned(x)], names, Compiler);
      OneUse(Assigned(x), names, Compiler);
    case AugAssign(x, _, e) =>
      ExprGrounded(e, names + {x}, Compiler);
      OneUse(Target(x), names, Compiler);
      OneUse(Assigned(x), names + {x}, Compiler);
      NoNewNames(ExprUses(e), [Assigned(x)], names + {x}, Compiler);
      KnownAppend([Target(x)], ExprUses(e) + [Assigned(x)], Compiler);
      GroundedAppend([Target(x)], ExprUses(e) + [Assigned(x)], names, Compiler);
    case If(test, body, orelse) =>
      ExprGrounded(test, names, Compiler);
      BlockGrounded(body, names);
      BlockGrounded(orelse, names + Known(Uses(body), Compiler));
      KnownAppend(Uses(body), Uses(orelse), Compiler);
      GroundedAppend(Uses(body), Uses(orelse), names, Compiler);
      NoNewNames(ExprUses(test), Uses(body) + Uses(orelse), names, Compiler);
    case While(test, body) =>
      ExprGrounded(test, names, Compiler);
      BlockGrounded(body, names);
      NoNewNames(ExprUses(test), Uses(body), names, Compiler);
    case UnsupportedStmt =>
  }

  lemma {:induction false} BlockGrounded(ss: seq<S.Stmt>, names: Names)
    ensures AcceptAll(ss, names).Some? <==> SupportedBlock(ss) && Grounded(Uses(ss), names, Compiler)
    ensures AcceptAll(ss, names).Some? ==> AcceptAll(ss, names).value == names + Known(Uses(ss), Compiler)
    decreases ss, 0
  {
    if ss != [] {
      StmtGrounded(ss[0], names);
      BlockGrounded(ss[1..], names + Known(StmtUses(ss[0]), Compiler));
      KnownAppend(StmtUses(ss[0]), Uses(ss[1..]), Compiler);
      GroundedAppend(StmtUses(ss[0]), Uses(ss[1..]), names, Compiler);
    }
  }

  /** The compiler accepts a routine exactly when every form is supported and every plain read of a name comes,
      in the text, after an assignment or an augmented assignment to that name has begun. */
  lemma AcceptedByTheText(routine: seq<S.Stmt>)
    ensures CompileRoutine(routine).Ok? <==> SupportedBlock(routine) && Grounded(Uses(routine), {}, Compiler)
  {
    AcceptedExactlyWhen(routine);
    BlockGrounded(routine, {});
  }

  // ----- reads that nothing earlier in the text assigned -----

  /** An augmented assignment to a name that nothing earlier in the text makes known. */
  predicate UnknownTarget(uses: seq<Use>, i: nat)
    requires i < |uses|
  {
    uses[i].Target? && uses[i].x !in Known(uses[..i], Compiler)
  }

  /** The first place where a known name became known. */
  lemma {:induction false} FirstKnown(uses: seq<Use>, n: nat, x: S.Ident) returns (j: nat)
    requires n <= |uses| && x in Known(uses[..n], Compiler)
    ensures j < n && !uses[j].Read? && uses[j].x == x && x !in Known(uses[..j], Compiler)
  {
    var k :| 0 <= k < n && MakesKnown(uses[..n][k], Compiler) && uses[..n][k].x == x;
    if x in Known(uses[..k], Compiler) {
      j := FirstKnown(uses, k, x);
    } else {
      j := k;
    }
  }

  lemma AssignedIsKnown(uses: seq<Use>, n: nat, j: nat)
    requires j < n <= |uses| && uses[j].Assigned?
    ensures uses[j].x in Known(uses[..n], Running)
  {
    assert MakesKnown(uses[..n][j], Running);
  }

  /** An accepted routine reads, in the order of the text, a name that nothing has assigned exactly when some
      augmented assignment has a target that is not yet known. */
  lemma UnassignedReadExactlyWhen(routine: seq<S.Stmt>)
    requires CompileRoutine(routine).Ok?
    ensures Grounded(Uses(routine), {}, Running)
       <==> forall i :: 0 <= i < |Uses(routine)| ==> !UnknownTarget(Uses(routine), i)
  {
    AcceptedByTheText(routine);
    var uses := Uses(routine);
    if i :| 0 <= i < |uses| && UnknownAt(uses, i, {}, Running) {
      if uses[i].x in Known(uses[..i], Compiler) {
        var j := FirstKnown(uses, i, uses[i].x);
        if uses[j].Assigned? {
          AssignedIsKnown(uses, i, j);
        }
        assert UnknownTarget(uses, j);
      } else {
        assert !UnknownAt(uses, i, {}, Compiler);
        assert UnknownTarget(uses, i);
      }
    }
    if i :| 0 <= i < |uses| && UnknownTarget(uses, i) {
      KnownRunning(uses[..i]);
      assert UnknownAt(uses, i, {}, Running);
    }
  }

  lemma KnownRunning(uses: seq<Use>)
    ensures Known(uses, Running) <= Known(uses, Compiler)
  {
  }

  // ----- paths of control -----

  /** The uses along some way through a statement: either branch of a conditional, any number of turns. */
  ghost predicate StmtPath(s: S.Stmt, uses: seq<Use>)
    decreases s, 0
  {
    match s
    case If(test, body, orelse) => exists rest ::
      uses == ExprUses(test) + rest && (Path(body, rest) || Path(orelse, rest))
    case While(test, body) => exists turns: nat :: LoopPath(test, body, uses, turns)
    case _ => uses == StmtUses(s)
  }

  ghost predicate LoopPath(test: S.Expr, body: seq<S.Stmt>, uses: seq<Use>, turns: nat)
    decreases body, turns + 1
  {
    if turns == 0 then uses == ExprUses(test)
    else exists turn, rest ::
      uses == ExprUses(test) + (turn + rest) && Path(body, turn) && LoopPath(test, body, rest, turns - 1)
  }

  ghost predicate Path(ss: seq<S.Stmt>, uses: seq<Use>)
    decreases ss, 0
  {
    if ss == [] then uses == []
    else exists first, rest :: uses == first + rest && StmtPath(ss[0], first) && Path(ss[1..], rest)
  }

  lemma GroundedMore(uses: seq<Use>, names: Names, more: Names, view: View)
    requires Grounded(uses, names, view) && names <= more
    ensures Grounded(uses, more, view)
  {
    forall i | 0 <= i < |uses|
      ensures !UnknownAt(uses, i, more, view)
    {
      assert !UnknownAt(uses, i, names, view);
    }
  }

  // ----- a settled routine is safe on every path -----

  /** The path reads nothing unset and leaves `after` set. */
  ghost predicate Safe(uses: seq<Use>, names: Names, after: Names) {
    Grounded(uses, names, Running) && after <= names + Known(uses, Running)
  }

  lemma SafeAppend(a: seq<Use>, b: seq<Use>, names: Names, middle: Names, after: Names)
    requires Safe(a, names, middle) && Safe(b, middle, after)
    ensures Safe(a + b, names, after)
  {
    GroundedMore(b, middle, names + Known(a, Running), Running);
    GroundedAppend(a, b, names, Running);
    KnownAppend(a, b, Running);
  }

  lemma ExprSafe(e: S.Expr, names: Names)
    requires Readable(e, names)
    ensures Safe(ExprUses(e), names, names)
  {
    ExprGrounded(e, names, Running);
  }

  lemma {:induction false} SettledStmtIsSafe(s: S.Stmt, names: Names, uses: seq<Use>)
    requires Settle(s, names).Some? && StmtPath(s, uses)
    ensures Safe(uses, names, Settle(s, names).value)
    decreases s, 0
  {
    match s
    case Pass =>
    case ExprStmt(e) => ExprSafe(e, names);
    case Assign(x, e) =>
      ExprSafe(e, names);
      OneUse(Assigned(x), names, Running);
      SafeAppend(ExprUses(e), [Assigned(x)], names, names, names + {x});
    case AugAssign(x, _, e) =>
      ExprSafe(e, names);
      OneUse(Target(x), names, Running);
      OneUse(Assigned(x), names, Running);
      SafeAppend(ExprUses(e), [Assigned(x)], names, names, names);
      SafeAppend([Target(x)], ExprUses(e) + [Assigned(x)], names, names, names);
    case If(test, body, orelse) =>
      var rest :| uses == ExprUses(test) + rest && (Path(body, rest) || Path(orelse, rest));
      ExprSafe(test, names);
      if Path(body, rest) {
        SettledIsSafe(body, names, rest);
        SafeAppend(ExprUses(test), rest, names, names, SettleAll(body, names).value);
      } else {
        SettledIsSafe(orelse, names, rest);
        SafeAppend(ExprUses(test), rest, names, names, SettleAll(orelse, names).value);
      }
    case While(test, body) =>
      var turns: nat :| LoopPath(test, body, uses, turns);
      SettledLoopIsSafe(test, body, names, uses, turns);
  }

  lemma {:induction false} SettledLoopIsSafe(test: S.Expr, body: seq<S.Stmt>, names: Names, uses: seq<Use>, turns: nat)
    requires Readable(test, names) && SettleAll(body, names).Some? && LoopPath(test, body, uses, turns)
    ensures Safe(uses, names, names)
    decreases body, turns + 1
  {
    ExprSafe(test, names);
    if turns > 0 {
      var turn, rest :| uses == ExprUses(test) + (turn + rest) && Path(body, turn)
                        && LoopPath(test, body, rest, turns - 1);
      SettledIsSafe(body, names, turn);
      SettleAllGrows(body, names);
      SettledLoopIsSafe(test, body, names, rest, turns - 1);
      SafeAppend(turn, rest, names, names, names);
      SafeAppend(ExprUses(test), turn + rest, names, names, names);
    }
  }

  lemma {:induction false} SettledIsSafe(ss: seq<S.Stmt>, names: Names, uses: seq<Use>)
    requires SettleAll(ss, names).Some? && Path(ss, uses)
    ensures Safe(uses, names, SettleAll(ss, names).value)
    decreases ss, 0
  {
    if ss != [] {
      var first, rest :| uses == first + rest && StmtPath(ss[0], first) && Path(ss[1..], rest);
      var middle := Settle(ss[0], names).value;
      SettledStmtIsSafe(ss[0], names, first);
      SettledIsSafe(ss[1..], middle, rest);
      SafeAppend(first, rest, names, middle, SettleAll(ss, names).value);
    }
  }

  // ----- and only a settled one -----

  lemma {:induction false} SomePath(ss: seq<S.Stmt>) returns (uses: seq<Use>)
    ensures Path(ss, uses)
    decreases ss, 0
  {
    if ss == [] {
      uses := [];
    } else {
      var first := SomeStmtPath(ss[0]);
      var rest := SomePath(ss[1..]);
      uses := first + rest;
    }
  }

  lemma {:induction false} SomeStmtPath(s: S.Stmt) returns (uses: seq<Use>)
    ensures StmtPath(s, uses)
    decreases s, 0
  {
    match s
    case If(test, body, _) =>
      var rest := SomePath(body);
      uses := ExprUses(test) + rest;
    case While(test, body) =>
      uses := ExprUses(test);
      assert LoopPath(test, body, uses, 0);
    case _ => uses := StmtUses(s);
  }

  /** A name that is not settled has a path on which it stays unset. */
  lemma {:induction false} AvoidingStmtPath(s: S.Stmt, names: Names, x: S.Ident) returns (uses: seq<Use>)
    requires Settle(s, names).Some? && x !in Settle(s, names).value
    ensures StmtPath(s, uses) && x !in Known(uses, Running)
    decreases s, 0
  {
    match s
    case Pass => uses := [];
    case ExprStmt(e) =>
      uses := ExprUses(e);
      ExprGrounded(e, names, Running);
    case Assign(y, e) =>
      uses := StmtUses(s);
      ExprGrounded(e, names, Running);
      OneUse(Assigned(y), names, Running);
      KnownAppend(ExprUses(e), [Assigned(y)], Running);
    case AugAssign(y, _, e) =>
      uses := StmtUses(s);
      ExprGrounded(e, names, Running);
      OneUse(Target(y), names, Running);
      OneUse(Assigned(y), names, Running);
      KnownAppend(ExprUses(e), [Assigned(y)], Running);
      KnownAppend([Target(y)], ExprUses(e) + [Assigned(y)], Running);
    case If(test, body, orelse) =>
      ExprGrounded(test, names, Running);
      var rest;
      if x !in SettleAll(body, names).value {
        rest := AvoidingPath(body, names, x);
      } else {
        rest := AvoidingPath(orelse, names, x);
      }
      uses := ExprUses(test) + rest;
      KnownAppend(ExprUses(test), rest, Running);
    case While(test, body) =>
      uses := ExprUses(test);
      ExprGrounded(test, names, Running);
      assert LoopPath(test, body, uses, 0);
  }

  lemma {:induction false} AvoidingPath(ss: seq<S.Stmt>, names: Names, x: S.Ident) returns (uses: seq<Use>)
    requires SettleAll(ss, names).Some? && x !in SettleAll(ss, names).value
    ensures Path(ss, uses) && x !in Known(uses, Running)
    decreases ss, 0
  {
    if ss == [] {
      uses := [];
    } else {
      var middle := Settle(ss[0], names).value;
      SettleAllGrows(ss[1..], middle);
      var first := AvoidingStmtPath(ss[0], names, x);
      var rest := AvoidingPath(ss[1..], middle, x);
      uses := first + rest;
      KnownAppend(first, rest, Running);
    }
  }

  lemma UnreadableIsUngrounded(e: S.Expr, names: Names, full: Names)
    requires Readable(e, full) && !Readable(e, names)
    ensures Known(ExprUses(e), Running) == {} && !Grounded(ExprUses(e), names, Running)
  {
    ExprGrounded(e, full, Running);
    ExprGrounded(e, names, Running);
  }

  /** When only names are wanting, a statement that is not settled has a path that reads an unset one. */
  lemma {:induction false} UnsettledStmtPath(s: S.Stmt, names: Names, full: Names) returns (uses: seq<Use>)
    requires Settle(s, full).Some? && Settle(s, names).None?
    ensures StmtPath(s, uses) && !Grounded(uses, names, Running)
    decreases s, 0
  {
    match s
    case ExprStmt(e) =>
      uses := ExprUses(e);
      UnreadableIsUngrounded(e, names, full);
    case Assign(x, e) =>
      uses := StmtUses(s);
      UnreadableIsUngrounded(e, names, full);
      GroundedAppend(ExprUses(e), [Assigned(x)], names, Running);
    case AugAssign(x, _, e) =>
      uses := StmtUses(s);
      OneUse(Target(x), names, Running);
      GroundedAppend([Target(x)], ExprUses(e) + [Assigned(x)], names, Running);
      if x in names {
        UnreadableIsUngrounded(e, names, full);
        GroundedAppend(ExprUses(e), [Assigned(x)], names, Running);
        assert names + {} == names;
      }
    case If(test, body, orelse) =>
      var rest;
      if SettleAll(body, names).None? {
        rest := UnsettledPath(body, names, full);
      } else if SettleAll(orelse, names).None? {
        rest := UnsettledPath(orelse, names, full);
      } else {
        rest := SomePath(body);
        UnreadableIsUngrounded(test, names, full);
      }
      uses := ExprUses(test) + rest;
      ExprGrounded(test, names, Running);
      NoNewNames(ExprUses(test), rest, names, Running);
    case While(test, body) =>
      ExprGrounded(test, names, Running);
      if Readable(test, names) {
        var turn := UnsettledPath(body, names, full);
        assert LoopPath(test, body, ExprUses(test), 0);
        uses := ExprUses(test) + (turn + ExprUses(test));
        assert LoopPath(test, body, uses, 1);
        GroundedAppend(turn, ExprUses(test), names, Running);
        NoNewNames(ExprUses(test), turn + ExprUses(test), names, Running);
      } else {
        uses := ExprUses(test);
        UnreadableIsUngrounded(test, names, full);
        assert LoopPath(test, body, uses, 0);
      }
  }

  lemma {:induction false} UnsettledPath(ss: seq<S.Stmt>, names: Names, full: Names) returns (uses: seq<Use>)
    requires SettleAll(ss, full).Some? && SettleAll(ss, names).None?
    ensures Path(ss, uses) && !Grounded(uses, names, Running)
    decreases ss, 0
  {
    var first, rest;
    if Settle(ss[0], names).None? {
      first := UnsettledStmtPath(ss[0], names, full);
      rest := SomePath(ss[1..]);
    } else {
      var middle := Settle(ss[0], names).value;
      rest := UnsettledPath(ss[1..], middle, Settle(ss[0], full).value);
      var i :| 0 <= i < |rest| && UnknownAt(rest, i, middle, Running);
      first := AvoidingStmtPath(ss[0], names, rest[i].x);
      SettleGrows(ss[0], names);
      assert UnknownAt(rest, i, names + Known(first, Running), Running);
    }
    GroundedAppend(first, rest, names, Running);
    uses := first + rest;
  }

  /** The condition under which a routine was shown never to read an unset name is exact for its paths of control:
      when only names are at issue (with enough of them given from the start it would be settled), a routine is
      settled exactly when no path through it reads a name before assigning it. */
  lemma SettledExactlyWhenPathsAssign(routine: seq<S.Stmt>, full: Names)
    requires SettleAll(routine, full).Some?
    ensures SettleAll(routine, {}).Some? <==> forall uses :: Path(routine, uses) ==> Grounded(uses, {}, Running)
  {
    if SettleAll(routine, {}).Some? {
      forall uses | Path(routine, uses)
        ensures Grounded(uses, {}, Running)
      {
        SettledIsSafe(routine, {}, uses);
      }
    } else {
      var uses := UnsettledPath(routine, {}, full);
    }
  }
}
