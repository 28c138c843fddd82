/** The compiler object: it walks the syntax once, appends instruction bytes to a buffer as it goes,
    and updates its tables in place.  Each method is proved against the functions of
    `CompilerSpec`. */
module PierCompiler {
  import opened Common
  import opened Numbers
  import opened Leb128
  import opened WasmMachine
  import opened WasmBinary
  import opened WasmModule
  import opened CompilerSpec
  import S = PierSource

  /** Accumulates instruction bytes for the body of `run`. */
  class Emitter {
    var code: Bytes

    constructor ()
      ensures code == []
    {
      code := [];
    }

    method Op(b: Byte)
      modifies this
      ensures code == old(code) + [b]
    {
      code := code + [b];
    }

    method DoubleConst(v: F64)
      modifies this
      ensures code == old(code) + EncodeInstr(F64Const(v))
    {
      code := code + [OP_F64_CONST];
      code := code + LittleEndian(v, 8);
    }

    method IntConst(v: int)
      modifies this
      ensures code == old(code) + EncodeInstr(I32Const(v))
    {
      code := code + [OP_I32_CONST];
      var s := EncodeSleb(v);
      code := code + s;
    }

    /** local.get, local.set, local.tee, call, br and br_if: an opcode and one index. */
    method Indexed(op: Byte, x: nat)
      modifies this
      ensures code == old(code) + ([op] + Uleb(x))
    {
      code := code + [op];
      var s := EncodeUleb(x);
      code := code + s.value;
    }

    /** block, loop and if: an opcode and a block type. */
    method Typed(op: Byte, bt: BlockType)
      modifies this
      ensures code == old(code) + [op, BlockTypeCode(bt)]
    {
      code := code + [op];
      code := code + [BlockTypeCode(bt)];
    }
  }

  lemma PrefixTwice(a: seq<Instr>, b: seq<Instr>, c: Compiled)
    ensures Prefix(a, Prefix(b, c)) == Prefix(a + b, c)
  {
    if c.Ok? {
      assert a + (b + c.value.0) == (a + b) + c.value.0;
    }
  }

  lemma PrefixNothing(c: Compiled)
    ensures Prefix([], c) == c
  {
    if c.Ok? {
      assert [] + c.value.0 == c.value.0;
    }
  }

  lemma StmtsUnfold(ss: seq<S.Stmt>, i: nat, t: Tables)
    requires i < |ss|
    ensures CompileStmts(ss[i..], t)
         == match CompileStmt(ss[i], t)
            case Err(f) => Err(f)
            case Ok((code, t1)) => Prefix(code, CompileStmts(ss[i + 1..], t1))
  {
    assert ss[i..][0] == ss[i] && ss[i..][1..] == ss[i + 1..];
  }

  lemma FoldUnfolds(isAnd: bool, rest: seq<S.Expr>, i: nat, t: Tables)
    requires i < |rest|
    ensures var (t1, sb) := ScratchIndex(t);
            CompileFold(isAnd, rest[i..], t)
            == match CompileExpr(rest[i], t1)
               case Err(f) => Err(f)
               case Ok((right, t2)) => Prefix(Choose(isAnd, sb, right), CompileFold(isAnd, rest[i + 1..], t2))
  {
    assert rest[i..][0] == rest[i] && rest[i..][1..] == rest[i + 1..];
  }

  lemma EncodeOne(ins: Instr)
    ensures EncodeCode([ins]) == EncodeInstr(ins)
  {
    assert [ins][1..] == [];
    assert EncodeCode([ins][1..]) == [];
    assert EncodeInstr(ins) + [] == EncodeInstr(ins);
  }

  /** Bytes for `code` followed by bytes for one more instruction. */
  lemma EncodeSnoc(code: seq<Instr>, ins: Instr)
    ensures EncodeCode(code + [ins]) == EncodeCode(code) + EncodeInstr(ins)
  {
    EncodeCodeAppend(code, [ins]);
    EncodeOne(ins);
  }

  /** The bytes of one operator of a chain, in the order they are emitted. */
  lemma ChooseBytes(isAnd: bool, sb: nat, right: seq<Instr>)
    ensures var thn := if isAnd then right else [LocalGet(sb)];
            var els := if isAnd then [LocalGet(sb)] else right;
            EncodeCode(Choose(isAnd, sb, right))
            == (([OP_LOCAL_TEE] + Uleb(sb)) + EncodeCode(TO_BOOL))
               + ([OP_IF, TYPE_F64] + (EncodeCode(thn) + ([OP_ELSE] + (EncodeCode(els) + [OP_END]))))
  {
    var thn := if isAnd then right else [LocalGet(sb)];
    var els := if isAnd then [LocalGet(sb)] else right;
    var choice := WasmMachine.If(Yields(F64Type), thn, Else(els));
    EncodeOne(LocalTee(sb));
    EncodeCodeAppend([LocalTee(sb)], TO_BOOL);
    EncodeSnoc([LocalTee(sb)] + TO_BOOL, choice);
  }

  lemma StringCallBytes(off: nat, len: nat, f: nat)
    ensures EncodeCode([I32Const(off), I32Const(len), Call(f)])
         == (EncodeInstr(I32Const(off)) + EncodeInstr(I32Const(len))) + EncodeInstr(Call(f))
  {
    EncodeOne(I32Const(off));
    EncodeSnoc([I32Const(off)], I32Const(len));
    EncodeSnoc([I32Const(off)] + [I32Const(len)], Call(f));
    assert [I32Const(off)] + [I32Const(len)] + [Call(f)] == [I32Const(off), I32Const(len), Call(f)];
  }

  lemma NotBytes(code: seq<Instr>)
    ensures EncodeCode(code + (TO_BOOL + [I32Eqz, ConvertI32S]))
         == ((EncodeCode(code) + EncodeCode(TO_BOOL)) + [OP_I32_EQZ]) + [OP_CONVERT]
  {
    EncodeCodeAppend(code, TO_BOOL);
    EncodeSnoc(code + TO_BOOL, I32Eqz);
    EncodeSnoc(code + TO_BOOL + [I32Eqz], ConvertI32S);
    assert code + TO_BOOL + [I32Eqz] + [ConvertI32S] == code + (TO_BOOL + [I32Eqz, ConvertI32S]);
  }

  lemma AugAssignBytes(i: nat, code: seq<Instr>, f: ArithOp)
    ensures EncodeCode([LocalGet(i)] + code + [Arith(f), LocalSet(i)])
         == ((EncodeInstr(LocalGet(i)) + EncodeCode(code)) + EncodeInstr(Arith(f))) + EncodeInstr(LocalSet(i))
  {
    EncodeOne(LocalGet(i));
    EncodeCodeAppend([LocalGet(i)], code);
    EncodeSnoc([LocalGet(i)] + code, Arith(f));
    EncodeSnoc([LocalGet(i)] + code + [Arith(f)], LocalSet(i));
    assert [LocalGet(i)] + code + [Arith(f)] + [LocalSet(i)] == [LocalGet(i)] + code + [Arith(f), LocalSet(i)];
  }

  lemma IfBytes(code: seq<Instr>, thn: seq<Instr>, els: ElsePart)
    ensures EncodeCode(code + TO_BOOL + [WasmMachine.If(Void, thn, els)])
         == (EncodeCode(code) + EncodeCode(TO_BOOL))
            + ([OP_IF, TYPE_VOID]
               + (match els
                  case NoElse => EncodeCode(thn) + [OP_END]
                  case Else(c) => EncodeCode(thn) + ([OP_ELSE] + (EncodeCode(c) + [OP_END]))))
  {
    EncodeCodeAppend(code, TO_BOOL);
    EncodeSnoc(code + TO_BOOL, WasmMachine.If(Void, thn, els));
  }

  lemma LoopBodyBytes(code: seq<Instr>, inner: seq<Instr>)
    ensures EncodeCode(LoopBody(code, inner))
         == EncodeCode(code) + (EncodeCode(TO_BOOL)
            + (([OP_I32_EQZ] + ([OP_BR_IF] + Uleb(1))) + (EncodeCode(inner) + ([OP_BR] + Uleb(0)))))
  {
    var guard := [I32Eqz, BrIf(1)];
    EncodeCodeAppend(code, TO_BOOL + (guard + (inner + [Br(0)])));
    EncodeCodeAppend(TO_BOOL, guard + (inner + [Br(0)]));
    EncodeCodeAppend(guard, inner + [Br(0)]);
    EncodeSnoc(inner, Br(0));
    GuardBytes();
  }

  lemma GuardBytes()
    ensures EncodeCode([I32Eqz, BrIf(1)]) == [OP_I32_EQZ] + ([OP_BR_IF] + Uleb(1))
  {
    EncodeOne(I32Eqz);
    assert [I32Eqz] + [BrIf(1)] == [I32Eqz, BrIf(1)];
    EncodeSnoc([I32Eqz], BrIf(1));
  }

  lemma WhileBytes(body: seq<Instr>)
    ensures EncodeCode([Block(Void, [Loop(Void, body)])])
         == [OP_BLOCK, TYPE_VOID] + (([OP_LOOP, TYPE_VOID] + (EncodeCode(body) + [OP_END])) + [OP_END])
  {
    EncodeOne(Loop(Void, body));
    EncodeOne(Block(Void, [Loop(Void, body)]));
  }

  lemma FlattenTwo(a: Bytes, b: Bytes, c: Bytes)
    ensures a + b + c == a + (b + c)
  {
  }

  lemma FlattenThree(a: Bytes, b: Bytes, c: Bytes, d: Bytes)
    ensures a + b + c + d == a + ((b + c) + d)
  {
  }

  lemma FlattenFour(a: Bytes, b: Bytes, c: Bytes, d: Bytes, f: Bytes)
    ensures a + b + c + d + f == a + (((b + c) + d) + f)
  {
  }

  lemma Flatten(a: Bytes, b: Bytes, c: Bytes, d: Bytes, f: Bytes, g: Bytes, h: Bytes, i: Bytes)
    ensures a + b + c + d + f + g + h + i == a + ((b + c) + (d + (f + (g + (h + i)))))
  {
  }

  lemma FlattenIf(a: Bytes, b: Bytes, c: Bytes, d: Bytes, f: Bytes, g: Bytes, h: Bytes, i: Bytes)
    ensures a + b + c + d + f + i == a + ((b + c) + (d + (f + i)))
    ensures a + b + c + d + f + g + h + i == a + ((b + c) + (d + (f + (g + (h + i)))))
  {
  }

  lemma FlattenWhile(a: Bytes, b: Bytes, c: Bytes, d: Bytes, f: Bytes, g: Bytes, h: Bytes, i: Bytes, j: Bytes,
                     end: Bytes)
    ensures a + b + c + d + f + g + h + i + j + end + end
         == a + (b + ((c + ((d + (f + ((g + h) + (i + j)))) + end)) + end))
  {
  }

  class Compiler {
    const e: Emitter
    var locals: map<string, nat>
    var scratch: Option<nat>
    var pool: Bytes
    var interned: map<Bytes, (nat, nat)>

    constructor ()
      ensures fresh(e) && e.code == [] && Now() == EMPTY_TABLES
    {
      e := new Emitter();
      locals, scratch, pool, interned := map[], None, [], map[];
    }

    function Now(): Tables
      reads this
    {
      Tables(locals, scratch, pool, interned)
    }

    /** What a compiling method promises: the exception of the specification, or its tables and the
        bytes of its code appended to the buffer. */
    ghost predicate Did(c: Compiled, raised: Option<Failure>, before: Bytes)
      reads this, e
    {
      match c
      case Err(f) => raised == Some(f)
      case Ok((code, t)) => raised == None && Now() == t && e.code == before + EncodeCode(code)
    }

    method InternBytes(b: Bytes) returns (off: nat, len: nat)
      modifies this`pool, this`interned
      ensures (Now(), off, len) == Intern(old(Now()), b)
    {
      if b in interned {
        return interned[b].0, interned[b].1;
      }
      off := |pool|;
      pool := pool + b;
      interned := interned[b := (off, |b|)];
      len := |b|;
    }

    method LocalSlot(name: string) returns (i: nat)
      modifies this`locals
      ensures (Now(), i) == LocalIndex(old(Now()), name)
    {
      if name !in locals {
        locals := locals[name := |locals|];
      }
      i := locals[name];
    }

    method ScratchSlot() returns (i: nat)
      modifies this`locals, this`scratch
      ensures (Now(), i) == ScratchIndex(old(Now()))
    {
      if scratch.None? {
        scratch := Some(|locals|);
        locals := locals[SCRATCH := scratch.value];
      }
      i := scratch.value;
    }

    method StringCall(f: nat, b: Bytes)
      modifies this, e
      ensures Did(CompileStringCall(f, b, old(Now())), None, old(e.code))
    {
      ghost var before := e.code;
      var off, len := InternBytes(b);
      e.IntConst(off);
      e.IntConst(len);
      e.Indexed(OP_CALL, f);
      StringCallBytes(off, len, f);
      FlattenThree(before, EncodeInstr(I32Const(off)), EncodeInstr(I32Const(len)), EncodeInstr(Call(f)));
    }

    /** Turns the double on the stack into an integer truth value. */
    method ToBool()
      modifies e
      ensures e.code == old(e.code) + EncodeCode(TO_BOOL)
    {
      e.DoubleConst(F64_ZERO);
      e.Op(CmpCode(Ne));
      EncodeOne(F64Const(F64_ZERO));
      EncodeSnoc([F64Const(F64_ZERO)], Compare(Ne));
      assert [F64Const(F64_ZERO)] + [Compare(Ne)] == TO_BOOL;
    }

    method CompileE(node: S.Expr) returns (raised: Option<Failure>)
      modifies this, e
      ensures Did(CompileExpr(node, old(Now())), raised, old(e.code))
      decreases node, 3
    {
      match node
      case Num(_) => raised := CompileLeaf(node);
      case Name(_) => raised := CompileLeaf(node);
      case ReadFrame(_) => raised := CompileLeaf(node);
      case Log(_) => raised := CompileLeaf(node);
      case EmitAction(_) => raised := CompileLeaf(node);
      case Neg(a) => raised := CompileSign(Negate, a);
      case Abs(a) => raised := CompileSign(Magnitude, a);
      case Pos(a) => raised := CompileE(a);
      case Not(a) => raised := CompileNot(a);
      case Binary(op, l, r) =>
        if S.ArithOf(op).None? {
          return Some(NotInSubset);
        }
        raised := CompileArith(node, S.ArithOf(op).value, l, r);
      case MinMax(isMin, l, r) => raised := CompileArith(node, if isMin then Min else Max, l, r);
      case Compare(op, l, r) => raised := CompileComparison(node, op, l, r);
      case BoolOp(isAnd, values) => raised := CompileBoolOp(isAnd, values);
      case UnsupportedExpr => raised := Some(NotInSubset);
    }

    /** Constants, names and calls with a string literal. */
    method CompileLeaf(node: S.Expr) returns (raised: Option<Failure>)
      requires node.Num? || node.Name? || node.ReadFrame? || node.Log? || node.EmitAction?
      modifies this, e
      ensures Did(CompileExpr(node, old(Now())), raised, old(e.code))
    {
      raised := None;
      match node
      case Num(v) => CompileNumber(v);
      case Name(x) => raised := CompileName(x);
      case ReadFrame(key) => StringCall(IMPORT_FRAME_STAT, key);
      case EmitAction(record) => StringCall(IMPORT_EMIT, record);
      case Log(message) => CompileLog(message);
    }

    method CompileNumber(v: F64)
      modifies e
      ensures Did(CompileExpr(S.Num(v), old(Now())), None, old(e.code))
    {
      e.DoubleConst(v);
      EncodeOne(F64Const(v));
    }

    method CompileName(x: S.Ident) returns (raised: Option<Failure>)
      modifies e
      ensures Did(CompileExpr(S.Name(x), old(Now())), raised, old(e.code))
    {
      raised := None;
      if x !in locals {
        return Some(UsedBeforeAssignment(x));
      }
      e.Indexed(OP_LOCAL_GET, locals[x]);
      EncodeOne(LocalGet(locals[x]));
    }

    method CompileLog(message: Bytes)
      modifies this, e
      ensures Did(CompileExpr(S.Log(message), old(Now())), None, old(e.code))
    {
      ghost var code := CompileStringCall(IMPORT_LOG, message, Now()).value.0;
      StringCall(IMPORT_LOG, message);
      e.DoubleConst(F64_ZERO);
      EncodeSnoc(code, F64Const(F64_ZERO));
    }

    method CompileSign(op: SignOp, a: S.Expr) returns (raised: Option<Failure>)
      modifies this, e
      ensures Did(Then(CompileExpr(a, old(Now())), [Sign(op)]), raised, old(e.code))
      decreases a, 4
    {
      ghost var c := CompileExpr(a, Now());
      raised := CompileE(a);
      if raised == None {
        e.Op(SignCode(op));
        EncodeSnoc(c.value.0, Sign(op));
      }
    }

    method CompileNot(a: S.Expr) returns (raised: Option<Failure>)
      modifies this, e
      ensures Did(CompileExpr(S.Not(a), old(Now())), raised, old(e.code))
      decreases a, 4
    {
      ghost var c := CompileExpr(a, Now());
      ghost var before := e.code;
      raised := CompileE(a);
      if raised == None {
        ToBool();
        e.Op(OP_I32_EQZ);
        e.Op(OP_CONVERT);
        NotBytes(c.value.0);
        FlattenFour(before, EncodeCode(c.value.0), EncodeCode(TO_BOOL), [OP_I32_EQZ], [OP_CONVERT]);
      }
    }

    method CompileArith(ghost node: S.Expr, op: ArithOp, l: S.Expr, r: S.Expr) returns (raised: Option<Failure>)
      requires l < node && r < node
      modifies this, e
      ensures Did(Then(CompilePair(CompileExpr(l, old(Now())), r), [Arith(op)]), raised, old(e.code))
      decreases node, 1
    {
      ghost var c := CompilePair(CompileExpr(l, Now()), r);
      raised := CompileOperands(node, l, r);
      if raised == None {
        e.Op(ArithCode(op));
        EncodeSnoc(c.value.0, Arith(op));
      }
    }

    method CompileOperands(ghost node: S.Expr, l: S.Expr, r: S.Expr) returns (raised: Option<Failure>)
      requires l < node && r < node
      modifies this, e
      ensures Did(CompilePair(CompileExpr(l, old(Now())), r), raised, old(e.code))
      decreases node, 0
    {
      ghost var t := Now();
      ghost var before := e.code;
      raised := CompileE(l);
      if raised == None {
        ghost var t1 := Now();
        raised := CompileE(r);
        if raised == None {
          ghost var a, b := CompileExpr(l, t).value.0, CompileExpr(r, t1).value.0;
          EncodeCodeAppend(a, b);
          FlattenTwo(before, EncodeCode(a), EncodeCode(b));
        }
      }
    }

    method CompileComparison(ghost node: S.Expr, op: S.CompareOp, l: S.Expr, r: S.Expr)
      returns (raised: Option<Failure>)
      requires l < node && r < node
      modifies this, e
      ensures Did(CompileExpr(S.Compare(op, l, r), old(Now())), raised, old(e.code))
      decreases node, 1
    {
      ghost var t := Now();
      raised := CompileOperands(node, l, r);
      if raised == None {
        if op.OtherCompare? {
          return Some(NotInSubset);
        }
        ghost var code := CompilePair(CompileExpr(l, t), r).value.0;
        e.Op(CmpCode(op.op));
        e.Op(OP_CONVERT);
        EncodeSnoc(code, Compare(op.op));
        EncodeSnoc(code + [Compare(op.op)], ConvertI32S);
        assert code + [Compare(op.op)] + [ConvertI32S] == code + [Compare(op.op), ConvertI32S];
      }
    }

    /** Left fold over the operands with one scratch slot. */
    method CompileBoolOp(isAnd: bool, values: seq<S.Expr>) returns (raised: Option<Failure>)
      modifies this, e
      ensures Did(CompileExpr(S.BoolOp(isAnd, values), old(Now())), raised, old(e.code))
      decreases values, 1
    {
      if values == [] {
        return Some(NoOperands);
      }
      ghost var first := CompileExpr(values[0], Now());
      ghost var before := e.code;
      raised := CompileE(values[0]);
      if raised != None {
        return;
      }
      raised := CompileLinks(isAnd, values[1..]);
      if raised == None {
        ghost var links := CompileFold(isAnd, values[1..], first.value.1).value.0;
        EncodeCodeAppend(first.value.0, links);
        FlattenTwo(before, EncodeCode(first.value.0), EncodeCode(links));
      }
    }

    method CompileLinks(isAnd: bool, rest: seq<S.Expr>) returns (raised: Option<Failure>)
      modifies this, e
      ensures Did(CompileFold(isAnd, rest, old(Now())), raised, old(e.code))
      decreases rest, 0
    {
      ghost var whole := CompileFold(isAnd, rest, Now());
      ghost var before := e.code;
      ghost var done: seq<Instr> := [];
      raised := None;
      PrefixNothing(whole);
      assert rest[0..] == rest;
      var i := 0;
      while i < |rest|
        invariant 0 <= i <= |rest|
        invariant whole == Prefix(done, CompileFold(isAnd, rest[i..], Now()))
        invariant e.code == before + EncodeCode(done)
        invariant raised == None
      {
        ghost var t0 := Now();
        FoldUnfolds(isAnd, rest, i, t0);
        raised := CompileLink(isAnd, rest[i]);
        if raised != None {
          return;
        }
        ghost var (t1, sb) := ScratchIndex(t0);
        ghost var link := Choose(isAnd, sb, CompileExpr(rest[i], t1).value.0);
        PrefixTwice(done, link, CompileFold(isAnd, rest[i + 1..], Now()));
        EncodeCodeAppend(done, link);
        FlattenTwo(before, EncodeCode(done), EncodeCode(link));
        done := done + link;
        i := i + 1;
      }
      assert rest[i..] == [];
      assert done + [] == done;
    }

    /** One operator of the chain; the left value is on the stack. */
    method CompileLink(isAnd: bool, v: S.Expr) returns (raised: Option<Failure>)
      modifies this, e
      ensures var (t1, sb) := ScratchIndex(old(Now()));
              match CompileExpr(v, t1)
              case Err(f) => raised == Some(f)
              case Ok((right, t2)) =>
                raised == None && Now() == t2 && e.code == old(e.code) + EncodeCode(Choose(isAnd, sb, right))
      decreases v, 4
    {
      ghost var before := e.code;
      var sb := ScratchSlot();
      ghost var t1 := Now();
      e.Indexed(OP_LOCAL_TEE, sb);
      ToBool();
      e.Typed(OP_IF, Yields(F64Type));
      if isAnd {
        raised := CompileE(v);
        if raised != None {
          return;
        }
      } else {
        e.Indexed(OP_LOCAL_GET, sb);
      }
      e.Op(OP_ELSE);
      if isAnd {
        e.Indexed(OP_LOCAL_GET, sb);
      } else {
        raised := CompileE(v);
        if raised != None {
          return;
        }
      }
      e.Op(OP_END);
      ghost var right := CompileExpr(v, t1).value.0;
      ChooseBytes(isAnd, sb, right);
      EncodeOne(LocalGet(sb));
      Flatten(before, [OP_LOCAL_TEE] + Uleb(sb), EncodeCode(TO_BOOL), [OP_IF, TYPE_F64],
              EncodeCode(if isAnd then right else [LocalGet(sb)]), [OP_ELSE],
              EncodeCode(if isAnd then [LocalGet(sb)] else right), [OP_END]);
    }

    method CompileS(node: S.Stmt) returns (raised: Option<Failure>)
      modifies this, e
      ensures Did(CompileStmt(node, old(Now())), raised, old(e.code))
      decreases node, 1
    {
      match node
      case Pass => raised := None;
      case ExprStmt(x) => raised := CompileExprStmt(x);
      case Assign(x, v) => raised := CompileAssign(x, v);
      case AugAssign(x, op, v) => raised := CompileAugAssign(x, op, v);
      case If(_, _, _) => raised := CompileIf(node);
      case While(_, _) => raised := CompileWhile(node);
      case UnsupportedStmt => raised := Some(NotInSubset);
    }

    method CompileExprStmt(x: S.Expr) returns (raised: Option<Failure>)
      modifies this, e
      ensures Did(CompileStmt(S.ExprStmt(x), old(Now())), raised, old(e.code))
    {
      ghost var c := CompileExpr(x, Now());
      raised := CompileE(x);
      if raised == None {
        e.Op(OP_DROP);
        EncodeSnoc(c.value.0, Drop);
      }
    }

    method CompileAssign(x: S.Ident, v: S.Expr) returns (raised: Option<Failure>)
      modifies this, e
      ensures Did(CompileStmt(S.Assign(x, v), old(Now())), raised, old(e.code))
    {
      ghost var c := CompileExpr(v, Now());
      ghost var before := e.code;
      raised := CompileE(v);
      if raised == None {
        var i := LocalSlot(x);
        e.Indexed(OP_LOCAL_SET, i);
        EncodeSnoc(c.value.0, LocalSet(i));
        FlattenTwo(before, EncodeCode(c.value.0), [OP_LOCAL_SET] + Uleb(i));
      }
    }

    method CompileAugAssign(x: S.Ident, op: S.BinaryOp, v: S.Expr) returns (raised: Option<Failure>)
      modifies this, e
      ensures Did(CompileStmt(S.AugAssign(x, op, v), old(Now())), raised, old(e.code))
    {
      ghost var before := e.code;
      var i := LocalSlot(x);
      ghost var t1 := Now();
      e.Indexed(OP_LOCAL_GET, i);
      raised := CompileE(v);
      if raised != None {
        return;
      }
      if S.ArithOf(op).None? {
        return Some(OperatorKeyError);
      }
      ghost var code := CompileExpr(v, t1).value.0;
      var f := S.ArithOf(op).value;
      ApplyAndStore(f, i);
      AugAssignBytes(i, code, f);
      FlattenFour(before, EncodeInstr(LocalGet(i)), EncodeCode(code), EncodeInstr(Arith(f)), EncodeInstr(LocalSet(i)));
    }

    method ApplyAndStore(f: ArithOp, i: nat)
      modifies e
      ensures e.code == old(e.code) + EncodeInstr(Arith(f)) + EncodeInstr(LocalSet(i))
    {
      e.Op(ArithCode(f));
      e.Indexed(OP_LOCAL_SET, i);
    }

    method CompileIf(node: S.Stmt) returns (raised: Option<Failure>)
      requires node.If?
      modifies this, e
      ensures Did(CompileStmt(node, old(Now())), raised, old(e.code))
      decreases node, 0
    {
      ghost var before := e.code;
      ghost var t := Now();
      raised := CompileE(node.test);
      if raised != None {
        return;
      }
      ghost var code := CompileExpr(node.test, t).value.0;
      ghost var t1 := Now();
      ToBool();
      e.Typed(OP_IF, Void);
      raised := CompileBlock(node.body);
      if raised != None {
        return;
      }
      ghost var thn := CompileStmts(node.body, t1).value.0;
      ghost var t2 := Now();
      if node.orelse != [] {
        e.Op(OP_ELSE);
        raised := CompileBlock(node.orelse);
        if raised != None {
          return;
        }
      }
      ghost var els := CompileStmts(node.orelse, t2).value.0;
      e.Op(OP_END);
      IfBytes(code, thn, ElseOf(node.orelse, els));
      FlattenIf(before, EncodeCode(code), EncodeCode(TO_BOOL), [OP_IF, TYPE_VOID], EncodeCode(thn),
                [OP_ELSE], EncodeCode(els), [OP_END]);
    }

    method CompileWhile(node: S.Stmt) returns (raised: Option<Failure>)
      requires node.While?
      modifies this, e
      ensures Did(CompileStmt(node, old(Now())), raised, old(e.code))
      decreases node, 0
    {
      ghost var before := e.code;
      ghost var t := Now();
      e.Typed(OP_BLOCK, Void);
      e.Typed(OP_LOOP, Void);
      raised := CompileE(node.test);
      if raised != None {
        return;
      }
      ghost var code := CompileExpr(node.test, t).value.0;
      ghost var t1 := Now();
      ToBool();
      e.Op(OP_I32_EQZ);
      e.Indexed(OP_BR_IF, 1);
      raised := CompileBlock(node.body);
      if raised != None {
        return;
      }
      ghost var inner := CompileStmts(node.body, t1).value.0;
      e.Indexed(OP_BR, 0);
      e.Op(OP_END);
      e.Op(OP_END);
      WhileBytes(LoopBody(code, inner));
      LoopBodyBytes(code, inner);
      FlattenWhile(before, [OP_BLOCK, TYPE_VOID], [OP_LOOP, TYPE_VOID], EncodeCode(code), EncodeCode(TO_BOOL),
                   [OP_I32_EQZ], [OP_BR_IF] + Uleb(1), EncodeCode(inner), [OP_BR] + Uleb(0), [OP_END]);
    }

    method CompileBlock(ss: seq<S.Stmt>) returns (raised: Option<Failure>)
      modifies this, e
      ensures Did(CompileStmts(ss, old(Now())), raised, old(e.code))
      decreases ss, 0
    {
      ghost var whole := CompileStmts(ss, Now());
      ghost var before := e.code;
      ghost var done: seq<Instr> := [];
      raised := None;
      PrefixNothing(whole);
      assert ss[0..] == ss;
      var i := 0;
      while i < |ss|
        invariant 0 <= i <= |ss|
        invariant whole == Prefix(done, CompileStmts(ss[i..], Now()))
        invariant e.code == before + EncodeCode(done)
        invariant raised == None
      {
        ghost var t0 := Now();
        StmtsUnfold(ss, i, t0);
        raised := CompileS(ss[i]);
        if raised != None {
          return;
        }
        ghost var code := CompileStmt(ss[i], t0).value.0;
        PrefixTwice(done, code, CompileStmts(ss[i + 1..], Now()));
        EncodeCodeAppend(done, code);
        FlattenTwo(before, EncodeCode(done), EncodeCode(code));
        done := done + code;
        i := i + 1;
      }
      assert ss[i..] == [];
      assert done + [] == done;
    }

    /** The module bytes; the scratch slot, if used, is one of the counted locals. */
    method Finish() returns (r: Bytes)
      ensures r == BuildModule(e.code, |locals|, pool)
    {
      r := BuildModule(e.code, |locals|, pool);
    }
  }

  /** `build` after parsing and checking: compile `run`, then assemble. */
  method Build(routine: seq<S.Stmt>) returns (r: Result<Bytes, Failure>)
    ensures match CompileRoutine(routine)
            case Err(f) => r == Err(f)
            case Ok((code, t)) => r == Ok(BuildModule(EncodeCode(code), |t.locals|, t.pool))
  {
    var c := new Compiler();
    var raised := c.CompileBlock(routine);
    if raised.Some? {
      return Err(raised.value);
    }
    var s := c.Finish();
    assert c.e.code == EncodeCode(CompileRoutine(routine).value.0);
    return Ok(s);
  }
}
