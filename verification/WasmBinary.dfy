/** Instruction bytes and module bytes, with decoders that follow the binary format
    (section 5 of the WebAssembly Core Specification). */
module WasmBinary {
  import opened Common
  import opened Numbers
  import opened Leb128
  import opened WasmMachine

  const OP_BLOCK: Byte := 0x02
  const OP_LOOP: Byte := 0x03
  const OP_IF: Byte := 0x04
  const OP_ELSE: Byte := 0x05
  const OP_END: Byte := 0x0B
  const OP_BR: Byte := 0x0C
  const OP_BR_IF: Byte := 0x0D
  const OP_CALL: Byte := 0x10
  const OP_DROP: Byte := 0x1A
  const OP_LOCAL_GET: Byte := 0x20
  const OP_LOCAL_SET: Byte := 0x21
  const OP_LOCAL_TEE: Byte := 0x22
  const OP_I32_CONST: Byte := 0x41
  const OP_F64_CONST: Byte := 0x44
  const OP_I32_EQZ: Byte := 0x45
  const OP_CONVERT: Byte := 0xB7
  const TYPE_I32: Byte := 0x7F
  const TYPE_F64: Byte := 0x7C
  const TYPE_VOID: Byte := 0x40

  function CmpCode(op: CmpOp): Byte {
    match op
    case Eq => 0x61
    case Ne => 0x62
    case Lt => 0x63
    case Gt => 0x64
    case Le => 0x65
    case Ge => 0x66
  }

  function SignCode(op: SignOp): Byte {
    match op
    case Magnitude => 0x99
    case Negate => 0x9A
  }

  function ArithCode(op: ArithOp): Byte {
    match op
    case Add => 0xA0
    case Sub => 0xA1
    case Mul => 0xA2
    case Div => 0xA3
    case Min => 0xA4
    case Max => 0xA5
  }

  function TypeCode(t: ValType): Byte {
    if t.I32? then TYPE_I32 else TYPE_F64
  }

  function BlockTypeCode(bt: BlockType): Byte {
    match bt
    case Void => TYPE_VOID
    case Yields(t) => TypeCode(t)
  }

  // ----- little-endian doubles -----

  function LittleEndian(v: nat, n: nat): (s: Bytes)
    ensures |s| == n
  {
    if n == 0 then [] else [v % 256] + LittleEndian(v / 256, n - 1)
  }

  function FromLittleEndian(s: Bytes): nat {
    if s == [] then 0 else s[0] + 256 * FromLittleEndian(s[1..])
  }

  function Pow256(n: nat): nat {
    if n == 0 then 1 else 256 * Pow256(n - 1)
  }

  lemma {:induction false} LittleEndianRoundTrip(v: nat, n: nat)
    requires v < Pow256(n)
    ensures FromLittleEndian(LittleEndian(v, n)) == v
  {
    if n > 0 {
      LittleEndianRoundTrip(v / 256, n - 1);
      assert LittleEndian(v, n)[1..] == LittleEndian(v / 256, n - 1);
    }
  }

  lemma DoubleFits(v: F64)
    ensures v < Pow256(8)
  {
    assert Pow256(8) == 256 * Pow256(7);
    assert Pow256(7) == 256 * Pow256(6);
    assert Pow256(6) == 256 * Pow256(5);
    assert Pow256(5) == 256 * Pow256(4);
    assert Pow256(4) == 256 * Pow256(3);
    assert Pow256(3) == 256 * Pow256(2);
    assert Pow256(2) == 256 * Pow256(1);
  }

  // ----- instructions -----

  function EncodeInstr(ins: Instr): (s: Bytes)
    ensures |s| > 0 && s[0] != OP_END && s[0] != OP_ELSE
    decreases ins, 0
  {
    match ins
    case F64Const(v) => [OP_F64_CONST] + LittleEndian(v, 8)
    case I32Const(i) => [OP_I32_CONST] + Sleb(i)
    case LocalGet(x) => [OP_LOCAL_GET] + Uleb(x)
    case LocalSet(x) => [OP_LOCAL_SET] + Uleb(x)
    case LocalTee(x) => [OP_LOCAL_TEE] + Uleb(x)
    case Drop => [OP_DROP]
    case I32Eqz => [OP_I32_EQZ]
    case ConvertI32S => [OP_CONVERT]
    case Sign(op) => [SignCode(op)]
    case Arith(op) => [ArithCode(op)]
    case Compare(op) => [CmpCode(op)]
    case Call(f) => [OP_CALL] + Uleb(f)
    case Br(d) => [OP_BR] + Uleb(d)
    case BrIf(d) => [OP_BR_IF] + Uleb(d)
    case Block(bt, body) => [OP_BLOCK, BlockTypeCode(bt)] + (EncodeCode(body) + [OP_END])
    case Loop(bt, body) => [OP_LOOP, BlockTypeCode(bt)] + (EncodeCode(body) + [OP_END])
    case If(bt, thn, els) =>
      [OP_IF, BlockTypeCode(bt)]
      + (match els
         case NoElse => EncodeCode(thn) + [OP_END]
         case Else(code) => EncodeCode(thn) + ([OP_ELSE] + (EncodeCode(code) + [OP_END])))
  }

  function EncodeCode(code: seq<Instr>): Bytes
    decreases code, 0
  {
    if code == [] then [] else EncodeInstr(code[0]) + EncodeCode(code[1..])
  }

  lemma {:induction false} EncodeCodeAppend(a: seq<Instr>, b: seq<Instr>)
    ensures EncodeCode(a + b) == EncodeCode(a) + EncodeCode(b)
    decreases |a|
  {
    if a == [] {
      assert a + b == b;
    } else {
      assert (a + b)[1..] == a[1..] + b;
      EncodeCodeAppend(a[1..], b);
    }
  }

  function DecodeValType(b: Byte): Option<ValType> {
    if b == TYPE_I32 then Some(I32) else if b == TYPE_F64 then Some(F64Type) else None
  }

  function DecodeBlockType(b: Byte): Option<BlockType> {
    if b == TYPE_VOID then Some(Void)
    else
      match DecodeValType(b)
      case None => None
      case Some(t) => Some(Yields(t))
  }

  /** Instructions that are a single opcode. */
  function DecodeBare(b: Byte): Option<Instr> {
    if b == OP_DROP then Some(Drop)
    else if b == OP_I32_EQZ then Some(I32Eqz)
    else if b == OP_CONVERT then Some(ConvertI32S)
    else if b == 0x99 then Some(Sign(Magnitude))
    else if b == 0x9A then Some(Sign(Negate))
    else if b == 0xA0 then Some(Arith(Add))
    else if b == 0xA1 then Some(Arith(Sub))
    else if b == 0xA2 then Some(Arith(Mul))
    else if b == 0xA3 then Some(Arith(Div))
    else if b == 0xA4 then Some(Arith(Min))
    else if b == 0xA5 then Some(Arith(Max))
    else if b == 0x61 then Some(Compare(Eq))
    else if b == 0x62 then Some(Compare(Ne))
    else if b == 0x63 then Some(Compare(Lt))
    else if b == 0x64 then Some(Compare(Gt))
    else if b == 0x65 then Some(Compare(Le))
    else if b == 0x66 then Some(Compare(Ge))
    else None
  }

  /** Instructions with one unsigned index. */
  function DecodeIndexed(b: Byte, x: nat): Option<Instr> {
    if b == OP_LOCAL_GET then Some(LocalGet(x))
    else if b == OP_LOCAL_SET then Some(LocalSet(x))
    else if b == OP_LOCAL_TEE then Some(LocalTee(x))
    else if b == OP_CALL then Some(Call(x))
    else if b == OP_BR then Some(Br(x))
    else if b == OP_BR_IF then Some(BrIf(x))
    else None
  }

  type Parsed<T> = Option<(T, Bytes)>

  function DecodeInstr(s: Bytes): (r: Parsed<Instr>)
    ensures r.Some? ==> |r.value.1| < |s|
    decreases |s|, 0
  {
    if s == [] then None
    else if DecodeBare(s[0]).Some? then Some((DecodeBare(s[0]).value, s[1..]))
    else if s[0] == OP_F64_CONST then
      if |s| < 9 then None
      else
        var v := FromLittleEndian(s[1..9]);
        if v < TWO_TO_64 then Some((F64Const(v), s[9..])) else None
    else if s[0] == OP_I32_CONST then
      match DecodeSleb(s[1..])
      case None => None
      case Some((i, rest)) => Some((I32Const(i), rest))
    else if s[0] == OP_BLOCK || s[0] == OP_LOOP || s[0] == OP_IF then
      if |s| < 2 then None
      else
        match DecodeBlockType(s[1])
        case None => None
        case Some(bt) => DecodeNested(s[0], bt, s[2..])
    else
      match DecodeUleb(s[1..])
      case None => None
      case Some((x, rest)) =>
        match DecodeIndexed(s[0], x)
        case None => None
        case Some(ins) => Some((ins, rest))
  }

  /** The rest of a structured instruction, after its block type. */
  function DecodeNested(op: Byte, bt: BlockType, s: Bytes): (r: Parsed<Instr>)
    ensures r.Some? ==> |r.value.1| < |s|
    decreases |s|, 2
  {
    match DecodeCode(s)
    case None => None
    case Some((body, rest)) =>
      if rest == [] then None
      else if rest[0] == OP_END then
        Some((if op == OP_BLOCK then Block(bt, body)
              else if op == OP_LOOP then Loop(bt, body)
              else If(bt, body, NoElse), rest[1..]))
      else if op != OP_IF || rest[0] != OP_ELSE then None
      else
        match DecodeCode(rest[1..])
        case None => None
        case Some((els, rest2)) =>
          if rest2 == [] || rest2[0] != OP_END then None
          else Some((If(bt, body, Else(els)), rest2[1..]))
  }

  /** Instructions up to the `end` or `else` that closes them, which is left in the rest. */
  function DecodeCode(s: Bytes): (r: Parsed<seq<Instr>>)
    ensures r.Some? ==> |r.value.1| <= |s|
    decreases |s|, 1
  {
    if s != [] && (s[0] == OP_END || s[0] == OP_ELSE) then Some(([], s))
    else
      match DecodeInstr(s)
      case None => None
      case Some((ins, rest)) =>
        match DecodeCode(rest)
        case None => None
        case Some((more, rest2)) => Some(([ins] + more, rest2))
  }

  predicate Closes(rest: Bytes) {
    rest != [] && (rest[0] == OP_END || rest[0] == OP_ELSE)
  }

  lemma {:induction false} CodeRoundTrip(code: seq<Instr>, rest: Bytes)
    requires Closes(rest)
    ensures DecodeCode(EncodeCode(code) + rest) == Some((code, rest))
    decreases code, 0
  {
    if code == [] {
      assert EncodeCode(code) + rest == rest;
    } else {
      var tail := EncodeCode(code[1..]) + rest;
      InstrRoundTrip(code[0], tail);
      assert EncodeCode(code) + rest == EncodeInstr(code[0]) + tail;
      CodeRoundTrip(code[1..], rest);
      assert [code[0]] + code[1..] == code;
    }
  }

  lemma {:induction false} InstrRoundTrip(ins: Instr, rest: Bytes)
    ensures DecodeInstr(EncodeInstr(ins) + rest) == Some((ins, rest))
    decreases ins, 1
  {
    match ins
    case F64Const(v) => DoubleRoundTrip(v, rest);
    case I32Const(i) =>
      assert (EncodeInstr(ins) + rest)[1..] == Sleb(i) + rest;
      SlebRoundTrip(i, rest);
    case Block(_, body) => CodeRoundTrip(body, [OP_END] + rest); BlockRoundTrip(ins, body, rest);
    case Loop(_, body) => CodeRoundTrip(body, [OP_END] + rest); BlockRoundTrip(ins, body, rest);
    case If(_, thn, els) =>
      if els.NoElse? {
        CodeRoundTrip(thn, [OP_END] + rest);
        BlockRoundTrip(ins, thn, rest);
      } else {
        CodeRoundTrip(thn, [OP_ELSE] + (EncodeCode(els.code) + ([OP_END] + rest)));
        CodeRoundTrip(els.code, [OP_END] + rest);
        IfElseRoundTrip(ins, rest);
      }
    case _ => PlainRoundTrip(ins, rest);
  }

  lemma DoubleRoundTrip(v: F64, rest: Bytes)
    ensures DecodeInstr(EncodeInstr(F64Const(v)) + rest) == Some((F64Const(v), rest))
  {
    var s := EncodeInstr(F64Const(v)) + rest;
    assert s[1..9] == LittleEndian(v, 8);
    assert s[9..] == rest;
    DoubleFits(v);
    LittleEndianRoundTrip(v, 8);
  }

  lemma DropOne(op: Byte, x: Bytes, rest: Bytes)
    ensures (([op] + x) + rest)[1..] == x + rest
  {
  }

  /** Single opcodes and opcodes with an index. */
  lemma PlainRoundTrip(ins: Instr, rest: Bytes)
    requires !ins.F64Const? && !ins.I32Const? && !ins.Block? && !ins.Loop? && !ins.If?
    ensures DecodeInstr(EncodeInstr(ins) + rest) == Some((ins, rest))
  {
    var s := EncodeInstr(ins) + rest;
    if ins.Drop? || ins.I32Eqz? || ins.ConvertI32S? || ins.Sign? || ins.Arith? || ins.Compare? {
      assert s[1..] == rest;
    } else {
      var op := EncodeInstr(ins)[0];
      var x: nat := match ins
                    case LocalGet(x) => x
                    case LocalSet(x) => x
                    case LocalTee(x) => x
                    case Call(x) => x
                    case Br(x) => x
                    case BrIf(x) => x;
      DropOne(op, Uleb(x), rest);
      UlebRoundTrip(x, rest);
      assert s == ([op] + Uleb(x)) + rest;
    }
  }

  function Nested(ins: Instr): Bytes
    requires ins.Block? || ins.Loop? || ins.If?
  {
    if ins.If? then
      (match ins.els
       case NoElse => EncodeCode(ins.thn) + [OP_END]
       case Else(code) => EncodeCode(ins.thn) + ([OP_ELSE] + (EncodeCode(code) + [OP_END])))
    else EncodeCode(ins.body) + [OP_END]
  }

  lemma NestedHead(ins: Instr, rest: Bytes)
    requires ins.Block? || ins.Loop? || ins.If?
    ensures DecodeInstr(EncodeInstr(ins) + rest) == DecodeNested(EncodeInstr(ins)[0], ins.bt, Nested(ins) + rest)
  {
    var head := [EncodeInstr(ins)[0], BlockTypeCode(ins.bt)];
    assert EncodeInstr(ins) == head + Nested(ins);
    assert EncodeInstr(ins) + rest == head + (Nested(ins) + rest);
    assert (head + (Nested(ins) + rest))[2..] == Nested(ins) + rest;
    assert DecodeBlockType(BlockTypeCode(ins.bt)) == Some(ins.bt);
  }

  lemma NestedEnd(op: Byte, bt: BlockType, s: Bytes, body: seq<Instr>, rest: Bytes)
    requires DecodeCode(s) == Some((body, [OP_END] + rest))
    ensures DecodeNested(op, bt, s)
         == Some((if op == OP_BLOCK then Block(bt, body)
                  else if op == OP_LOOP then Loop(bt, body)
                  else If(bt, body, NoElse), rest))
  {
    assert ([OP_END] + rest)[1..] == rest;
  }

  lemma NestedElse(bt: BlockType, s: Bytes, thn: seq<Instr>, s2: Bytes, els: seq<Instr>, rest: Bytes)
    requires DecodeCode(s) == Some((thn, [OP_ELSE] + s2))
    requires DecodeCode(s2) == Some((els, [OP_END] + rest))
    ensures DecodeNested(OP_IF, bt, s) == Some((If(bt, thn, Else(els)), rest))
  {
    assert ([OP_ELSE] + s2)[1..] == s2;
    assert ([OP_END] + rest)[1..] == rest;
  }

  /** A block, a loop, or a conditional without an else part. */
  lemma BlockRoundTrip(ins: Instr, body: seq<Instr>, rest: Bytes)
    requires (ins.Block? && ins.body == body) || (ins.Loop? && ins.body == body)
             || (ins.If? && ins.thn == body && ins.els == NoElse)
    requires DecodeCode(EncodeCode(body) + ([OP_END] + rest)) == Some((body, [OP_END] + rest))
    ensures DecodeInstr(EncodeInstr(ins) + rest) == Some((ins, rest))
  {
    var op := EncodeInstr(ins)[0];
    NestedHead(ins, rest);
    assert Nested(ins) == EncodeCode(body) + [OP_END];
    Reassociate(EncodeCode(body), [OP_END], rest);
    NestedEnd(op, ins.bt, Nested(ins) + rest, body, rest);
    assert op == if ins.Block? then OP_BLOCK else if ins.Loop? then OP_LOOP else OP_IF;
  }

  lemma Reassociate(a: Bytes, b: Bytes, c: Bytes)
    ensures (a + b) + c == a + (b + c)
  {
  }

  lemma IfElseRoundTrip(ins: Instr, rest: Bytes)
    requires ins.If? && ins.els.Else?
    requires var end := [OP_END] + rest;
             var middle := [OP_ELSE] + (EncodeCode(ins.els.code) + end);
             && DecodeCode(EncodeCode(ins.thn) + middle) == Some((ins.thn, middle))
             && DecodeCode(EncodeCode(ins.els.code) + end) == Some((ins.els.code, end))
    ensures DecodeInstr(EncodeInstr(ins) + rest) == Some((ins, rest))
  {
    NestedHead(ins, rest);
    var thn, els := EncodeCode(ins.thn), EncodeCode(ins.els.code);
    Reassociate(thn, [OP_ELSE] + (els + [OP_END]), rest);
    Reassociate([OP_ELSE], els + [OP_END], rest);
    Reassociate(els, [OP_END], rest);
    NestedElse(ins.bt, Nested(ins) + rest, ins.thn, els + ([OP_END] + rest), ins.els.code, rest);
  }
}
