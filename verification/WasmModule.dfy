/** Module bytes: the assembler, a section-by-section decoder, and what running the bytes means. */
module WasmModule {
  import opened Common
  import opened Numbers
  import opened Leb128
  import opened WasmMachine
  import opened WasmBinary

  datatype FuncType = FuncType(params: seq<ValType>, results: seq<ValType>)

  datatype Import = Import(from: Bytes, field: Bytes, typeIndex: nat)

  datatype Export = Export(name: Bytes, kind: Byte, index: nat)

  datatype Module = Module(
    types: seq<FuncType>,
    imports: seq<Import>,
    functions: seq<nat>,
    memories: seq<nat>,
    exports: seq<Export>,
    nLocals: nat,
    body: seq<Instr>,
    data: Bytes
  )

  // ASCII names
  const SAUCEPAN: Bytes := [0x73, 0x61, 0x75, 0x63, 0x65, 0x70, 0x61, 0x6E]
  const FRAME_STAT: Bytes := [0x66, 0x72, 0x61, 0x6D, 0x65, 0x5F, 0x73, 0x74, 0x61, 0x74]
  const EMIT: Bytes := [0x65, 0x6D, 0x69, 0x74]
  const LOG: Bytes := [0x6C, 0x6F, 0x67]
  const MEMORY: Bytes := [0x6D, 0x65, 0x6D, 0x6F, 0x72, 0x79]
  const RUN: Bytes := [0x72, 0x75, 0x6E]
  const MAGIC: Bytes := [0x00, 0x61, 0x73, 0x6D, 0x01, 0x00, 0x00, 0x00]

  const KIND_FUNC: Byte := 0
  const KIND_MEMORY: Byte := 2
  const FIRST_DEFINED_FUNC := 3

  const HOST_TYPES: seq<FuncType> :=
    [FuncType([I32, I32], [F64Type]), FuncType([I32, I32], [I32]), FuncType([I32, I32], []), FuncType([], [])]

  const HOST_IMPORTS: seq<Import> :=
    [Import(SAUCEPAN, FRAME_STAT, 0), Import(SAUCEPAN, EMIT, 1), Import(SAUCEPAN, LOG, 2)]

  const MODULE_EXPORTS: seq<Export> :=
    [Export(MEMORY, KIND_MEMORY, 0), Export(RUN, KIND_FUNC, FIRST_DEFINED_FUNC)]

  // ----- assembling -----

  function Concat(items: seq<Bytes>): Bytes {
    if items == [] then [] else items[0] + Concat(items[1..])
  }

  function Vec(items: seq<Bytes>): Bytes {
    Uleb(|items|) + Concat(items)
  }

  function Blob(raw: Bytes): Bytes {
    Uleb(|raw|) + raw
  }

  function Section(id: Byte, body: Bytes): Bytes {
    [id] + Blob(body)
  }

  function EncodeValType(t: ValType): Bytes {
    [TypeCode(t)]
  }

  function EncodeFuncType(ft: FuncType): Bytes {
    [0x60] + Vec(Map(EncodeValType, ft.params)) + Vec(Map(EncodeValType, ft.results))
  }

  function EncodeImport(i: Import): Bytes {
    Blob(i.from) + Blob(i.field) + [0x00] + Uleb(i.typeIndex)
  }

  function EncodeExport(x: Export): Bytes {
    Blob(x.name) + [x.kind] + Uleb(x.index)
  }

  function EncodeMemory(minPages: nat): Bytes {
    [0x00] + Uleb(minPages)
  }

  function EncodeLocals(n: nat): Bytes {
    if n == 0 then Vec([]) else Vec([Uleb(n) + [TYPE_F64]])
  }

  function EncodeData(blob: Bytes): Bytes {
    [0x00] + ([OP_I32_CONST] + Sleb(0) + [OP_END]) + Blob(blob)
  }

  function Map<T, U>(f: T -> U, xs: seq<T>): (r: seq<U>)
    ensures |r| == |xs| && forall i :: 0 <= i < |xs| ==> r[i] == f(xs[i])
  {
    if xs == [] then [] else [f(xs[0])] + Map(f, xs[1..])
  }

  /** The final module around an encoded instruction stream. */
  function BuildModule(runBody: Bytes, nLocals: nat, blob: Bytes): Bytes {
    MAGIC
    + (Section(1, Vec(Map(EncodeFuncType, HOST_TYPES)))
    + (Section(2, Vec(Map(EncodeImport, HOST_IMPORTS)))
    + (Section(3, Vec(Map(Uleb, [3])))
    + (Section(5, Vec(Map(EncodeMemory, [1])))
    + (Section(7, Vec(Map(EncodeExport, MODULE_EXPORTS)))
    + CodeAndData(runBody, nLocals, blob))))))
  }

  /** The two sections that depend on the routine; the data section only when there is data. */
  function CodeAndData(runBody: Bytes, nLocals: nat, blob: Bytes): Bytes {
    Section(10, Vec([Blob(EncodeLocals(nLocals) + runBody + [OP_END])]))
    + (if blob == [] then [] else Section(11, Vec([EncodeData(blob)])))
  }

  // ----- decoding -----

  function Byte0(b: Byte, s: Bytes): Option<Bytes> {
    if s != [] && s[0] == b then Some(s[1..]) else None
  }

  function DecodeBlob(s: Bytes): Parsed<Bytes> {
    var (n, rest) :- DecodeUleb(s);
    if n <= |rest| then Some((rest[..n], rest[n..])) else None
  }

  function DecodeItems<T>(dec: Bytes -> Parsed<T>, n: nat, s: Bytes): Parsed<seq<T>> {
    if n == 0 then Some(([], s))
    else
      var (x, rest) :- dec(s);
      var (xs, rest2) :- DecodeItems(dec, n - 1, rest);
      Some(([x] + xs, rest2))
  }

  function DecodeVec<T>(dec: Bytes -> Parsed<T>, s: Bytes): Parsed<seq<T>> {
    var (n, rest) :- DecodeUleb(s);
    DecodeItems(dec, n, rest)
  }

  /** A decoder that must use up its input. */
  function All<T>(p: Parsed<T>): Option<T> {
    var (x, rest) :- p;
    if rest == [] then Some(x) else None
  }

  function DecodeSection<T>(id: Byte, dec: Bytes -> Parsed<T>, s: Bytes): Parsed<seq<T>> {
    var s1 :- Byte0(id, s);
    var (body, rest) :- DecodeBlob(s1);
    var xs :- All(DecodeVec(dec, body));
    Some((xs, rest))
  }

  function ParseValType(s: Bytes): Parsed<ValType> {
    if s == [] then None
    else
      var t :- DecodeValType(s[0]);
      Some((t, s[1..]))
  }

  function ParseFuncType(s: Bytes): Parsed<FuncType> {
    var s1 :- Byte0(0x60, s);
    var (params, s2) :- DecodeVec(ParseValType, s1);
    var (results, s3) :- DecodeVec(ParseValType, s2);
    Some((FuncType(params, results), s3))
  }

  function ParseImport(s: Bytes): Parsed<Import> {
    var (from, s1) :- DecodeBlob(s);
    var (field, s2) :- DecodeBlob(s1);
    var s3 :- Byte0(0x00, s2);
    var (t, s4) :- DecodeUleb(s3);
    Some((Import(from, field, t), s4))
  }

  function ParseExport(s: Bytes): Parsed<Export> {
    var (name, s1) :- DecodeBlob(s);
    if s1 == [] then None
    else
      var (i, s2) :- DecodeUleb(s1[1..]);
      Some((Export(name, s1[0], i), s2))
  }

  function ParseMemory(s: Bytes): Parsed<nat> {
    var s1 :- Byte0(0x00, s);
    DecodeUleb(s1)
  }

  /** A group of locals of type f64, by count. */
  function ParseLocals(s: Bytes): Parsed<nat> {
    var (n, s1) :- DecodeUleb(s);
    var s2 :- Byte0(TYPE_F64, s1);
    Some((n, s2))
  }

  function Sum(ns: seq<nat>): nat {
    if ns == [] then 0 else ns[0] + Sum(ns[1..])
  }

  /** One function: its size, its locals, its instructions, and the closing `end`. */
  function ParseFunction(s: Bytes): Parsed<(nat, seq<Instr>)> {
    var (f, rest) :- DecodeBlob(s);
    var (groups, s1) :- DecodeVec(ParseLocals, f);
    var (body, s2) :- DecodeCode(s1);
    if s2 == [OP_END] then Some(((Sum(groups), body), rest)) else None
  }

  /** An active data segment for memory 0, placed at offset 0. */
  function ParseData(s: Bytes): Parsed<Bytes> {
    var s1 :- Byte0(0x00, s);
    var s2 :- Byte0(OP_I32_CONST, s1);
    var (offset, s3) :- DecodeSleb(s2);
    var s4 :- Byte0(OP_END, s3);
    if offset == 0 then DecodeBlob(s4) else None
  }

  function DecodeModule(s: Bytes): Option<Module> {
    var s0 :- DropMagic(s);
    DecodeSections(s0)
  }

  function DropMagic(s: Bytes): Option<Bytes> {
    if MAGIC <= s then Some(s[8..]) else None
  }

  function DecodeSections(s: Bytes): Option<Module> {
    var (types, s1) :- DecodeSection(1, ParseFuncType, s);
    var (imports, s2) :- DecodeSection(2, ParseImport, s1);
    var (functions, s3) :- DecodeSection(3, DecodeUleb, s2);
    var (memories, s4) :- DecodeSection(5, ParseMemory, s3);
    var (exports, s5) :- DecodeSection(7, ParseExport, s4);
    var (nLocals, code, data) :- DecodeCodeAndData(s5);
    Some(Module(types, imports, functions, memories, exports, nLocals, code, data))
  }

  function DecodeCodeAndData(s: Bytes): Option<(nat, seq<Instr>, Bytes)> {
    var (codes, s1) :- DecodeSection(10, ParseFunction, s);
    if |codes| != 1 then None
    else if s1 == [] then Some((codes[0].0, codes[0].1, []))
    else
      var (segments, s2) :- DecodeSection(11, ParseData, s1);
      if |segments| == 1 && s2 == [] then Some((codes[0].0, codes[0].1, segments[0])) else None
  }

  // ----- round trips -----

  lemma BlobRoundTrip(raw: Bytes, rest: Bytes)
    ensures DecodeBlob(Blob(raw) + rest) == Some((raw, rest))
  {
    assert Blob(raw) + rest == Uleb(|raw|) + (raw + rest);
    UlebRoundTrip(|raw|, raw + rest);
    assert (raw + rest)[..|raw|] == raw;
    assert (raw + rest)[|raw|..] == rest;
  }

  lemma Byte0RoundTrip(b: Byte, rest: Bytes)
    ensures Byte0(b, [b] + rest) == Some(rest)
  {
    assert ([b] + rest)[1..] == rest;
  }

  /** `dec` undoes the encoding `e` of `x`, whatever follows. */
  ghost predicate Undoes<T(!new)>(dec: Bytes -> Parsed<T>, x: T, e: Bytes) {
    forall rest :: dec(e + rest) == Some((x, rest))
  }

  lemma {:induction false} ItemsRoundTrip<T(!new)>(dec: Bytes -> Parsed<T>, xs: seq<T>, es: seq<Bytes>, rest: Bytes)
    requires |xs| == |es| && forall i :: 0 <= i < |xs| ==> Undoes(dec, xs[i], es[i])
    ensures DecodeItems(dec, |xs|, Concat(es) + rest) == Some((xs, rest))
    decreases |xs|
  {
    if xs == [] {
      assert Concat(es) + rest == rest;
    } else {
      assert Undoes(dec, xs[0], es[0]);
      var tail := Concat(es[1..]) + rest;
      assert Concat(es) + rest == es[0] + tail;
      assert dec(es[0] + tail) == Some((xs[0], tail));
      ItemsRoundTrip(dec, xs[1..], es[1..], rest);
      assert [xs[0]] + xs[1..] == xs;
    }
  }

  lemma VecRoundTrip<T(!new)>(dec: Bytes -> Parsed<T>, xs: seq<T>, es: seq<Bytes>, rest: Bytes)
    requires |xs| == |es| && forall i :: 0 <= i < |xs| ==> Undoes(dec, xs[i], es[i])
    ensures DecodeVec(dec, Vec(es) + rest) == Some((xs, rest))
  {
    assert Vec(es) + rest == Uleb(|es|) + (Concat(es) + rest);
    UlebRoundTrip(|es|, Concat(es) + rest);
    ItemsRoundTrip(dec, xs, es, rest);
  }

  lemma SectionRoundTrip<T(!new)>(id: Byte, dec: Bytes -> Parsed<T>, xs: seq<T>, es: seq<Bytes>, rest: Bytes)
    requires |xs| == |es| && forall i :: 0 <= i < |xs| ==> Undoes(dec, xs[i], es[i])
    ensures DecodeSection(id, dec, Section(id, Vec(es)) + rest) == Some((xs, rest))
  {
    var body := Vec(es);
    assert Section(id, body) + rest == [id] + (Blob(body) + rest);
    Byte0RoundTrip(id, Blob(body) + rest);
    BlobRoundTrip(body, rest);
    VecRoundTrip(dec, xs, es, []);
    assert body + [] == body;
  }

  lemma ValTypeUndoes(t: ValType)
    ensures Undoes(ParseValType, t, EncodeValType(t))
  {
    forall rest
      ensures ParseValType(EncodeValType(t) + rest) == Some((t, rest))
    {
      assert (EncodeValType(t) + rest)[1..] == rest;
    }
  }

  lemma ValTypesUndo(ts: seq<ValType>, rest: Bytes)
    ensures DecodeVec(ParseValType, Vec(Map(EncodeValType, ts)) + rest) == Some((ts, rest))
  {
    forall i | 0 <= i < |ts|
      ensures Undoes(ParseValType, ts[i], Map(EncodeValType, ts)[i])
    {
      ValTypeUndoes(ts[i]);
    }
    VecRoundTrip(ParseValType, ts, Map(EncodeValType, ts), rest);
  }

  lemma FuncTypeUndoes(ft: FuncType)
    ensures Undoes(ParseFuncType, ft, EncodeFuncType(ft))
  {
    var ps := Vec(Map(EncodeValType, ft.params));
    var rs := Vec(Map(EncodeValType, ft.results));
    forall rest
      ensures ParseFuncType(EncodeFuncType(ft) + rest) == Some((ft, rest))
    {
      assert EncodeFuncType(ft) + rest == [0x60] + (ps + (rs + rest));
      Byte0RoundTrip(0x60, ps + (rs + rest));
      ValTypesUndo(ft.params, rs + rest);
      ValTypesUndo(ft.results, rest);
    }
  }

  lemma ImportUndoes(i: Import)
    ensures Undoes(ParseImport, i, EncodeImport(i))
  {
    var t := Uleb(i.typeIndex);
    forall rest
      ensures ParseImport(EncodeImport(i) + rest) == Some((i, rest))
    {
      assert EncodeImport(i) + rest == Blob(i.from) + (Blob(i.field) + ([0x00] + (t + rest)));
      BlobRoundTrip(i.from, Blob(i.field) + ([0x00] + (t + rest)));
      BlobRoundTrip(i.field, [0x00] + (t + rest));
      Byte0RoundTrip(0x00, t + rest);
      UlebRoundTrip(i.typeIndex, rest);
    }
  }

  lemma ExportUndoes(x: Export)
    ensures Undoes(ParseExport, x, EncodeExport(x))
  {
    var t := Uleb(x.index);
    forall rest
      ensures ParseExport(EncodeExport(x) + rest) == Some((x, rest))
    {
      assert EncodeExport(x) + rest == Blob(x.name) + ([x.kind] + (t + rest));
      BlobRoundTrip(x.name, [x.kind] + (t + rest));
      assert ([x.kind] + (t + rest))[1..] == t + rest;
      UlebRoundTrip(x.index, rest);
    }
  }

  lemma UlebUndoes(n: nat)
    ensures Undoes(DecodeUleb, n, Uleb(n))
  {
    forall rest
      ensures DecodeUleb(Uleb(n) + rest) == Some((n, rest))
    {
      UlebRoundTrip(n, rest);
    }
  }

  lemma MemoryUndoes(n: nat)
    ensures Undoes(ParseMemory, n, EncodeMemory(n))
  {
    forall rest
      ensures ParseMemory(EncodeMemory(n) + rest) == Some((n, rest))
    {
      assert EncodeMemory(n) + rest == [0x00] + (Uleb(n) + rest);
      Byte0RoundTrip(0x00, Uleb(n) + rest);
      UlebRoundTrip(n, rest);
    }
  }

  lemma LocalsRoundTrip(n: nat, rest: Bytes)
    ensures DecodeVec(ParseLocals, EncodeLocals(n) + rest) == Some((if n == 0 then [] else [n], rest))
  {
    if n == 0 {
      VecRoundTrip(ParseLocals, [], [], rest);
    } else {
      var e := Uleb(n) + [TYPE_F64];
      forall r
        ensures ParseLocals(e + r) == Some((n, r))
      {
        assert e + r == Uleb(n) + ([TYPE_F64] + r);
        UlebRoundTrip(n, [TYPE_F64] + r);
        Byte0RoundTrip(TYPE_F64, r);
      }
      assert Undoes(ParseLocals, n, e);
      VecRoundTrip(ParseLocals, [n], [e], rest);
    }
  }

  lemma FunctionUndoes(n: nat, code: seq<Instr>)
    ensures Undoes(ParseFunction, (n, code), Blob(EncodeLocals(n) + EncodeCode(code) + [OP_END]))
  {
    var f := EncodeLocals(n) + EncodeCode(code) + [OP_END];
    var groups: seq<nat> := if n == 0 then [] else [n];
    assert f == EncodeLocals(n) + (EncodeCode(code) + [OP_END]);
    LocalsRoundTrip(n, EncodeCode(code) + [OP_END]);
    CodeRoundTrip(code, [OP_END]);
    assert Sum(groups) == n by {
      if n != 0 {
        assert Sum([n]) == n + Sum([n][1..]);
      }
    }
    forall rest
      ensures ParseFunction(Blob(f) + rest) == Some(((n, code), rest))
    {
      BlobRoundTrip(f, rest);
    }
  }

  lemma DataUndoes(blob: Bytes)
    ensures Undoes(ParseData, blob, EncodeData(blob))
  {
    forall rest
      ensures ParseData(EncodeData(blob) + rest) == Some((blob, rest))
    {
      var s4 := Blob(blob) + rest;
      assert EncodeData(blob) + rest == [0x00] + ([OP_I32_CONST] + (Sleb(0) + ([OP_END] + s4)));
      Byte0RoundTrip(0x00, [OP_I32_CONST] + (Sleb(0) + ([OP_END] + s4)));
      Byte0RoundTrip(OP_I32_CONST, Sleb(0) + ([OP_END] + s4));
      SlebRoundTrip(0, [OP_END] + s4);
      Byte0RoundTrip(OP_END, s4);
      BlobRoundTrip(blob, rest);
    }
  }

  lemma HostTypesUndo(rest: Bytes)
    ensures DecodeSection(1, ParseFuncType, Section(1, Vec(Map(EncodeFuncType, HOST_TYPES))) + rest)
         == Some((HOST_TYPES, rest))
  {
    forall i | 0 <= i < |HOST_TYPES|
      ensures Undoes(ParseFuncType, HOST_TYPES[i], Map(EncodeFuncType, HOST_TYPES)[i])
    {
      FuncTypeUndoes(HOST_TYPES[i]);
    }
    SectionRoundTrip(1, ParseFuncType, HOST_TYPES, Map(EncodeFuncType, HOST_TYPES), rest);
  }

  lemma HostImportsUndo(rest: Bytes)
    ensures DecodeSection(2, ParseImport, Section(2, Vec(Map(EncodeImport, HOST_IMPORTS))) + rest)
         == Some((HOST_IMPORTS, rest))
  {
    forall i | 0 <= i < |HOST_IMPORTS|
      ensures Undoes(ParseImport, HOST_IMPORTS[i], Map(EncodeImport, HOST_IMPORTS)[i])
    {
      ImportUndoes(HOST_IMPORTS[i]);
    }
    SectionRoundTrip(2, ParseImport, HOST_IMPORTS, Map(EncodeImport, HOST_IMPORTS), rest);
  }

  lemma ExportsUndo(rest: Bytes)
    ensures DecodeSection(7, ParseExport, Section(7, Vec(Map(EncodeExport, MODULE_EXPORTS))) + rest)
         == Some((MODULE_EXPORTS, rest))
  {
    forall i | 0 <= i < |MODULE_EXPORTS|
      ensures Undoes(ParseExport, MODULE_EXPORTS[i], Map(EncodeExport, MODULE_EXPORTS)[i])
    {
      ExportUndoes(MODULE_EXPORTS[i]);
    }
    SectionRoundTrip(7, ParseExport, MODULE_EXPORTS, Map(EncodeExport, MODULE_EXPORTS), rest);
  }

  lemma FunctionAndMemoryUndo(rest3: Bytes, rest5: Bytes)
    ensures DecodeSection(3, DecodeUleb, Section(3, Vec(Map(Uleb, [3]))) + rest3) == Some(([3], rest3))
    ensures DecodeSection(5, ParseMemory, Section(5, Vec(Map(EncodeMemory, [1]))) + rest5) == Some(([1], rest5))
  {
    UlebUndoes(3);
    MemoryUndoes(1);
    SectionRoundTrip(3, DecodeUleb, [3], Map(Uleb, [3]), rest3);
    SectionRoundTrip(5, ParseMemory, [1], Map(EncodeMemory, [1]), rest5);
  }

  lemma CodeAndDataUndo(code: seq<Instr>, nLocals: nat, blob: Bytes)
    ensures DecodeCodeAndData(CodeAndData(EncodeCode(code), nLocals, blob)) == Some((nLocals, code, blob))
  {
    var f := Blob(EncodeLocals(nLocals) + EncodeCode(code) + [OP_END]);
    var data := if blob == [] then [] else Section(11, Vec([EncodeData(blob)]));
    FunctionUndoes(nLocals, code);
    SectionRoundTrip(10, ParseFunction, [(nLocals, code)], [f], data);
    if blob != [] {
      DataUndoes(blob);
      SectionRoundTrip(11, ParseData, [blob], [EncodeData(blob)], []);
      assert data + [] == data;
    }
  }

  lemma MagicUndoes(rest: Bytes)
    ensures DropMagic(MAGIC + rest) == Some(rest)
  {
    assert (MAGIC + rest)[8..] == rest;
  }

  /** Decoding the assembled bytes gives back the body, the local count and the string pool, inside
      exactly the three host imports and the two exports. */
  lemma ModuleRoundTrip(code: seq<Instr>, nLocals: nat, blob: Bytes)
    ensures DecodeModule(BuildModule(EncodeCode(code), nLocals, blob))
         == Some(Module(HOST_TYPES, HOST_IMPORTS, [3], [1], MODULE_EXPORTS, nLocals, code, blob))
  {
    var s5 := CodeAndData(EncodeCode(code), nLocals, blob);
    var s4 := Section(7, Vec(Map(EncodeExport, MODULE_EXPORTS))) + s5;
    var s3 := Section(5, Vec(Map(EncodeMemory, [1]))) + s4;
    var s2 := Section(3, Vec(Map(Uleb, [3]))) + s3;
    var s1 := Section(2, Vec(Map(EncodeImport, HOST_IMPORTS))) + s2;
    var s0 := Section(1, Vec(Map(EncodeFuncType, HOST_TYPES))) + s1;
    MagicUndoes(s0);
    HostTypesUndo(s1);
    HostImportsUndo(s2);
    FunctionAndMemoryUndo(s3, s4);
    ExportsUndo(s5);
    CodeAndDataUndo(code, nLocals, blob);
  }

  // ----- running module bytes -----

  const PAGE := 65536

  datatype ModuleRun = Malformed | Invalid | CannotInstantiate | Ran(o: Outcome)

  /** The validator's view of a whole module, for hosts that offer exactly the three imports. */
  predicate ModuleValid(m: Module) {
    && m.types == HOST_TYPES
    && m.imports == HOST_IMPORTS
    && m.functions == [3]
    && |m.memories| == 1
    && Export(RUN, KIND_FUNC, FIRST_DEFINED_FUNC) in m.exports
    && BodyValid(m.body, m.nLocals)
  }

  /** Guest memory after instantiation: the data segment at offset 0, zero bytes after it. */
  function MemoryImage(data: Bytes, size: nat): Bytes
    requires |data| <= size
  {
    data + seq(size - |data|, _ => 0)
  }

  function ZeroedLocals(n: nat): seq<F64> {
    seq(n, _ => F64_ZERO)
  }

  function RunModule(w: World, s: Bytes, turns: nat): ModuleRun {
    match DecodeModule(s)
    case None => Malformed
    case Some(m) =>
      if !ModuleValid(m) then Invalid
      else if |m.data| > PAGE * m.memories[0] then CannotInstantiate
      else
        var mem := MemoryImage(m.data, PAGE * m.memories[0]);
        Ran(Steps(w, mem, m.body, State([], ZeroedLocals(m.nLocals), []), turns))
  }
}
