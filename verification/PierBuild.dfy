/** From source to module bytes and back: what running the built module does, for every routine the
    compiler accepts, every host and every number of loop turns. */
module PierBuild {
  import opened Common
  import opened Numbers
  import opened WasmMachine
  import opened WasmBinary
  import opened WasmModule
  import opened CompilerSpec
  import opened PierTranslation
  import opened CompilerValidity
  import opened CompilerAcceptance
  import opened WasmSoundness
  import S = PierSource

  /** The bytes `build` returns for a routine it accepts. */
  function Built(routine: seq<S.Stmt>): Bytes
    requires CompileRoutine(routine).Ok?
  {
    var (code, t) := CompileRoutine(routine).value;
    BuildModule(EncodeCode(code), |t.locals|, t.pool)
  }

  /** The slot of a name in the built module. */
  function SlotOf(routine: seq<S.Stmt>, x: S.Ident): Option<nat>
    requires CompileRoutine(routine).Ok?
  {
    var t := CompileRoutine(routine).value.1;
    if x in t.locals then Some(t.locals[x]) else None
  }

  /** A finished run agrees on host calls and on every name; an unfinished one on the calls so far. */
  ghost predicate SameRun(routine: seq<S.Stmt>, r: S.Run, o: Outcome)
    requires CompileRoutine(routine).Ok?
  {
    match r
    case Done(env, tr) =>
      && o.Next? && o.st.stack == [] && o.st.tr == tr
      && forall x :: x in env ==>
           var slot := SlotOf(routine, x);
           slot.Some? && slot.value < |o.st.locals| && o.st.locals[slot.value] == env[x]
    case OutOfTurns(tr) => o == OutOfTurns(tr)
    case Undefined => true
  }

  /** A larger memory with the pool at its start serves as well as the pool itself. */
  lemma WithMemory(t: Tables, mem: Bytes)
    requires TablesValid(t) && t.pool <= mem
    ensures TablesValid(t.(pool := mem)) && Extends(t, t.(pool := mem))
  {
    forall b | b in t.interned
      ensures InPool(mem, t.interned[b].0, t.interned[b].1, b)
    {
      InPoolGrows(t.pool, mem, t.interned[b].0, t.interned[b].1, b);
    }
  }

  lemma RoutineCorrect(w: World, routine: seq<S.Stmt>, mem: Bytes, turns: nat)
    requires CompileRoutine(routine).Ok? && CompileRoutine(routine).value.1.pool <= mem
    ensures var (code, t) := CompileRoutine(routine).value;
            SameRun(routine, S.RunSource(w, routine, turns),
                    Steps(w, mem, code, State([], ZeroedLocals(|t.locals|), []), turns))
  {
    StmtsGrow(routine, EMPTY_TABLES);
    var t := CompileRoutine(routine).value.1;
    WithMemory(t, mem);
    StmtsCorrect(w, t.(pool := mem), routine, EMPTY_TABLES, State([], ZeroedLocals(|t.locals|), []), map[], turns);
  }

  /** The whole chain.  The built bytes always decode; the module is rejected by validation exactly
      when an emit action is used as an operand; it fails to instantiate exactly when its string
      pool is larger than the one memory page it asks for; otherwise it runs, never gets stuck, and
      does what the source does. */
  lemma BuiltModuleRunsLikeSource(w: World, routine: seq<S.Stmt>, turns: nat)
    requires CompileRoutine(routine).Ok?
    ensures var run := RunModule(w, Built(routine), turns);
            var pool := CompileRoutine(routine).value.1.pool;
            && (run.Invalid? <==> !AllEmitsAreStatements(routine))
            && (run.CannotInstantiate? <==> AllEmitsAreStatements(routine) && |pool| > PAGE)
            && (run.Ran? <==> AllEmitsAreStatements(routine) && |pool| <= PAGE)
            && (run.Ran? ==> !run.o.Stuck? && SameRun(routine, S.RunSource(w, routine, turns), run.o))
  {
    var (code, t) := CompileRoutine(routine).value;
    ModuleRoundTrip(code, |t.locals|, t.pool);
    BodyValidExactlyWhen(routine);
    assert MODULE_EXPORTS[1] == Export(RUN, KIND_FUNC, FIRST_DEFINED_FUNC);
    if AllEmitsAreStatements(routine) && |t.pool| <= PAGE {
      var mem := MemoryImage(t.pool, PAGE);
      RoutineCorrect(w, routine, mem, turns);
      ValidBodyNeverStuck(w, mem, code, |t.locals|, ZeroedLocals(|t.locals|), turns);
    }
  }

  /** No provisos: a routine that assigns every name on every path before reading it, and keeps emit
      actions as statements, is accepted, and (given a pool of at most one page) its module runs as the
      source does, turn for turn. */
  lemma SettledRoutineRunsAlike(w: World, routine: seq<S.Stmt>, turns: nat)
    requires SettleAll(routine, {}).Some? && AllEmitsAreStatements(routine)
    ensures CompileRoutine(routine).Ok?
    ensures |CompileRoutine(routine).value.1.pool| <= PAGE ==>
              var run := RunModule(w, Built(routine), turns);
              run.Ran? && !S.RunSource(w, routine, turns).Undefined?
                && SameRun(routine, S.RunSource(w, routine, turns), run.o)
  {
    SettledRoutineCompiles(routine);
    SettledRoutineIsDefined(w, routine, turns);
    BuiltModuleRunsLikeSource(w, routine, turns);
  }

  ghost predicate Terminates(w: World, routine: seq<S.Stmt>, env: S.Env, tr: seq<Event>) {
    exists turns: nat :: S.RunSource(w, routine, turns) == S.Done(env, tr)
  }

  /** Termination carries over with its result: a routine that ends, ends as a module too, with the
      same host calls in the same order and the same value in every name. */
  lemma TerminationCarriesOver(w: World, routine: seq<S.Stmt>, env: S.Env, tr: seq<Event>)
    requires CompileRoutine(routine).Ok? && AllEmitsAreStatements(routine)
    requires |CompileRoutine(routine).value.1.pool| <= PAGE
    requires Terminates(w, routine, env, tr)
    ensures exists turns: nat ::
              var run := RunModule(w, Built(routine), turns);
              run.Ran? && SameRun(routine, S.Done(env, tr), run.o)
  {
    var turns: nat :| S.RunSource(w, routine, turns) == S.Done(env, tr);
    BuiltModuleRunsLikeSource(w, routine, turns);
    assert RunModule(w, Built(routine), turns).Ran?;
  }

  lemma {:induction false} TurnsMonotone(w: World, routine: seq<S.Stmt>, a: nat, b: nat)
    requires a <= b && !S.RunSource(w, routine, a).OutOfTurns?
    ensures S.RunSource(w, routine, b) == S.RunSource(w, routine, a)
    decreases b - a
  {
    if a < b {
      S.StmtsTurnsMonotone(w, routine, map[], [], a);
      TurnsMonotone(w, routine, a + 1, b);
    }
  }

  /** A routine has at most one result, however many turns it is given. */
  lemma TerminationIsUnique(w: World, routine: seq<S.Stmt>, env1: S.Env, tr1: seq<Event>, env2: S.Env, tr2: seq<Event>)
    requires Terminates(w, routine, env1, tr1) && Terminates(w, routine, env2, tr2)
    ensures env1 == env2 && tr1 == tr2
  {
    var a: nat :| S.RunSource(w, routine, a) == S.Done(env1, tr1);
    var b: nat :| S.RunSource(w, routine, b) == S.Done(env2, tr2);
    TurnsMonotone(w, routine, a, if a <= b then b else a);
    TurnsMonotone(w, routine, b, if a <= b then b else a);
  }
}
