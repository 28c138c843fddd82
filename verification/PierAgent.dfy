/** The pier agent's commands, any number of them, as interleaved steps over two mutexes, a flag and devices. */
module PierAgent {
  import opened Common

  datatype Device = Mount | Wheel | Camera

  const DEVICES: set<Device> := {Mount, Wheel, Camera}

  /** The command a thread serves. */
  datatype Job = AssignTask | PreemptTask | AbortTask

  datatype Task = Task(id: int, priority: int, hasTarget: bool, needsFilter: bool)

  /** Where a thread is.  The stop flag is read by `HwCheck` and the device is started by `HwStart`,
      two steps with the hardware mutex held across both.  `second` marks the filter movement asked
      for by a next-capture override. */
  datatype Pc =
    | AbortRequest | AbortLock | AbortSlew | AbortExposure | AbortFilter | AbortUnlock
    | PrepareLock | PrepareClear | PrepareUnlock
    | CaptureLock | FirstCheck | TargetCheck | Mark | SafetyGate | SecondCheck
    | HwLock(d: Device, second: bool)
    | HwCheck(d: Device, second: bool)
    | HwStart(d: Device, second: bool)
    | HwUnlock(d: Device, second: bool, ok: bool)
    | PollFlag(d: Device, second: bool)
    | PollDevice(d: Device, second: bool)
    | SlewedCheck | RequiredFilter | Override | Download
    | ClearMark | CaptureUnlock
    | Finished

  /** `idled` collects the devices this thread's abort calls reported idle, `failed` whether one of
      those calls returned an error. */
  datatype Thread = Thread(job: Job, task: Task, pc: Pc, idled: set<Device>, failed: bool)

  /** `quiet` is history only: the devices an abort left idle with the stop flag set, since the flag
      was last cleared.  No step reads it. */
  datatype State = State(
    hasWheel: bool,
    stop: bool,
    hw: Option<nat>,
    cap: Option<nat>,
    active: set<Device>,
    current: Option<(int, int)>,
    threads: map<nat, Thread>,
    quiet: set<Device>
  )

  function Init(hasWheel: bool): State {
    State(hasWheel, false, None, None, {}, None, map[], {})
  }

  /** What the outside decides in a step: whether a call succeeds, a free yes or no, and whether a
      device comes to rest although the call that asked for it failed. */
  datatype Answer = Answer(ok: bool, flag: bool, rests: bool)

  datatype Action =
    | Spawn(t: nat, job: Job, task: Task)
    | Move(t: nat, answer: Answer)
    | Settle(d: Device)

  /** The outcome of a step: the shared state, and where the thread stands. */
  function Goto(s: State, th: Thread, pc: Pc): (State, Thread) {
    (s, th.(pc := pc))
  }

  /** An abort call on a device: success leaves it idle, an error leaves it idle or not. */
  function AbortDevice(s: State, d: Device, idle: bool): set<Device> {
    if idle then s.active - {d} else s.active
  }

  /** One abort call inside the locked section. */
  function AbortStep(s: State, th: Thread, d: Device, a: Answer, next: Pc): (State, Thread) {
    (s.(active := AbortDevice(s, d, a.ok || a.rests)),
     th.(pc := next, idled := if a.ok then th.idled + {d} else th.idled, failed := th.failed || !a.ok))
  }

  /** A capture that gives up or ends drops its marker and then the capture mutex. */
  function Leave(s: State, th: Thread): (State, Thread) {
    Goto(s, th, ClearMark)
  }

  /** After a device has come to rest. */
  function AfterWait(d: Device, second: bool): Pc {
    match d
    case Mount => SlewedCheck
    case Wheel => if second then HwLock(Camera, false) else Override
    case Camera => Download
  }

  /** The step of thread `t`, or `None` when it is blocked or done. */
  function StepThread(s: State, t: nat, th: Thread, a: Answer): Option<(State, Thread)> {
    match th.pc
    case AbortRequest => Some(Goto(s.(stop := true), th, AbortLock))
    case AbortLock => if s.hw == None then Some(Goto(s.(hw := Some(t)), th, AbortSlew)) else None
    case AbortSlew => Some(AbortStep(s, th, Mount, a, AbortExposure))
    case AbortExposure => Some(AbortStep(s, th, Camera, a, if s.hasWheel then AbortFilter else AbortUnlock))
    case AbortFilter => Some(AbortStep(s, th, Wheel, a, AbortUnlock))
    case AbortUnlock =>
      var next := if th.job == PreemptTask && !th.failed then PrepareLock else Finished;
      Some(Goto(s.(hw := None, quiet := if s.stop then s.quiet + th.idled else s.quiet), th, next))
    case PrepareLock => if s.hw == None then Some(Goto(s.(hw := Some(t)), th, PrepareClear)) else None
    case PrepareClear => Some(Goto(s.(stop := false, quiet := {}), th, PrepareUnlock))
    case PrepareUnlock => Some(Goto(s.(hw := None), th, CaptureLock))
    case CaptureLock => if s.cap == None then Some(Goto(s.(cap := Some(t)), th, FirstCheck)) else None
    case FirstCheck => Some(Goto(s, th, if s.stop then CaptureUnlock else TargetCheck))
    case TargetCheck => Some(Goto(s, th, if th.task.hasTarget then Mark else CaptureUnlock))
    case Mark => Some(Goto(s.(current := Some((th.task.id, th.task.priority))), th, SafetyGate))
    case SafetyGate => Some(if a.ok then Goto(s, th, SecondCheck) else Leave(s, th))
    case SecondCheck => Some(if s.stop then Leave(s, th) else Goto(s, th, HwLock(Mount, false)))
    case HwLock(d, second) => if s.hw == None then Some(Goto(s.(hw := Some(t)), th, HwCheck(d, second))) else None
    case HwCheck(d, second) => Some(Goto(s, th, if s.stop then HwUnlock(d, second, false) else HwStart(d, second)))
    case HwStart(d, second) =>
      // a start that reports an error may or may not have set the device going
      Some(Goto(s.(active := if a.ok || a.flag then s.active + {d} else s.active), th, HwUnlock(d, second, a.ok)))
    case HwUnlock(d, second, ok) =>
      Some(Goto(s.(hw := None), th, if ok then PollFlag(d, second) else ClearMark))
    case PollFlag(d, second) => Some(if s.stop then Leave(s, th) else Goto(s, th, PollDevice(d, second)))
    case PollDevice(d, second) =>
      // a device reports itself ready only when idle, but need not report it: an aborted exposure has no image
      if a.ok && a.flag then Some(Goto(s, th, PollFlag(d, second)))  // not ready: sleep and poll again
      else if a.ok && d !in s.active then Some(Goto(s, th, AfterWait(d, second)))
      else Some(Leave(s.(active := AbortDevice(s, d, a.rests)), th))      // poll error or deadline: abort and give up
    case SlewedCheck => Some(if s.stop then Leave(s, th) else Goto(s, th, RequiredFilter))
    case RequiredFilter =>
      if !th.task.needsFilter then Some(Goto(s, th, Override))
      else if s.hasWheel && a.ok then Some(Goto(s, th, HwLock(Wheel, false)))
      else Some(Leave(s, th))
    case Override =>
      if !a.ok then Some(Leave(s, th))
      else if !a.flag then Some(Goto(s, th, HwLock(Camera, false)))
      else if s.hasWheel then Some(Goto(s, th, HwLock(Wheel, true)))
      else Some(Leave(s, th))
    case Download => Some(Leave(s, th))
    case ClearMark => Some(Goto(s.(current := None), th, CaptureUnlock))
    case CaptureUnlock => Some(Goto(s.(cap := None), th, Finished))
    case Finished => None
  }

  function MoveThread(s: State, t: nat, a: Answer): Option<State>
    requires t in s.threads
  {
    match StepThread(s, t, s.threads[t], a)
    case None => None
    case Some((s1, th)) => Some(s1.(threads := s.threads[t := th]))
  }

  function Apply(s: State, act: Action): Option<State> {
    match act
    case Spawn(t, job, task) =>
      if t in s.threads then None
      else
        var pc := if job == AssignTask then PrepareLock else AbortRequest;
        Some(s.(threads := s.threads[t := Thread(job, task, pc, {}, false)]))
    case Move(t, a) => if t in s.threads then MoveThread(s, t, a) else None
    case Settle(d) => Some(s.(active := s.active - {d}))
  }

  // ----- what every reachable state satisfies -----

  predicate HoldsHardware(pc: Pc) {
    pc.AbortSlew? || pc.AbortExposure? || pc.AbortFilter? || pc.AbortUnlock?
    || pc.PrepareClear? || pc.PrepareUnlock? || pc.HwCheck? || pc.HwStart? || pc.HwUnlock?
  }

  predicate HoldsCapture(pc: Pc) {
    !(pc.AbortRequest? || pc.AbortLock? || pc.AbortSlew? || pc.AbortExposure? || pc.AbortFilter? || pc.AbortUnlock?
      || pc.PrepareLock? || pc.PrepareClear? || pc.PrepareUnlock? || pc.CaptureLock? || pc.Finished?)
  }

  /** Inside a capture, between setting and clearing the telemetry marker. */
  predicate Marked(pc: Pc) {
    HoldsCapture(pc) && !(pc.FirstCheck? || pc.TargetCheck? || pc.Mark? || pc.CaptureUnlock?)
  }

  predicate InAbortSection(pc: Pc) {
    pc.AbortSlew? || pc.AbortExposure? || pc.AbortFilter? || pc.AbortUnlock?
  }

  predicate UsesWheel(pc: Pc) {
    match pc
    case HwLock(d, _) => d == Wheel
    case HwCheck(d, _) => d == Wheel
    case HwStart(d, _) => d == Wheel
    case AbortFilter => true
    case _ => false
  }

  /** Devices the abort section has already called on, at this point of it. */
  function CalledBy(pc: Pc, hasWheel: bool): set<Device> {
    match pc
    case AbortExposure => {Mount}
    case AbortFilter => {Mount, Camera}
    case AbortUnlock => if hasWheel then DEVICES else {Mount, Camera}
    case _ => {}
  }

  predicate ThreadValid(s: State, t: nat, th: Thread) {
    && (HoldsHardware(th.pc) <==> s.hw == Some(t))
    && (HoldsCapture(th.pc) <==> s.cap == Some(t))
    && (HoldsCapture(th.pc) ==> s.current == if Marked(th.pc) then Some((th.task.id, th.task.priority)) else None)
    && (th.pc.HwStart? ==> s.quiet == {})
    && (InAbortSection(th.pc) ==> th.idled !! s.active)
    && (InAbortSection(th.pc) && !th.failed ==> th.idled == CalledBy(th.pc, s.hasWheel))
    && (th.pc.AbortRequest? || th.pc.AbortLock? ==> th.idled == {} && !th.failed)
    && (UsesWheel(th.pc) ==> s.hasWheel)
  }

  ghost predicate Valid(s: State) {
    && (forall t :: t in s.threads ==> ThreadValid(s, t, s.threads[t]))
    && (s.hw.Some? ==> s.hw.value in s.threads)
    && (s.cap.Some? ==> s.cap.value in s.threads)
    && (s.cap.None? ==> s.current == None)
    && s.quiet !! s.active
    && (s.quiet != {} ==> s.stop)
    && (!s.hasWheel ==> Wheel !in s.active)
  }

  lemma InitValid(hasWheel: bool)
    ensures Valid(Init(hasWheel))
  {
  }

  /** A step of thread `t` from `s` to `s'` that is fit for `t` and leaves the others alone. */
  predicate GoodMove(s: State, t: nat, s': State)
    requires t in s.threads
  {
    && t in s'.threads
    && s'.threads == s.threads[t := s'.threads[t]]
    && s'.hasWheel == s.hasWheel
    && ThreadValid(s', t, s'.threads[t])
    && (s'.hw == s.hw || (s.hw in {None, Some(t)} && s'.hw in {None, Some(t)}))
    && (s'.cap == s.cap || (s.cap in {None, Some(t)} && s'.cap in {None, Some(t)}))
    && (s'.current == s.current || s.cap == Some(t))
    && (s'.quiet <= s.quiet || s.hw == Some(t))
    && (s'.active <= s.active || s.hw == Some(t))
    && (s'.cap.None? ==> s'.current == None)
    && s'.quiet !! s'.active
    && (s'.quiet != {} ==> s'.stop)
    && (!s'.hasWheel ==> Wheel !in s'.active)
  }

  /** A capture moving on without touching mutexes, flag or devices. */
  lemma JumpIsGood(s: State, t: nat, pc: Pc)
    requires Valid(s) && t in s.threads
    requires Marked(s.threads[t].pc) && Marked(pc)
    requires !HoldsHardware(s.threads[t].pc) && !HoldsHardware(pc)
    requires UsesWheel(pc) ==> s.hasWheel
    ensures GoodMove(s, t, s.(threads := s.threads[t := s.threads[t].(pc := pc)]))
  {
    assert ThreadValid(s, t, s.threads[t]);
  }

  lemma RequestMoves(s: State, t: nat, a: Answer)
    requires Valid(s) && t in s.threads && MoveThread(s, t, a).Some?
    requires var pc := s.threads[t].pc; pc.AbortRequest? || pc.AbortLock?
    ensures GoodMove(s, t, MoveThread(s, t, a).value)
  {
    assert ThreadValid(s, t, s.threads[t]);
  }

  lemma AbortMoves(s: State, t: nat, a: Answer)
    requires Valid(s) && t in s.threads && MoveThread(s, t, a).Some?
    requires var pc := s.threads[t].pc; pc.AbortSlew? || pc.AbortExposure? || pc.AbortFilter?
    ensures GoodMove(s, t, MoveThread(s, t, a).value)
  {
    assert ThreadValid(s, t, s.threads[t]);
  }

  lemma AbortEndMoves(s: State, t: nat, a: Answer)
    requires Valid(s) && t in s.threads && MoveThread(s, t, a).Some?
    requires var pc := s.threads[t].pc; pc.AbortUnlock? || pc.PrepareLock? || pc.PrepareClear? || pc.PrepareUnlock?
    ensures GoodMove(s, t, MoveThread(s, t, a).value)
  {
    assert ThreadValid(s, t, s.threads[t]);
  }

  lemma EntryMoves(s: State, t: nat, a: Answer)
    requires Valid(s) && t in s.threads && MoveThread(s, t, a).Some?
    requires var pc := s.threads[t].pc; pc.CaptureLock? || pc.FirstCheck?
    ensures GoodMove(s, t, MoveThread(s, t, a).value)
  {
    assert ThreadValid(s, t, s.threads[t]);
  }

  lemma TargetMoves(s: State, t: nat, a: Answer)
    requires Valid(s) && t in s.threads && MoveThread(s, t, a).Some?
    requires var pc := s.threads[t].pc; pc.TargetCheck? || pc.Mark?
    ensures GoodMove(s, t, MoveThread(s, t, a).value)
  {
    assert ThreadValid(s, t, s.threads[t]);
  }

  lemma GateMoves(s: State, t: nat, a: Answer)
    requires Valid(s) && t in s.threads && MoveThread(s, t, a).Some?
    requires var pc := s.threads[t].pc; pc.SafetyGate? || pc.SecondCheck? || pc.SlewedCheck?
    ensures GoodMove(s, t, MoveThread(s, t, a).value)
  {
    JumpIsGood(s, t, MoveThread(s, t, a).value.threads[t].pc);
  }

  lemma LockMoves(s: State, t: nat, a: Answer)
    requires Valid(s) && t in s.threads && MoveThread(s, t, a).Some?
    requires var pc := s.threads[t].pc; pc.HwLock? || pc.HwCheck?
    ensures GoodMove(s, t, MoveThread(s, t, a).value)
  {
    assert ThreadValid(s, t, s.threads[t]);
  }

  lemma StartMoves(s: State, t: nat, a: Answer)
    requires Valid(s) && t in s.threads && MoveThread(s, t, a).Some?
    requires var pc := s.threads[t].pc; pc.HwStart? || pc.HwUnlock?
    ensures GoodMove(s, t, MoveThread(s, t, a).value)
  {
    assert ThreadValid(s, t, s.threads[t]);
  }

  lemma PollMoves(s: State, t: nat, a: Answer)
    requires Valid(s) && t in s.threads && MoveThread(s, t, a).Some?
    requires s.threads[t].pc.PollDevice?
    ensures GoodMove(s, t, MoveThread(s, t, a).value)
  {
    var d := s.threads[t].pc.d;
    if a.ok && (d !in s.active || a.flag) {
      JumpIsGood(s, t, MoveThread(s, t, a).value.threads[t].pc);
    } else {
      JumpIsGood(s, t, ClearMark);
      assert AbortDevice(s, d, a.rests) <= s.active;
    }
  }

  lemma PollFlagMoves(s: State, t: nat, a: Answer)
    requires Valid(s) && t in s.threads && MoveThread(s, t, a).Some?
    requires var pc := s.threads[t].pc; pc.PollFlag?
    ensures GoodMove(s, t, MoveThread(s, t, a).value)
  {
    JumpIsGood(s, t, MoveThread(s, t, a).value.threads[t].pc);
  }

  lemma FilterMoves(s: State, t: nat, a: Answer)
    requires Valid(s) && t in s.threads && MoveThread(s, t, a).Some?
    requires var pc := s.threads[t].pc; pc.RequiredFilter?
    ensures GoodMove(s, t, MoveThread(s, t, a).value)
  {
    JumpIsGood(s, t, MoveThread(s, t, a).value.threads[t].pc);
  }

  lemma OverrideMoves(s: State, t: nat, a: Answer)
    requires Valid(s) && t in s.threads && MoveThread(s, t, a).Some?
    requires var pc := s.threads[t].pc; pc.Override?
    ensures GoodMove(s, t, MoveThread(s, t, a).value)
  {
    JumpIsGood(s, t, MoveThread(s, t, a).value.threads[t].pc);
  }

  lemma ExitMoves(s: State, t: nat, a: Answer)
    requires Valid(s) && t in s.threads && MoveThread(s, t, a).Some?
    requires var pc := s.threads[t].pc; pc.Download? || pc.Finished?
    ensures GoodMove(s, t, MoveThread(s, t, a).value)
  {
    assert ThreadValid(s, t, s.threads[t]);
  }

  lemma CleanupMoves(s: State, t: nat, a: Answer)
    requires Valid(s) && t in s.threads && MoveThread(s, t, a).Some?
    requires var pc := s.threads[t].pc; pc.ClearMark? || pc.CaptureUnlock?
    ensures GoodMove(s, t, MoveThread(s, t, a).value)
  {
    assert ThreadValid(s, t, s.threads[t]);
  }

  lemma MoveKeepsValid(s: State, t: nat, a: Answer)
    requires Valid(s) && t in s.threads && MoveThread(s, t, a).Some?
    ensures Valid(MoveThread(s, t, a).value)
  {
    match s.threads[t].pc {
    case AbortRequest => RequestMoves(s, t, a);
    case AbortLock => RequestMoves(s, t, a);
    case AbortSlew => AbortMoves(s, t, a);
    case AbortExposure => AbortMoves(s, t, a);
    case AbortFilter => AbortMoves(s, t, a);
    case AbortUnlock => AbortEndMoves(s, t, a);
    case PrepareLock => AbortEndMoves(s, t, a);
    case PrepareClear => AbortEndMoves(s, t, a);
    case PrepareUnlock => AbortEndMoves(s, t, a);
    case CaptureLock => EntryMoves(s, t, a);
    case FirstCheck => EntryMoves(s, t, a);
    case TargetCheck => TargetMoves(s, t, a);
    case Mark => TargetMoves(s, t, a);
    case SafetyGate => GateMoves(s, t, a);
    case SecondCheck => GateMoves(s, t, a);
    case HwLock(_, _) => LockMoves(s, t, a);
    case HwCheck(_, _) => LockMoves(s, t, a);
    case HwStart(_, _) => StartMoves(s, t, a);
    case HwUnlock(_, _, _) => StartMoves(s, t, a);
    case PollFlag(_, _) => PollFlagMoves(s, t, a);
    case PollDevice(_, _) => PollMoves(s, t, a);
    case SlewedCheck => GateMoves(s, t, a);
    case RequiredFilter => FilterMoves(s, t, a);
    case Override => OverrideMoves(s, t, a);
    case Download => ExitMoves(s, t, a);
    case ClearMark => CleanupMoves(s, t, a);
    case CaptureUnlock => CleanupMoves(s, t, a);
    case Finished => ExitMoves(s, t, a);
    }
    GoodMoveKeepsValid(s, t, MoveThread(s, t, a).value);
  }

  /** Steps of one thread never disturb what holds of another. */
  lemma GoodMoveKeepsValid(s: State, t: nat, s': State)
    requires Valid(s) && t in s.threads && GoodMove(s, t, s')
    ensures Valid(s')
  {
    forall u | u in s'.threads
      ensures ThreadValid(s', u, s'.threads[u])
    {
      assert u in s.threads;
      assert ThreadValid(s, u, s.threads[u]);
    }
    assert ThreadValid(s, t, s.threads[t]);
    assert ThreadValid(s', t, s'.threads[t]);
  }

  lemma ApplyKeepsValid(s: State, act: Action)
    requires Valid(s) && Apply(s, act).Some?
    ensures Valid(Apply(s, act).value)
  {
    match act
    case Spawn(t, _, _) =>
    case Move(t, a) => MoveKeepsValid(s, t, a);
    case Settle(_) =>
  }

  // ----- whole runs -----

  /** A run from `s`: every action must be possible when its turn comes. */
  function Play(s: State, acts: seq<Action>): Option<State>
    decreases |acts|
  {
    if acts == [] then Some(s)
    else
      match Apply(s, acts[0])
      case None => None
      case Some(s1) => Play(s1, acts[1..])
  }

  lemma {:induction false} PlayKeepsValid(s: State, acts: seq<Action>)
    requires Valid(s) && Play(s, acts).Some?
    ensures Valid(Play(s, acts).value)
    decreases |acts|
  {
    if acts != [] {
      ApplyKeepsValid(s, acts[0]);
      PlayKeepsValid(Apply(s, acts[0]).value, acts[1..]);
    }
  }

  lemma {:induction false} PlayAppend(s: State, a: seq<Action>, b: seq<Action>)
    ensures Play(s, a + b)
         == match Play(s, a)
            case None => None
            case Some(s1) => Play(s1, b)
    decreases |a|
  {
    if a == [] {
      assert a + b == b;
    } else {
      assert (a + b)[1..] == a[1..] + b;
      if Apply(s, a[0]).Some? {
        PlayAppend(Apply(s, a[0]).value, a[1..], b);
      }
    }
  }

  /** The step by which a new assignment acknowledges earlier aborts. */
  predicate Clears(s: State, act: Action) {
    act.Move? && act.t in s.threads && s.threads[act.t].pc.PrepareClear?
  }

  predicate NeverClears(s: State, acts: seq<Action>)
    decreases |acts|
  {
    acts == [] || (!Clears(s, acts[0]) && match Apply(s, acts[0])
                                          case None => true
                                          case Some(s1) => NeverClears(s1, acts[1..]))
  }

  lemma QuietGrows(s: State, act: Action)
    requires Apply(s, act).Some? && !Clears(s, act)
    ensures s.quiet <= Apply(s, act).value.quiet
  {
  }

  lemma {:induction false} QuietLasts(s: State, acts: seq<Action>)
    requires Valid(s) && Play(s, acts).Some? && NeverClears(s, acts)
    ensures s.quiet <= Play(s, acts).value.quiet
    ensures s.quiet !! Play(s, acts).value.active
    decreases |acts|
  {
    if acts != [] {
      var s1 := Apply(s, acts[0]).value;
      ApplyKeepsValid(s, acts[0]);
      QuietGrows(s, acts[0]);
      QuietLasts(s1, acts[1..]);
    }
  }

  /** Every device an abort call idled stays idle from the end of the abort's locked section, if the
      stop flag is still set there, until the next new assignment clears the flag: no start slips
      in, however captures, aborts, preemptions and device events are interleaved. */
  lemma AbortedDevicesStayIdle(hasWheel: bool, before: seq<Action>, t: nat, a: Answer, after: seq<Action>)
    requires Play(Init(hasWheel), before).Some?
    requires var s := Play(Init(hasWheel), before).value;
             && t in s.threads && s.threads[t].pc.AbortUnlock? && s.stop
             && Play(MoveThread(s, t, a).value, after).Some?
             && NeverClears(MoveThread(s, t, a).value, after)
    ensures var s := Play(Init(hasWheel), before).value;
            var end := Play(MoveThread(s, t, a).value, after).value;
            && s.threads[t].idled !! end.active
            && (!s.threads[t].failed ==> end.active == {})
  {
    InitValid(hasWheel);
    PlayKeepsValid(Init(hasWheel), before);
    var s := Play(Init(hasWheel), before).value;
    MoveKeepsValid(s, t, a);
    var s1 := MoveThread(s, t, a).value;
    assert ThreadValid(s, t, s.threads[t]);
    QuietLasts(s1, after);
    PlayKeepsValid(s1, after);
    SameRig(Init(hasWheel), before);
    SameRig(s1, after);
    var end := Play(s1, after).value;
    assert s.threads[t].idled <= s1.quiet;
    if !s.threads[t].failed {
      forall d: Device
        ensures d !in end.active
      {
        assert d == Mount || d == Wheel || d == Camera;
      }
    }
  }

  lemma {:induction false} SameRig(s: State, acts: seq<Action>)
    requires Play(s, acts).Some?
    ensures Play(s, acts).value.hasWheel == s.hasWheel
    decreases |acts|
  {
    if acts != [] {
      SameRig(Apply(s, acts[0]).value, acts[1..]);
    }
  }

  /** In every reachable state at most one capture runs its sequence, and telemetry names exactly
      that capture's task with its own priority, or nothing. */
  lemma OneCaptureAtATime(hasWheel: bool, acts: seq<Action>, t: nat, u: nat)
    requires Play(Init(hasWheel), acts).Some?
    requires var s := Play(Init(hasWheel), acts).value;
             t in s.threads && u in s.threads && HoldsCapture(s.threads[t].pc) && HoldsCapture(s.threads[u].pc)
    ensures var s := Play(Init(hasWheel), acts).value;
            && t == u
            && (s.current.Some? ==> s.current.value == (s.threads[t].task.id, s.threads[t].task.priority))
  {
    InitValid(hasWheel);
    PlayKeepsValid(Init(hasWheel), acts);
    var s := Play(Init(hasWheel), acts).value;
    assert ThreadValid(s, t, s.threads[t]) && ThreadValid(s, u, s.threads[u]);
  }

  /** A device call in flight excludes every other holder: while one thread stands between its flag
      check and its device call, no abort section and no flag clearing is under way. */
  lemma StartExcludesAbort(hasWheel: bool, acts: seq<Action>, t: nat, u: nat)
    requires Play(Init(hasWheel), acts).Some?
    requires var s := Play(Init(hasWheel), acts).value;
             && t in s.threads && u in s.threads && t != u
             && (s.threads[t].pc.HwStart? || s.threads[t].pc.HwCheck?)
    ensures var pc := Play(Init(hasWheel), acts).value.threads[u].pc;
            !InAbortSection(pc) && !pc.PrepareClear? && !pc.HwStart? && !pc.HwCheck?
  {
    InitValid(hasWheel);
    PlayKeepsValid(Init(hasWheel), acts);
    var s := Play(Init(hasWheel), acts).value;
    assert ThreadValid(s, t, s.threads[t]) && ThreadValid(s, u, s.threads[u]);
  }

  // ----- who can still start a device -----

  /** The capture gets past the filter step on this rig. */
  predicate FilterFits(task: Task, hasWheel: bool) {
    task.needsFilter ==> hasWheel
  }

  /** Once `d` has been started, another start can follow. */
  predicate MoreAfter(d: Device, task: Task, hasWheel: bool) {
    match d
    case Mount => FilterFits(task, hasWheel)
    case Wheel => true
    case Camera => false
  }

  /** There is a device call ahead of the thread, judged by where it stands and by its task. */
  predicate MayStart(th: Thread, hasWheel: bool) {
    match th.pc
    case AbortRequest | AbortLock | AbortSlew | AbortExposure | AbortFilter | AbortUnlock =>
      th.job == PreemptTask && !th.failed && th.task.hasTarget
    case PrepareLock | PrepareClear | PrepareUnlock => th.task.hasTarget
    case CaptureLock | FirstCheck | TargetCheck => th.task.hasTarget
    case Mark | SafetyGate | SecondCheck => true
    case HwLock(_, _) => true
    case HwCheck(_, _) => true
    case HwStart(_, _) => true
    case HwUnlock(d, _, ok) => ok && MoreAfter(d, th.task, hasWheel)
    case PollFlag(d, _) => MoreAfter(d, th.task, hasWheel)
    case PollDevice(d, _) => MoreAfter(d, th.task, hasWheel)
    case SlewedCheck | RequiredFilter => FilterFits(th.task, hasWheel)
    case Override => true
    case Download | ClearMark | CaptureUnlock | Finished => false
  }

  predicate AtStart(s: State, t: nat) {
    t in s.threads && s.threads[t].pc.HwStart?
  }

  /** Some continuation brings the thread to a device call. */
  ghost predicate CanStart(s: State, t: nat) {
    exists acts :: Play(s, acts).Some? && AtStart(Play(s, acts).value, t)
  }

  /** The next step of the thread reads the stop flag. */
  predicate ReadsFlag(pc: Pc) {
    pc.FirstCheck? || pc.SecondCheck? || pc.HwCheck? || pc.PollFlag? || pc.SlewedCheck?
  }

  /** The thread has a device call ahead and is not about to be turned away from it. */
  predicate StillComing(s: State, t: nat) {
    t in s.threads && MayStart(s.threads[t], s.hasWheel) && !(s.stop && s.threads[t].pc.HwCheck?)
  }

  /** Outside the capture's own sequence of device calls. */
  predicate Approaching(pc: Pc) {
    BeforeClear(pc) || pc.PrepareUnlock? || pc.CaptureLock? || pc.FirstCheck? || pc.TargetCheck? || pc.Mark?
    || pc.SafetyGate? || pc.SecondCheck?
  }

  lemma ApproachRegainsNothing(s: State, t: nat, a: Answer)
    requires t in s.threads && Approaching(s.threads[t].pc)
    requires !StillComing(s, t) && MoveThread(s, t, a).Some?
    ensures !StillComing(MoveThread(s, t, a).value, t)
  {
  }

  lemma SequenceRegainsNothing(s: State, t: nat, a: Answer)
    requires t in s.threads && !Approaching(s.threads[t].pc)
    requires !StillComing(s, t) && MoveThread(s, t, a).Some?
    ensures !StillComing(MoveThread(s, t, a).value, t)
  {
  }

  /** A step of another thread leaves the thread where it is, and clears no flag under its eyes. */
  lemma OthersRegainNothing(s: State, u: nat, a: Answer, t: nat)
    requires Valid(s) && t in s.threads && !StillComing(s, t)
    requires u in s.threads && u != t && MoveThread(s, u, a).Some?
    ensures t in MoveThread(s, u, a).value.threads && !StillComing(MoveThread(s, u, a).value, t)
  {
    MoveTouches(s, u, a);
    assert ThreadValid(s, t, s.threads[t]) && ThreadValid(s, u, s.threads[u]);
  }

  lemma MoveTouches(s: State, u: nat, a: Answer)
    requires u in s.threads && MoveThread(s, u, a).Some?
    ensures var s1 := MoveThread(s, u, a).value;
            && s1.hasWheel == s.hasWheel && u in s1.threads && s1.threads == s.threads[u := s1.threads[u]]
            && (s.stop && !s1.stop ==> s.threads[u].pc.PrepareClear?)
  {
  }

  lemma StepRegainsNothing(s: State, act: Action, t: nat)
    requires Valid(s) && t in s.threads && !StillComing(s, t) && Apply(s, act).Some?
    ensures t in Apply(s, act).value.threads && !StillComing(Apply(s, act).value, t)
  {
    if act.Move? {
      if act.t != t {
        OthersRegainNothing(s, act.t, act.answer, t);
      } else if Approaching(s.threads[t].pc) {
        ApproachRegainsNothing(s, t, act.answer);
      } else {
        SequenceRegainsNothing(s, t, act.answer);
      }
    }
  }

  lemma {:induction false} NeverStarts(s: State, acts: seq<Action>, t: nat)
    requires Valid(s) && t in s.threads && !StillComing(s, t) && Play(s, acts).Some?
    ensures !AtStart(Play(s, acts).value, t)
    decreases |acts|
  {
    if acts != [] {
      StepRegainsNothing(s, acts[0], t);
      ApplyKeepsValid(s, acts[0]);
      NeverStarts(Apply(s, acts[0]).value, acts[1..], t);
    }
  }

  // ----- making way for a thread -----

  const YES := Answer(true, false, true)
  const NO := Answer(false, false, false)

  /** How many steps the holder of the hardware mutex has left before it lets go. */
  function HoldRank(pc: Pc): nat {
    match pc
    case AbortSlew => 4
    case AbortExposure => 3
    case AbortFilter => 2
    case PrepareClear => 2
    case HwCheck(_, _) => 3
    case HwStart(_, _) => 2
    case _ => 1
  }

  /** The same for the capture mutex, when every request is answered with no. */
  function CaptureRank(pc: Pc): nat {
    match pc
    case CaptureUnlock => 1
    case ClearMark => 2
    case Download | Override => 3
    case PollDevice(_, _) => 3
    case PollFlag(_, _) => 4
    case RequiredFilter => 4
    case SlewedCheck => 5
    case HwUnlock(_, _, _) => 5
    case HwStart(_, _) => 6
    case HwCheck(_, _) => 7
    case HwLock(_, _) => 8
    case SecondCheck => 9
    case SafetyGate => 10
    case Mark => 11
    case TargetCheck => 12
    case _ => 13
  }

  /** The rank of whoever holds a mutex, 0 for a free one. */
  function HolderRank(s: State, holder: Option<nat>, rank: Pc -> nat): nat {
    if holder.Some? && holder.value in s.threads then rank(s.threads[holder.value].pc) else 0
  }

  /** From `s` to `s'` only threads inside a mutex moved, and nobody raised the flag. */
  ghost predicate MadeWay(s: State, s': State) {
    && s'.hasWheel == s.hasWheel
    && (s'.stop ==> s.stop)
    && forall u :: u in s.threads ==>
         && u in s'.threads
         && (!HoldsHardware(s.threads[u].pc) && !HoldsCapture(s.threads[u].pc) ==> s'.threads[u] == s.threads[u])
  }

  lemma OneMove(s: State, t: nat, a: Answer)
    requires t in s.threads && MoveThread(s, t, a).Some?
    ensures Play(s, [Move(t, a)]) == MoveThread(s, t, a)
  {
    var acts := [Move(t, a)];
    assert acts[1..] == [];
    assert Play(MoveThread(s, t, a).value, []) == MoveThread(s, t, a);
  }

  lemma MoveThen(s: State, t: nat, a: Answer, rest: seq<Action>)
    requires t in s.threads && MoveThread(s, t, a).Some?
    ensures Play(s, [Move(t, a)] + rest) == Play(MoveThread(s, t, a).value, rest)
  {
    OneMove(s, t, a);
    PlayAppend(s, [Move(t, a)], rest);
  }

  lemma HolderMoves(s: State, u: nat, th: Thread)
    requires HoldsHardware(th.pc)
    ensures StepThread(s, u, th, YES).Some?
    ensures var (s1, th1) := StepThread(s, u, th, YES).value;
            && s1.cap == s.cap && (s1.stop ==> s.stop)
            && if HoldsHardware(th1.pc) then s1.hw == s.hw && HoldRank(th1.pc) < HoldRank(th.pc)
               else s1.hw == None
  {
  }

  /** Whoever holds the hardware mutex lets go of it by steps of its own. */
  lemma {:induction false} FreeHardware(s: State) returns (acts: seq<Action>)
    requires Valid(s)
    ensures Play(s, acts).Some?
    ensures var s' := Play(s, acts).value;
            && Valid(s') && s'.hw == None && s'.cap == s.cap && MadeWay(s, s')
            && forall u :: u in s.threads && s.hw != Some(u) ==> s'.threads[u] == s.threads[u]
    decreases HolderRank(s, s.hw, HoldRank)
  {
    if s.hw == None {
      acts := [];
    } else {
      var u := s.hw.value;
      assert ThreadValid(s, u, s.threads[u]);
      HolderMoves(s, u, s.threads[u]);
      MoveTouches(s, u, YES);
      MoveKeepsValid(s, u, YES);
      var rest := FreeHardware(MoveThread(s, u, YES).value);
      acts := [Move(u, YES)] + rest;
      MoveThen(s, u, YES, rest);
    }
  }

  lemma CaptureMoves(s: State, u: nat, th: Thread)
    requires HoldsCapture(th.pc) && (th.pc.HwLock? ==> s.hw == None)
    ensures StepThread(s, u, th, NO).Some?
    ensures var (s1, th1) := StepThread(s, u, th, NO).value;
            && s1.stop == s.stop
            && if HoldsCapture(th1.pc) then s1.cap == s.cap && CaptureRank(th1.pc) < CaptureRank(th.pc)
               else s1.cap == None
  {
  }

  /** Whoever holds the capture mutex can be brought to let go of it. */
  lemma {:induction false} FreeCapture(s: State) returns (acts: seq<Action>)
    requires Valid(s)
    ensures Play(s, acts).Some?
    ensures var s' := Play(s, acts).value; Valid(s') && s'.cap == None && MadeWay(s, s')
    decreases HolderRank(s, s.cap, CaptureRank), HolderRank(s, s.hw, HoldRank)
  {
    if s.cap == None {
      acts := [];
    } else {
      var u := s.cap.value;
      assert ThreadValid(s, u, s.threads[u]);
      if s.threads[u].pc.HwLock? && s.hw.Some? {
        var first := FreeHardware(s);
        var s1 := Play(s, first).value;
        var rest := FreeCapture(s1);
        acts := first + rest;
        PlayAppend(s, first, rest);
      } else {
        CaptureMoves(s, u, s.threads[u]);
        MoveTouches(s, u, NO);
        MoveKeepsValid(s, u, NO);
        var rest := FreeCapture(MoveThread(s, u, NO).value);
        acts := [Move(u, NO)] + rest;
        MoveThen(s, u, NO, rest);
      }
    }
  }

  // ----- leading a thread to its device call -----

  /** How far a thread with a device call ahead is from it. */
  function StartRank(pc: Pc): nat {
    match pc
    case HwStart(_, _) => 0
    case HwCheck(_, _) => 1
    case HwLock(_, _) => 2
    case SecondCheck => 3
    case SafetyGate => 4
    case Mark => 5
    case TargetCheck => 6
    case FirstCheck => 7
    case CaptureLock => 8
    case PrepareUnlock => 9
    case PrepareClear => 10
    case PrepareLock => 11
    case AbortUnlock => 12
    case AbortFilter => 13
    case AbortExposure => 14
    case AbortSlew => 15
    case AbortLock => 16
    case AbortRequest => 17
    case Override => 3
    case RequiredFilter => 4
    case SlewedCheck => 5
    case PollDevice(_, _) => 6
    case PollFlag(_, _) => 7
    case HwUnlock(_, _, _) => 8
    case _ => 0
  }

  /** Still to clear the flag itself before it first reads it. */
  predicate BeforeClear(pc: Pc) {
    pc.AbortRequest? || pc.AbortLock? || InAbortSection(pc) || pc.PrepareLock? || pc.PrepareClear?
  }

  /** On its way with nothing in the way but mutexes and a moving device. */
  predicate OnItsWay(s: State, t: nat) {
    t in s.threads && MayStart(s.threads[t], s.hasWheel) && (s.stop ==> BeforeClear(s.threads[t].pc))
  }

  /** The next device call is the one that slews. */
  predicate TowardsSlew(pc: Pc) {
    Approaching(pc) || ((pc.HwLock? || pc.HwCheck? || pc.HwStart?) && pc.d == Mount)
  }

  predicate NeedsHardware(pc: Pc) {
    pc.AbortLock? || pc.PrepareLock? || pc.HwLock?
  }

  predicate Unblocked(s: State, pc: Pc) {
    && (NeedsHardware(pc) ==> s.hw == None)
    && (pc.CaptureLock? ==> s.cap == None)
    && (pc.PollDevice? ==> pc.d !in s.active)
  }

  lemma UnblockedSteps(s: State, t: nat, th: Thread)
    requires MayStart(th, s.hasWheel) && !th.pc.HwStart? && (s.stop ==> BeforeClear(th.pc)) && Unblocked(s, th.pc)
    requires UsesWheel(th.pc) ==> s.hasWheel
    ensures StepThread(s, t, th, YES).Some?
    ensures var (s1, th1) := StepThread(s, t, th, YES).value;
            && MayStart(th1, s.hasWheel) && (s1.stop ==> BeforeClear(th1.pc))
            && StartRank(th1.pc) < StartRank(th.pc)
            && th1.task == th.task && (TowardsSlew(th.pc) ==> TowardsSlew(th1.pc))
  {
  }

  lemma Unblock(s: State, t: nat) returns (acts: seq<Action>)
    requires Valid(s) && OnItsWay(s, t)
    ensures Play(s, acts).Some?
    ensures var s' := Play(s, acts).value;
            Valid(s') && OnItsWay(s', t) && s'.threads[t] == s.threads[t] && Unblocked(s', s.threads[t].pc)
  {
    var pc := s.threads[t].pc;
    assert ThreadValid(s, t, s.threads[t]);
    if NeedsHardware(pc) {
      acts := FreeHardware(s);
    } else if pc.CaptureLock? {
      acts := FreeCapture(s);
    } else if pc.PollDevice? {
      acts := [Settle(pc.d)];
      assert acts[1..] == [];
      ApplyKeepsValid(s, acts[0]);
      assert Play(Apply(s, acts[0]).value, []) == Apply(s, acts[0]);
    } else {
      acts := [];
    }
  }

  lemma {:induction false} Lead(s: State, t: nat) returns (acts: seq<Action>)
    requires Valid(s) && OnItsWay(s, t)
    ensures Play(s, acts).Some? && AtStart(Play(s, acts).value, t)
    ensures var th := Play(s, acts).value.threads[t];
            th.task == s.threads[t].task && (TowardsSlew(s.threads[t].pc) ==> TowardsSlew(th.pc))
    decreases StartRank(s.threads[t].pc)
  {
    if AtStart(s, t) {
      acts := [];
    } else {
      var first := Unblock(s, t);
      var s1 := Play(s, first).value;
      assert ThreadValid(s1, t, s1.threads[t]);
      UnblockedSteps(s1, t, s1.threads[t]);
      MoveTouches(s1, t, YES);
      MoveKeepsValid(s1, t, YES);
      var rest := Lead(MoveThread(s1, t, YES).value, t);
      acts := first + ([Move(t, YES)] + rest);
      MoveThen(s1, t, YES, rest);
      PlayAppend(s, first, [Move(t, YES)] + rest);
    }
  }

  // ----- exactly whom an abort stops -----

  lemma {:induction false} UnusedId(ids: set<nat>) returns (u: nat)
    ensures forall k :: k in ids ==> k < u
  {
    if ids == {} {
      u := 0;
    } else {
      var k :| k in ids;
      var v := UnusedId(ids - {k});
      u := if k < v then v else k + 1;
      assert forall i :: i in ids ==> i == k || i in ids - {k};
    }
  }

  /** A new assignment lowers the flag without moving a thread that stands outside the mutexes' sections. */
  lemma NewAssignmentClears(s: State, t: nat) returns (acts: seq<Action>)
    requires Valid(s) && t in s.threads && !HoldsHardware(s.threads[t].pc)
    ensures Play(s, acts).Some?
    ensures var s' := Play(s, acts).value;
            && Valid(s') && !s'.stop && s'.hasWheel == s.hasWheel
            && t in s'.threads && s'.threads[t] == s.threads[t]
  {
    var u := UnusedId(s.threads.Keys);
    var come := [Spawn(u, AssignTask, Task(0, 0, false, false))];
    assert come[1..] == [];
    ApplyKeepsValid(s, come[0]);
    var s1 := Apply(s, come[0]).value;
    assert Play(s1, []) == Some(s1);
    assert ThreadValid(s, t, s.threads[t]) && ThreadValid(s1, u, s1.threads[u]);
    var free := FreeHardware(s1);
    var clear := ClearsTheFlag(Play(s1, free).value, u);
    PlayAppend(s1, free, clear);
    PlayAppend(s, come, free + clear);
    acts := come + (free + clear);
  }

  lemma ClearsTheFlag(s: State, u: nat) returns (acts: seq<Action>)
    requires Valid(s) && u in s.threads && s.threads[u].pc.PrepareLock? && s.hw == None
    ensures Play(s, acts).Some?
    ensures var s' := Play(s, acts).value;
            && Valid(s') && !s'.stop && s'.hasWheel == s.hasWheel
            && u in s'.threads && s'.threads == s.threads[u := s'.threads[u]]
  {
    MoveKeepsValid(s, u, YES);
    MoveTouches(s, u, YES);
    var s1 := MoveThread(s, u, YES).value;
    MoveKeepsValid(s1, u, YES);
    MoveTouches(s1, u, YES);
    OneMove(s1, u, YES);
    acts := [Move(u, YES)] + [Move(u, YES)];
    MoveThen(s, u, YES, [Move(u, YES)]);
  }

  lemma GetsOnItsWay(s: State, t: nat) returns (acts: seq<Action>)
    requires Valid(s) && StillComing(s, t) && !AtStart(s, t)
    ensures Play(s, acts).Some?
    ensures Valid(Play(s, acts).value) && OnItsWay(Play(s, acts).value, t)
  {
    if OnItsWay(s, t) {
      acts := [];
    } else if HoldsHardware(s.threads[t].pc) {
      assert ThreadValid(s, t, s.threads[t]);
      MoveKeepsValid(s, t, YES);
      MoveTouches(s, t, YES);
      var rest := NewAssignmentClears(MoveThread(s, t, YES).value, t);
      MoveThen(s, t, YES, rest);
      acts := [Move(t, YES)] + rest;
    } else {
      acts := NewAssignmentClears(s, t);
    }
  }

  lemma StartsExactlyWhenComing(s: State, t: nat)
    requires Valid(s) && t in s.threads
    ensures CanStart(s, t) <==> StillComing(s, t)
  {
    if StillComing(s, t) {
      if AtStart(s, t) {
        assert Play(s, []) == Some(s);
      } else {
        var first := GetsOnItsWay(s, t);
        var rest := Lead(Play(s, first).value, t);
        PlayAppend(s, first, rest);
        assert Play(s, first + rest).Some?;
      }
    } else {
      forall acts | Play(s, acts).Some?
        ensures !AtStart(Play(s, acts).value, t)
      {
        NeverStarts(s, acts, t);
      }
    }
  }

  /** In every reachable state, whether some continuation lets a thread start a device depends only on where
      it stands: it does not matter whether the flag is up, except to a thread just about to be turned away
      by it with the hardware mutex in hand. */
  lemma StartsExactlyWhen(hasWheel: bool, acts: seq<Action>, t: nat)
    requires Play(Init(hasWheel), acts).Some? && t in Play(Init(hasWheel), acts).value.threads
    ensures var s := Play(Init(hasWheel), acts).value;
            CanStart(s, t) <==> MayStart(s.threads[t], hasWheel) && !(s.stop && s.threads[t].pc.HwCheck?)
  {
    InitValid(hasWheel);
    PlayKeepsValid(Init(hasWheel), acts);
    SameRig(Init(hasWheel), acts);
    StartsExactlyWhenComing(Play(Init(hasWheel), acts).value, t);
  }

  lemma FlagTurnsAway(s: State, t: nat, th: Thread, a: Answer)
    requires s.stop && ReadsFlag(th.pc)
    ensures StepThread(s, t, th, a).Some? && !MayStart(StepThread(s, t, th, a).value.1, s.hasWheel)
  {
  }

  /** A capture that reads the flag while it is up starts nothing more. */
  lemma FlagReadStops(hasWheel: bool, before: seq<Action>, t: nat, a: Answer, after: seq<Action>)
    requires Play(Init(hasWheel), before).Some?
    requires var s := Play(Init(hasWheel), before).value;
             && t in s.threads && s.stop && ReadsFlag(s.threads[t].pc)
             && Play(MoveThread(s, t, a).value, after).Some?
    ensures !AtStart(Play(MoveThread(Play(Init(hasWheel), before).value, t, a).value, after).value, t)
  {
    InitValid(hasWheel);
    PlayKeepsValid(Init(hasWheel), before);
    var s := Play(Init(hasWheel), before).value;
    FlagTurnsAway(s, t, s.threads[t], a);
    MoveKeepsValid(s, t, a);
    MoveTouches(s, t, a);
    NeverStarts(MoveThread(s, t, a).value, after, t);
  }

  /** Once a new assignment has cleared the flag, every thread that has a device call ahead and has not read
      the flag may go on to make it, and no other may. */
  lemma ClearingLetsThrough(hasWheel: bool, before: seq<Action>, p: nat, a: Answer, t: nat)
    requires Play(Init(hasWheel), before).Some?
    requires var s := Play(Init(hasWheel), before).value;
             p in s.threads && s.threads[p].pc.PrepareClear? && t in s.threads && t != p
    ensures var s := Play(Init(hasWheel), before).value;
            CanStart(MoveThread(s, p, a).value, t) <==> MayStart(s.threads[t], hasWheel)
  {
    InitValid(hasWheel);
    PlayKeepsValid(Init(hasWheel), before);
    SameRig(Init(hasWheel), before);
    var s := Play(Init(hasWheel), before).value;
    MoveKeepsValid(s, p, a);
    MoveTouches(s, p, a);
    StartsExactlyWhenComing(MoveThread(s, p, a).value, t);
  }

  /** Devices a preempting thread has found idle or made so. */
  function Silenced(pc: Pc, hasWheel: bool): set<Device> {
    if pc.PrepareLock? || pc.PrepareClear? || pc.PrepareUnlock? then CalledBy(AbortUnlock, hasWheel)
    else CalledBy(pc, hasWheel)
  }

  /** A preemption in progress that meets no error and no other holder of the hardware mutex. */
  predicate Passing(s: State, th: Thread) {
    && th.job == PreemptTask && !th.failed
    && (BeforeClear(th.pc) || (th.pc.PrepareUnlock? && !s.stop))
    && (!HoldsHardware(th.pc) ==> s.hw == None)
    && Silenced(th.pc, s.hasWheel) !! s.active
  }

  lemma PassingSteps(s: State, t: nat, th: Thread)
    requires Passing(s, th) && !th.pc.PrepareUnlock?
    ensures StepThread(s, t, th, YES).Some?
    ensures var (s1, th1) := StepThread(s, t, th, YES).value;
            && Passing(s1, th1) && s1.cap == s.cap && s1.current == s.current
            && StartRank(th1.pc) < StartRank(th.pc)
  {
  }

  lemma {:induction false} PreemptionPasses(s: State, t: nat) returns (acts: seq<Action>)
    requires Valid(s) && t in s.threads && Passing(s, s.threads[t])
    ensures Play(s, acts).Some?
    ensures var s' := Play(s, acts).value;
            && Valid(s') && s'.hasWheel == s.hasWheel && s'.cap == s.cap && s'.current == s.current
            && t in s'.threads && s'.threads == s.threads[t := s'.threads[t]]
            && Passing(s', s'.threads[t]) && s'.threads[t].pc.PrepareUnlock?
    decreases StartRank(s.threads[t].pc)
  {
    if s.threads[t].pc.PrepareUnlock? {
      acts := [];
    } else {
      PassingSteps(s, t, s.threads[t]);
      MoveTouches(s, t, YES);
      MoveKeepsValid(s, t, YES);
      var rest := PreemptionPasses(MoveThread(s, t, YES).value, t);
      acts := [Move(t, YES)] + rest;
      MoveThen(s, t, YES, rest);
    }
  }

  /** In every reachable state with nobody inside a hardware section a whole preemption can pass: it raises the
      flag, stops every device and lowers the flag again before any other thread takes a step.  The captures it
      fails to stop are exactly those with a device call still ahead, wherever they stood. */
  lemma PreemptionMissedExactlyBy(hasWheel: bool, before: seq<Action>, p: nat, task: Task)
    returns (acts: seq<Action>)
    requires Play(Init(hasWheel), before).Some?
    requires var s := Play(Init(hasWheel), before).value; s.hw == None && p !in s.threads
    ensures acts != [] && acts[0] == Spawn(p, PreemptTask, task)
    ensures var s := Play(Init(hasWheel), before).value;
            && Play(s, acts).Some?
            && var s' := Play(s, acts).value;
               && p in s'.threads && s'.threads == s.threads[p := s'.threads[p]]
               && s'.threads[p].job == PreemptTask && s'.threads[p].pc.PrepareUnlock?
               && !s'.stop && s'.active == {} && s'.cap == s.cap && s'.current == s.current
               && forall t :: t in s.threads ==> (CanStart(s', t) <==> MayStart(s.threads[t], hasWheel))
  {
    InitValid(hasWheel);
    PlayKeepsValid(Init(hasWheel), before);
    SameRig(Init(hasWheel), before);
    var s := Play(Init(hasWheel), before).value;
    var come := [Spawn(p, PreemptTask, task)];
    assert come[1..] == [];
    ApplyKeepsValid(s, come[0]);
    var s1 := Apply(s, come[0]).value;
    assert Play(s1, []) == Some(s1);
    var rest := PreemptionPasses(s1, p);
    acts := come + rest;
    PlayAppend(s, come, rest);
    var s' := Play(s, acts).value;
    assert s'.threads == s.threads[p := s'.threads[p]];
    EveryDeviceSilenced(s', p);
    forall t | t in s.threads
      ensures CanStart(s', t) <==> MayStart(s.threads[t], hasWheel)
    {
      StartsExactlyWhenComing(s', t);
    }
  }

  lemma EveryDeviceSilenced(s: State, p: nat)
    requires Valid(s) && p in s.threads && Passing(s, s.threads[p]) && s.threads[p].pc.PrepareUnlock?
    ensures s.active == {}
  {
    forall d: Device
      ensures d !in s.active
    {
      assert d == Mount || d == Wheel || d == Camera;
    }
  }

  /** A new capture slews and waits, about to look at the flag again. */
  lemma SleeperFallsAsleep(hasWheel: bool, task: Task) returns (acts: seq<Action>)
    requires task.hasTarget
    ensures Play(Init(hasWheel), acts).Some?
    ensures var s := Play(Init(hasWheel), acts).value;
            && s.hw == None && 1 in s.threads && s.threads[1].task == task
            && s.threads[1].pc.PollFlag? && s.threads[1].pc.d == Mount
  {
    InitValid(hasWheel);
    var come := [Spawn(1, AssignTask, task)];
    assert come[1..] == [];
    var s1 := Apply(Init(hasWheel), come[0]).value;
    assert Play(s1, []) == Some(s1);
    ApplyKeepsValid(Init(hasWheel), come[0]);
    var lead := Lead(s1, 1);
    var s2 := Play(s1, lead).value;
    MoveTouches(s2, 1, YES);
    var s3 := MoveThread(s2, 1, YES).value;
    MoveTouches(s3, 1, YES);
    OneMove(s3, 1, YES);
    MoveThen(s2, 1, YES, [Move(1, YES)]);
    PlayAppend(s1, lead, [Move(1, YES)] + [Move(1, YES)]);
    PlayAppend(Init(hasWheel), come, lead + ([Move(1, YES)] + [Move(1, YES)]));
    acts := come + (lead + ([Move(1, YES)] + [Move(1, YES)]));
  }

  /** So a capture asleep between two looks at the flag while its mount slews can miss a preemption
      altogether, and go on to start a device for the task that was preempted. */
  lemma SleeperMissesPreemption(hasWheel: bool, mine: Task, other: Task) returns (acts: seq<Action>, p: nat)
    requires mine.hasTarget && FilterFits(mine, hasWheel)
    ensures Play(Init(hasWheel), acts).Some?
    ensures var s := Play(Init(hasWheel), acts).value;
            && p in s.threads && s.threads[p].job == PreemptTask && s.threads[p].pc.PrepareUnlock?
            && 1 in s.threads && s.threads[1].task == mine && s.threads[1].pc.PollFlag? && s.threads[1].pc.d == Mount
            && s.active == {} && CanStart(s, 1)
  {
    acts := SleeperFallsAsleep(hasWheel, mine);
    p := UnusedId(Play(Init(hasWheel), acts).value.threads.Keys);
    var more := PreemptionMissedExactlyBy(hasWheel, acts, p, other);
    PlayAppend(Init(hasWheel), acts, more);
    acts := acts + more;
  }
}
