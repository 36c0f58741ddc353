/** The recursive-mutex demo: a controlling, a blocking and a polling task over one recursive
    mutex. Each transition is one statement of the task the scheduler may run, the end of a
    delay, or the expiry of the controlling task's two-tick take. */
module RecMutex {
  import opened Common
  import opened Kernel
  import opened KernelRuns

  const MAX_COUNT: nat := 10

  /** Program points of prvRecursiveMutexControllingTask. */
  datatype Ctrl =
    | GiveEarly            // the give that must fail
    | TakeIt(ux: nat)      // the ux-th take
    | SleepTaken(ux: nat)  // the delay after it
    | SleepGive(ux: nat)   // the delay before the ux-th give
    | GiveIt(ux: nat)
    | GiveLate             // the give that must fail again
    | CountCycle
    | Announce             // xControllingIsSuspended = pdTRUE
    | SuspendSelf
    | Resumed              // xControllingIsSuspended = pdFALSE

  /** Program points of prvRecursiveMutexBlockingTask. */
  datatype Blck = TakeWait | CheckFlag | GiveBack | SayAsleep | Sleep | SayAwake | CheckCycles | BumpCycles

  /** Program points of prvRecursiveMutexPollingTask. */
  datatype Poll = TryTake | CheckBoth | BumpPolls | WakeBlocking | WakeControlling | CheckAwake | GiveFree

  datatype State = State(
    k: Kernel, c: Ctrl, b: Blck, p: Poll,
    expired: bool,               // the controlling task's block time has run out
    controllingIsSuspended: bool, blockingIsSuspended: bool,
    controllingCycles: nat, blockingCycles: nat, pollingCycles: nat,
    errorOccurred: bool)

  datatype Event = Run(t: TaskId) | DelayOver | Expiry

  function Inc(x: nat): nat { (x + 1) % TWO_32 }

  function ControllingStep(s: State): State {
    match s.c
    case GiveEarly =>
      var (k, ok) := s.k.GiveRecursive(High);
      s.(k := k, errorOccurred := s.errorOccurred || ok, c := TakeIt(0))
    case TakeIt(ux) =>
      var (k, r) := s.k.TakeRecursive(High, !s.expired);
      if r.Waits? then s.(k := k)
      else s.(k := k, expired := false, errorOccurred := s.errorOccurred || r.Refused?, c := SleepTaken(ux))
    case SleepTaken(ux) =>
      s.(k := s.k.SetStatus(High, Delayed), c := if ux + 1 < MAX_COUNT then TakeIt(ux + 1) else SleepGive(0))
    case SleepGive(ux) => s.(k := s.k.SetStatus(High, Delayed), c := GiveIt(ux))
    case GiveIt(ux) =>
      var (k, ok) := s.k.GiveRecursive(High);
      s.(k := k, errorOccurred := s.errorOccurred || !ok,
         c := if ux + 1 < MAX_COUNT then SleepGive(ux + 1) else GiveLate)
    case GiveLate =>
      var (k, ok) := s.k.GiveRecursive(High);
      s.(k := k, errorOccurred := s.errorOccurred || ok, c := CountCycle)
    case CountCycle => s.(controllingCycles := Inc(s.controllingCycles), c := Announce)
    case Announce => s.(controllingIsSuspended := true, c := SuspendSelf)
    case SuspendSelf => s.(k := s.k.SetStatus(High, Suspended), c := Resumed)
    case Resumed => s.(controllingIsSuspended := false, c := GiveEarly)
  }

  function BlockingStep(s: State): State {
    match s.b
    case TakeWait =>
      var (k, r) := s.k.TakeRecursive(Mid, true);
      s.(k := k, b := if r.Got? then CheckFlag else TakeWait)
    case CheckFlag =>
      if s.controllingIsSuspended then s.(b := GiveBack) else s.(errorOccurred := true, b := CheckCycles)
    case GiveBack =>
      var (k, ok) := s.k.GiveRecursive(Mid);
      s.(k := k, errorOccurred := s.errorOccurred || !ok, b := SayAsleep)
    case SayAsleep => s.(blockingIsSuspended := true, b := Sleep)
    case Sleep => s.(k := s.k.SetStatus(Mid, Suspended), b := SayAwake)
    case SayAwake => s.(blockingIsSuspended := false, b := CheckCycles)
    case CheckCycles =>
      s.(errorOccurred := s.errorOccurred || s.controllingCycles != Inc(s.blockingCycles), b := BumpCycles)
    case BumpCycles => s.(blockingCycles := Inc(s.blockingCycles), b := TakeWait)
  }

  function PollingStep(s: State): State {
    match s.p
    case TryTake =>
      var (k, r) := s.k.TakeRecursive(Low, false);
      s.(k := k, p := if r.Got? then CheckBoth else TryTake)
    case CheckBoth =>
      if !s.blockingIsSuspended || !s.controllingIsSuspended
      then s.(errorOccurred := true, p := TryTake)
      else s.(p := BumpPolls)
    case BumpPolls => s.(pollingCycles := Inc(s.pollingCycles), p := WakeBlocking)
    case WakeBlocking => s.(k := s.k.Resume(Mid), p := WakeControlling)
    case WakeControlling => s.(k := s.k.Resume(High), p := CheckAwake)
    case CheckAwake =>
      s.(errorOccurred := s.errorOccurred || s.blockingIsSuspended || s.controllingIsSuspended, p := GiveFree)
    case GiveFree =>
      var (k, ok) := s.k.GiveRecursive(Low);
      s.(k := k, errorOccurred := s.errorOccurred || !ok, p := TryTake)
  }

  function Step(s: State, e: Event): State {
    match e
    case Run(t) =>
      if !s.k.Runs(t) then s else
      (match t
       case High => ControllingStep(s)
       case Mid => BlockingStep(s)
       case Low => PollingStep(s))
    case DelayOver => if s.k.Is(High, Delayed) then s.(k := s.k.SetStatus(High, Ready)) else s
    case Expiry => if s.k.Is(High, Blocked) then s.(k := s.k.SetStatus(High, Ready), expired := true) else s
  }

  function Exec(s: State, evs: seq<Event>): State
    decreases |evs|
  {
    if evs == [] then s else Step(Exec(s, evs[..|evs| - 1]), evs[|evs| - 1])
  }

  /** vStartRecursiveMutexTasks: all three tasks ready at their own priorities. */
  const START := State(
    Kernel(Task(2, 2, Ready), Task(1, 1, Ready), Task(0, 0, Ready), Mutex(None, 0)),
    GiveEarly, TakeWait, TryTake, false, false, false, 0, 0, 0, false)

  // ----- the phases of one cycle -----------------------------------------------------------

  ghost predicate Bases(k: Kernel) {
    k.high.base == 2 && k.high.prio == 2 && k.mid.base == 1 && k.mid.prio == 1 && k.low.base == 0
  }

  ghost predicate Level(s: State) { s.controllingCycles == s.blockingCycles }

  ghost predicate OneAhead(s: State) { s.controllingCycles == Inc(s.blockingCycles) }

  ghost predicate BlockingWaits(s: State) {
    s.b.TakeWait? && (s.k.mid.status.Ready? || s.k.mid.status.Blocked?) && !s.blockingIsSuspended
  }

  ghost predicate ControllingOut(s: State) {
    s.c.Resumed? && s.k.high.status.Suspended? && s.controllingIsSuspended && !s.expired
  }

  ghost predicate BlockingOut(s: State) {
    s.b.SayAwake? && s.k.mid.status.Suspended? && s.blockingIsSuspended
  }

  ghost predicate Idle0(s: State) { s.p.TryTake? && s.k.low == Task(0, 0, Ready) }

  /** Nobody holds the mutex. */
  ghost predicate FreePhase(s: State) {
    && s.k.mutex.depth == 0 && Idle0(s)
    && (|| ((s.c.GiveEarly? || s.c == TakeIt(0)) && s.k.high.status.Ready? && BlockingWaits(s)
            && !s.controllingIsSuspended && Level(s))
        || ((s.c.GiveLate? || s.c.CountCycle?) && s.k.high.status.Ready? && !s.expired
            && s.b.TakeWait? && s.k.mid.status.Ready? && !s.blockingIsSuspended
            && !s.controllingIsSuspended && Level(s))
        || ((s.c.Announce? || s.c.SuspendSelf?) && s.k.high.status.Ready? && !s.expired
            && s.b.TakeWait? && s.k.mid.status.Ready? && !s.blockingIsSuspended
            && s.controllingIsSuspended == s.c.SuspendSelf? && OneAhead(s))
        || (ControllingOut(s) && OneAhead(s)
            && (|| ((s.b.TakeWait? || s.b.SayAsleep?) && s.k.mid.status.Ready? && !s.blockingIsSuspended)
                || (s.b.Sleep? && s.k.mid.status.Ready? && s.blockingIsSuspended)
                || BlockingOut(s))))
  }

  /** The controlling task holds it, as deep as its loops have gone. */
  ghost predicate ControllingPhase(s: State) {
    && Idle0(s) && BlockingWaits(s) && !s.controllingIsSuspended && Level(s) && !s.expired
    && (s.k.high.status.Ready? || s.k.high.status.Delayed?)
    && match s.c
       case TakeIt(ux) => 1 <= ux < MAX_COUNT && s.k.mutex.depth == ux
       case SleepTaken(ux) => ux < MAX_COUNT && s.k.mutex.depth == ux + 1
       case SleepGive(ux) => ux < MAX_COUNT && s.k.mutex.depth == MAX_COUNT - ux
       case GiveIt(ux) => ux < MAX_COUNT && s.k.mutex.depth == MAX_COUNT - ux
       case _ => false
  }

  /** The blocking task holds it, while the controlling task is suspended. */
  ghost predicate BlockingPhase(s: State) {
    && Idle0(s) && ControllingOut(s) && OneAhead(s) && !s.blockingIsSuspended
    && s.k.mid.status.Ready? && s.k.mutex.depth == 1 && (s.b.CheckFlag? || s.b.GiveBack?)
  }

  /** The polling task holds it and wakes the other two, inheriting as they queue up. */
  ghost predicate PollingPhase(s: State) {
    && s.k.low.status.Ready? && s.k.mutex.depth == 1
    && match s.p
       case TryTake => false
       case WakeControlling =>
         && ControllingOut(s)
         && (|| (s.b.SayAwake? && s.k.mid.status.Ready? && s.blockingIsSuspended && OneAhead(s) && s.k.low.prio == 0)
             || ((s.b.CheckCycles? || s.b.BumpCycles?) && s.k.mid.status.Ready?
                 && !s.blockingIsSuspended && OneAhead(s) && s.k.low.prio == 0)
             || (BlockingWaits(s) && Level(s) && s.k.low.prio == if s.k.mid.status.Blocked? then 1 else 0))
       case CheckAwake =>
         && BlockingWaits(s) && s.k.mid.status.Blocked? && Level(s)
         && (|| (s.c.Resumed? && s.k.high.status.Ready? && s.controllingIsSuspended && !s.expired && s.k.low.prio == 1)
             || ((s.c.GiveEarly? || s.c == TakeIt(0)) && s.k.high.status.Ready?
                 && !s.controllingIsSuspended && !s.expired && s.k.low.prio == 1)
             || ControllingQueued(s))
       case GiveFree => BlockingWaits(s) && s.k.mid.status.Blocked? && Level(s) && ControllingQueued(s)
       case _ => ControllingOut(s) && BlockingOut(s) && OneAhead(s) && s.k.low.prio == 0
  }

  /** The controlling task waits for the polling task's mutex, or its wait has just expired. */
  ghost predicate ControllingQueued(s: State) {
    && s.c == TakeIt(0) && !s.controllingIsSuspended && s.k.low.prio == 2
    && (if s.expired then s.k.high.status.Ready? else s.k.high.status.Blocked?)
  }

  ghost predicate Inv(s: State) {
    && Bases(s.k) && s.controllingCycles < TWO_32 && s.blockingCycles < TWO_32
    && match s.k.mutex.holder
       case None => FreePhase(s)
       case Some(High) => ControllingPhase(s)
       case Some(Mid) => BlockingPhase(s)
       case Some(Low) => PollingPhase(s)
  }

  /** The one statement that can go wrong: the controlling task's take after its block time
      has run out, with the mutex still held by another task. */
  ghost predicate TakeFails(s: State, e: Event) {
    e == Run(High) && s.k.Runs(High) && s.c.TakeIt? && s.expired
    && s.k.mutex.holder.Some? && s.k.mutex.holder != Some(High)
  }

  /** What the demo checks: each clause is one of its statements finding something wrong. */
  ghost predicate CheckFails(s: State, e: Event) {
    var holder := s.k.mutex.holder;
    e.Run? && s.k.Runs(e.t) &&
    match e.t
    case High =>
      || ((s.c.GiveEarly? || s.c.GiveLate?) && holder == Some(High))
      || (s.c.GiveIt? && holder != Some(High))
      || TakeFails(s, e)
    case Mid =>
      || (s.b.CheckFlag? && !s.controllingIsSuspended)
      || (s.b.GiveBack? && holder != Some(Mid))
      || (s.b.CheckCycles? && s.controllingCycles != Inc(s.blockingCycles))
    case Low =>
      || (s.p.CheckBoth? && !(s.controllingIsSuspended && s.blockingIsSuspended))
      || (s.p.CheckAwake? && (s.controllingIsSuspended || s.blockingIsSuspended))
      || (s.p.GiveFree? && holder != Some(Low))
  }

  /** The latch is set by these checks and by nothing else, in any state whatever. */
  lemma ChecksSetTheLatch(s: State, e: Event)
    ensures Step(s, e).errorOccurred <==> s.errorOccurred || CheckFails(s, e)
  {
    match e {
      case Run(High) => if s.k.Runs(High) { ControllingChecks(s); }
      case Run(Mid) => if s.k.Runs(Mid) { BlockingChecks(s); }
      case Run(Low) => if s.k.Runs(Low) { PollingChecks(s); }
      case _ =>
    }
  }

  lemma ControllingChecks(s: State)
    requires s.k.Runs(High)
    ensures ControllingStep(s).errorOccurred <==> s.errorOccurred || CheckFails(s, Run(High))
  {
  }

  lemma BlockingChecks(s: State)
    requires s.k.Runs(Mid)
    ensures BlockingStep(s).errorOccurred <==> s.errorOccurred || CheckFails(s, Run(Mid))
  {
  }

  lemma PollingChecks(s: State)
    requires s.k.Runs(Low)
    ensures PollingStep(s).errorOccurred <==> s.errorOccurred || CheckFails(s, Run(Low))
  {
  }

  lemma ControllingKeepsFree(s: State)
    requires Inv(s) && s.k.Runs(High) && s.k.mutex.holder.None?
    ensures Inv(ControllingStep(s)) && ControllingStep(s).errorOccurred == s.errorOccurred
  {
  }

  lemma ControllingKeepsGiving(s: State)
    requires Inv(s) && s.k.Runs(High) && s.k.mutex.holder == Some(High) && s.c.GiveIt?
    ensures Inv(ControllingStep(s)) && ControllingStep(s).errorOccurred == s.errorOccurred
  {
  }

  lemma ControllingKeepsOwn(s: State)
    requires Inv(s) && s.k.Runs(High) && s.k.mutex.holder == Some(High)
    ensures Inv(ControllingStep(s)) && ControllingStep(s).errorOccurred == s.errorOccurred
  {
    if s.c.GiveIt? {
      ControllingKeepsGiving(s);
    }
  }

  lemma ControllingKeepsPolled(s: State)
    requires Inv(s) && s.k.Runs(High) && s.k.mutex.holder == Some(Low) && !TakeFails(s, Run(High))
    ensures Inv(ControllingStep(s)) && ControllingStep(s).errorOccurred == s.errorOccurred
  {
  }

  lemma {:induction false} ControllingKeeps(s: State)
    requires Inv(s) && s.k.Runs(High) && !TakeFails(s, Run(High))
    ensures Inv(ControllingStep(s)) && ControllingStep(s).errorOccurred == s.errorOccurred
  {
    match s.k.mutex.holder
    case None => ControllingKeepsFree(s);
    case Some(High) => ControllingKeepsOwn(s);
    case Some(Low) => ControllingKeepsPolled(s);
    case Some(Mid) =>
  }

  lemma BlockingKeepsPolled(s: State)
    requires Inv(s) && s.k.Runs(Mid) && s.k.mutex.holder == Some(Low)
    ensures Inv(BlockingStep(s)) && BlockingStep(s).errorOccurred == s.errorOccurred
  {
  }

  lemma BlockingKeepsFree(s: State)
    requires Inv(s) && s.k.Runs(Mid) && s.k.mutex.holder.None?
    ensures Inv(BlockingStep(s)) && BlockingStep(s).errorOccurred == s.errorOccurred
  {
  }

  lemma BlockingKeeps(s: State)
    requires Inv(s) && s.k.Runs(Mid)
    ensures Inv(BlockingStep(s)) && BlockingStep(s).errorOccurred == s.errorOccurred
  {
    match s.k.mutex.holder {
      case Some(Low) => BlockingKeepsPolled(s);
      case None => BlockingKeepsFree(s);
      case _ =>
    }
  }

  lemma PollingKeepsOwn(s: State)
    requires Inv(s) && s.k.Runs(Low) && s.k.mutex.holder == Some(Low)
    ensures Inv(PollingStep(s)) && PollingStep(s).errorOccurred == s.errorOccurred
  {
  }

  lemma PollingKeeps(s: State)
    requires Inv(s) && s.k.Runs(Low)
    ensures Inv(PollingStep(s)) && PollingStep(s).errorOccurred == s.errorOccurred
  {
    if s.k.mutex.holder == Some(Low) {
      PollingKeepsOwn(s);
    }
  }

  lemma {:induction false} StepKeeps(s: State, e: Event)
    requires Inv(s) && !TakeFails(s, e)
    ensures Inv(Step(s, e)) && Step(s, e).errorOccurred == s.errorOccurred
  {
    match e
    case Run(High) => if s.k.Runs(High) { ControllingKeeps(s); }
    case Run(Mid) => if s.k.Runs(Mid) { BlockingKeeps(s); }
    case Run(Low) => if s.k.Runs(Low) { PollingKeeps(s); }
    case DelayOver =>
    case Expiry =>
  }

  /** Some statement of the run was the failing take. */
  ghost predicate SomeTakeFails(evs: seq<Event>) {
    exists n :: 0 <= n < |evs| && TakeFails(Exec(START, evs[..n]), evs[n])
  }

  lemma {:induction false} GoodRunKeeps(evs: seq<Event>)
    requires !SomeTakeFails(evs)
    ensures Inv(Exec(START, evs)) && !Exec(START, evs).errorOccurred
    decreases |evs|
  {
    if evs == [] {
    } else {
      var front := evs[..|evs| - 1];
      assert forall n :: 0 <= n < |front| ==> front[..n] == evs[..n];
      GoodRunKeeps(front);
      StepKeeps(Exec(START, front), evs[|evs| - 1]);
    }
  }

  lemma StepLatches(s: State, e: Event)
    ensures s.errorOccurred ==> Step(s, e).errorOccurred
    ensures Step(s, e).expired ==> s.expired || e.Expiry?
  {
  }

  lemma {:induction false} ErrorIsLatched(evs: seq<Event>, n: nat)
    requires n <= |evs| && Exec(START, evs[..n]).errorOccurred
    ensures Exec(START, evs).errorOccurred
    decreases |evs|
  {
    if n == |evs| {
      assert evs[..n] == evs;
    } else {
      assert evs[..|evs| - 1][..n] == evs[..n];
      ErrorIsLatched(evs[..|evs| - 1], n);
      StepLatches(Exec(START, evs[..|evs| - 1]), evs[|evs| - 1]);
    }
  }

  lemma ExecTo(evs: seq<Event>, n: nat)
    requires n < |evs|
    ensures Exec(START, evs[..n + 1]) == Step(Exec(START, evs[..n]), evs[n])
  {
    assert evs[..n + 1][..n] == evs[..n];
  }

  lemma FailedTakeSets(s: State, e: Event)
    requires TakeFails(s, e)
    ensures Step(s, e).errorOccurred
  {
  }

  /** On every run of the three tasks, under every scheduling the priorities allow, the error
      latch is set exactly when the two-tick take ran out with the mutex still held. */
  lemma {:induction false} ErrorIffTakeFails(evs: seq<Event>)
    ensures Exec(START, evs).errorOccurred <==> SomeTakeFails(evs)
  {
    if SomeTakeFails(evs) {
      var n :| 0 <= n < |evs| && TakeFails(Exec(START, evs[..n]), evs[n]);
      FailedTakeSets(Exec(START, evs[..n]), evs[n]);
      ExecTo(evs, n);
      ErrorIsLatched(evs, n + 1);
    } else {
      GoodRunKeeps(evs);
    }
  }

  /** A run in which no take expires reports no error. */
  lemma {:induction false} NoExpiryNoError(evs: seq<Event>)
    requires Expiry !in evs
    ensures !Exec(START, evs).errorOccurred
  {
    forall n | 0 <= n < |evs| ensures !TakeFails(Exec(START, evs[..n]), evs[n]) {
      NeverExpired(evs[..n]);
    }
    ErrorIffTakeFails(evs);
  }

  lemma {:induction false} NeverExpired(evs: seq<Event>)
    requires Expiry !in evs
    ensures !Exec(START, evs).expired
    decreases |evs|
  {
    if evs == [] {
    } else {
      NeverExpired(evs[..|evs| - 1]);
      StepLatches(Exec(START, evs[..|evs| - 1]), evs[|evs| - 1]);
    }
  }

  /** What the demo sets out to show: a task about to give is the holder; the blocking task
      past its take finds the controlling task suspended; the polling task past its take finds
      both suspended, and gives while running at the controlling task's priority; the cycle
      counts are in lock step where they are compared. */
  ghost predicate DemoFacts(s: State) {
    && (s.c.GiveIt? ==> s.k.mutex.holder == Some(High))
    && (s.c.GiveEarly? || s.c.GiveLate? ==> s.k.mutex.holder != Some(High))
    && (s.c == SleepGive(0) ==> s.k.mutex.holder == Some(High) && s.k.mutex.depth == 10)
    && (s.b.CheckFlag? || s.b.GiveBack? ==>
          s.k.mutex.holder == Some(Mid) && s.k.Is(High, Suspended) && s.controllingIsSuspended)
    && (s.p.CheckBoth? || s.p.BumpPolls? || s.p.WakeBlocking? ==>
          s.k.mutex.holder == Some(Low) && s.k.Is(High, Suspended) && s.k.Is(Mid, Suspended))
    && (s.p.GiveFree? ==> s.k.mutex.holder == Some(Low) && s.k.low.prio == 2 && s.k.low.base == 0)
    && (s.b.CheckCycles? ==> s.controllingCycles == Inc(s.blockingCycles))
  }

  lemma InvGivesFacts(s: State)
    requires Inv(s)
    ensures DemoFacts(s)
  {
  }

  lemma {:induction false} EveryGoodRunShowsTheDemo(evs: seq<Event>)
    requires !SomeTakeFails(evs)
    ensures DemoFacts(Exec(START, evs))
  {
    GoodRunKeeps(evs);
    InvGivesFacts(Exec(START, evs));
  }

  // ----- the demo as a run of the kernel ---------------------------------------------------

  /** The calls of the kernel that the statements of each task make, if any. */
  function ControllingOp(s: State): Option<Op> {
    match s.c
    case TakeIt(_) => Some(TakeRecOp(High, !s.expired))
    case SleepTaken(_) => Some(DelayOp(High))
    case SleepGive(_) => Some(DelayOp(High))
    case SuspendSelf => Some(SuspendOp(High))
    case GiveEarly => Some(GiveRecOp(High))
    case GiveIt(_) => Some(GiveRecOp(High))
    case GiveLate => Some(GiveRecOp(High))
    case _ => None
  }

  function BlockingOp(s: State): Option<Op> {
    match s.b
    case TakeWait => Some(TakeRecOp(Mid, true))
    case GiveBack => Some(GiveRecOp(Mid))
    case Sleep => Some(SuspendOp(Mid))
    case _ => None
  }

  function PollingOp(s: State): Option<Op> {
    match s.p
    case TryTake => Some(TakeRecOp(Low, false))
    case WakeBlocking => Some(ResumeOp(Low, Mid))
    case WakeControlling => Some(ResumeOp(Low, High))
    case GiveFree => Some(GiveRecOp(Low))
    case _ => None
  }

  function OpOf(s: State, e: Event): Option<Op> {
    match e
    case DelayOver => Some(DelayEnds(High))
    case Expiry => Some(BlockTimeEnds(High))
    case Run(t) =>
      if !s.k.Runs(t) then None else
      match t case High => ControllingOp(s) case Mid => BlockingOp(s) case Low => PollingOp(s)
  }

  function AfterOp(k: Kernel, op: Option<Op>): Kernel { if op.Some? then Apply(k, op.value) else k }

  lemma ControllingIsOp(s: State)
    requires s.k.Runs(High)
    ensures ControllingStep(s).k == AfterOp(s.k, ControllingOp(s))
  {
  }

  lemma BlockingIsOp(s: State)
    requires s.k.Runs(Mid)
    ensures BlockingStep(s).k == AfterOp(s.k, BlockingOp(s))
  {
  }

  lemma PollingIsOp(s: State)
    requires s.k.Runs(Low)
    ensures PollingStep(s).k == AfterOp(s.k, PollingOp(s))
  {
  }

  lemma EventIsOp(s: State, e: Event)
    ensures Step(s, e).k == AfterOp(s.k, OpOf(s, e))
  {
    match e {
      case Run(High) => if s.k.Runs(High) { ControllingIsOp(s); }
      case Run(Mid) => if s.k.Runs(Mid) { BlockingIsOp(s); }
      case Run(Low) => if s.k.Runs(Low) { PollingIsOp(s); }
      case _ =>
    }
  }

  lemma EventIsCareful(s: State, e: Event)
    requires Inv(s) && OpOf(s, e).Some?
    ensures Careful(s.k, OpOf(s, e).value)
  {
    SameHappens(s.k, OpOf(s, e).value);
    if s.k.mutex.holder.None? && (OpOf(s, e).value.SuspendOp? || OpOf(s, e).value.DelayOp?) {
      NobodyBlocked(s.k);
    }
  }

  /** The kernel calls of a run. */
  function Calls(evs: seq<Event>): seq<Op>
    decreases |evs|
  {
    if evs == [] then [] else
      var front := evs[..|evs| - 1];
      Then(Calls(front), OpOf(Exec(START, front), evs[|evs| - 1]))
  }

  /** A run without the failing take is a careful run of the kernel. */
  lemma {:induction false} GoodRunIsCareful(evs: seq<Event>)
    requires !SomeTakeFails(evs)
    ensures ApplyAll(START.k, Calls(evs)) == Exec(START, evs).k && CarefulRun(START.k, Calls(evs))
    decreases |evs|
  {
    if evs == [] {
    } else {
      var front, e := evs[..|evs| - 1], evs[|evs| - 1];
      assert forall n :: 0 <= n < |front| ==> front[..n] == evs[..n];
      GoodRunIsCareful(front);
      GoodRunKeeps(front);
      var s := Exec(START, front);
      EventIsOp(s, e);
      if OpOf(s, e).Some? {
        EventIsCareful(s, e);
      }
      ThenKeepsCareful(START.k, Calls(front), OpOf(s, e));
    }
  }

  /** So inheritance is in force throughout it. */
  lemma {:induction false} GoodRunInherits(evs: seq<Event>)
    requires !SomeTakeFails(evs)
    ensures Exec(START, evs).k.Inherited()
  {
    GoodRunIsCareful(evs);
    NobodyBlocked(START.k);
    AfterCareful(START.k, Calls(evs));
  }

  // ----- the cycles keep turning -----------------------------------------------------------

  /** Places the controlling task has to pass before it counts a cycle, from the announcement of
      the last one on. */
  function ControllingPlaces(c: Ctrl): nat {
    match c
    case Announce => 47
    case SuspendSelf => 46
    case Resumed => 45
    case GiveEarly => 44
    case TakeIt(ux) => if ux < MAX_COUNT then 23 + 2 * (MAX_COUNT - ux) else 0
    case SleepTaken(ux) => if ux < MAX_COUNT then 22 + 2 * (MAX_COUNT - ux) else 0
    case SleepGive(ux) => if ux < MAX_COUNT then 2 + 2 * (MAX_COUNT - ux) else 0
    case GiveIt(ux) => if ux < MAX_COUNT then 1 + 2 * (MAX_COUNT - ux) else 0
    case GiveLate => 1
    case CountCycle => 0
  }

  function StatusWork(t: Task): nat {
    match t.status case Delayed => 2 case Ready => 1 case Blocked => 0 case Suspended => 0
  }

  function BlockingWork(s: State): nat {
    2 * (match s.b
         case TakeWait => if s.controllingCycles == s.blockingCycles then 0 else 8
         case CheckFlag => 7
         case GiveBack => 6
         case SayAsleep => 5
         case Sleep => 4
         case SayAwake => 3
         case CheckCycles => 2
         case BumpCycles => 1)
    + StatusWork(s.k.mid)
  }

  function PollingWork(s: State): nat {
    match s.p
    case TryTake => if s.controllingCycles == s.blockingCycles then 0 else 7
    case CheckBoth => 6
    case BumpPolls => 5
    case WakeBlocking => 4
    case WakeControlling => 3
    case CheckAwake => 2
    case GiveFree => 1
  }

  /** A bound on the steps until the controlling task counts its next cycle. */
  function Rank(s: State): nat {
    3 * (3 * ControllingPlaces(s.c) + StatusWork(s.k.high)) + BlockingWork(s) + 6 * PollingWork(s)
  }

  predicate CountsCycle(s: State, e: Event) { e == Run(High) && s.k.Runs(High) && s.c.CountCycle? }

  lemma ControllingLowersRank(s: State)
    requires Inv(s) && s.k.Runs(High) && !TakeFails(s, Run(High)) && !s.c.CountCycle?
    ensures Rank(ControllingStep(s)) < Rank(s)
  {
  }

  lemma BlockingLowersRank(s: State)
    requires Inv(s) && s.k.Runs(Mid)
    ensures Rank(BlockingStep(s)) < Rank(s)
  {
  }

  lemma PollingLowersRank(s: State)
    requires Inv(s) && s.k.Runs(Low)
    ensures PollingStep(s) == s || Rank(PollingStep(s)) < Rank(s)
  {
  }

  /** Whatever happens, short of an expiry and of a fruitless poll, brings the next cycle count
      nearer, or is that count. */
  lemma {:induction false} StepLowersRank(s: State, e: Event)
    requires Inv(s) && !TakeFails(s, e) && !e.Expiry? && Step(s, e) != s
    ensures if CountsCycle(s, e) then Step(s, e).controllingCycles == Inc(s.controllingCycles)
            else Rank(Step(s, e)) < Rank(s)
  {
    match e {
      case Run(High) => if !s.c.CountCycle? { ControllingLowersRank(s); }
      case Run(Mid) => BlockingLowersRank(s);
      case Run(Low) => PollingLowersRank(s);
      case DelayOver =>
    }
  }

  /** No reachable state is stuck: a statement that changes something, or the end of a delay, is
      always to come. */
  lemma NeverStuck(s: State) returns (e: Event)
    requires Inv(s)
    ensures !e.Expiry? && Step(s, e) != s
  {
    e := if s.k.Runs(High) then Run(High) else if s.k.Runs(Mid) then Run(Mid)
         else if s.k.Is(High, Delayed) then DelayOver else Run(Low);
  }

  /** Every event of the schedule does something, and none is an expiry. */
  ghost predicate Effective(s: State, evs: seq<Event>)
    decreases |evs|
  {
    evs == [] || (!evs[0].Expiry? && Step(s, evs[0]) != s && Effective(Step(s, evs[0]), evs[1..]))
  }

  ghost predicate Counts(s: State, evs: seq<Event>)
    decreases |evs|
  {
    evs != [] && (CountsCycle(s, evs[0]) || Counts(Step(s, evs[0]), evs[1..]))
  }

  /** The demo keeps cycling: without expiries, every schedule that does something more than
      Rank(s) times has counted a controlling cycle, and by the lock step the others' with it. */
  lemma {:induction false} EveryScheduleCounts(s: State, evs: seq<Event>)
    requires Inv(s) && !s.expired && Effective(s, evs) && |evs| > Rank(s)
    ensures Counts(s, evs)
    decreases |evs|
  {
    var e := evs[0];
    StepLowersRank(s, e);
    StepLatches(s, e);
    if !CountsCycle(s, e) {
      StepKeeps(s, e);
      EveryScheduleCounts(Step(s, e), evs[1..]);
    }
  }

  // ----- a whole cycle does happen, and the take can fail in it -----------------------------

  ghost predicate Reaches(s: State) { exists evs: seq<Event> :: Exec(START, evs) == s }

  lemma ReachStep(s: State, e: Event)
    requires Reaches(s)
    ensures Reaches(Step(s, e))
  {
    var evs: seq<Event> :| Exec(START, evs) == s;
    assert (evs + [e])[..|evs|] == evs;
    assert Exec(START, evs + [e]) == Step(s, e);
  }

  function Held(d: nat): Kernel { START.k.(mutex := if d == 0 then Mutex(None, 0) else Mutex(Some(High), d)) }

  function Taking(ux: nat): State { START.(k := Held(ux), c := if ux < MAX_COUNT then TakeIt(ux) else SleepGive(0)) }

  function Giving(ux: nat): State
    requires ux <= MAX_COUNT
  {
    START.(k := Held(MAX_COUNT - ux), c := if ux < MAX_COUNT then SleepGive(ux) else GiveLate)
  }

  lemma {:induction false} TakeLoop(ux: nat)
    requires ux <= MAX_COUNT
    ensures Reaches(Taking(ux))
  {
    if ux == 0 {
      assert Exec(START, []) == START;
      ReachStep(START, Run(High));
    } else {
      var s := Taking(ux - 1);
      TakeLoop(ux - 1);
      ReachStep(s, Run(High));
      var s1 := s.(k := Held(ux), c := SleepTaken(ux - 1));
      TakeOne(s, s1, ux);
      ReachStep(s1, Run(High));
      var s2 := s1.(k := Held(ux).SetStatus(High, Delayed), c := Taking(ux).c);
      assert Step(s1, Run(High)) == s2;
      ReachStep(s2, DelayOver);
      assert Step(s2, DelayOver) == Taking(ux);
    }
  }

  lemma TakeOne(s: State, t: State, ux: nat)
    requires 1 <= ux <= MAX_COUNT && s == Taking(ux - 1)
    requires t == s.(k := Held(ux), c := SleepTaken(ux - 1))
    ensures Step(s, Run(High)) == t
  {
  }

  lemma ReachNext(s: State, e: Event, t: State)
    requires Reaches(s) && Step(s, e) == t
    ensures Reaches(t)
  {
    ReachStep(s, e);
  }

  lemma GiveOne(s: State, ux: nat)
    requires 1 <= ux <= MAX_COUNT && s == Giving(ux - 1).(c := GiveIt(ux - 1))
    ensures Step(s, Run(High)) == Giving(ux)
  {
  }

  lemma {:induction false} GiveLoop(ux: nat)
    requires ux <= MAX_COUNT
    ensures Reaches(Giving(ux))
  {
    if ux == 0 {
      TakeLoop(MAX_COUNT);
      assert Taking(MAX_COUNT) == Giving(0);
    } else {
      GiveLoop(ux - 1);
      SleepThenGive(ux);
    }
  }

  lemma SleepThenGive(ux: nat)
    requires 1 <= ux <= MAX_COUNT && Reaches(Giving(ux - 1))
    ensures Reaches(Giving(ux))
  {
    var s := Giving(ux - 1);
    var s1 := s.(k := s.k.SetStatus(High, Delayed), c := GiveIt(ux - 1));
    var s2 := s.(c := GiveIt(ux - 1));
    ReachNext(s, Run(High), s1);
    ReachNext(s1, DelayOver, s2);
    GiveOne(s2, ux);
    ReachNext(s2, Run(High), Giving(ux));
  }

  function Asleep(k: Kernel): Kernel { k.SetStatus(High, Suspended) }

  /** The controlling task has finished its cycle and is suspended. */
  lemma ReachControllingOut(s: State)
    requires s == START.(k := Asleep(Held(0)), c := Resumed, controllingIsSuspended := true, controllingCycles := 1)
    ensures Reaches(s)
  {
    GiveLoop(MAX_COUNT);
    var s0 := Giving(MAX_COUNT);
    var s1 := s0.(c := CountCycle);
    var s2 := s1.(c := Announce, controllingCycles := 1);
    LateGiveAndCount(s0, s1, s2);
    var s3 := s2.(c := SuspendSelf, controllingIsSuspended := true);
    ReachNext(s2, Run(High), s3);
    ReachNext(s3, Run(High), s);
  }

  lemma LateGiveAndCount(s: State, s1: State, s2: State)
    requires Reaches(s) && s.c.GiveLate? && s.k.Runs(High) && s.k.mutex.holder.None?
    requires s1 == s.(c := CountCycle) && s2 == s1.(c := Announce, controllingCycles := Inc(s.controllingCycles))
    ensures Reaches(s2)
  {
    ReachNext(s, Run(High), s1);
    ReachNext(s1, Run(High), s2);
  }

  /** Both upper tasks are suspended and the polling task has the mutex. */
  lemma ReachPolled(s: State, t: State)
    requires s == START.(k := Asleep(Held(0)), c := Resumed, controllingIsSuspended := true, controllingCycles := 1)
    requires t == s.(k := Asleep(Held(0)).SetStatus(Mid, Suspended).(mutex := Mutex(Some(Low), 1)),
                     b := SayAwake, blockingIsSuspended := true, p := CheckBoth)
    ensures Reaches(t)
  {
    ReachControllingOut(s);
    var s1 := s.(k := s.k.(mutex := Mutex(Some(Mid), 1)), b := CheckFlag);
    ReachNext(s, Run(Mid), s1);
    var s2 := s1.(b := GiveBack);
    ReachNext(s1, Run(Mid), s2);
    var s3 := s.(b := SayAsleep);
    ReachNext(s2, Run(Mid), s3);
    BlockingOutThenPoll(s3, t);
  }

  lemma BlockingOutThenPoll(s: State, t: State)
    requires Reaches(s) && s.k == Asleep(Held(0)) && s.b.SayAsleep? && s.p.TryTake?
    requires t == s.(k := Asleep(Held(0)).SetStatus(Mid, Suspended).(mutex := Mutex(Some(Low), 1)),
                     b := SayAwake, blockingIsSuspended := true, p := CheckBoth)
    ensures Reaches(t)
  {
    var s1 := s.(b := Sleep, blockingIsSuspended := true);
    ReachNext(s, Run(Mid), s1);
    var s2 := s1.(k := s.k.SetStatus(Mid, Suspended), b := SayAwake);
    ReachNext(s1, Run(Mid), s2);
    ReachNext(s2, Run(Low), t);
  }

  /** The blocking task, woken, has queued up behind the polling task, which has inherited. */
  lemma ReachInherited(t: State, u: State)
    requires Reaches(t) && t.c.Resumed? && t.b.SayAwake? && t.p.CheckBoth? && t.expired == false
    requires t.controllingIsSuspended && t.blockingIsSuspended && t.controllingCycles == 1 && t.blockingCycles == 0
    requires t.k == Kernel(Task(2, 2, Suspended), Task(1, 1, Suspended), Task(0, 0, Ready), Mutex(Some(Low), 1))
    requires u == t.(k := Kernel(Task(2, 2, Suspended), Task(1, 1, Blocked), Task(0, 1, Ready), Mutex(Some(Low), 1)),
                     b := TakeWait, p := WakeControlling, blockingIsSuspended := false, blockingCycles := 1,
                     pollingCycles := Inc(t.pollingCycles))
    ensures Reaches(u)
  {
    var t1 := t.(p := BumpPolls);
    ReachNext(t, Run(Low), t1);
    var t2 := t1.(p := WakeBlocking, pollingCycles := Inc(t.pollingCycles));
    ReachNext(t1, Run(Low), t2);
    var t3 := t2.(k := t.k.SetStatus(Mid, Ready), p := WakeControlling);
    ReachNext(t2, Run(Low), t3);
    BlockingQueues(t3, u);
  }

  lemma BlockingQueues(t: State, u: State)
    requires Reaches(t) && t.b.SayAwake? && t.controllingCycles == 1 && t.blockingCycles == 0
    requires t.k == Kernel(Task(2, 2, Suspended), Task(1, 1, Ready), Task(0, 0, Ready), Mutex(Some(Low), 1))
    requires u == t.(k := Kernel(Task(2, 2, Suspended), Task(1, 1, Blocked), Task(0, 1, Ready), Mutex(Some(Low), 1)),
                     b := TakeWait, blockingIsSuspended := false, blockingCycles := 1)
    ensures Reaches(u)
  {
    var t1 := t.(b := CheckCycles, blockingIsSuspended := false);
    ReachNext(t, Run(Mid), t1);
    var t2 := t1.(b := BumpCycles);
    ReachNext(t1, Run(Mid), t2);
    var t3 := t2.(b := TakeWait, blockingCycles := 1);
    ReachNext(t2, Run(Mid), t3);
    ReachNext(t3, Run(Mid), u);
  }

  /** A whole cycle with its polling-task hand-over does happen, and if the block time then
      runs out before the polling task gives, the latch is set: the hypothesis is needed. */
  lemma ExpiryCanSetTheLatch()
    ensures exists evs: seq<Event> :: Exec(START, evs).pollingCycles == 1 && Exec(START, evs).errorOccurred
  {
    var s := START.(k := Asleep(Held(0)), c := Resumed, controllingIsSuspended := true, controllingCycles := 1);
    var t := s.(k := Asleep(Held(0)).SetStatus(Mid, Suspended).(mutex := Mutex(Some(Low), 1)),
                b := SayAwake, blockingIsSuspended := true, p := CheckBoth);
    ReachPolled(s, t);
    var u := t.(k := Kernel(Task(2, 2, Suspended), Task(1, 1, Blocked), Task(0, 1, Ready), Mutex(Some(Low), 1)),
                b := TakeWait, p := WakeControlling, blockingIsSuspended := false, blockingCycles := 1,
                pollingCycles := 1);
    ReachInherited(t, u);
    var v := ReachExpired(u);
    ReachStep(v, Run(High));
    assert Step(v, Run(High)).errorOccurred && Step(v, Run(High)).pollingCycles == 1;
  }

  lemma ReachExpired(u: State) returns (v: State)
    requires Reaches(u) && u.c.Resumed? && u.p.WakeControlling? && !u.expired
    requires u.k == Kernel(Task(2, 2, Suspended), Task(1, 1, Blocked), Task(0, 1, Ready), Mutex(Some(Low), 1))
    ensures Reaches(v) && TakeFails(v, Run(High)) && v.pollingCycles == u.pollingCycles
  {
    var u1 := u.(k := u.k.SetStatus(High, Ready), p := CheckAwake);
    ReachNext(u, Run(Low), u1);
    var u2 := u1.(c := GiveEarly, controllingIsSuspended := false);
    ReachNext(u1, Run(High), u2);
    var u3 := u2.(c := TakeIt(0));
    ReachNext(u2, Run(High), u3);
    var u4 := u3.(k := Kernel(Task(2, 2, Blocked), Task(1, 1, Blocked), Task(0, 2, Ready), Mutex(Some(Low), 1)));
    ReachNext(u3, Run(High), u4);
    ReachStep(u4, Expiry);
    v := Step(u4, Expiry);
  }
}
