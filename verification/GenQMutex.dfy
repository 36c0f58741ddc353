/** The mutex half of the generic-queue demo: a low, a medium and a high priority task show
    priority inheritance, an explicit priority change made while inheriting, and the fall back
    to the new base priority on the give. Each transition is one statement. */
module GenQMutex {
  import opened Common
  import opened Kernel
  import opened KernelRuns

  const LOW_PRIORITY: nat := 0
  const TEST_PRIORITY: nat := 1
  const MEDIUM_PRIORITY: nat := 2
  const HIGH_PRIORITY: nat := 3

  /** Program points of prvLowPriorityMutexTask, in order. */
  datatype LowPc =
    | TakeMutex | ClearVar | CheckLow | ResumeHigh | CheckInherited | SetTest | CheckStillHigh
    | ResumeMedium | CheckZero | GiveMutex | CheckOne | CheckTest | SetLow | CountLoop

  datatype MediumPc = MediumSuspend | Increment

  datatype HighPc = HighSuspend | HighTake | HighGive

  datatype State = State(k: Kernel, l: LowPc, m: MediumPc, h: HighPc, guarded: nat, loops: nat, error: bool)

  function LowStep(s: State): State {
    match s.l
    case TakeMutex =>
      var (k, r) := s.k.Take(Low, false);
      s.(k := k, error := s.error || !r.Got?, l := ClearVar)
    case ClearVar => s.(guarded := 0, l := CheckLow)
    case CheckLow => s.(error := s.error || s.k.low.prio != LOW_PRIORITY, l := ResumeHigh)
    case ResumeHigh => s.(k := s.k.Resume(High), l := CheckInherited)
    case CheckInherited => s.(error := s.error || s.k.low.prio != HIGH_PRIORITY, l := SetTest)
    case SetTest => s.(k := s.k.SetPriority(Low, TEST_PRIORITY), l := CheckStillHigh)
    case CheckStillHigh => s.(error := s.error || s.k.low.prio != HIGH_PRIORITY, l := ResumeMedium)
    case ResumeMedium => s.(k := s.k.Resume(Mid), l := CheckZero)
    case CheckZero => s.(error := s.error || s.guarded != 0, l := GiveMutex)
    case GiveMutex =>
      var (k, ok) := s.k.Give();
      s.(k := k, error := s.error || !ok, l := CheckOne)
    case CheckOne => s.(error := s.error || s.guarded != 1, l := CheckTest)
    case CheckTest => s.(error := s.error || s.k.low.prio != TEST_PRIORITY, l := SetLow)
    case SetLow => s.(k := s.k.SetPriority(Low, LOW_PRIORITY), l := CountLoop)
    case CountLoop => s.(loops := (s.loops + 1) % TWO_32, l := TakeMutex)
  }

  function MediumStep(s: State): State {
    match s.m
    case MediumSuspend => s.(k := s.k.SetStatus(Mid, Suspended), m := Increment)
    case Increment => s.(guarded := (s.guarded + 1) % TWO_32, m := MediumSuspend)
  }

  function HighStep(s: State): State {
    match s.h
    case HighSuspend => s.(k := s.k.SetStatus(High, Suspended), h := HighTake)
    case HighTake =>
      var (k, r) := s.k.Take(High, true);
      s.(k := k, h := if r.Got? then HighGive else HighTake)
    case HighGive =>
      var (k, ok) := s.k.Give();
      s.(k := k, error := s.error || !ok, h := HighSuspend)
  }

  function Step(s: State, t: TaskId): State {
    if !s.k.Runs(t) then s else
    match t
    case High => HighStep(s)
    case Mid => MediumStep(s)
    case Low => LowStep(s)
  }

  function Exec(s: State, ts: seq<TaskId>): State
    decreases |ts|
  {
    if ts == [] then s else Step(Exec(s, ts[..|ts| - 1]), ts[|ts| - 1])
  }

  /** vStartGenericQueueTasks: three ready tasks and a free mutex. */
  const START := State(
    Kernel(Task(3, 3, Ready), Task(2, 2, Ready), Task(0, 0, Ready), Mutex(None, 0)),
    TakeMutex, MediumSuspend, HighSuspend, 0, 0, false)

  /** What the demo checks: each clause is one of its statements finding something wrong. */
  predicate CheckFails(s: State, t: TaskId) {
    var prio, holder := s.k.low.prio, s.k.mutex.holder;
    s.k.Runs(t) &&
    match t
    case Low =>
      || (s.l.TakeMutex? && holder.Some?) || (s.l.GiveMutex? && holder.None?)
      || (s.l.CheckLow? && prio != 0) || (s.l.CheckInherited? && prio != 3)
      || (s.l.CheckStillHigh? && prio != 3) || (s.l.CheckTest? && prio != 1)
      || (s.l.CheckZero? && s.guarded != 0) || (s.l.CheckOne? && s.guarded != 1)
    case Mid => false
    case High => s.h.HighGive? && holder.None?
  }

  /** The latch is set by these checks and by nothing else, in any state whatever. */
  lemma ChecksSetTheLatch(s: State, t: TaskId)
    ensures Step(s, t).error <==> s.error || CheckFails(s, t)
  {
  }

  // ----- the phases of one cycle -----------------------------------------------------------

  ghost predicate HighOut(s: State) { s.h.HighTake? && s.k.high == Task(3, 3, Suspended) }

  ghost predicate HighQueued(s: State) { s.h.HighTake? && s.k.high == Task(3, 3, Blocked) }

  ghost predicate MediumOut(s: State) { s.m.Increment? && s.k.mid == Task(2, 2, Suspended) }

  ghost predicate MediumWoken(s: State) { s.m.Increment? && s.k.mid == Task(2, 2, Ready) }

  ghost predicate MediumSpent(s: State) { s.m.MediumSuspend? && s.k.mid == Task(2, 2, Ready) }

  /** The low task runs at priority p over base b, and the mutex is in the given hands. */
  ghost predicate LowIs(s: State, b: nat, p: nat, holder: Option<TaskId>) {
    s.k.low == Task(b, p, Ready) && s.k.mutex.holder == holder
  }

  ghost predicate Inv(s: State) {
    match s.l
    case TakeMutex =>
      && LowIs(s, 0, 0, None)
      && (HighOut(s) || (s.h.HighSuspend? && s.k.high == Task(3, 3, Ready)))
      && (MediumOut(s) || MediumSpent(s))
    case ClearVar => LowIs(s, 0, 0, Some(Low)) && HighOut(s) && MediumOut(s)
    case CheckLow => LowIs(s, 0, 0, Some(Low)) && HighOut(s) && MediumOut(s) && s.guarded == 0
    case ResumeHigh => LowIs(s, 0, 0, Some(Low)) && HighOut(s) && MediumOut(s) && s.guarded == 0
    case CheckInherited =>
      && (|| (LowIs(s, 0, 0, Some(Low)) && s.h.HighTake? && s.k.high == Task(3, 3, Ready))
          || (LowIs(s, 0, 3, Some(Low)) && HighQueued(s)))
      && MediumOut(s) && s.guarded == 0
    case SetTest => LowIs(s, 0, 3, Some(Low)) && HighQueued(s) && MediumOut(s) && s.guarded == 0
    case CheckStillHigh => LowIs(s, 1, 3, Some(Low)) && HighQueued(s) && MediumOut(s) && s.guarded == 0
    case ResumeMedium => LowIs(s, 1, 3, Some(Low)) && HighQueued(s) && MediumOut(s) && s.guarded == 0
    case CheckZero => LowIs(s, 1, 3, Some(Low)) && HighQueued(s) && MediumWoken(s) && s.guarded == 0
    case GiveMutex => LowIs(s, 1, 3, Some(Low)) && HighQueued(s) && MediumWoken(s) && s.guarded == 0
    case CheckOne => HandedOver(s)
    case CheckTest => LowIs(s, 1, 1, None) && HighOut(s) && MediumOut(s) && s.guarded == 1
    case SetLow => LowIs(s, 1, 1, None) && HighOut(s) && MediumOut(s) && s.guarded == 1
    case CountLoop => LowIs(s, 0, 0, None) && HighOut(s) && MediumOut(s) && s.guarded == 1
  }

  /** After the give: the high task takes, gives and suspends; then the medium task increments
      and suspends; only then can the low task run again. */
  ghost predicate HandedOver(s: State) {
    || (LowIs(s, 1, 1, None) && s.k.high == Task(3, 3, Ready) && !s.h.HighGive? && MediumWoken(s) && s.guarded == 0)
    || (LowIs(s, 1, 1, Some(High)) && s.k.high == Task(3, 3, Ready) && s.h.HighGive? && MediumWoken(s)
        && s.guarded == 0)
    || (LowIs(s, 1, 1, None) && HighOut(s) && MediumWoken(s) && s.guarded == 0)
    || (LowIs(s, 1, 1, None) && HighOut(s) && (MediumSpent(s) || MediumOut(s)) && s.guarded == 1)
  }

  lemma LowKeeps(s: State)
    requires Inv(s) && s.k.Runs(Low)
    ensures Inv(LowStep(s)) && LowStep(s).error == s.error
  {
  }

  lemma UpperKeep(s: State, t: TaskId)
    requires Inv(s) && s.k.Runs(t) && t != Low
    ensures Inv(Step(s, t)) && Step(s, t).error == s.error
  {
  }

  lemma {:induction false} EveryRunKeeps(ts: seq<TaskId>)
    ensures Inv(Exec(START, ts)) && !Exec(START, ts).error
    decreases |ts|
  {
    if ts == [] {
    } else {
      var s, t := Exec(START, ts[..|ts| - 1]), ts[|ts| - 1];
      EveryRunKeeps(ts[..|ts| - 1]);
      if s.k.Runs(t) {
        if t == Low { LowKeeps(s); } else { UpperKeep(s, t); }
      }
    }
  }

  /** What the demo shows on every run: from the moment the high task waits until the give, the
      low task runs at the high priority, whatever base priority it sets meanwhile; the medium
      task does not run in that time, so the variable stays 0; after the give the low task is
      at the base priority it had asked for, and when it next runs both others have had their
      turn and the variable is 1. */
  ghost predicate DemoFacts(s: State) {
    && (s.k.Is(High, Blocked) ==> s.k.low.prio == HIGH_PRIORITY && s.k.mutex.holder == Some(Low))
    && (s.k.Is(High, Blocked) ==> !s.k.Runs(Mid) && s.guarded == 0)
    && (s.l.CheckStillHigh? || s.l.ResumeMedium? || s.l.CheckZero? || s.l.GiveMutex? ==>
          s.k.low.base == TEST_PRIORITY && s.k.low.prio == HIGH_PRIORITY)
    && (s.l.CheckOne? ==> s.k.low.prio == TEST_PRIORITY)
    && (s.l.CheckOne? && s.k.Runs(Low) ==> s.guarded == 1 && s.k.Is(High, Suspended) && s.k.Is(Mid, Suspended))
    && s.k.Inherited() && s.k.BaseBelow()
  }

  lemma InvGivesFacts(s: State)
    requires Inv(s) && s.k.Inherited()
    ensures DemoFacts(s)
  {
  }

  /** The call of the kernel that a statement makes, if any. */
  function OpOf(s: State, t: TaskId): Option<Op> {
    if !s.k.Runs(t) then None else
    match t
    case High =>
      (match s.h
       case HighSuspend => Some(SuspendOp(High))
       case HighTake => Some(TakeOp(High, true))
       case HighGive => Some(GiveOp(High)))
    case Mid => if s.m.MediumSuspend? then Some(SuspendOp(Mid)) else None
    case Low =>
      match s.l
      case TakeMutex => Some(TakeOp(Low, false))
      case ResumeHigh => Some(ResumeOp(Low, High))
      case SetTest => Some(SetPriorityOp(Low, TEST_PRIORITY))
      case ResumeMedium => Some(ResumeOp(Low, Mid))
      case GiveMutex => Some(GiveOp(Low))
      case SetLow => Some(SetPriorityOp(Low, LOW_PRIORITY))
      case _ => None
  }

  lemma StepIsOp(s: State, t: TaskId)
    ensures var op := OpOf(s, t); Step(s, t).k == if op.Some? then Apply(s.k, op.value) else s.k
  {
  }

  /** A free mutex has no waiters in this demo, since the one the give readied runs next; and the
      low task lowers its priority only while it inherits, or with nobody waiting. */
  lemma StepIsCareful(s: State, t: TaskId)
    requires Inv(s) && OpOf(s, t).Some?
    ensures Careful(s.k, OpOf(s, t).value)
  {
    SameHappens(s.k, OpOf(s, t).value);
    if s.k.mutex.holder.None? {
      NobodyBlocked(s.k);
    }
  }

  /** The kernel calls of a run. */
  function Calls(ts: seq<TaskId>): seq<Op>
    decreases |ts|
  {
    if ts == [] then [] else
      var front := ts[..|ts| - 1];
      Then(Calls(front), OpOf(Exec(START, front), ts[|ts| - 1]))
  }

  /** Every run of the demo is a careful run of the kernel, so inheritance is in force throughout. */
  lemma {:induction false} EveryRunIsCareful(ts: seq<TaskId>)
    ensures ApplyAll(START.k, Calls(ts)) == Exec(START, ts).k && CarefulRun(START.k, Calls(ts))
    decreases |ts|
  {
    if ts == [] {
    } else {
      var front := ts[..|ts| - 1];
      EveryRunIsCareful(front);
      EveryRunKeeps(front);
      StepIsOp(Exec(START, front), ts[|ts| - 1]);
      if OpOf(Exec(START, front), ts[|ts| - 1]).Some? {
        StepIsCareful(Exec(START, front), ts[|ts| - 1]);
      }
      ThenKeepsCareful(START.k, Calls(front), OpOf(Exec(START, front), ts[|ts| - 1]));
    }
  }

  /** The latch of the three tasks is never set, and the demo's claims hold throughout. */
  lemma {:induction false} EveryRunShowsInheritance(ts: seq<TaskId>)
    ensures !Exec(START, ts).error && DemoFacts(Exec(START, ts))
  {
    EveryRunKeeps(ts);
    EveryRunIsCareful(ts);
    NobodyBlocked(START.k);
    AfterCareful(START.k, Calls(ts));
    InvGivesFacts(Exec(START, ts));
  }

  // ----- the cycle keeps turning -----------------------------------------------------------

  function LowWork(l: LowPc): nat {
    match l
    case TakeMutex => 13
    case ClearVar => 12
    case CheckLow => 11
    case ResumeHigh => 10
    case CheckInherited => 9
    case SetTest => 8
    case CheckStillHigh => 7
    case ResumeMedium => 6
    case CheckZero => 5
    case GiveMutex => 4
    case CheckOne => 3
    case CheckTest => 2
    case SetLow => 1
    case CountLoop => 0
  }

  function UpperWork(s: State): nat {
    (if !s.k.Is(High, Ready) then 0 else match s.h case HighTake => 3 case HighGive => 2 case HighSuspend => 1)
    + (if !s.k.Is(Mid, Ready) then 0 else match s.m case Increment => 2 case MediumSuspend => 1)
  }

  /** How many statements at most until the low task counts its next loop. */
  function Rank(s: State): nat { 6 * LowWork(s.l) + UpperWork(s) }

  lemma StepLowersRank(s: State, t: TaskId)
    requires Inv(s) && s.k.Runs(t)
    ensures if t == Low && s.l.CountLoop? then Step(s, t).loops == (s.loops + 1) % TWO_32
            else Rank(Step(s, t)) < Rank(s) && Step(s, t).loops == s.loops
  {
    if t == Low { LowKeeps(s); } else { UpperKeep(s, t); }
  }

  lemma SomeTaskRuns(s: State) returns (t: TaskId)
    requires Inv(s)
    ensures s.k.Runs(t)
  {
    t := if s.k.Is(High, Ready) then (if s.k.Is(Low, Ready) && s.k.low.prio > 3 then Low else High)
         else if s.k.Is(Mid, Ready) && s.k.low.prio <= 2 then Mid
         else Low;
  }

  /** Every statement of the schedule is one the scheduler may run. */
  ghost predicate Effective(s: State, ts: seq<TaskId>)
    decreases |ts|
  {
    ts == [] || (s.k.Runs(ts[0]) && Effective(Step(s, ts[0]), ts[1..]))
  }

  /** The low task counts a loop somewhere in the schedule. */
  ghost predicate Counts(s: State, ts: seq<TaskId>)
    decreases |ts|
  {
    ts != [] && ((ts[0] == Low && s.l.CountLoop?) || Counts(Step(s, ts[0]), ts[1..]))
  }

  /** The stall check's counter keeps moving: from a reachable state, every schedule longer
      than Rank(s) has counted a loop. */
  lemma {:induction false} EveryScheduleCounts(s: State, ts: seq<TaskId>)
    requires Inv(s) && Effective(s, ts) && |ts| > Rank(s)
    ensures Counts(s, ts)
    decreases |ts|
  {
    var t := ts[0];
    StepLowersRank(s, t);
    if !(t == Low && s.l.CountLoop?) {
      if t == Low { LowKeeps(s); } else { UpperKeep(s, t); }
      EveryScheduleCounts(Step(s, t), ts[1..]);
    }
  }
}
