/** The dynamic-priority demo: a limited counter, a continuous counter that raises its own
    priority around each increment, and a controller that suspends, resumes, sleeps and locks
    the scheduler. Each transition is one statement, or the end of the controller's delay. */
module DynamicPriority {
  import opened Common
  import opened Kernel

  const MAX_COUNT: nat := 0xff
  const LOOPS: nat := 5

  datatype ContPc = ReadPriority | Raise | CountUp | Lower

  datatype LimPc = FirstSuspend | CountOne | TestLimit | SuspendAgain

  /** Program points of vCounterControlTask; sLoops is the parameter. */
  datatype CtrlPc =
    | Zero
    | SuspendCont(i: nat) | Mirror(i: nat) | ResumeCont(i: nat) | Sleep(i: nat)
    | LockAll(i: nat) | Compare(i: nat) | UnlockAll(i: nat)
    | SuspendForGood | Reset | ResumeLim | CheckLimit | CountCheck | ResumeBoth

  /** High is the limited task, Mid the continuous one, Low the controller. */
  datatype State = State(
    k: Kernel, locked: bool,
    n: ContPc, m: LimPc, r: CtrlPc,
    ourPriority: nat, counter: nat, lastCounter: nat, error: bool, check: nat,
    increments: nat,   // history: what the continuous task has added since the mirror was taken
    stalled: bool)     // history: some comparison found it had added a multiple of 2^32

  datatype Event = Run(t: TaskId) | DelayOver

  function Up(x: nat): nat { (x + 1) % TWO_32 }

  /** vTaskSuspendAll leaves the processor with the task that called it. */
  predicate Enabled(s: State, t: TaskId) { if s.locked then t == Low else s.k.Runs(t) }

  function LimitedStep(s: State): State {
    match s.m
    case FirstSuspend => s.(k := s.k.SetStatus(High, Suspended), m := CountOne)
    case CountOne => s.(counter := Up(s.counter), m := TestLimit)
    case TestLimit => s.(m := if s.counter >= MAX_COUNT then SuspendAgain else CountOne)
    case SuspendAgain => s.(k := s.k.SetStatus(High, Suspended), m := CountOne)
  }

  function ContinuousStep(s: State): State {
    match s.n
    case ReadPriority => s.(ourPriority := s.k.mid.prio, n := Raise)
    case Raise => s.(k := s.k.SetPriority(Mid, s.ourPriority + 1), n := CountUp)
    case CountUp => s.(counter := Up(s.counter), increments := s.increments + 1, n := Lower)
    case Lower => s.(k := s.k.SetPriority(Mid, s.ourPriority), n := Raise)
  }

  function ControllerStep(s: State): State {
    match s.r
    case Zero => s.(counter := 0, r := SuspendCont(0))
    case SuspendCont(i) => s.(k := s.k.SetStatus(Mid, Suspended), r := Mirror(i))
    case Mirror(i) => s.(lastCounter := s.counter, increments := 0, r := ResumeCont(i))
    case ResumeCont(i) => s.(k := s.k.Resume(Mid), r := Sleep(i))
    case Sleep(i) => s.(k := s.k.SetStatus(Low, Delayed), r := LockAll(i))
    case LockAll(i) => s.(locked := true, r := Compare(i))
    case Compare(i) =>
      s.(error := s.error || s.lastCounter == s.counter, r := UnlockAll(i),
         stalled := s.stalled || s.increments % TWO_32 == 0)
    case UnlockAll(i) => s.(locked := false, r := if i + 1 < LOOPS then SuspendCont(i + 1) else SuspendForGood)
    case SuspendForGood => s.(k := s.k.SetStatus(Mid, Suspended), r := Reset)
    case Reset => s.(counter := 0, r := ResumeLim)
    case ResumeLim => s.(k := s.k.Resume(High), r := CheckLimit)
    case CheckLimit => s.(error := s.error || s.counter != MAX_COUNT, r := CountCheck)
    case CountCheck => s.(check := if s.error then s.check else (s.check + 1) % TWO_16, r := ResumeBoth)
    case ResumeBoth => s.(k := s.k.Resume(Mid), r := Zero)
  }

  function Step(s: State, e: Event): State {
    match e
    case Run(t) =>
      if !Enabled(s, t) then s else
      (match t
       case High => LimitedStep(s)
       case Mid => ContinuousStep(s)
       case Low => ControllerStep(s))
    case DelayOver => if s.k.Is(Low, Delayed) then s.(k := s.k.SetStatus(Low, Ready)) else s
  }

  function Exec(s: State, evs: seq<Event>): State
    decreases |evs|
  {
    if evs == [] then s else Step(Exec(s, evs[..|evs| - 1]), evs[|evs| - 1])
  }

  /** vStartDynamicPriorityTasks. */
  const START := State(
    Kernel(Task(1, 1, Ready), Task(0, 0, Ready), Task(0, 0, Ready), Mutex(None, 0)),
    false, ReadPriority, FirstSuspend, Zero, 0, 0, 0, false, 0, 0, false)

  // ----- the invariant ---------------------------------------------------------------------

  /** The continuous task is outside the region in which it has raised its priority. */
  predicate Quiet(s: State) { s.n.ReadPriority? || s.n.Raise? }

  ghost predicate Priorities(s: State) {
    && s.k.high.base == 1 && s.k.high.prio == 1
    && s.k.low.base == 0 && s.k.low.prio == 0
    && s.ourPriority == 0
    && s.k.mid.base == s.k.mid.prio && s.k.mid.prio == (if Quiet(s) then 0 else 1)
    && s.counter < TWO_32 && s.lastCounter < TWO_32
  }

  /** The limited task waits in its suspension, or has not yet reached it. */
  ghost predicate LimitedOut(s: State) { s.k.Is(High, Suspended) && s.m.CountOne? }

  ghost predicate ContinuousOut(s: State) { s.k.Is(Mid, Suspended) && Quiet(s) }

  /** The limited task is counting, or has just stopped at the limit. */
  ghost predicate Counting(s: State) {
    || (s.k.Is(High, Ready) && s.m.CountOne? && s.counter < MAX_COUNT)
    || (s.k.Is(High, Ready) && s.m.TestLimit? && s.counter <= MAX_COUNT)
    || (s.k.Is(High, Ready) && s.m.SuspendAgain? && s.counter == MAX_COUNT)
    || (LimitedOut(s) && s.counter == MAX_COUNT)
  }

  ghost predicate Mirrored(s: State) { s.counter == (s.lastCounter + s.increments) % TWO_32 }

  ghost predicate Phase(s: State) {
    match s.r
    case Zero =>
      && s.k.Is(Mid, Ready)
      && (LimitedOut(s) || (s.k.Is(High, Ready) && s.m.FirstSuspend? && s.n.ReadPriority?))
    case SuspendCont(_) => s.k.Is(Mid, Ready) && LimitedOut(s)
    case Mirror(_) => ContinuousOut(s) && LimitedOut(s)
    case ResumeCont(_) => ContinuousOut(s) && LimitedOut(s) && Mirrored(s)
    case Sleep(_) => s.k.Is(Mid, Ready) && LimitedOut(s) && Mirrored(s)
    case LockAll(_) => s.k.Is(Mid, Ready) && LimitedOut(s) && Mirrored(s)
    case Compare(_) => s.k.Is(Mid, Ready) && Quiet(s) && LimitedOut(s) && Mirrored(s)
    case UnlockAll(_) => s.k.Is(Mid, Ready) && Quiet(s) && LimitedOut(s)
    case SuspendForGood => s.k.Is(Mid, Ready) && LimitedOut(s)
    case Reset => ContinuousOut(s) && LimitedOut(s)
    case ResumeLim => ContinuousOut(s) && LimitedOut(s) && s.counter == 0
    case CheckLimit => ContinuousOut(s) && Counting(s)
    case CountCheck => ContinuousOut(s) && LimitedOut(s)
    case ResumeBoth => ContinuousOut(s) && LimitedOut(s)
  }

  /** The loop counter is in range. */
  predicate InLoop(r: CtrlPc) {
    (r.SuspendCont? || r.Mirror? || r.ResumeCont? || r.Sleep? || r.LockAll? || r.Compare? || r.UnlockAll?)
    ==> r.i < LOOPS
  }

  ghost predicate Inv(s: State) {
    && Priorities(s) && Phase(s) && InLoop(s.r)
    && (s.locked <==> s.r.Compare? || s.r.UnlockAll?)
    && (s.k.Is(Low, Ready) || (s.k.Is(Low, Delayed) && s.r.LockAll?))
    && s.error == s.stalled
  }

  lemma LimitedKeeps(s: State)
    requires Inv(s) && Enabled(s, High)
    ensures Inv(LimitedStep(s))
  {
  }

  lemma CountUpKeeps(s: State)
    requires Inv(s) && Enabled(s, Mid) && s.n.CountUp?
    ensures Inv(ContinuousStep(s))
  {
    if Mirrored(s) {
      ModAdd(s.lastCounter + s.increments, 1);
    }
  }

  lemma ContinuousKeeps(s: State)
    requires Inv(s) && Enabled(s, Mid)
    ensures Inv(ContinuousStep(s))
  {
    if s.n.CountUp? {
      CountUpKeeps(s);
    }
  }

  lemma ControllerKeepsMirror(s: State)
    requires Inv(s) && Enabled(s, Low)
    requires s.r.Zero? || s.r.SuspendCont? || s.r.Mirror? || s.r.ResumeCont? || s.r.Sleep?
    ensures Inv(ControllerStep(s))
  {
  }

  lemma ControllerKeepsCompare(s: State)
    requires Inv(s) && Enabled(s, Low)
    requires s.r.LockAll? || s.r.Compare? || s.r.UnlockAll?
    ensures Inv(ControllerStep(s))
  {
    if s.r.Compare? { SameIffNoIncrements(s.lastCounter, s.increments); }
  }

  lemma ControllerKeepsLimit(s: State)
    requires Inv(s) && Enabled(s, Low)
    requires s.r.SuspendForGood? || s.r.Reset? || s.r.ResumeLim?
             || s.r.CheckLimit? || s.r.CountCheck? || s.r.ResumeBoth?
    ensures Inv(ControllerStep(s))
  {
  }

  lemma {:induction false} ControllerKeeps(s: State)
    requires Inv(s) && Enabled(s, Low)
    ensures Inv(ControllerStep(s))
  {
    if s.r.LockAll? || s.r.Compare? || s.r.UnlockAll? {
      ControllerKeepsCompare(s);
    } else if s.r.Zero? || s.r.SuspendCont? || s.r.Mirror? || s.r.ResumeCont? || s.r.Sleep? {
      ControllerKeepsMirror(s);
    } else {
      ControllerKeepsLimit(s);
    }
  }

  lemma SameIffNoIncrements(last: nat, d: nat)
    requires last < TWO_32
    ensures last == (last + d) % TWO_32 <==> d % TWO_32 == 0
  {
  }

  lemma {:induction false} EveryRunKeeps(evs: seq<Event>)
    ensures Inv(Exec(START, evs))
    decreases |evs|
  {
    if evs == [] {
    } else {
      var s, e := Exec(START, evs[..|evs| - 1]), evs[|evs| - 1];
      EveryRunKeeps(evs[..|evs| - 1]);
      StepKeeps(s, e);
    }
  }

  lemma {:induction false} StepKeeps(s: State, e: Event)
    requires Inv(s)
    ensures Inv(Step(s, e))
  {
    match e
    case Run(High) => if Enabled(s, High) { LimitedKeeps(s); }
    case Run(Mid) => if Enabled(s, Mid) { ContinuousKeeps(s); }
    case Run(Low) => if Enabled(s, Low) { ControllerKeeps(s); }
    case DelayOver =>
  }

  /** What the demo claims, on every run: the two counters are both ready exactly until the limited
      task has reached its first suspension; the controller never runs while the continuous
      task is inside its raised region; the controller comes back from resuming the limited
      task only with the counter at exactly the limit; and its error flag is set exactly when
      some comparison followed a delay in which the continuous task had added a multiple of
      2^32, which includes nothing at all. */
  lemma EveryRunShowsTheDemo(evs: seq<Event>)
    ensures var s := Exec(START, evs);
            && (s.k.Is(High, Ready) && s.k.Is(Mid, Ready) <==> s.m.FirstSuspend?)
            && (Enabled(s, Low) ==> Quiet(s))
            && (Enabled(s, Low) && s.r.CheckLimit? ==> s.counter == MAX_COUNT)
            && (s.error <==> s.stalled)
  {
    EveryRunKeeps(evs);
  }

  // ----- the controller goes round ---------------------------------------------------------

  const CYCLE: nat := 42

  /** The controller's statements, numbered from the start of its loop. */
  function Place(r: CtrlPc): nat {
    match r
    case Zero => 0
    case SuspendCont(i) => 7 * i + 1
    case Mirror(i) => 7 * i + 2
    case ResumeCont(i) => 7 * i + 3
    case Sleep(i) => 7 * i + 4
    case LockAll(i) => 7 * i + 5
    case Compare(i) => 7 * i + 6
    case UnlockAll(i) => 7 * i + 7
    case SuspendForGood => 36
    case Reset => 37
    case ResumeLim => 38
    case CheckLimit => 39
    case CountCheck => 40
    case ResumeBoth => 41
  }

  /** A statement of the controller is executed. */
  predicate Turn(s: State, e: Event) { e == Run(Low) && Enabled(s, Low) }

  /** The controller's statements, and those among them that count a cycle, or compare the counter
      with its mirror since the loop began. */
  function Turns(s: State, evs: seq<Event>): nat
    decreases |evs|
  {
    if evs == [] then 0 else
      var front := evs[..|evs| - 1];
      Turns(s, front) + if Turn(Exec(s, front), evs[|evs| - 1]) then 1 else 0
  }

  function Comparisons(evs: seq<Event>): nat
    decreases |evs|
  {
    if evs == [] then 0 else
      var front, e := evs[..|evs| - 1], evs[|evs| - 1];
      var s := Exec(START, front);
      if Turn(s, e) && s.r.Zero? then 0
      else Comparisons(front) + if Compares(s, e) then 1 else 0
  }

  lemma PlaceAdvances(s: State)
    requires InLoop(s.r)
    ensures var p := Place(s.r);
            p < CYCLE && Place(ControllerStep(s).r) == (if p == CYCLE - 1 then 0 else p + 1)
    ensures InLoop(ControllerStep(s).r)
  {
  }

  lemma OthersLeaveThePlace(s: State, e: Event)
    ensures Step(s, e).r == if Turn(s, e) then ControllerStep(s).r else s.r
  {
  }

  lemma TurnAdvances(s: State, e: Event)
    requires InLoop(s.r)
    ensures var p := Place(s.r);
            p < CYCLE && Place(Step(s, e).r) == (if !Turn(s, e) then p else if p == CYCLE - 1 then 0 else p + 1)
    ensures InLoop(Step(s, e).r)
  {
    OthersLeaveThePlace(s, e);
    PlaceAdvances(s);
  }

  lemma NextInCycle(n: nat)
    ensures (n + 1) % CYCLE == if n % CYCLE == CYCLE - 1 then 0 else n % CYCLE + 1
    ensures (n + 2) / CYCLE == (n + 1) / CYCLE + if n % CYCLE == CYCLE - 2 then 1 else 0
  {
  }

  function NextPlace(p: nat): nat { if p == CYCLE - 1 then 0 else p + 1 }

  function Around(p: nat, n: nat): nat { if n == 0 then p else NextPlace(Around(p, n - 1)) }

  lemma {:induction false} AroundIsModular(p: nat, n: nat)
    requires p < CYCLE
    ensures Around(p, n) == (p + n) % CYCLE
  {
    if n > 0 {
      AroundIsModular(p, n - 1);
      NextInCycle(p + n - 1);
    }
  }

  ghost predicate At(s: State, p: nat) { InLoop(s.r) && Place(s.r) == p }

  lemma TurnMoves(s: State, e: Event, p: nat)
    requires At(s, p)
    ensures At(Step(s, e), if Turn(s, e) then NextPlace(p) else p)
  {
    TurnAdvances(s, e);
  }

  lemma {:induction false} TurnsLeadAround(s: State, evs: seq<Event>, p: nat)
    requires At(s, p)
    ensures At(Exec(s, evs), Around(p, Turns(s, evs)))
    decreases |evs|
  {
    if evs == [] {
    } else {
      var front := evs[..|evs| - 1];
      TurnsLeadAround(s, front, p);
      TurnMoves(Exec(s, front), evs[|evs| - 1], Around(p, Turns(s, front)));
    }
  }

  /** n statements after the start of a loop. */
  ghost predicate Reached(s: State, n: nat) { At(s, n % CYCLE) }

  /** From every state with the loop counter in range the controller is as many statements further
      round its loop of forty-two as it has been given turns, so within forty-one turns it is at any
      of them. */
  lemma {:induction false} TheLoopTurns(s: State, evs: seq<Event>, p: nat)
    requires At(s, p) && p < CYCLE
    ensures Reached(Exec(s, evs), p + Turns(s, evs))
  {
    TurnsLeadAround(s, evs, p);
    AroundIsModular(p, Turns(s, evs));
  }

  /** In particular so many turns, none of them or at most forty-one, bring it to the resuming of the
      limited task, from every state of the invariant, since in all of them the counter is in range. */
  lemma {:induction false} TheLimitedTaskIsResumed(s: State, evs: seq<Event>, p: nat)
    requires At(s, p) && p < CYCLE && Turns(s, evs) == if p <= 38 then 38 - p else 80 - p
    ensures Exec(s, evs).r.ResumeLim?
  {
    TurnsLeadAround(s, evs, p);
    RoundTo38(p);
    ResumedAt38(Exec(s, evs));
  }

  lemma RoundTo38(p: nat)
    requires p < CYCLE
    ensures Around(p, if p <= 38 then 38 - p else 80 - p) == 38
  {
    AroundIsModular(p, if p <= 38 then 38 - p else 80 - p);
  }

  lemma ResumedAt38(t: State)
    requires At(t, 38)
    ensures t.r.ResumeLim?
  {
  }

  lemma ComparesAt(s: State, e: Event)
    requires InLoop(s.r)
    ensures Compares(s, e) <==> Turn(s, e) && Place(s.r) in {6, 13, 20, 27, 34}
    ensures s.r.Zero? <==> Place(s.r) == 0
  {
  }

  lemma SevenFold(p: nat)
    requires p < CYCLE - 1
    ensures (p + 1) / 7 == p / 7 + if p in {6, 13, 20, 27, 34} then 1 else 0
  {
  }

  /** So the limited task is resumed, on every run, after exactly five comparisons. */
  lemma {:induction false} FiveComparisons(evs: seq<Event>)
    ensures var s := Exec(START, evs);
            && (Place(s.r) > 0 ==> Comparisons(evs) == Place(s.r) / 7)
            && (s.r.ResumeLim? ==> Comparisons(evs) == LOOPS)
    decreases |evs|
  {
    if evs == [] {
    } else {
      var front, e := evs[..|evs| - 1], evs[|evs| - 1];
      var s := Exec(START, front);
      FiveComparisons(front);
      TurnsLeadAround(START, front, 0);
      TurnAdvances(s, e);
      ComparesAt(s, e);
      if Place(s.r) < CYCLE - 1 {
        SevenFold(Place(s.r));
      }
    }
  }

  lemma CheckAdvances(s: State, e: Event)
    requires InLoop(s.r)
    ensures var t := Step(s, e);
            if s.error then t.error && t.check == s.check
            else if Turn(s, e) && Place(s.r) == CYCLE - 2 then !t.error && t.check == (s.check + 1) % TWO_16
            else t.check == s.check
  {
  }

  /** While the error flag is clear the check variable counts the rounds. */
  ghost predicate RoundsCounted(s: State, turns: nat) {
    !s.error ==> s.check == (turns + 1) / CYCLE % TWO_16
  }

  lemma CheckCounts(s: State, e: Event, n: nat)
    requires Reached(s, n) && RoundsCounted(s, n)
    ensures RoundsCounted(Step(s, e), n + if Turn(s, e) then 1 else 0)
  {
    CheckAdvances(s, e);
    NextInCycle(n);
    ModAdd16((n + 1) / CYCLE, 1);
  }

  /** On every run: a round is counted in every forty-two turns of the controller. */
  lemma {:induction false} CheckCountsTheRounds(evs: seq<Event>)
    ensures RoundsCounted(Exec(START, evs), Turns(START, evs))
    decreases |evs|
  {
    if evs == [] {
    } else {
      var front := evs[..|evs| - 1];
      CheckCountsTheRounds(front);
      TheLoopTurns(START, front, 0);
      CheckCounts(Exec(START, front), evs[|evs| - 1], Turns(START, front));
    }
  }

  /** Once the flag is set it stays set, and the check variable stands still. */
  lemma {:induction false} ErrorStopsTheCount(s: State, evs: seq<Event>)
    requires InLoop(s.r) && s.error
    ensures Exec(s, evs).error && Exec(s, evs).check == s.check
    decreases |evs|
  {
    if evs == [] {
    } else {
      ErrorStopsTheCount(s, evs[..|evs| - 1]);
      TurnsLeadAround(s, evs[..|evs| - 1], Place(s.r));
      CheckAdvances(Exec(s, evs[..|evs| - 1]), evs[|evs| - 1]);
    }
  }

  /** Statements the limited task has left before it suspends. */
  function LimitedRank(s: State): int {
    match s.m
    case FirstSuspend => 0
    case CountOne => 2 * (MAX_COUNT - s.counter) + 1
    case TestLimit => 2 * (MAX_COUNT - s.counter) + 2
    case SuspendAgain => 1
  }

  /** Statements the other two tasks have left before the controller, when it is ready, runs. */
  function Wait(s: State): int {
    if s.k.Is(High, Ready) then
      (if s.m.FirstSuspend? then 1 else LimitedRank(s))
    else
      match s.n case ReadPriority => 0 case Raise => 0 case CountUp => 2 case Lower => 1
  }

  /** And the turns come: a controller that is not in its delay is held up only by statements that
      bring its turn nearer, and some task can always execute one. */
  lemma ControllerIsNext(s: State, e: Event)
    requires Inv(s) && s.k.Is(Low, Ready)
    ensures Enabled(s, Low) <==> Wait(s) <= 0
    ensures !Enabled(s, Low) ==>
              && (Enabled(s, High) || Enabled(s, Mid))
              && Step(s, e).k.Is(Low, Ready)
              && ((exists t :: e == Run(t) && Enabled(s, t)) ==> Wait(Step(s, e)) < Wait(s))
  {
  }

  // ----- the two counters ------------------------------------------------------------------

  predicate Clears(s: State, e: Event) { Turn(s, e) && (s.r.Zero? || s.r.Reset?) }

  predicate CountsOne(s: State, e: Event) { e == Run(High) && Enabled(s, High) && s.m.CountOne? }

  /** The increments of both tasks since the controller last cleared the counter. */
  function SinceCleared(evs: seq<Event>): nat
    decreases |evs|
  {
    if evs == [] then 0 else
      var front, e := evs[..|evs| - 1], evs[|evs| - 1];
      var s := Exec(START, front);
      if Clears(s, e) then 0
      else SinceCleared(front) + if CountsOne(s, e) || CountsUp(s, e) then 1 else 0
  }

  lemma CounterAt(s: State, e: Event)
    ensures Step(s, e).counter ==
              if Clears(s, e) then 0 else if CountsOne(s, e) || CountsUp(s, e) then Up(s.counter) else s.counter
  {
  }

  /** The counter is the number of those increments, on every run. */
  lemma {:induction false} CounterCounts(evs: seq<Event>)
    ensures Exec(START, evs).counter == SinceCleared(evs) % TWO_32
    decreases |evs|
  {
    if evs == [] {
    } else {
      CounterCounts(evs[..|evs| - 1]);
      CounterAt(Exec(START, evs[..|evs| - 1]), evs[|evs| - 1]);
      ModAdd(SinceCleared(evs[..|evs| - 1]), 1);
    }
  }

  predicate ContinuousTurn(s: State, e: Event) { e == Run(Mid) && Enabled(s, Mid) }

  function ContinuousTurns(evs: seq<Event>): nat
    decreases |evs|
  {
    if evs == [] then 0 else
      var front := evs[..|evs| - 1];
      ContinuousTurns(front) + if ContinuousTurn(Exec(START, front), evs[|evs| - 1]) then 1 else 0
  }

  function Increments(evs: seq<Event>): nat
    decreases |evs|
  {
    if evs == [] then 0 else
      var front := evs[..|evs| - 1];
      Increments(front) + if CountsUp(Exec(START, front), evs[|evs| - 1]) then 1 else 0
  }

  /** After so many turns and increments: three turns for each increment, and the one that has read
      the priority. */
  ghost predicate ContinuousReached(n: ContPc, turns: nat, increments: nat) {
    match n
    case ReadPriority => turns == increments == 0
    case Raise => turns == 3 * increments + 1
    case CountUp => turns == 3 * increments + 2
    case Lower => turns == 3 * increments && turns > 0
  }

  lemma OnlyItsOwnTurns(s: State, e: Event)
    ensures Step(s, e).n == if ContinuousTurn(s, e) then ContinuousStep(s).n else s.n
  {
  }

  lemma ContinuousAdvances(s: State, e: Event, turns: nat, increments: nat)
    requires ContinuousReached(s.n, turns, increments)
    ensures ContinuousReached(Step(s, e).n, turns + (if ContinuousTurn(s, e) then 1 else 0),
                              increments + if CountsUp(s, e) then 1 else 0)
  {
    OnlyItsOwnTurns(s, e);
  }

  /** It reads its priority once; after that every third turn of it is an increment, on every run. */
  lemma {:induction false} EveryThirdTurnIncrements(evs: seq<Event>)
    ensures ContinuousReached(Exec(START, evs).n, ContinuousTurns(evs), Increments(evs))
    decreases |evs|
  {
    if evs == [] {
    } else {
      var front := evs[..|evs| - 1];
      EveryThirdTurnIncrements(front);
      ContinuousAdvances(Exec(START, front), evs[|evs| - 1], ContinuousTurns(front), Increments(front));
    }
  }

  /** The two checks, in any state whatever. */
  lemma ChecksSetTheFlag(s: State, e: Event)
    ensures Step(s, e).error <==>
              || s.error
              || (Compares(s, e) && s.lastCounter == s.counter)
              || (Turn(s, e) && s.r.CheckLimit? && s.counter != 0xff)
  {
  }

  // ----- the latch in terms of the schedule ------------------------------------------------

  predicate Mirrors(s: State, e: Event) { e == Run(Low) && Enabled(s, Low) && s.r.Mirror? }

  predicate CountsUp(s: State, e: Event) { e == Run(Mid) && Enabled(s, Mid) && s.n.CountUp? }

  predicate Compares(s: State, e: Event) { e == Run(Low) && Enabled(s, Low) && s.r.Compare? }

  /** The increments the schedule has let the continuous task make since the last mirror. */
  function SinceMirror(evs: seq<Event>): nat
    decreases |evs|
  {
    if evs == [] then 0 else
      var front, e := evs[..|evs| - 1], evs[|evs| - 1];
      if Mirrors(Exec(START, front), e) then 0
      else SinceMirror(front) + if CountsUp(Exec(START, front), e) then 1 else 0
  }

  /** At the n-th event a comparison is made after a delay with no increments, modulo 2^32. */
  ghost predicate StallsAt(evs: seq<Event>, n: nat)
    requires n < |evs|
  {
    Compares(Exec(START, evs[..n]), evs[n]) && SinceMirror(evs[..n]) % TWO_32 == 0
  }

  ghost predicate Stalls(evs: seq<Event>) { exists n: nat :: n < |evs| && StallsAt(evs, n) }

  lemma FrontStalls(evs: seq<Event>)
    requires evs != []
    ensures Stalls(evs) <==> Stalls(evs[..|evs| - 1]) || StallsAt(evs, |evs| - 1)
  {
    var front := evs[..|evs| - 1];
    if Stalls(front) {
      var n: nat :| n < |front| && StallsAt(front, n);
      assert front[..n] == evs[..n] && front[n] == evs[n];
      assert StallsAt(evs, n);
    }
    if Stalls(evs) {
      var n: nat :| n < |evs| && StallsAt(evs, n);
      if n < |front| {
        assert front[..n] == evs[..n] && front[n] == evs[n];
        assert StallsAt(front, n);
      }
    }
  }

  lemma StepHistory(s: State, e: Event)
    ensures var t := Step(s, e);
            && t.increments == (if Mirrors(s, e) then 0 else s.increments + if CountsUp(s, e) then 1 else 0)
            && (t.stalled <==> s.stalled || (Compares(s, e) && s.increments % TWO_32 == 0))
  {
  }

  lemma {:induction false} HistoryIsSchedule(evs: seq<Event>)
    ensures Exec(START, evs).increments == SinceMirror(evs) && (Exec(START, evs).stalled <==> Stalls(evs))
    decreases |evs|
  {
    if evs == [] {
    } else {
      HistoryIsSchedule(evs[..|evs| - 1]);
      StepHistory(Exec(START, evs[..|evs| - 1]), evs[|evs| - 1]);
      FrontStalls(evs);
    }
  }

  /** The error flag is set exactly when the schedule has a comparison before which the continuous
      task got no increment done, or a multiple of 2^32, since the mirror was taken. */
  lemma {:induction false} ErrorIffStalls(evs: seq<Event>)
    ensures Exec(START, evs).error <==> Stalls(evs)
  {
    EveryRunShowsTheDemo(evs);
    HistoryIsSchedule(evs);
  }

  /** A schedule that gives it between one and 2^32 - 1 increments in every delay never sets the
      flag. */
  lemma {:induction false} BusyDelaysNeverLatch(evs: seq<Event>)
    requires forall n: nat :: n < |evs| && Compares(Exec(START, evs[..n]), evs[n]) ==>
               1 <= SinceMirror(evs[..n]) < TWO_32
    ensures !Exec(START, evs).error
  {
    ErrorIffStalls(evs);
  }

  /** Once resumed, the limited task is the only one that runs, and each of its statements
      brings the suspension nearer: its run ends, with the counter at the limit. */
  lemma LimitedRunEnds(s: State, t: TaskId)
    requires Inv(s) && s.r.CheckLimit? && s.k.Is(High, Ready) && Enabled(s, t)
    ensures t == High
    ensures s.m.SuspendAgain? || 0 <= LimitedRank(Step(s, Run(t))) < LimitedRank(s)
    ensures s.m.SuspendAgain? ==> Step(s, Run(t)).k.Is(High, Suspended) && s.counter == MAX_COUNT
  {
  }

  ghost predicate Reaches(s: State) { exists evs: seq<Event> :: Exec(START, evs) == s }

  lemma ReachNext(s: State, e: Event, t: State)
    requires Reaches(s) && Step(s, e) == t
    ensures Reaches(t)
  {
    var evs: seq<Event> :| Exec(START, evs) == s;
    assert (evs + [e])[..|evs|] == evs;
    assert Exec(START, evs + [e]) == t;
  }

  /** The latch can be set: a continuous task that gets no turn during the controller's delay,
      because it only shares the lowest priority, leaves the counter where it was. */
  lemma StallSetsTheLatch()
    ensures exists evs: seq<Event> :: Exec(START, evs).error
  {
    assert Exec(START, []) == START;
    var k := START.k.SetStatus(High, Suspended);
    var s1 := START.(k := k, m := CountOne);
    ReachNext(START, Run(High), s1);
    var s2 := s1.(r := SuspendCont(0));
    ReachNext(s1, Run(Low), s2);
    var s3 := s2.(k := k.SetStatus(Mid, Suspended), r := Mirror(0));
    ReachNext(s2, Run(Low), s3);
    var s4 := s3.(r := ResumeCont(0));
    ReachNext(s3, Run(Low), s4);
    var s5 := s4.(k := k, r := Sleep(0));
    ReachNext(s4, Run(Low), s5);
    SleepAndCompare(s5);
  }

  lemma SleepAndCompare(s: State)
    requires Reaches(s) && s.r == Sleep(0) && s.k == START.k.SetStatus(High, Suspended)
    requires !s.locked && s.lastCounter == s.counter
    ensures exists evs: seq<Event> :: Exec(START, evs).error
  {
    var s1 := s.(k := s.k.SetStatus(Low, Delayed), r := LockAll(0));
    ReachNext(s, Run(Low), s1);
    var s2 := s1.(k := s.k);
    ReachNext(s1, DelayOver, s2);
    var s3 := s2.(locked := true, r := Compare(0));
    ReachNext(s2, Run(Low), s3);
    var t := Step(s3, Run(Low));
    assert t.error;
    ReachNext(s3, Run(Low), t);
  }
}
