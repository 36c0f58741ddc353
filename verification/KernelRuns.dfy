/** Runs of the demos' three-task kernel, as runs of a scheduler of three tasks: what holds for any
    number of tasks is used here for three. */
module KernelRuns {
  import opened Common
  import opened Kernel
  import S = Scheduler

  /** What the running task t asks of the kernel, and what the tick brings. */
  datatype Op =
    | TakeOp(t: TaskId, block: bool)
    | TakeRecOp(t: TaskId, block: bool)
    | GiveOp(t: TaskId)
    | GiveRecOp(t: TaskId)
    | SetPriorityOp(t: TaskId, p: nat)
    | SuspendOp(t: TaskId)
    | DelayOp(t: TaskId)
    | ResumeOp(t: TaskId, u: TaskId)
    | DelayEnds(u: TaskId)
    | BlockTimeEnds(u: TaskId)

  /** A call by a task that is not running does not happen. */
  predicate Happens(k: Kernel, op: Op) {
    match op
    case DelayEnds(u) => k.Is(u, Delayed)
    case BlockTimeEnds(u) => k.Is(u, Blocked)
    case _ => k.Runs(op.t)
  }

  function Apply(k: Kernel, op: Op): Kernel {
    if !Happens(k, op) then k else
    match op
    case TakeOp(t, block) => k.Take(t, block).0
    case TakeRecOp(t, block) => k.TakeRecursive(t, block).0
    case GiveOp(t) => k.Give().0
    case GiveRecOp(t) => k.GiveRecursive(t).0
    case SetPriorityOp(t, p) => k.SetPriority(t, p)
    case SuspendOp(t) => k.SetStatus(t, Suspended)
    case DelayOp(t) => k.SetStatus(t, Delayed)
    case ResumeOp(_, u) => k.Resume(u)
    case DelayEnds(u) => k.SetStatus(u, Ready)
    case BlockTimeEnds(u) => k.SetStatus(u, Ready)
  }

  function ApplyAll(k: Kernel, ops: seq<Op>): Kernel
    decreases |ops|
  {
    if ops == [] then k else Apply(ApplyAll(k, ops[..|ops| - 1]), ops[|ops| - 1])
  }

  // ----- three tasks among any number ------------------------------------------------------

  function Id(t: TaskId): nat { match t case High => 0 case Mid => 1 case Low => 2 }

  function System(k: Kernel): S.System {
    S.System([k.high, k.mid, k.low], if k.mutex.holder.Some? then Some(Id(k.mutex.holder.value)) else None,
             k.mutex.depth)
  }

  /** Among equally urgent waiters the three-task kernel readies the first: no other is picked. */
  const NO_PICK: nat := 3

  function SystemOp(op: Op): S.Op {
    match op
    case TakeOp(t, block) => S.TakeOp(Id(t), block)
    case TakeRecOp(t, block) => S.TakeRecOp(Id(t), block)
    case GiveOp(t) => S.GiveOp(Id(t), NO_PICK)
    case GiveRecOp(t) => S.GiveRecOp(Id(t), NO_PICK)
    case SetPriorityOp(t, p) => S.SetPriorityOp(Id(t), p)
    case SuspendOp(t) => S.SuspendOp(Id(t))
    case DelayOp(t) => S.DelayOp(Id(t))
    case ResumeOp(t, u) => S.ResumeOp(Id(t), Id(u))
    case DelayEnds(u) => S.DelayEnds(Id(u))
    case BlockTimeEnds(u) => S.BlockTimeEnds(Id(u))
  }

  lemma IdOf(k: Kernel, t: TaskId)
    ensures System(k).Valid() && Id(t) < |System(k).ts| && System(k).ts[Id(t)] == k.Of(t)
  {
  }

  lemma SamePut(k: Kernel, t: TaskId, v: Task)
    ensures System(k.Put(t, v)) == System(k).Put(Id(t), v)
  {
  }

  lemma SameRuns(k: Kernel, t: TaskId)
    ensures System(k).Runs(Id(t)) <==> k.Runs(t)
  {
    assert System(k).Is(0, Ready) <==> k.Is(High, Ready);
    assert System(k).Is(1, Ready) <==> k.Is(Mid, Ready);
    assert System(k).Is(2, Ready) <==> k.Is(Low, Ready);
  }

  lemma SameTop(k: Kernel)
    ensures System(k).TopWaiter(NO_PICK) == if k.TopWaiter().Some? then Some(Id(k.TopWaiter().value)) else None
  {
    var n := System(k);
    assert n.TopAmong(0) == None;
    assert n.TopAmong(1) == if k.Is(High, Blocked) then Some(0) else None;
    assert n.TopAmong(2) ==
      if k.Is(Mid, Blocked) && (n.TopAmong(1).None? || k.high.prio < k.mid.prio) then Some(1) else n.TopAmong(1);
    assert !n.IsTop(NO_PICK);
  }

  lemma SameRelease(k: Kernel)
    requires k.mutex.holder.Some?
    ensures System(k.Release()) == System(k).Release(NO_PICK)
  {
    var h := k.mutex.holder.value;
    var f := k.Put(h, k.Of(h).(prio := k.Of(h).base));
    SamePut(k, h, k.Of(h).(prio := k.Of(h).base));
    var g := f.(mutex := Mutex(None, 0));
    SameTop(g);
    var w := g.TopWaiter();
    if w.Some? {
      SamePut(g, w.value, g.Of(w.value).(status := Ready));
    }
  }

  lemma SameTake(k: Kernel, t: TaskId, block: bool)
    ensures System(k.Take(t, block).0) == System(k).Take(Id(t), block)
  {
    if k.mutex.holder.Some? && block {
      var h := k.mutex.holder.value;
      var i := k.Inherit(h, k.Of(t).prio);
      SamePut(k, h, k.Of(h).(prio := k.Of(t).prio));
      assert System(i) == System(k).Inherit(Id(h), k.Of(t).prio);
      SamePut(i, t, i.Of(t).(status := Blocked));
    }
  }

  lemma SameStatus(k: Kernel, t: TaskId, s: Status)
    ensures System(k.SetStatus(t, s)) == System(k).SetStatus(Id(t), s)
  {
    SamePut(k, t, k.Of(t).(status := s));
  }

  lemma SameSetPriority(k: Kernel, t: TaskId, p: nat)
    ensures System(k.SetPriority(t, p)) == System(k).SetPriority(Id(t), p)
  {
    var v := k.Of(t);
    SamePut(k, t, Task(p, if v.base == v.prio then p else v.prio, v.status));
  }

  lemma SameHappens(k: Kernel, op: Op)
    ensures S.Happens(System(k), SystemOp(op)) <==> Happens(k, op)
  {
    match op {
      case DelayEnds(u) => IdOf(k, u);
      case BlockTimeEnds(u) => IdOf(k, u);
      case _ => SameRuns(k, op.t);
    }
  }

  /** Every call does to the three tasks what it does to them as a scheduler of three. */
  lemma SameApply(k: Kernel, op: Op)
    ensures System(Apply(k, op)) == S.Apply(System(k), SystemOp(op))
  {
    SameHappens(k, op);
    if Happens(k, op) {
      match op {
        case TakeOp(t, block) => SameTake(k, t, block);
        case TakeRecOp(t, block) => SameTake(k, t, block);
        case GiveOp(t) => if k.mutex.holder.Some? { SameRelease(k); }
        case GiveRecOp(t) => if k.mutex.holder.Some? { SameRelease(k); }
        case SetPriorityOp(t, p) => SameSetPriority(k, t, p);
        case SuspendOp(t) => SameStatus(k, t, Suspended);
        case DelayOp(t) => SameStatus(k, t, Delayed);
        case ResumeOp(_, u) => SameStatus(k, u, Ready);
        case DelayEnds(u) => SameStatus(k, u, Ready);
        case BlockTimeEnds(u) => SameStatus(k, u, Ready);
      }
    }
  }

  lemma SameInherited(k: Kernel)
    ensures System(k).Inherited() <==> k.Inherited()
  {
    var n := System(k);
    assert forall s: Status :: n.Is(0, s) <==> k.Is(High, s);
    assert forall s: Status :: n.Is(1, s) <==> k.Is(Mid, s);
    assert forall s: Status :: n.Is(2, s) <==> k.Is(Low, s);
    if n.Inherited() {
      forall u | k.Is(u, Blocked) ensures Waited(k, u) {
        assert n.Is(Id(u), Blocked);
        if n.holder.None? {
          var w: nat :| n.Is(w, Ready) && n.ts[Id(u)].prio <= n.ts[w].prio;
          assert k.Is(Name(w), Ready) && k.Of(u).prio <= k.Of(Name(w)).prio;
        }
      }
    }
    if k.Inherited() {
      forall u: nat | n.Is(u, Blocked)
        ensures if n.holder.Some? then n.ts[u].prio <= n.ts[n.holder.value].prio else n.Covered(n.ts[u].prio)
      {
        assert k.Is(Name(u), Blocked);
        if n.holder.None? {
          var w :| k.Is(w, Ready) && k.Of(Name(u)).prio <= k.Of(w).prio;
          assert n.Is(Id(w), Ready);
        }
      }
    }
  }

  function Name(i: nat): TaskId { if i == 0 then High else if i == 1 then Mid else Low }

  /** What Inherited says of one waiter. */
  ghost predicate Waited(k: Kernel, u: TaskId) {
    match k.mutex.holder
    case Some(h) => k.Of(u).prio <= k.Of(h).prio
    case None => exists w :: k.Is(w, Ready) && k.Of(u).prio <= k.Of(w).prio
  }

  // ----- the demos' runs -------------------------------------------------------------------

  function SystemOps(ops: seq<Op>): seq<S.Op>
    decreases |ops|
  {
    if ops == [] then [] else SystemOps(ops[..|ops| - 1]) + [SystemOp(ops[|ops| - 1])]
  }

  ghost predicate Careful(k: Kernel, op: Op) {
    Happens(k, op) ==> S.Happens(System(k), SystemOp(op)) && S.Careful(System(k), SystemOp(op))
  }

  ghost predicate CarefulRun(k: Kernel, ops: seq<Op>)
    decreases |ops|
  {
    ops == [] || (CarefulRun(k, ops[..|ops| - 1]) && Careful(ApplyAll(k, ops[..|ops| - 1]), ops[|ops| - 1]))
  }

  /** A careful run of the three tasks is a careful run of a scheduler of three. */
  lemma {:induction false} SameRun(k: Kernel, ops: seq<Op>)
    ensures S.ApplyAll(System(k), SystemOps(ops)) == System(ApplyAll(k, ops))
    ensures S.CarefulRun(System(k), SystemOps(ops)) <==> CarefulRun(k, ops)
    decreases |ops|
  {
    if ops == [] {
    } else {
      var front, op := ops[..|ops| - 1], ops[|ops| - 1];
      SameRun(k, front);
      SameApply(ApplyAll(k, front), op);
      SameHappens(ApplyAll(k, front), op);
      assert SystemOps(ops)[..|SystemOps(ops)| - 1] == SystemOps(front);
    }
  }

  /** So the theorem about schedulers gives inheritance after it. */
  lemma {:induction false} AfterCareful(k: Kernel, ops: seq<Op>)
    requires k.Inherited() && CarefulRun(k, ops)
    ensures ApplyAll(k, ops).Inherited()
  {
    SameRun(k, ops);
    SameInherited(k);
    S.RunKeepsInheritedIff(System(k), SystemOps(ops));
    SameInherited(ApplyAll(k, ops));
  }

  /** A run that has so far been careful goes on with one more call, or with none. */
  function Then(ops: seq<Op>, op: Option<Op>): seq<Op> { if op.Some? then ops + [op.value] else ops }

  lemma ThenKeepsCareful(k: Kernel, ops: seq<Op>, op: Option<Op>)
    requires CarefulRun(k, ops) && (op.Some? ==> Careful(ApplyAll(k, ops), op.value))
    ensures CarefulRun(k, Then(ops, op))
    ensures ApplyAll(k, Then(ops, op)) == if op.Some? then Apply(ApplyAll(k, ops), op.value) else ApplyAll(k, ops)
  {
    if op.Some? {
      assert (ops + [op.value])[..|ops|] == ops;
    }
  }

  /** With nobody blocked no call can be careless about a free mutex. */
  lemma NobodyBlocked(k: Kernel)
    requires !k.Is(High, Blocked) && !k.Is(Mid, Blocked) && !k.Is(Low, Blocked)
    ensures forall u: nat :: !System(k).Is(u, Blocked)
    ensures k.mutex.holder.None? ==> k.Inherited()
  {
    forall u ensures !k.Is(u, Blocked) { match u { case High => case Mid => case Low => } }
  }

  // ----- the exception is needed -----------------------------------------------------------

  lemma OneCall(k: Kernel, ops: seq<Op>, m: Kernel, op: Op, n: Kernel) returns (more: seq<Op>)
    requires CarefulRun(k, ops) && ApplyAll(k, ops) == m && Apply(m, op) == n && Careful(m, op)
    ensures CarefulRun(k, more) && ApplyAll(k, more) == n
  {
    ThenKeepsCareful(k, ops, Some(op));
    more := Then(ops, Some(op));
  }

  const IDLE := Kernel(Task(2, 2, Suspended), Task(1, 1, Suspended), Task(0, 0, Ready), Mutex(None, 0))

  /** The high task waits for the low one's mutex. */
  lemma HighQueues() returns (ops: seq<Op>)
    ensures CarefulRun(IDLE, ops)
    ensures ApplyAll(IDLE, ops) ==
              Kernel(Task(2, 2, Blocked), Task(1, 1, Suspended), Task(0, 2, Ready), Mutex(Some(Low), 1))
  {
    ops := [];
    var k1 := IDLE.(mutex := Mutex(Some(Low), 1));
    SameHappens(IDLE, TakeOp(Low, false));
    ops := OneCall(IDLE, ops, IDLE, TakeOp(Low, false), k1);
    var k2 := k1.(high := Task(2, 2, Ready));
    SameHappens(k1, ResumeOp(Low, High));
    ops := OneCall(IDLE, ops, k1, ResumeOp(Low, High), k2);
    SameHappens(k2, TakeOp(High, true));
    ops := OneCall(IDLE, ops, k2, TakeOp(High, true), k2.(high := Task(2, 2, Blocked), low := Task(0, 2, Ready)));
  }

  /** A holder that sleeps with the mutex lets a task run that is less urgent than the waiter,
      though every call was careful. */
  lemma SleepingHolderInverts() returns (ops: seq<Op>)
    ensures IDLE.Inherited() && CarefulRun(IDLE, ops)
    ensures var n := ApplyAll(IDLE, ops); n.Runs(Mid) && n.Is(High, Blocked) && n.Of(Mid).prio < n.Of(High).prio
  {
    NobodyBlocked(IDLE);
    ops := HighQueues();
    var k := ApplyAll(IDLE, ops);
    var k1 := k.(mid := Task(1, 1, Ready));
    SameHappens(k, ResumeOp(Low, Mid));
    ops := OneCall(IDLE, ops, k, ResumeOp(Low, Mid), k1);
    SameHappens(k1, DelayOp(Low));
    ops := OneCall(IDLE, ops, k1, DelayOp(Low), k1.(low := Task(0, 2, Delayed)));
  }
}
