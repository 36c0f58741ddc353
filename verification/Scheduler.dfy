/** Priority inheritance for any number of tasks: the kernel's ready list, one mutex with its list
    of waiters, suspension, delay and priority changes, and the runs of calls that keep
    inheritance in force. */
module Scheduler {
  import opened Common
  import opened Kernel

  /** Tasks are indices; the mutex is available when it has no holder. */
  datatype System = System(ts: seq<Task>, holder: Option<nat>, depth: nat) {
    predicate Valid() { holder.Some? ==> holder.value < |ts| }

    predicate Is(t: nat, s: Status) { t < |ts| && ts[t].status == s }

    /** The scheduler may run t: it is ready and no ready task is more urgent. */
    ghost predicate Runs(t: nat) {
      Is(t, Ready) && forall u: nat :: Is(u, Ready) ==> ts[u].prio <= ts[t].prio
    }

    function Put(t: nat, v: Task): System
      requires t < |ts|
    {
      this.(ts := ts[t := v])
    }

    function SetStatus(t: nat, s: Status): System
      requires t < |ts|
    {
      Put(t, ts[t].(status := s))
    }

    function Resume(t: nat): System { if Is(t, Suspended) then SetStatus(t, Ready) else this }

    /** vTaskPriorityInherit */
    function Inherit(h: nat, p: nat): System
      requires h < |ts|
    {
      if ts[h].prio < p then Put(h, ts[h].(prio := p)) else this
    }

    /** vTaskPrioritySet of the running task. */
    function SetPriority(t: nat, p: nat): System
      requires t < |ts|
    {
      var v := ts[t];
      if v.base == p then this
      else Put(t, Task(p, if v.base == v.prio then p else v.prio, v.status))
    }

    /** The first of the most urgent waiters among the first n tasks. */
    function TopAmong(n: nat): (w: Option<nat>)
      requires n <= |ts|
      ensures w.None? ==> forall u: nat :: u < n ==> !Is(u, Blocked)
      ensures w.Some? ==> w.value < n && Is(w.value, Blocked)
      ensures w.Some? ==> forall u: nat :: u < n && Is(u, Blocked) ==> ts[u].prio <= ts[w.value].prio
    {
      if n == 0 then None else
        var b := TopAmong(n - 1);
        if ts[n - 1].status.Blocked? && (b.None? || ts[b.value].prio < ts[n - 1].prio) then Some(n - 1) else b
    }

    ghost predicate IsTop(w: nat) {
      Is(w, Blocked) && forall u: nat :: Is(u, Blocked) ==> ts[u].prio <= ts[w].prio
    }

    /** The head of the event list: of several equally urgent waiters it may be any, here `pick`. */
    ghost function TopWaiter(pick: nat): (w: Option<nat>)
      ensures w.None? ==> forall u: nat :: !Is(u, Blocked)
      ensures w.Some? ==> IsTop(w.value)
    {
      if IsTop(pick) then Some(pick) else TopAmong(|ts|)
    }

    /** xQueueGenericSend on a held mutex: disinherit, free, and ready the first waiter. */
    ghost function Release(pick: nat): System
      requires Valid() && holder.Some?
    {
      var h := holder.value;
      var k := Put(h, ts[h].(prio := ts[h].base)).(holder := None, depth := 0);
      var w := k.TopWaiter(pick);
      if w.Some? then k.SetStatus(w.value, Ready) else k
    }

    function Take(t: nat, block: bool): System
      requires Valid() && t < |ts|
    {
      if holder.None? then this.(holder := Some(t), depth := 1)
      else if !block then this
      else Inherit(holder.value, ts[t].prio).SetStatus(t, Blocked)
    }

    function TakeRecursive(t: nat, block: bool): System
      requires Valid() && t < |ts|
    {
      if holder == Some(t) then this.(depth := depth + 1) else Take(t, block)
    }

    ghost function GiveRecursive(t: nat, pick: nat): System
      requires Valid()
    {
      if holder != Some(t) then this
      else if depth <= 1 then Release(pick)
      else this.(depth := depth - 1)
    }

    ghost function Give(pick: nat): System
      requires Valid()
    {
      if holder.None? then this else Release(pick)
    }

    /** Some ready task is as urgent as priority p. */
    ghost predicate Covered(p: nat) { exists w: nat :: Is(w, Ready) && p <= ts[w].prio }

    /** Priority inheritance in force: a held mutex's holder is at least as urgent as every waiter;
        a free one that still has waiters has a ready task as urgent as each. */
    ghost predicate Inherited() {
      match holder
      case Some(h) => h < |ts| && !Is(h, Blocked) && forall u: nat :: Is(u, Blocked) ==> ts[u].prio <= ts[h].prio
      case None => forall u: nat :: Is(u, Blocked) ==> Covered(ts[u].prio)
    }
  }

  /** What the running task t asks of the kernel, and what the tick brings. */
  datatype Op =
    | TakeOp(t: nat, block: bool)
    | TakeRecOp(t: nat, block: bool)
    | GiveOp(t: nat, pick: nat)
    | GiveRecOp(t: nat, pick: nat)
    | SetPriorityOp(t: nat, p: nat)
    | SuspendOp(t: nat)
    | DelayOp(t: nat)
    | ResumeOp(t: nat, u: nat)
    | DelayEnds(u: nat)
    | BlockTimeEnds(u: nat)

  /** A call by a task that is not running does not happen. */
  ghost predicate Happens(k: System, op: Op) {
    match op
    case DelayEnds(u) => k.Is(u, Delayed)
    case BlockTimeEnds(u) => k.Is(u, Blocked)
    case _ => k.Runs(op.t)
  }

  ghost function Apply(k: System, op: Op): System
    requires k.Valid()
  {
    if !Happens(k, op) then k else
    match op
    case TakeOp(t, block) => k.Take(t, block)
    case TakeRecOp(t, block) => k.TakeRecursive(t, block)
    case GiveOp(_, pick) => k.Give(pick)
    case GiveRecOp(t, pick) => k.GiveRecursive(t, pick)
    case SetPriorityOp(t, p) => k.SetPriority(t, p)
    case SuspendOp(t) => k.SetStatus(t, Suspended)
    case DelayOp(t) => k.SetStatus(t, Delayed)
    case ResumeOp(_, u) => k.Resume(u)
    case DelayEnds(u) => k.SetStatus(u, Ready)
    case BlockTimeEnds(u) => k.SetStatus(u, Ready)
  }

  lemma ApplyKeepsValid(k: System, op: Op)
    requires k.Valid()
    ensures Apply(k, op).Valid() && |Apply(k, op).ts| == |k.ts|
  {
  }

  ghost function ApplyAll(k: System, ops: seq<Op>): (n: System)
    requires k.Valid()
    ensures n.Valid() && |n.ts| == |k.ts|
    decreases |ops|
  {
    if ops == [] then k else
      var m := ApplyAll(k, ops[..|ops| - 1]);
      ApplyKeepsValid(m, ops[|ops| - 1]);
      Apply(m, ops[|ops| - 1])
  }

  /** What wakes a task: a delayed one the end of its delay, a suspended one a resume, and a waiter
      the end of its block time or a give that frees the mutex, and nothing else; and a ready task
      stops being so only by its own calls. */
  lemma WhatWakes(k: System, op: Op, u: nat)
    requires k.Valid() && u < |k.ts| && Happens(k, op)
    ensures k.Is(u, Delayed) ==> (Apply(k, op).Is(u, Ready) <==> op == DelayEnds(u))
    ensures k.Is(u, Suspended) ==> (Apply(k, op).Is(u, Ready) <==> op.ResumeOp? && op.u == u)
    ensures k.Is(u, Blocked) && Apply(k, op).Is(u, Ready) ==>
              op == BlockTimeEnds(u) || ((op.GiveOp? || op.GiveRecOp?) && k.holder.Some? && Apply(k, op).holder.None?)
    ensures k.Is(u, Ready) && !Apply(k, op).Is(u, Ready) ==>
              op == SuspendOp(u) || op == DelayOp(u) || op == TakeOp(u, true) || op == TakeRecOp(u, true)
  {
  }

  /** What moves the priority a task runs at, other than its own change of it: only the holder's
      moves, up to the taker's when a more urgent task waits, and back to the base with the give that
      frees the mutex. */
  lemma WhatMovesPriority(k: System, op: Op, u: nat)
    requires k.Valid() && u < |k.ts| && Happens(k, op) && !(op.SetPriorityOp? && op.t == u)
    ensures var before, after := k.ts[u], Apply(k, op).ts[u];
            && after.base == before.base
            && (after.prio != before.prio ==>
                  k.holder == Some(u) &&
                  match op
                  case TakeOp(t, block) => block && after.prio == k.ts[t].prio > before.prio
                  case TakeRecOp(t, block) => block && after.prio == k.ts[t].prio > before.prio
                  case GiveOp(_, _) => Apply(k, op).holder.None? && after.prio == before.base
                  case GiveRecOp(_, _) => Apply(k, op).holder.None? && after.prio == before.base
                  case _ => false)
  {
  }

  /** Some ready task other than t is as urgent as priority p. */
  ghost predicate CoveredWithout(k: System, t: nat, p: nat) {
    exists w: nat :: w != t && k.Is(w, Ready) && p <= k.ts[w].prio
  }

  /** While the mutex is free, t may step back from the ready tasks: every waiter stays covered. */
  ghost predicate MayStepBack(k: System, t: nat) {
    k.holder.None? ==> forall u: nat :: k.Is(u, Blocked) ==> CoveredWithout(k, t, k.ts[u].prio)
  }

  /** t may move to priority p, when that is the priority it runs at: it lies below no waiter for a
      mutex t holds, nor, while the mutex is free, below one that no other ready task covers. */
  ghost predicate MayMoveTo(k: System, t: nat, p: nat) {
    match k.holder
    case Some(h) => h == t ==> forall u: nat :: k.Is(u, Blocked) ==> k.ts[u].prio <= p
    case None => forall u: nat :: k.Is(u, Blocked) ==> k.ts[u].prio <= p || CoveredWithout(k, t, k.ts[u].prio)
  }

  /** What a caller has to look to: not to wait for a mutex it holds; not to lower the priority it
      runs at, unless inherited, below a waiter that counts on it; and not to sleep between
      another's give and the take that give was for. */
  ghost predicate Careful(k: System, op: Op)
    requires Happens(k, op)
  {
    match op
    case TakeOp(t, block) => block ==> k.holder != Some(t)
    case SetPriorityOp(t, p) => k.ts[t].base != k.ts[t].prio || p == k.ts[t].base || MayMoveTo(k, t, p)
    case SuspendOp(t) => MayStepBack(k, t)
    case DelayOp(t) => MayStepBack(k, t)
    case _ => true
  }

  // ----- one call --------------------------------------------------------------------------

  /** Nothing less urgent than a waiter runs, unless the holder sleeps. */
  lemma NoInversion(k: System, t: nat, u: nat)
    requires k.Inherited() && k.Runs(t) && k.Is(u, Blocked)
    requires k.holder.None? || k.Is(k.holder.value, Ready)
    ensures k.ts[u].prio <= k.ts[t].prio
  {
    if k.holder.None? {
      assert k.Covered(k.ts[u].prio);
      var w: nat :| k.Is(w, Ready) && k.ts[u].prio <= k.ts[w].prio;
      assert k.ts[w].prio <= k.ts[t].prio;
    }
  }

  lemma FreeTakeKeeps(k: System, t: nat)
    requires k.Inherited() && k.Runs(t) && k.holder.None?
    ensures k.(holder := Some(t), depth := 1).Inherited()
  {
    forall u: nat | k.Is(u, Blocked) ensures k.ts[u].prio <= k.ts[t].prio {
      NoInversion(k, t, u);
    }
    var n := k.(holder := Some(t), depth := 1);
    assert forall u: nat :: n.Is(u, Blocked) <==> k.Is(u, Blocked);
  }

  lemma WaitKeeps(k: System, t: nat)
    requires k.Inherited() && k.Runs(t) && k.holder.Some? && k.holder != Some(t)
    ensures k.Take(t, true).Inherited()
  {
    var n := k.Take(t, true);
    assert forall u: nat :: n.Is(u, Blocked) <==> k.Is(u, Blocked) || u == t;
  }

  /** A take keeps inheritance exactly when the task does not wait for itself. */
  lemma TakeIff(k: System, t: nat, block: bool)
    requires k.Valid() && k.Inherited() && k.Runs(t)
    ensures k.Take(t, block).Inherited() <==> (block ==> k.holder != Some(t))
  {
    if k.holder.None? {
      FreeTakeKeeps(k, t);
    } else if block {
      if k.holder == Some(t) {
        assert k.Take(t, block).Is(t, Blocked);
      } else {
        WaitKeeps(k, t);
      }
    }
  }

  /** The last give keeps inheritance: whichever of the most urgent waiters it readies covers
      those left. */
  lemma ReleaseKeeps(k: System, pick: nat)
    requires k.Valid() && k.Inherited() && k.holder.Some?
    ensures k.Release(pick).Inherited()
  {
    var h := k.holder.value;
    var f := k.Put(h, k.ts[h].(prio := k.ts[h].base)).(holder := None, depth := 0);
    var w := f.TopWaiter(pick);
    if w.Some? {
      var n := f.SetStatus(w.value, Ready);
      forall u: nat | n.Is(u, Blocked) ensures n.Covered(n.ts[u].prio) {
        assert f.Is(u, Blocked) && n.Is(w.value, Ready);
      }
    }
  }

  lemma SetPriorityHeldIff(k: System, t: nat, p: nat)
    requires k.Valid() && k.Inherited() && k.Runs(t) && k.holder.Some?
    requires k.ts[t].base == k.ts[t].prio && p != k.ts[t].base
    ensures k.SetPriority(t, p).Inherited() <==> MayMoveTo(k, t, p)
  {
    var n := k.SetPriority(t, p);
    assert forall u: nat :: n.Is(u, Blocked) <==> k.Is(u, Blocked);
    if n.Inherited() && k.holder == Some(t) {
      forall u: nat | k.Is(u, Blocked) ensures k.ts[u].prio <= p {
        assert n.Is(u, Blocked);
      }
    }
  }

  /** Whether a waiter is still covered once t has moved to priority p. */
  lemma CoverAfter(k: System, n: System, t: nat, p: nat, q: nat)
    requires k.Is(t, Ready) && n == k.Put(t, Task(p, p, Ready))
    ensures n.Covered(q) <==> q <= p || CoveredWithout(k, t, q)
  {
    assert n.Is(t, Ready) && n.ts[t].prio == p;
    if CoveredWithout(k, t, q) {
      var w: nat :| w != t && k.Is(w, Ready) && q <= k.ts[w].prio;
      assert n.Is(w, Ready) && n.ts[w].prio == k.ts[w].prio;
    }
    if n.Covered(q) {
      var w: nat :| n.Is(w, Ready) && q <= n.ts[w].prio;
      assert w != t ==> k.Is(w, Ready) && q <= k.ts[w].prio;
    }
  }

  lemma SetPriorityFreeIff(k: System, t: nat, p: nat)
    requires k.Inherited() && k.Runs(t) && k.holder.None?
    requires k.ts[t].base == k.ts[t].prio && p != k.ts[t].base
    ensures k.SetPriority(t, p).Inherited() <==> MayMoveTo(k, t, p)
  {
    var n := k.Put(t, Task(p, p, Ready));
    forall u: nat | k.Is(u, Blocked)
      ensures n.Is(u, Blocked) && n.ts[u] == k.ts[u]
      ensures n.Covered(n.ts[u].prio) <==> k.ts[u].prio <= p || CoveredWithout(k, t, k.ts[u].prio)
    {
      CoverAfter(k, n, t, p, k.ts[u].prio);
    }
    assert forall u: nat :: n.Is(u, Blocked) ==> k.Is(u, Blocked);
  }

  /** A change of the base alone, under an inherited priority. */
  lemma BaseOnly(k: System, t: nat, p: nat)
    requires k.Inherited() && k.Runs(t) && (k.ts[t].base != k.ts[t].prio || p == k.ts[t].base)
    ensures k.SetPriority(t, p).Inherited()
  {
    var n := k.SetPriority(t, p);
    assert forall u: nat :: u < |k.ts| ==> n.ts[u].prio == k.ts[u].prio && n.ts[u].status == k.ts[u].status;
    forall u: nat | n.holder.None? && n.Is(u, Blocked) ensures n.Covered(n.ts[u].prio) {
      assert k.Is(u, Blocked);
      var w: nat :| k.Is(w, Ready) && k.ts[u].prio <= k.ts[w].prio;
      assert n.Is(w, Ready);
    }
  }

  /** Stepping back from the ready tasks. */
  lemma SleepIff(k: System, t: nat, s: Status)
    requires k.Inherited() && k.Runs(t) && (s.Suspended? || s.Delayed?)
    ensures k.SetStatus(t, s).Inherited() <==> MayStepBack(k, t)
  {
    var n := k.SetStatus(t, s);
    assert forall u: nat :: n.Is(u, Blocked) <==> k.Is(u, Blocked);
    assert forall u: nat :: u < |k.ts| ==> n.ts[u].prio == k.ts[u].prio;
    assert forall w: nat :: n.Is(w, Ready) <==> w != t && k.Is(w, Ready);
    if k.holder.None? {
      forall u: nat | k.Is(u, Blocked)
        ensures n.Covered(n.ts[u].prio) <==> CoveredWithout(k, t, k.ts[u].prio)
      {
        SleepCover(k, n, t, k.ts[u].prio);
      }
    }
  }

  lemma SleepCover(k: System, n: System, t: nat, q: nat)
    requires |n.ts| == |k.ts| && forall u: nat :: u < |k.ts| ==> n.ts[u].prio == k.ts[u].prio
    requires forall w: nat :: n.Is(w, Ready) <==> w != t && k.Is(w, Ready)
    ensures n.Covered(q) <==> CoveredWithout(k, t, q)
  {
    if CoveredWithout(k, t, q) {
      var w: nat :| w != t && k.Is(w, Ready) && q <= k.ts[w].prio;
      assert n.Is(w, Ready);
    }
  }

  /** Readying a task. */
  lemma ReadyKeeps(k: System, u: nat)
    requires k.Inherited() && u < |k.ts|
    ensures k.SetStatus(u, Ready).Inherited()
  {
    var n := k.SetStatus(u, Ready);
    assert forall v: nat :: n.Is(v, Blocked) ==> k.Is(v, Blocked);
    forall v: nat | n.holder.None? && n.Is(v, Blocked) ensures n.Covered(n.ts[v].prio) {
      var w: nat :| k.Is(w, Ready) && k.ts[v].prio <= k.ts[w].prio;
      assert n.Is(w, Ready);
    }
  }

  lemma SetPriorityIff(k: System, t: nat, p: nat)
    requires k.Valid() && k.Inherited() && k.Runs(t)
    ensures k.SetPriority(t, p).Inherited() <==>
              k.ts[t].base != k.ts[t].prio || p == k.ts[t].base || MayMoveTo(k, t, p)
  {
    if k.ts[t].base != k.ts[t].prio || p == k.ts[t].base {
      BaseOnly(k, t, p);
    } else if k.holder.None? {
      SetPriorityFreeIff(k, t, p);
    } else {
      SetPriorityHeldIff(k, t, p);
    }
  }

  lemma DepthKeeps(k: System, d: nat)
    requires k.Inherited()
    ensures k.(depth := d).Inherited()
  {
    var n := k.(depth := d);
    assert forall u: nat, s: Status :: n.Is(u, s) <==> k.Is(u, s);
    forall u: nat | n.holder.None? && n.Is(u, Blocked) ensures n.Covered(n.ts[u].prio) {
      var w: nat :| k.Is(w, Ready) && k.ts[u].prio <= k.ts[w].prio;
      assert n.Is(w, Ready);
    }
  }

  lemma GiveKeeps(k: System, op: Op)
    requires k.Valid() && k.Inherited() && (op.GiveOp? || op.GiveRecOp?)
    ensures Apply(k, op).Inherited()
  {
    if k.holder.Some? {
      ReleaseKeeps(k, op.pick);
      DepthKeeps(k, if k.depth > 0 then k.depth - 1 else 0);
    }
  }

  lemma TakeRecKeeps(k: System, t: nat, block: bool)
    requires k.Valid() && k.Inherited() && k.Runs(t)
    ensures k.TakeRecursive(t, block).Inherited()
  {
    if k.holder == Some(t) {
      DepthKeeps(k, k.depth + 1);
    } else {
      TakeIff(k, t, block);
    }
  }

  /** One call keeps priority inheritance in force exactly when its caller is careful. */
  lemma ApplyKeepsInheritedIff(k: System, op: Op)
    requires k.Valid() && k.Inherited() && Happens(k, op)
    ensures Apply(k, op).Inherited() <==> Careful(k, op)
  {
    match op {
      case TakeOp(t, block) => TakeIff(k, t, block);
      case TakeRecOp(t, block) => TakeRecKeeps(k, t, block);
      case GiveOp(_, _) => GiveKeeps(k, op);
      case GiveRecOp(_, _) => GiveKeeps(k, op);
      case SetPriorityOp(t, p) => SetPriorityIff(k, t, p);
      case SuspendOp(t) => SleepIff(k, t, Suspended);
      case DelayOp(t) => SleepIff(k, t, Delayed);
      case ResumeOp(_, u) => if u < |k.ts| { ReadyKeeps(k, u); }
      case DelayEnds(u) => ReadyKeeps(k, u);
      case BlockTimeEnds(u) => ReadyKeeps(k, u);
    }
  }

  // ----- runs ------------------------------------------------------------------------------

  /** Every call of the run that happens is a careful one. */
  ghost predicate CarefulRun(k: System, ops: seq<Op>)
    requires k.Valid()
    decreases |ops|
  {
    ops == [] ||
    (var front, op := ops[..|ops| - 1], ops[|ops| - 1];
     CarefulRun(k, front) && (Happens(ApplyAll(k, front), op) ==> Careful(ApplyAll(k, front), op)))
  }

  /** Inheritance is in force at the end of the run and all the way there. */
  ghost predicate InheritedRun(k: System, ops: seq<Op>)
    requires k.Valid()
    decreases |ops|
  {
    ApplyAll(k, ops).Inherited() && (ops == [] || InheritedRun(k, ops[..|ops| - 1]))
  }

  lemma {:induction false} InheritedAt(k: System, ops: seq<Op>, n: nat)
    requires k.Valid() && InheritedRun(k, ops) && n <= |ops|
    ensures ApplyAll(k, ops[..n]).Inherited()
    decreases |ops|
  {
    if n == |ops| {
      assert ops[..n] == ops;
    } else {
      InheritedAt(k, ops[..|ops| - 1], n);
      assert ops[..|ops| - 1][..n] == ops[..n];
    }
  }

  /** For any number of tasks, over any run of takes, gives, priority changes, suspensions, delays
      and expiries by the tasks the scheduler picks: priority inheritance is in force throughout
      exactly when every call was careful. */
  lemma {:induction false} RunKeepsInheritedIff(k: System, ops: seq<Op>)
    requires k.Valid() && k.Inherited()
    ensures InheritedRun(k, ops) <==> CarefulRun(k, ops)
    decreases |ops|
  {
    if ops == [] {
    } else {
      var front, op := ops[..|ops| - 1], ops[|ops| - 1];
      RunKeepsInheritedIff(k, front);
      if InheritedRun(k, front) && Happens(ApplyAll(k, front), op) {
        ApplyKeepsInheritedIff(ApplyAll(k, front), op);
      }
    }
  }

  /** So after any careful run the running task is at least as urgent as every waiter, unless the
      holder itself sleeps. */
  lemma {:induction false} NoInversionAfter(k: System, ops: seq<Op>, t: nat, u: nat)
    requires k.Valid() && k.Inherited() && CarefulRun(k, ops)
    requires var n := ApplyAll(k, ops); n.Runs(t) && n.Is(u, Blocked)
    requires var n := ApplyAll(k, ops); n.holder.None? || n.Is(n.holder.value, Ready)
    ensures ApplyAll(k, ops).ts[u].prio <= ApplyAll(k, ops).ts[t].prio
  {
    RunKeepsInheritedIff(k, ops);
    NoInversion(ApplyAll(k, ops), t, u);
  }
}
