/** The part of the FreeRTOS kernel the demo tasks rely on: three tasks, one mutex with
    priority inheritance, suspension, delay and priority changes. The highest-priority ready
    task runs; among equals the choice is left open. */
module Kernel {
  import opened Common

  datatype TaskId = High | Mid | Low

  /** Ready to run, sleeping in vTaskDelay, in vTaskSuspend, or waiting for the mutex. */
  datatype Status = Ready | Delayed | Suspended | Blocked

  /** `base` is uxBasePriority and `prio` is uxPriority, which may be inherited. */
  datatype Task = Task(base: nat, prio: nat, status: Status)

  /** The mutex is available when it has no holder; `depth` is uxRecursiveCallCount. */
  datatype Mutex = Mutex(holder: Option<TaskId>, depth: nat)

  datatype TakeResult = Got | Refused | Waits

  datatype Kernel = Kernel(high: Task, mid: Task, low: Task, mutex: Mutex) {
    function Of(t: TaskId): Task {
      match t
      case High => high
      case Mid => mid
      case Low => low
    }

    function Put(t: TaskId, v: Task): (k: Kernel)
      ensures k.mutex == mutex && forall u :: k.Of(u) == if u == t then v else Of(u)
    {
      match t
      case High => this.(high := v)
      case Mid => this.(mid := v)
      case Low => this.(low := v)
    }

    predicate Is(t: TaskId, s: Status) { Of(t).status == s }

    /** The scheduler may run t. */
    predicate Runs(t: TaskId) {
      && Is(t, Ready)
      && (Is(High, Ready) ==> high.prio <= Of(t).prio)
      && (Is(Mid, Ready) ==> mid.prio <= Of(t).prio)
      && (Is(Low, Ready) ==> low.prio <= Of(t).prio)
    }

    function SetStatus(t: TaskId, s: Status): Kernel { Put(t, Of(t).(status := s)) }

    /** vTaskResume: only a task that is in the suspended state is resumed. */
    function Resume(t: TaskId): Kernel { if Is(t, Suspended) then SetStatus(t, Ready) else this }

    /** vTaskPriorityInherit: the holder gets at least priority p. */
    function Inherit(h: TaskId, p: nat): Kernel {
      if Of(h).prio < p then Put(h, Of(h).(prio := p)) else this
    }

    /** vTaskPrioritySet of the running task: an inherited priority stays in force. */
    function SetPriority(t: TaskId, p: nat): Kernel {
      var v := Of(t);
      if v.base == p then this
      else Put(t, Task(p, if v.base == v.prio then p else v.prio, v.status))
    }

    /** The waiter with the highest priority, the head of xTasksWaitingToReceive. */
    function TopWaiter(): (w: Option<TaskId>)
      ensures w.None? ==> forall u :: !Is(u, Blocked)
      ensures w.Some? ==> Is(w.value, Blocked) && forall u :: Is(u, Blocked) ==> Of(u).prio <= Of(w.value).prio
    {
      var a := if Is(High, Blocked) then Some(High) else None;
      var b := if Is(Mid, Blocked) && (a.None? || Of(a.value).prio < mid.prio) then Some(Mid) else a;
      if Is(Low, Blocked) && (b.None? || Of(b.value).prio < low.prio) then Some(Low) else b
    }

    /** xQueueGenericSend on a held mutex: disinherit, free, and ready the first waiter. */
    function Release(): Kernel
      requires mutex.holder.Some?
    {
      var h := mutex.holder.value;
      var k := Put(h, Of(h).(prio := Of(h).base)).(mutex := Mutex(None, 0));
      var w := k.TopWaiter();
      if w.Some? then k.SetStatus(w.value, Ready) else k
    }

    /** xQueueGenericReceive on the mutex by t, with or without a block time. A task that has
        to wait is readied by Release and tries again when it next runs. */
    function Take(t: TaskId, block: bool): (Kernel, TakeResult) {
      if mutex.holder.None? then (this.(mutex := Mutex(Some(t), 1)), Got)
      else if !block then (this, Refused)
      else (Inherit(mutex.holder.value, Of(t).prio).SetStatus(t, Blocked), Waits)
    }

    /** xQueueTakeMutexRecursive. */
    function TakeRecursive(t: TaskId, block: bool): (Kernel, TakeResult) {
      if mutex.holder == Some(t)
      then (this.(mutex := Mutex(mutex.holder, mutex.depth + 1)), Got)
      else Take(t, block)
    }

    /** xQueueGiveMutexRecursive: only the holder can give, and only the last give frees. */
    function GiveRecursive(t: TaskId): (Kernel, bool) {
      if mutex.holder != Some(t) then (this, false)
      else if mutex.depth <= 1 then (Release(), true)
      else (this.(mutex := Mutex(mutex.holder, mutex.depth - 1)), true)
    }

    /** xSemaphoreGive: no check of the caller. */
    function Give(): (Kernel, bool) {
      if mutex.holder.None? then (this, false) else (Release(), true)
    }

    /** Priority inheritance at work: a held mutex's holder is at least as urgent as every
        waiter; a free one that still has waiters has a ready task as urgent as each. */
    ghost predicate Inherited() {
      match mutex.holder
      case Some(h) => !Is(h, Blocked) && forall u :: Is(u, Blocked) ==> Of(u).prio <= Of(h).prio
      case None => forall u :: Is(u, Blocked) ==> exists w :: Is(w, Ready) && Of(u).prio <= Of(w).prio
    }

    ghost predicate BaseBelow() { forall t :: Of(t).base <= Of(t).prio }
  }
}
