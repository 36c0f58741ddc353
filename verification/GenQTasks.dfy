/** The three mutex tasks of the generic-queue demo, updating their shared variables in place.
    Each call runs one task's next statement, proved against the transitions of GenQMutex. */
module GenQTasks {
  import opened Common
  import opened Kernel
  import opened GenQMutex

  class Demo {
    var k: Kernel
    var l: LowPc
    var m: MediumPc
    var h: HighPc
    var guarded: nat  // ulGuardedVariable
    var loops: nat    // ulLoopCounter2
    var error: bool   // xErrorDetected

    ghost function Abs(): State
      reads this
    {
      State(k, l, m, h, guarded, loops, error)
    }

    constructor ()
      ensures Abs() == START
    {
      k := START.k;
      l, m, h := TakeMutex, MediumSuspend, HighSuspend;
      guarded, loops, error := 0, 0, false;
    }

    /** The mutex's take: it may hand over the mutex, refuse, or leave the caller waiting. */
    method Take(t: TaskId, block: bool) returns (r: TakeResult)
      modifies this`k
      ensures (k, r) == old(k).Take(t, block)
    {
      var v := k.Take(t, block);
      k, r := v.0, v.1;
    }

    /** The mutex's give: it fails when nobody holds the mutex. */
    method Give() returns (ok: bool)
      modifies this`k
      ensures (k, ok) == old(k).Give()
    {
      var v := k.Give();
      k, ok := v.0, v.1;
    }

    /** A comparison of uxTaskPriorityGet with what the task expects. */
    method ExpectPriority(p: nat)
      modifies this`error
      ensures error == (old(error) || k.low.prio != p)
    {
      if k.low.prio != p {
        error := true;
      }
    }

    /** The next statement of prvLowPriorityMutexTask. */
    method LowPriorityTask()
      modifies this
      ensures Abs() == LowStep(old(Abs()))
    {
      match l {
        case TakeMutex =>
          var r := Take(Low, false);
          if r != Got {
            error := true;
          }
          l := ClearVar;
        case ClearVar =>
          guarded := 0;
          l := CheckLow;
        case CheckLow =>
          ExpectPriority(LOW_PRIORITY);
          l := ResumeHigh;
        case ResumeHigh =>
          k := k.Resume(High);
          l := CheckInherited;
        case CheckInherited =>
          ExpectPriority(HIGH_PRIORITY);
          l := SetTest;
        case SetTest =>
          k := k.SetPriority(Low, TEST_PRIORITY);
          l := CheckStillHigh;
        case CheckStillHigh =>
          ExpectPriority(HIGH_PRIORITY);
          l := ResumeMedium;
        case ResumeMedium =>
          k := k.Resume(Mid);
          l := CheckZero;
        case CheckZero =>
          if guarded != 0 {
            error := true;
          }
          l := GiveMutex;
        case GiveMutex =>
          var ok := Give();
          if !ok {
            error := true;
          }
          l := CheckOne;
        case CheckOne =>
          if guarded != 1 {
            error := true;
          }
          l := CheckTest;
        case CheckTest =>
          ExpectPriority(TEST_PRIORITY);
          l := SetLow;
        case SetLow =>
          k := k.SetPriority(Low, LOW_PRIORITY);
          l := CountLoop;
        case CountLoop =>
          loops := (loops + 1) % TWO_32;
          l := TakeMutex;
      }
    }

    /** The next statement of prvMediumPriorityMutexTask. */
    method MediumPriorityTask()
      modifies this`k, this`m, this`guarded
      ensures Abs() == MediumStep(old(Abs()))
    {
      match m {
        case MediumSuspend =>
          k := k.SetStatus(Mid, Suspended);
          m := Increment;
        case Increment =>
          guarded := (guarded + 1) % TWO_32;
          m := MediumSuspend;
      }
    }

    /** The next statement of prvHighPriorityMutexTask. */
    method HighPriorityTask()
      modifies this`k, this`h, this`error
      ensures Abs() == HighStep(old(Abs()))
    {
      match h {
        case HighSuspend =>
          k := k.SetStatus(High, Suspended);
          h := HighTake;
        case HighTake =>
          var r := Take(High, true);
          if r == Got {
            h := HighGive;
          }
        case HighGive =>
          var ok := Give();
          if !ok {
            error := true;
          }
          h := HighSuspend;
      }
    }

    method Happen(t: TaskId)
      modifies this
      ensures Abs() == Step(old(Abs()), t)
    {
      if k.Runs(t) {
        match t {
          case High => HighPriorityTask();
          case Mid => MediumPriorityTask();
          case Low => LowPriorityTask();
        }
      }
    }
  }

  /** The demo under any schedule: the latch stays clear and the demo's claims hold. */
  method RunDemo(schedule: seq<TaskId>) returns (d: Demo)
    ensures fresh(d) && d.Abs() == Exec(START, schedule)
    ensures !d.error && DemoFacts(d.Abs())
  {
    d := new Demo();
    for i := 0 to |schedule|
      invariant d.Abs() == Exec(START, schedule[..i])
    {
      assert schedule[..i + 1][..i] == schedule[..i];
      d.Happen(schedule[i]);
    }
    assert schedule[..|schedule|] == schedule;
    EveryRunShowsInheritance(schedule);
  }
}
