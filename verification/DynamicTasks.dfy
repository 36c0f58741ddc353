/** The three tasks of the dynamic-priority demo, updating their shared variables in place. Each
    call runs one task's next statement, proved against the transitions of DynamicPriority. */
module DynamicTasks {
  import opened Common
  import opened Kernel
  import opened DynamicPriority

  class Demo {
    var k: Kernel
    var locked: bool            // vTaskSuspendAll is in force
    var n: ContPc
    var m: LimPc
    var r: CtrlPc
    var ourPriority: nat        // uxOurPriority
    var counter: nat            // ulCounter
    var lastCounter: nat        // ulLastCounter
    var error: bool             // sError
    var check: nat              // usCheckVariable
    ghost var increments: nat
    ghost var stalled: bool

    ghost function Abs(): State
      reads this
    {
      State(k, locked, n, m, r, ourPriority, counter, lastCounter, error, check, increments, stalled)
    }

    constructor ()
      ensures Abs() == START
    {
      k := START.k;
      locked, n, m, r := false, ReadPriority, FirstSuspend, Zero;
      ourPriority, counter, lastCounter, error, check := 0, 0, 0, false, 0;
      increments, stalled := 0, false;
    }

    /** The next statement of vLimitedIncrementTask. */
    method LimitedIncrementTask()
      modifies this`k, this`m, this`counter
      ensures Abs() == LimitedStep(old(Abs()))
    {
      match m {
        case FirstSuspend =>
          k := k.SetStatus(High, Suspended);
          m := CountOne;
        case CountOne =>
          counter := (counter + 1) % TWO_32;
          m := TestLimit;
        case TestLimit =>
          if counter >= MAX_COUNT {
            m := SuspendAgain;
          } else {
            m := CountOne;
          }
        case SuspendAgain =>
          k := k.SetStatus(High, Suspended);
          m := CountOne;
      }
    }

    /** The next statement of vContinuousIncrementTask. */
    method ContinuousIncrementTask()
      modifies this`k, this`n, this`counter, this`ourPriority, this`increments
      ensures Abs() == ContinuousStep(old(Abs()))
    {
      match n {
        case ReadPriority =>
          ourPriority := k.mid.prio;
          n := Raise;
        case Raise =>
          k := k.SetPriority(Mid, ourPriority + 1);
          n := CountUp;
        case CountUp =>
          counter := (counter + 1) % TWO_32;
          increments := increments + 1;
          n := Lower;
        case Lower =>
          k := k.SetPriority(Mid, ourPriority);
          n := Raise;
      }
    }

    /** The comparison of the counter with its mirror, with the scheduler locked. */
    method CompareCounters(i: nat)
      requires r == Compare(i)
      modifies this`error, this`stalled, this`r
      ensures Abs() == ControllerStep(old(Abs()))
    {
      if lastCounter == counter {
        error := true;
      }
      stalled := stalled || increments % TWO_32 == 0;
      r := UnlockAll(i);
    }

    /** The tail of the controller's loop: the check of the limited task. */
    method CheckLimitedTask()
      requires r.SuspendForGood? || r.Reset? || r.ResumeLim? || r.CheckLimit? || r.CountCheck? || r.ResumeBoth?
      modifies this
      ensures Abs() == ControllerStep(old(Abs()))
    {
      match r {
        case SuspendForGood =>
          k := k.SetStatus(Mid, Suspended);
          r := Reset;
        case Reset =>
          counter := 0;
          r := ResumeLim;
        case ResumeLim =>
          k := k.Resume(High);
          r := CheckLimit;
        case CheckLimit =>
          if counter != MAX_COUNT {
            error := true;
          }
          r := CountCheck;
        case CountCheck =>
          if !error {
            check := (check + 1) % TWO_16;
          }
          r := ResumeBoth;
        case ResumeBoth =>
          k := k.Resume(Mid);
          r := Zero;
      }
    }

    /** The next statement of vCounterControlTask. */
    method CounterControlTask()
      modifies this
      ensures Abs() == ControllerStep(old(Abs()))
    {
      match r {
        case Zero =>
          counter := 0;
          r := SuspendCont(0);
        case SuspendCont(i) =>
          k := k.SetStatus(Mid, Suspended);
          r := Mirror(i);
        case Mirror(i) =>
          lastCounter := counter;
          increments := 0;
          r := ResumeCont(i);
        case ResumeCont(i) =>
          k := k.Resume(Mid);
          r := Sleep(i);
        case Sleep(i) =>
          k := k.SetStatus(Low, Delayed);
          r := LockAll(i);
        case LockAll(i) =>
          locked := true;
          r := Compare(i);
        case Compare(i) => CompareCounters(i);
        case UnlockAll(i) =>
          locked := false;
          r := if i + 1 < LOOPS then SuspendCont(i + 1) else SuspendForGood;
        case _ => CheckLimitedTask();
      }
    }

    method Happen(e: Event)
      modifies this
      ensures Abs() == Step(old(Abs()), e)
    {
      match e {
        case Run(t) =>
          if if locked then t == Low else k.Runs(t) {
            match t {
              case High => LimitedIncrementTask();
              case Mid => ContinuousIncrementTask();
              case Low => CounterControlTask();
            }
          }
        case DelayOver =>
          if k.Is(Low, Delayed) {
            k := k.SetStatus(Low, Ready);
          }
      }
    }
  }

  /** The demo under any schedule: the error flag is set exactly when the schedule has a comparison
      after a delay in which the continuous task added nothing, modulo the word size, and while it
      is clear the check variable counts the controller's rounds of forty-two statements. */
  method RunDemo(evs: seq<Event>) returns (d: Demo)
    ensures fresh(d) && d.Abs() == Exec(START, evs)
    ensures d.error <==> Stalls(evs)
    ensures !d.error ==> d.check == (Turns(START, evs) + 1) / 42 % TWO_16
  {
    d := new Demo();
    for i := 0 to |evs|
      invariant d.Abs() == Exec(START, evs[..i])
    {
      assert evs[..i + 1][..i] == evs[..i];
      d.Happen(evs[i]);
    }
    assert evs[..|evs|] == evs;
    ErrorIffStalls(evs);
    CheckCountsTheRounds(evs);
  }
}
