/** The recursive-mutex demo's three endless loops, updating their shared variables in place.
    Each call runs one task's next statement, proved against the transitions of RecMutex, whose
    theorems speak of every schedule. */
module RecMutexTasks {
  import opened Common
  import opened Kernel
  import opened RecMutex

  class Demo {
    var k: Kernel
    var c: Ctrl
    var b: Blck
    var p: Poll
    var expired: bool
    var controllingIsSuspended: bool  // xControllingIsSuspended
    var blockingIsSuspended: bool     // xBlockingIsSuspended
    var controllingCycles: nat        // uxControllingCycles
    var blockingCycles: nat           // uxBlockingCycles
    var pollingCycles: nat            // uxPollingCycles
    var errorOccurred: bool           // xErrorOccurred

    ghost function Abs(): State
      reads this
    {
      State(k, c, b, p, expired, controllingIsSuspended, blockingIsSuspended,
            controllingCycles, blockingCycles, pollingCycles, errorOccurred)
    }

    constructor ()
      ensures Abs() == START
    {
      k := START.k;
      c, b, p, expired := GiveEarly, TakeWait, TryTake, false;
      controllingIsSuspended, blockingIsSuspended := false, false;
      controllingCycles, blockingCycles, pollingCycles, errorOccurred := 0, 0, 0, false;
    }

    /** A give by task t: it fails unless t holds the mutex. */
    method GiveRecursive(t: TaskId) returns (ok: bool)
      modifies this`k
      ensures (k, ok) == old(k).GiveRecursive(t)
    {
      var r := k.GiveRecursive(t);
      k, ok := r.0, r.1;
    }

    /** A take by task t, which the holder may repeat. */
    method TakeRecursive(t: TaskId, block: bool) returns (r: TakeResult)
      modifies this`k
      ensures (k, r) == old(k).TakeRecursive(t, block)
    {
      var v := k.TakeRecursive(t, block);
      k, r := v.0, v.1;
    }

    /** The ux-th take of the controlling task's first loop. */
    method ControllingTake(ux: nat)
      requires c == TakeIt(ux)
      modifies this`k, this`c, this`expired, this`errorOccurred
      ensures Abs() == ControllingStep(old(Abs()))
    {
      var r := TakeRecursive(High, !expired);
      if r != Waits {
        expired := false;
        if r != Got {
          errorOccurred := true;
        }
        c := SleepTaken(ux);
      }
    }

    /** The next statement of prvRecursiveMutexControllingTask. */
    method ControllingTask()
      modifies this
      ensures Abs() == ControllingStep(old(Abs()))
    {
      match c {
        case GiveEarly =>
          var ok := GiveRecursive(High);
          if ok {
            errorOccurred := true;
          }
          c := TakeIt(0);
        case TakeIt(ux) => ControllingTake(ux);
        case SleepTaken(ux) =>
          k := k.SetStatus(High, Delayed);
          c := if ux + 1 < MAX_COUNT then TakeIt(ux + 1) else SleepGive(0);
        case SleepGive(ux) =>
          k := k.SetStatus(High, Delayed);
          c := GiveIt(ux);
        case GiveIt(ux) =>
          var ok := GiveRecursive(High);
          if !ok {
            errorOccurred := true;
          }
          c := if ux + 1 < MAX_COUNT then SleepGive(ux + 1) else GiveLate;
        case GiveLate =>
          var ok := GiveRecursive(High);
          if ok {
            errorOccurred := true;
          }
          c := CountCycle;
        case CountCycle =>
          controllingCycles := (controllingCycles + 1) % TWO_32;
          c := Announce;
        case Announce =>
          controllingIsSuspended := true;
          c := SuspendSelf;
        case SuspendSelf =>
          k := k.SetStatus(High, Suspended);
          c := Resumed;
        case Resumed =>
          controllingIsSuspended := false;
          c := GiveEarly;
      }
    }

    /** The next statement of prvRecursiveMutexBlockingTask. */
    method BlockingTask()
      modifies this
      ensures Abs() == BlockingStep(old(Abs()))
    {
      match b {
        case TakeWait =>
          var r := TakeRecursive(Mid, true);
          if r == Got {
            b := CheckFlag;
          }
        case CheckFlag =>
          if !controllingIsSuspended {
            errorOccurred := true;
            b := CheckCycles;
          } else {
            b := GiveBack;
          }
        case GiveBack =>
          var ok := GiveRecursive(Mid);
          if !ok {
            errorOccurred := true;
          }
          b := SayAsleep;
        case SayAsleep =>
          blockingIsSuspended := true;
          b := Sleep;
        case Sleep =>
          k := k.SetStatus(Mid, Suspended);
          b := SayAwake;
        case SayAwake =>
          blockingIsSuspended := false;
          b := CheckCycles;
        case CheckCycles =>
          if controllingCycles != (blockingCycles + 1) % TWO_32 {
            errorOccurred := true;
          }
          b := BumpCycles;
        case BumpCycles =>
          blockingCycles := (blockingCycles + 1) % TWO_32;
          b := TakeWait;
      }
    }

    /** The next statement of prvRecursiveMutexPollingTask. */
    method PollingTask()
      modifies this
      ensures Abs() == PollingStep(old(Abs()))
    {
      match p {
        case TryTake =>
          var r := TakeRecursive(Low, false);
          if r == Got {
            p := CheckBoth;
          }
        case CheckBoth =>
          if !blockingIsSuspended || !controllingIsSuspended {
            errorOccurred := true;
            p := TryTake;
          } else {
            p := BumpPolls;
          }
        case BumpPolls =>
          pollingCycles := (pollingCycles + 1) % TWO_32;
          p := WakeBlocking;
        case WakeBlocking =>
          k := k.Resume(Mid);
          p := WakeControlling;
        case WakeControlling =>
          k := k.Resume(High);
          p := CheckAwake;
        case CheckAwake =>
          if blockingIsSuspended || controllingIsSuspended {
            errorOccurred := true;
          }
          p := GiveFree;
        case GiveFree =>
          var ok := GiveRecursive(Low);
          if !ok {
            errorOccurred := true;
          }
          p := TryTake;
      }
    }

    /** One event, if it can happen. */
    method Happen(e: Event)
      modifies this
      ensures Abs() == Step(old(Abs()), e)
    {
      match e {
        case Run(t) =>
          if k.Runs(t) {
            match t {
              case High => ControllingTask();
              case Mid => BlockingTask();
              case Low => PollingTask();
            }
          }
        case DelayOver =>
          if k.Is(High, Delayed) {
            k := k.SetStatus(High, Ready);
          }
        case Expiry =>
          if k.Is(High, Blocked) {
            k := k.SetStatus(High, Ready);
            expired := true;
          }
      }
    }
  }

  /** The demo under any schedule: the latch is set exactly when the two-tick take ran out, and
      as long as it is clear the demo's claims hold. */
  method RunDemo(evs: seq<Event>) returns (d: Demo)
    ensures fresh(d) && d.Abs() == Exec(START, evs)
    ensures d.errorOccurred <==> SomeTakeFails(evs)
    ensures !d.errorOccurred ==> DemoFacts(d.Abs())
  {
    d := new Demo();
    for i := 0 to |evs|
      invariant d.Abs() == Exec(START, evs[..i])
    {
      assert evs[..i + 1][..i] == evs[..i];
      d.Happen(evs[i]);
    }
    assert evs[..|evs|] == evs;
    ErrorIffTakeFails(evs);
    if !SomeTakeFails(evs) {
      EveryGoodRunShowsTheDemo(evs);
    }
  }
}
