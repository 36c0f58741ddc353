/** The semaphore demo: any number of tasks guard one variable with one binary semaphore. Each
    counts the variable up from zero while holding it and expects to find it, and to read it
    back, exactly as it was left. */
module SemTest {
  import opened Common

  /** Program points of prvSemaphoreTest. */
  datatype Pc =
    | TakeIt     // xSemaphoreTake
    | CheckVar   // the variable must have the expected value
    | Write      // *pulSharedVariable = ulCounter, or leave the loop
    | ReadBack   // and check it, then ulCounter++
    | GiveIt     // xSemaphoreGive
    | Tally      // count a good cycle

  datatype Task = Task(pc: Pc, counter: nat, sError: bool, check: nat) {
    /** The task has taken the semaphore and not yet given it back. */
    predicate Inside() { !pc.TakeIt? && !pc.Tally? }
  }

  /** The shared part: is the semaphore available, and the variable. */
  datatype Shared = Shared(available: bool, variable: nat)

  /** One statement of a task. A take that finds the semaphore gone fails or waits; either way
      the task is back at the take when it runs again. */
  function TaskStep(expected: nat, g: Shared, t: Task): (Shared, Task) {
    match t.pc
    case TakeIt => if g.available then (g.(available := false), t.(pc := CheckVar)) else (g, t)
    case CheckVar => (g, t.(sError := t.sError || g.variable != expected, counter := 0, pc := Write))
    case Write =>
      if t.counter <= expected then (g.(variable := t.counter), t.(pc := ReadBack)) else (g, t.(pc := GiveIt))
    case ReadBack => (g, t.(sError := t.sError || g.variable != t.counter, counter := t.counter + 1, pc := Write))
    case GiveIt => (g.(available := true), t.(sError := t.sError || g.available, pc := Tally))
    case Tally => (g, t.(check := if t.sError then t.check else (t.check + 1) % TWO_16, pc := TakeIt))
  }

  /** The flag of a task is set by its three checks and by nothing else, in any state whatever. */
  lemma ChecksSetTheFlag(expected: nat, g: Shared, t: Task)
    ensures TaskStep(expected, g, t).1.sError <==>
              || t.sError
              || (t.pc.CheckVar? && g.variable != expected)
              || (t.pc.ReadBack? && g.variable != t.counter)
              || (t.pc.GiveIt? && g.available)
  {
  }

  /** What the variable must be, given where the holder is. */
  ghost predicate Owns(expected: nat, g: Shared, t: Task) {
    match t.pc
    case CheckVar => g.variable == expected
    case Write => t.counter <= expected + 1 && (t.counter > 0 ==> g.variable == t.counter - 1)
    case ReadBack => t.counter <= expected && g.variable == t.counter
    case GiveIt => g.variable == expected
    case _ => false
  }

  /** Mutual exclusion, and the variable accounted for: at most one task is inside, and when
      none is the semaphore is available and the variable has the expected value. */
  ghost predicate Inv(expected: nat, g: Shared, ts: seq<Task>) {
    && (forall i :: 0 <= i < |ts| ==> !ts[i].sError)
    && (forall i, j :: 0 <= i < |ts| && 0 <= j < |ts| && ts[i].Inside() && ts[j].Inside() ==> i == j)
    && (forall i :: 0 <= i < |ts| && ts[i].Inside() ==> !g.available && Owns(expected, g, ts[i]))
    && (g.available ==> g.variable == expected)
    && (!g.available ==> exists i :: 0 <= i < |ts| && ts[i].Inside())
  }

  lemma StepKeeps(expected: nat, g: Shared, ts: seq<Task>, i: nat)
    requires i < |ts| && Inv(expected, g, ts)
    ensures var (g', t') := TaskStep(expected, g, ts[i]); Inv(expected, g', ts[i := t'])
  {
    var (g', t') := TaskStep(expected, g, ts[i]);
    var us := ts[i := t'];
    if !g'.available {
      if !g.available {
        var h :| 0 <= h < |ts| && ts[h].Inside();
        assert us[h].Inside();
      } else {
        assert us[i].Inside();
      }
    }
  }

  /** All the tasks and what they share. */
  datatype State = State(g: Shared, ts: seq<Task>)

  /** As the tasks are started: the semaphore free and the variable at its expected value. */
  function Start(n: nat, expected: nat): State {
    State(Shared(true, expected), seq(n, _ => Task(TakeIt, 0, false, 0)))
  }

  /** The i-th task executes its next statement. */
  function Step(expected: nat, s: State, i: nat): State {
    if i < |s.ts| then
      var (g, t) := TaskStep(expected, s.g, s.ts[i]);
      State(g, s.ts[i := t])
    else s
  }

  function Exec(expected: nat, s: State, schedule: seq<nat>): State
    decreases |schedule|
  {
    if schedule == [] then s
    else Step(expected, Exec(expected, s, schedule[..|schedule| - 1]), schedule[|schedule| - 1])
  }

  lemma {:induction false} EveryRunKeeps(n: nat, expected: nat, schedule: seq<nat>)
    ensures var s := Exec(expected, Start(n, expected), schedule); |s.ts| == n && Inv(expected, s.g, s.ts)
    decreases |schedule|
  {
    if schedule == [] {
    } else {
      var front, i := schedule[..|schedule| - 1], schedule[|schedule| - 1];
      EveryRunKeeps(n, expected, front);
      var s := Exec(expected, Start(n, expected), front);
      if i < n {
        StepKeeps(expected, s.g, s.ts, i);
      }
    }
  }

  /** Any number of tasks under any schedule: no error flag is ever set, no two tasks are inside
      together, the variable always agrees with the holder's counter, and whenever the semaphore is
      available the variable has its expected value. */
  lemma {:induction false} EveryRunExcludes(n: nat, expected: nat, schedule: seq<nat>)
    ensures var s := Exec(expected, Start(n, expected), schedule);
            && |s.ts| == n && (forall i :: 0 <= i < n ==> !s.ts[i].sError)
            && (forall i, j :: 0 <= i < j < n ==> !(s.ts[i].Inside() && s.ts[j].Inside()))
            && (forall i :: 0 <= i < n && s.ts[i].pc.ReadBack? ==> s.g.variable == s.ts[i].counter)
            && (s.g.available ==> s.g.variable == expected)
  {
    EveryRunKeeps(n, expected, schedule);
  }

  /** The statements of one cycle, from a successful take to the tally. */
  function CycleRank(expected: nat, t: Task): int {
    match t.pc
    case TakeIt => 2 * expected + 6
    case CheckVar => 2 * expected + 5
    case Write => 2 * (expected + 1 - t.counter) + 2
    case ReadBack => 2 * (expected + 1 - t.counter) + 1
    case GiveIt => 1
    case Tally => 0
  }

  /** A task that has the semaphore, or finds it available, gets on with its cycle at every
      statement until it tallies; the tally counts, since no error was seen. */
  lemma CycleAdvances(expected: nat, g: Shared, ts: seq<Task>, i: nat)
    requires i < |ts| && Inv(expected, g, ts) && (ts[i].pc.TakeIt? ==> g.available)
    ensures var t' := TaskStep(expected, g, ts[i]).1;
            if ts[i].pc.Tally? then t'.check == (ts[i].check + 1) % TWO_16
            else 0 <= CycleRank(expected, t') < CycleRank(expected, ts[i]) && t'.check == ts[i].check
  {
  }

  // ----- the loop itself -------------------------------------------------------------------

  /** The semaphore, the variable it guards, and the tasks' own variables, updated in place. */
  class Demo {
    const expected: nat     // ulExpectedValue
    var available: bool     // the semaphore
    var variable: nat       // *pulSharedVariable
    var tasks: seq<Task>

    ghost function Abs(): State
      reads this
    {
      State(Shared(available, variable), tasks)
    }

    constructor (n: nat, expected: nat)
      ensures this.expected == expected && Abs() == Start(n, expected)
    {
      this.expected := expected;
      available, variable := true, expected;
      tasks := seq(n, _ => Task(TakeIt, 0, false, 0));
    }

    /** The next statement of prvSemaphoreTest run by the i-th task. */
    method SemaphoreTest(i: nat)
      requires i < |tasks|
      modifies this
      ensures Abs() == Step(expected, old(Abs()), i)
    {
      var t := tasks[i];
      match t.pc {
        case TakeIt =>
          if available {
            available := false;
            t := t.(pc := CheckVar);
          }
        case CheckVar =>
          if variable != expected {
            t := t.(sError := true);
          }
          t := t.(counter := 0, pc := Write);
        case Write =>
          if t.counter <= expected {
            variable := t.counter;
            t := t.(pc := ReadBack);
          } else {
            t := t.(pc := GiveIt);
          }
        case ReadBack =>
          if variable != t.counter {
            t := t.(sError := true);
          }
          t := t.(counter := t.counter + 1, pc := Write);
        case GiveIt =>
          if available {
            t := t.(sError := true);
          }
          available := true;
          t := t.(pc := Tally);
        case Tally =>
          if !t.sError {
            t := t.(check := (t.check + 1) % TWO_16);
          }
          t := t.(pc := TakeIt);
      }
      tasks := tasks[i := t];
    }
  }

  /** The demo under any schedule. */
  method RunDemo(n: nat, expected: nat, schedule: seq<nat>) returns (d: Demo)
    ensures fresh(d) && d.Abs() == Exec(expected, Start(n, expected), schedule)
    ensures |d.tasks| == n && forall i :: 0 <= i < n ==> !d.tasks[i].sError
    ensures d.available ==> d.variable == expected
  {
    d := new Demo(n, expected);
    EveryRunKeeps(n, expected, []);
    for k := 0 to |schedule|
      invariant d.expected == expected && d.Abs() == Exec(expected, Start(n, expected), schedule[..k])
    {
      assert schedule[..k + 1][..k] == schedule[..k];
      if schedule[k] < |d.tasks| {
        d.SemaphoreTest(schedule[k]);
      }
    }
    assert schedule[..|schedule|] == schedule;
    EveryRunExcludes(n, expected, schedule);
  }
}
