/** The LED end of the command pipeline: the server posts commands to a bounded queue, the
    management task toggles LED bits and switches the light show, and the show task updates the
    seven-segment display. Each transition is one call into MicroC/OS-II or one statement. */
module Led {
  import opened Common

  const QUEUE_SIZE: nat := 30

  /** BIT_0 to BIT_7. */
  function Mask(i: nat): bv16
    requires i < 8
  {
    match i
    case 0 => 0x1 case 1 => 0x2 case 2 => 0x4 case 3 => 0x8
    case 4 => 0x10 case 5 => 0x20 case 6 => 0x40 case _ => 0x80
  }

  /** CMD_LEDS_BIT_0_TOGGLE to CMD_LEDS_BIT_7_TOGGLE. */
  function Digit(i: nat): char
    requires i < 8
  {
    '0' + i as char
  }

  const LIGHTSHOW: char := 'S'

  predicate Lit(flags: bv16, i: nat)
    requires i < 8
  {
    flags & Mask(i) != 0
  }

  /** led_bit_toggle, given what OSFlagQuery has returned. */
  function Toggled(flags: bv16, seen: bv16, i: nat): bv16
    requires i < 8
  {
    ToggledBy(flags, seen, Mask(i))
  }

  function ToggledBy(flags: bv16, seen: bv16, bit: bv16): bv16 {
    if bit & seen != 0 then flags & !bit else flags | bit
  }

  predicate OneBit(m: bv16) {
    m == 0x1 || m == 0x2 || m == 0x4 || m == 0x8 || m == 0x10 || m == 0x20 || m == 0x40 || m == 0x80
  }

  lemma Flip(v: bv16, m: bv16, n: bv16)
    requires OneBit(m) && OneBit(n)
    ensures (ToggledBy(v, v, m) & n != 0) <==> ((v & n != 0) != (m == n))
  {
  }

  /** Mask(i) is the i-th power of two. */
  lemma MasksAreBits(i: nat)
    requires i < 8
    ensures Mask(0) == 1 && (i < 7 ==> Mask(i + 1) == Mask(i) + Mask(i))
  {
  }

  lemma MaskIsOneBit(i: nat)
    requires i < 8
    ensures OneBit(Mask(i))
  {
  }

  lemma MasksDiffer(i: nat, j: nat)
    requires i < 8 && j < 8
    ensures Mask(i) == Mask(j) <==> i == j
  {
  }

  /** Toggling flips one bit and no other. */
  lemma ToggleFlipsOne(flags: bv16, i: nat, j: nat)
    requires i < 8 && j < 8
    ensures Lit(Toggled(flags, flags, i), j) <==> (Lit(flags, j) != (i == j))
  {
    var m, n := Mask(i), Mask(j);
    MaskIsOneBit(i);
    MaskIsOneBit(j);
    MasksDiffer(i, j);
    Flip(flags, m, n);
  }

  /** Program points of LEDManagementTask; the parameters are its locals. */
  datatype Manager =
    | Pend                          // OSQPend
    | Switch(cmd: char)
    | FlagPost(i: nat, seen: bv16)  // after OSFlagQuery, before OSFlagPost
    | SemPost                       // turn the show on again
    | SemPend                       // take the semaphore away from the show
    | SetActive(on: bool)

  /** Program points of LED7SegLightshowTask. */
  datatype Show = Delay | ShowPend | Update | ShowPost

  datatype State = State(
    queue: seq<char>, m: Manager, w: Show,
    flags: bv16, pio: Option<bv16>, sem: int, active: bool, updates: nat,
    accepted: seq<char>, processed: seq<char>)  // history: commands queued, commands carried out

  datatype Event = Post(cmd: char) | ManagerStep | ShowStep

  predicate IsDigit(c: char) { '0' <= c <= '7' }

  function ManagerNext(s: State): State {
    match s.m
    case Pend => if s.queue == [] then s else s.(queue := s.queue[1..], m := Switch(s.queue[0]))
    case Switch(cmd) =>
      if IsDigit(cmd) then s.(m := FlagPost((cmd - '0') as nat, s.flags))
      else if cmd == LIGHTSHOW then s.(m := if s.active then SemPend else SemPost)
      else s.(processed := s.processed + [cmd], m := Pend)
    case FlagPost(i, seen) =>
      if i < 8 then
        var v := Toggled(s.flags, seen, i);
        s.(flags := v, pio := Some(v), processed := s.processed + [Digit(i)], m := Pend)
      else s
    case SemPost => s.(sem := s.sem + 1, m := SetActive(true))
    case SemPend => if s.sem > 0 then s.(sem := s.sem - 1, m := SetActive(false)) else s
    case SetActive(on) => s.(active := on, processed := s.processed + [LIGHTSHOW], m := Pend)
  }

  function ShowNext(s: State): State {
    match s.w
    case Delay => s.(w := ShowPend)
    case ShowPend => if s.sem > 0 then s.(sem := s.sem - 1, w := Update) else s
    case Update => s.(updates := s.updates + 1, w := ShowPost)
    case ShowPost => s.(sem := s.sem + 1, w := Delay)
  }

  function Step(s: State, e: Event): State {
    match e
    case Post(c) =>
      if |s.queue| < QUEUE_SIZE then s.(queue := s.queue + [c], accepted := s.accepted + [c]) else s
    case ManagerStep => ManagerNext(s)
    case ShowStep => ShowNext(s)
  }

  function Exec(s: State, evs: seq<Event>): State
    decreases |evs|
  {
    if evs == [] then s else Step(Exec(s, evs[..|evs| - 1]), evs[|evs| - 1])
  }

  /** SSSCreateOSDataStructs: an empty queue, a semaphore of one, all flags clear. */
  const START := State([], Pend, Delay, 0, None, 1, true, 0, [], [])

  // ----- priorities ------------------------------------------------------------------------

  const LED_MANAGEMENT_TASK_PRIORITY: nat := 7
  const SSS_SIMPLE_SOCKET_SERVER_TASK_PRIORITY: nat := 10
  const LED_7SEG_LIGHTSHOW_TASK_PRIORITY: nat := 18

  /** Who executes an event; the lower number is the more urgent. */
  function Priority(e: Event): nat {
    match e
    case Post(_) => SSS_SIMPLE_SOCKET_SERVER_TASK_PRIORITY
    case ManagerStep => LED_MANAGEMENT_TASK_PRIORITY
    case ShowStep => LED_7SEG_LIGHTSHOW_TASK_PRIORITY
  }

  /** The management task has something to do: it waits neither for a command nor for the show's
      semaphore. */
  predicate ManagerReady(s: State) {
    match s.m
    case Pend => s.queue != []
    case SemPend => s.sem > 0
    case _ => true
  }

  /** The scheduler lets an event happen only when no more urgent task is ready. How often the
      server is ready depends on the client, so nothing is said of the show against it. */
  predicate MayHappen(s: State, e: Event) { ManagerReady(s) ==> Priority(e) <= LED_MANAGEMENT_TASK_PRIORITY }

  /** A run as the priorities allow. */
  ghost predicate Scheduled(evs: seq<Event>)
    decreases |evs|
  {
    evs == [] || (Scheduled(evs[..|evs| - 1]) && MayHappen(Exec(START, evs[..|evs| - 1]), evs[|evs| - 1]))
  }

  // ----- invariants ------------------------------------------------------------------------

  /** The management task has the semaphore. */
  predicate ManagerHolds(s: State) {
    match s.m
    case SetActive(on) => !on
    case _ => !s.active
  }

  predicate ShowHolds(s: State) { s.w.Update? || s.w.ShowPost? }

  /** The command taken from the queue and not yet carried out. */
  function Current(s: State): seq<char> {
    match s.m
    case Pend => []
    case Switch(cmd) => [cmd]
    case FlagPost(i, _) => if i < 8 then [Digit(i)] else []
    case SemPost => [LIGHTSHOW]
    case SemPend => [LIGHTSHOW]
    case SetActive(_) => [LIGHTSHOW]
  }

  ghost predicate Semaphore(s: State) {
    && s.sem + (if ShowHolds(s) then 1 else 0) + (if ManagerHolds(s) then 1 else 0) == 1 && s.sem >= 0
    && (s.m.SemPost? ==> !s.active) && (s.m.SemPend? ==> s.active)
    && (s.m.SetActive? ==> s.active != s.m.on)
  }

  ghost predicate Pipeline(s: State) {
    s.accepted == s.processed + Current(s) + s.queue && |s.queue| <= QUEUE_SIZE
  }

  ghost predicate LitIsOdd(flags: bv16, done: seq<char>) {
    forall i: nat :: i < 8 ==> (Lit(flags, i) <==> multiset(done)[Digit(i)] % 2 == 1)
  }

  /** A bit is lit exactly when its toggle has been carried out an odd number of times, and the
      show is on exactly when it has been switched an even number. */
  ghost predicate Parity(s: State) {
    && (s.m.FlagPost? ==> s.m.i < 8 && s.m.seen == s.flags)
    && LitIsOdd(s.flags, s.processed)
    && (s.active <==> multiset(s.processed)[LIGHTSHOW] % 2 == 0)
    && (s.pio.Some? ==> s.pio.value == s.flags)
  }

  lemma StepKeepsSemaphore(s: State, e: Event)
    requires Semaphore(s)
    ensures Semaphore(Step(s, e))
  {
  }

  /** A command in hand stays in hand or becomes the last one carried out. */
  lemma InHand(s: State)
    requires !s.m.Pend? && (s.m.FlagPost? ==> s.m.i < 8)
    ensures var t := ManagerNext(s);
            t.queue == s.queue && t.accepted == s.accepted
            && ((t.processed == s.processed && Current(t) == Current(s))
                || (t.processed == s.processed + Current(s) && Current(t) == []))
  {
    match s.m {
      case Switch(cmd) =>
        if IsDigit(cmd) {
          assert Digit((cmd - '0') as nat) == cmd;
        }
      case _ =>
    }
  }

  lemma ManagerKeepsPipeline(s: State)
    requires Pipeline(s) && (s.m.FlagPost? ==> s.m.i < 8)
    ensures Pipeline(ManagerNext(s))
  {
    if s.m.Pend? {
      if s.queue != [] {
        assert s.processed + [] + s.queue == s.processed + [s.queue[0]] + s.queue[1..];
      }
    } else {
      InHand(s);
      assert s.processed + Current(s) + [] == s.processed + Current(s);
    }
  }

  lemma StepKeepsPipeline(s: State, e: Event)
    requires Pipeline(s) && (s.m.FlagPost? ==> s.m.i < 8)
    ensures Pipeline(Step(s, e))
  {
    match e {
      case ManagerStep => ManagerKeepsPipeline(s);
      case Post(c) => assert s.processed + Current(s) + (s.queue + [c]) == (s.processed + Current(s) + s.queue) + [c];
      case ShowStep =>
    }
  }

  lemma Appended(p: seq<char>, c: char, x: char)
    ensures multiset(p + [c])[x] == multiset(p)[x] + if x == c then 1 else 0
  {
    assert multiset(p + [c]) == multiset(p) + multiset{c};
  }

  /** A command carried out that toggles nothing leaves every parity as it was. */
  lemma NotADigit(flags: bv16, p: seq<char>, c: char)
    requires LitIsOdd(flags, p) && !IsDigit(c)
    ensures LitIsOdd(flags, p + [c])
  {
    forall i: nat | i < 8 ensures multiset(p + [c])[Digit(i)] == multiset(p)[Digit(i)] {
      Appended(p, c, Digit(i));
      assert IsDigit(Digit(i));
    }
  }

  lemma {:induction false} OneBitParity(flags: bv16, p: seq<char>, k: nat, i: nat)
    requires LitIsOdd(flags, p) && k < 8 && i < 8
    ensures Lit(Toggled(flags, flags, k), i) <==> multiset(p + [Digit(k)])[Digit(i)] % 2 == 1
  {
    ToggleFlipsOne(flags, k, i);
    Appended(p, Digit(k), Digit(i));
    DigitsDiffer(k, i);
    OddFlips(multiset(p)[Digit(i)]);
  }

  lemma DigitsDiffer(k: nat, i: nat)
    requires k < 8 && i < 8
    ensures Digit(k) == Digit(i) <==> k == i
  {
  }

  lemma OddFlips(n: nat)
    ensures (n + 1) % 2 == 1 <==> n % 2 != 1
  {
  }

  lemma {:induction false} ADigit(flags: bv16, p: seq<char>, k: nat)
    requires LitIsOdd(flags, p) && k < 8
    ensures LitIsOdd(Toggled(flags, flags, k), p + [Digit(k)])
  {
    forall i: nat | i < 8
      ensures Lit(Toggled(flags, flags, k), i) <==> multiset(p + [Digit(k)])[Digit(i)] % 2 == 1
    {
      OneBitParity(flags, p, k, i);
    }
  }

  lemma {:induction false} ToggleKeepsParity(s: State)
    requires Parity(s) && s.m.FlagPost?
    ensures Parity(ManagerNext(s))
  {
    Appended(s.processed, Digit(s.m.i), LIGHTSHOW);
    ADigit(s.flags, s.processed, s.m.i);
  }

  lemma ShowCommandKeepsParity(s: State)
    requires Parity(s) && Semaphore(s) && s.m.SetActive?
    ensures Parity(ManagerNext(s))
  {
    Appended(s.processed, LIGHTSHOW, LIGHTSHOW);
    NotADigit(s.flags, s.processed, LIGHTSHOW);
  }

  lemma SwitchKeepsParity(s: State)
    requires Parity(s) && s.m.Switch?
    ensures Parity(ManagerNext(s))
  {
    if !IsDigit(s.m.cmd) && s.m.cmd != LIGHTSHOW {
      Appended(s.processed, s.m.cmd, LIGHTSHOW);
      NotADigit(s.flags, s.processed, s.m.cmd);
    }
  }

  lemma {:induction false} StepKeepsParity(s: State, e: Event)
    requires Parity(s) && Semaphore(s)
    ensures Parity(Step(s, e))
  {
    if e.ManagerStep? {
      match s.m
      case FlagPost(_, _) => ToggleKeepsParity(s);
      case SetActive(_) => ShowCommandKeepsParity(s);
      case Switch(_) => SwitchKeepsParity(s);
      case _ =>
    }
  }

  lemma {:induction false} EveryRunKeeps(evs: seq<Event>)
    ensures var s := Exec(START, evs); Semaphore(s) && Pipeline(s) && Parity(s)
    decreases |evs|
  {
    if evs == [] {
      forall i: nat | i < 8 ensures !Lit(0, i) {}
    } else {
      var s, e := Exec(START, evs[..|evs| - 1]), evs[|evs| - 1];
      EveryRunKeeps(evs[..|evs| - 1]);
      StepKeepsSemaphore(s, e);
      StepKeepsPipeline(s, e);
      StepKeepsParity(s, e);
    }
  }

  /** On every interleaving: the semaphore is in exactly one place, so while the show is
      switched off the show task neither updates the display nor holds the semaphore; commands
      are carried out in the order they were accepted, with at most thirty waiting; and the LED
      register shows the parity of the toggles carried out. */
  lemma EveryRunShowsTheLeds(evs: seq<Event>)
    ensures var s := Exec(START, evs);
            && s.sem + (if ShowHolds(s) then 1 else 0) + (if ManagerHolds(s) then 1 else 0) == 1
            && (!s.active && !s.m.SetActive? ==> !ShowHolds(s) && Step(s, ShowStep).updates == s.updates)
            && s.processed <= s.accepted && |s.accepted| - |s.processed| <= QUEUE_SIZE + 1
            && LitIsOdd(s.flags, s.processed)
            && (s.pio.Some? ==> s.pio.value == s.flags)
  {
    EveryRunKeeps(evs);
  }

  lemma ToggleStaysLow(flags: bv16, seen: bv16, m: bv16)
    requires flags & 0xff00 == 0 && OneBit(m)
    ensures ToggledBy(flags, seen, m) & 0xff00 == 0
  {
  }

  /** The flags change only where the management task posts a toggle. */
  lemma FlagsChange(s: State, e: Event)
    ensures Step(s, e).flags ==
              if e.ManagerStep? && s.m.FlagPost? && s.m.i < 8 then ToggledBy(s.flags, s.m.seen, Mask(s.m.i))
              else s.flags
  {
  }

  lemma {:induction false} HighBitsStayClear(evs: seq<Event>)
    ensures Exec(START, evs).flags & 0xff00 == 0
    decreases |evs|
  {
    if evs == [] {
    } else {
      HighBitsStayClear(evs[..|evs| - 1]);
      var s := Exec(START, evs[..|evs| - 1]);
      FlagsChange(s, evs[|evs| - 1]);
      if s.m.FlagPost? && s.m.i < 8 {
        MaskIsOneBit(s.m.i);
        ToggleStaysLow(s.flags, s.m.seen, Mask(s.m.i));
      }
    }
  }

  ghost predicate Odd(evs: seq<Event>, c: char) { multiset(Exec(START, evs).processed)[c] % 2 == 1 }

  lemma LitFrom(s: State, i: nat)
    requires LitIsOdd(s.flags, s.processed) && i < 8
    ensures s.flags & Mask(i) != 0 <==> multiset(s.processed)[Digit(i)] % 2 == 1
  {
    assert Lit(s.flags, i) <==> multiset(s.processed)[Digit(i)] % 2 == 1;
  }

  lemma LedIsOdd(evs: seq<Event>, i: nat)
    requires i < 8
    ensures Exec(START, evs).flags & Mask(i) != 0 <==> Odd(evs, Digit(i))
  {
    EveryRunKeeps(evs);
    LitFrom(Exec(START, evs), i);
  }

  /** The PIO register bit by bit: bit n is set exactly when the command with the digit n has been
      carried out an odd number of times, and the upper byte is clear. */
  lemma {:induction false} RegisterBits(evs: seq<Event>)
    requires Exec(START, evs).pio.Some?
    ensures var v := Exec(START, evs).pio.value;
            && (v & 0x01 != 0 <==> Odd(evs, '0')) && (v & 0x02 != 0 <==> Odd(evs, '1'))
            && (v & 0x04 != 0 <==> Odd(evs, '2')) && (v & 0x08 != 0 <==> Odd(evs, '3'))
            && (v & 0x10 != 0 <==> Odd(evs, '4')) && (v & 0x20 != 0 <==> Odd(evs, '5'))
            && (v & 0x40 != 0 <==> Odd(evs, '6')) && (v & 0x80 != 0 <==> Odd(evs, '7'))
            && v & 0xff00 == 0
  {
    EveryRunShowsTheLeds(evs);
    HighBitsStayClear(evs);
    LedIsOdd(evs, 0);
    LedIsOdd(evs, 1);
    LedIsOdd(evs, 2);
    LedIsOdd(evs, 3);
    LedIsOdd(evs, 4);
    LedIsOdd(evs, 5);
    LedIsOdd(evs, 6);
    LedIsOdd(evs, 7);
  }

  // ----- progress --------------------------------------------------------------------------

  /** An upper bound on the statements the management task has left before it waits again. */
  function Rank(s: State): nat {
    4 * |s.queue| + match s.m
                    case Pend => 0
                    case Switch(_) => 3
                    case FlagPost(_, _) => 1
                    case SemPost => 2
                    case SemPend => 2
                    case SetActive(_) => 1
  }

  lemma ManagerAdvances(s: State)
    requires Parity(s)
    ensures if ManagerReady(s) then Rank(ManagerNext(s)) < Rank(s) else ManagerNext(s) == s
  {
  }

  lemma Snoc(evs: seq<Event>, e: Event)
    ensures Exec(START, evs + [e]) == Step(Exec(START, evs), e)
  {
    assert (evs + [e])[..|evs|] == evs;
  }

  function ManagerSteps(n: nat): seq<Event> { seq(n, _ => ManagerStep) }

  /** Left to itself after any run the management task soon has nothing more to do, or waits for
      the show: four statements for each command queued and three for the one in hand are enough. */
  lemma {:induction false} ManagerFinishes(evs: seq<Event>, n: nat)
    requires ManagerReady(Exec(START, evs)) ==> n >= Rank(Exec(START, evs))
    ensures !ManagerReady(Exec(START, evs + ManagerSteps(n)))
    decreases n
  {
    var s := Exec(START, evs);
    EveryRunKeeps(evs);
    if n == 0 {
      assert evs + ManagerSteps(0) == evs;
    } else {
      Snoc(evs, ManagerStep);
      ManagerAdvances(s);
      ManagerFinishes(evs + [ManagerStep], n - 1);
      assert evs + [ManagerStep] + ManagerSteps(n - 1) == evs + ManagerSteps(n);
    }
  }

  /** The show task gets further: it does not wait for the semaphore. */
  predicate ShowAdvances(s: State, e: Event) { e.ShowStep? && (s.w.ShowPend? ==> s.sem > 0) }

  ghost function ShowTurns(evs: seq<Event>): nat
    decreases |evs|
  {
    if evs == [] then 0 else
      var front := evs[..|evs| - 1];
      ShowTurns(front) + if ShowAdvances(Exec(START, front), evs[|evs| - 1]) then 1 else 0
  }

  function ShowPlace(w: Show): nat {
    match w case Delay => 0 case ShowPend => 1 case Update => 2 case ShowPost => 3
  }

  lemma ShowStepAt(s: State, e: Event)
    ensures var t := Step(s, e);
            if ShowAdvances(s, e) then
              && ShowPlace(t.w) == (if ShowPlace(s.w) == 3 then 0 else ShowPlace(s.w) + 1)
              && t.updates == s.updates + if ShowPlace(s.w) == 2 then 1 else 0
            else t.w == s.w && t.updates == s.updates
  {
  }

  /** Where the show task is after n such turns, and how often it has updated the display. */
  ghost predicate Shown(s: State, n: nat) { ShowPlace(s.w) == n % 4 && s.updates == (n + 1) / 4 }

  lemma QuarterOf(n: nat)
    ensures (n + 1) % 4 == (if n % 4 == 3 then 0 else n % 4 + 1)
    ensures (n + 2) / 4 == (n + 1) / 4 + if n % 4 == 2 then 1 else 0
  {
  }

  lemma ShowStepShown(s: State, e: Event, n: nat)
    requires Shown(s, n)
    ensures Shown(Step(s, e), n + if ShowAdvances(s, e) then 1 else 0)
  {
    ShowStepAt(s, e);
    QuarterOf(n);
  }

  /** Every fourth such turn updates the seven-segment display, on every interleaving. */
  lemma {:induction false} EveryFourthTurnUpdates(evs: seq<Event>)
    ensures Shown(Exec(START, evs), ShowTurns(evs))
    decreases |evs|
  {
    if evs == [] {
    } else {
      EveryFourthTurnUpdates(evs[..|evs| - 1]);
      ShowStepShown(Exec(START, evs[..|evs| - 1]), evs[|evs| - 1], ShowTurns(evs[..|evs| - 1]));
    }
  }

  // ----- refused posts ---------------------------------------------------------------------

  /** A post that finds thirty commands queued. */
  predicate Refuses(s: State, e: Event) { e.Post? && |s.queue| >= QUEUE_SIZE }

  /** Under the priorities a post is refused only while the management task waits for the show to
      let go of its semaphore, with thirty commands queued behind the show command in its hand. */
  lemma {:induction false} RefusedOnlyBehindTheShow(evs: seq<Event>, e: Event)
    requires Scheduled(evs) && MayHappen(Exec(START, evs), e) && Refuses(Exec(START, evs), e)
    ensures var s := Exec(START, evs);
            && s.m.SemPend? && s.sem == 0 && ShowHolds(s) && |s.queue| == QUEUE_SIZE
            && s.accepted == s.processed + [LIGHTSHOW] + s.queue
  {
    EveryRunKeeps(evs);
  }

  /** The management task waits for the show only after a show command. */
  lemma WaitsForShowOnly(s: State)
    requires Pipeline(s)
    ensures s.m.SemPend? ==> LIGHTSHOW in s.accepted
  {
    if s.m.SemPend? {
      assert s.accepted[|s.processed|] == LIGHTSHOW;
    }
  }
}
