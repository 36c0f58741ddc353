/** The polled-queue demo in discrete time. The producer sends three items and sleeps; the
    consumer empties the queue and sleeps a little less. Statements take no time, and within
    one tick those of the two tasks may interleave in any order. */
module PollQ {
  import opened Common

  const QUEUE_SIZE: nat := 10
  const VALUES_TO_PRODUCE: nat := 3

  /** Sleeping times in ticks: pollqPRODUCER_DELAY and pollqCONSUMER_DELAY. */
  datatype Config = Config(producerDelay: nat, consumerDelay: nat)

  datatype State = State(
    now: nat, producerWakes: nat, consumerWakes: nat,
    loop: nat, value: nat, expected: nat, queue: seq<nat>,
    producerError: bool, consumerError: bool)

  datatype Event =
    | Produce  // the producer's next send, or its delay after the third
    | Consume  // the consumer's next receive and check, or its delay once the queue is empty
    | Tick

  function ProducerStep(c: Config, s: State): State {
    if s.loop < VALUES_TO_PRODUCE then
      if |s.queue| < QUEUE_SIZE
      then s.(queue := s.queue + [s.value], value := (s.value + 1) % TWO_16, loop := s.loop + 1)
      else s.(producerError := true, loop := s.loop + 1)
    else s.(loop := 0, producerWakes := s.now + c.producerDelay)
  }

  function ConsumerStep(c: Config, s: State): State {
    if s.queue == [] then s.(consumerWakes := s.now + c.consumerDelay)
    else
      var usData := s.queue[0];
      s.(queue := s.queue[1..], consumerError := s.consumerError || usData != s.expected,
         expected := ((if usData != s.expected then usData else s.expected) + 1) % TWO_16)
  }

  /** A task runs once its wake time has come; time passes only when both sleep. */
  function Step(c: Config, s: State, e: Event): State {
    match e
    case Produce => if s.producerWakes <= s.now then ProducerStep(c, s) else s
    case Consume => if s.consumerWakes <= s.now then ConsumerStep(c, s) else s
    case Tick => if s.now < s.producerWakes && s.now < s.consumerWakes then s.(now := s.now + 1) else s
  }

  function Exec(c: Config, s: State, evs: seq<Event>): State
    decreases |evs|
  {
    if evs == [] then s else Step(c, Exec(c, s, evs[..|evs| - 1]), evs[|evs| - 1])
  }

  /** Both tasks start with nothing queued and run for the first time at the given ticks. */
  function Begin(producerWakes: nat, consumerWakes: nat): State {
    State(0, producerWakes, consumerWakes, 0, 0, 0, [], false, false)
  }

  /** n producer periods. */
  function Periods(c: Config, n: nat): nat { if n == 0 then 0 else Periods(c, n - 1) + c.producerDelay }

  // ----- what is sent and received, whatever the timing ------------------------------------

  predicate ProducerTurn(s: State, e: Event) { e.Produce? && s.producerWakes <= s.now }

  predicate ConsumerTurn(s: State, e: Event) { e.Consume? && s.consumerWakes <= s.now }

  predicate Sends(s: State, e: Event) {
    ProducerTurn(s, e) && s.loop < VALUES_TO_PRODUCE && |s.queue| < QUEUE_SIZE
  }

  predicate Takes(s: State, e: Event) { ConsumerTurn(s, e) && s.queue != [] }

  /** How often something happened on a run from b. */
  function Count(c: Config, b: State, evs: seq<Event>, happens: (State, Event) -> bool): nat
    decreases |evs|
  {
    if evs == [] then 0 else
      var front := evs[..|evs| - 1];
      Count(c, b, front, happens) + if happens(Exec(c, b, front), evs[|evs| - 1]) then 1 else 0
  }

  /** After so many sends and receives the rest is queued, consecutive and in order, the consumer
      expects the next value and has not complained. */
  ghost predicate Ordered(s: State, sent: nat, taken: nat) {
    && sent == taken + |s.queue| && Consecutive(s.queue, taken)
    && s.value == sent % TWO_16 && s.expected == taken % TWO_16 && !s.consumerError
  }

  lemma SendKeepsOrder(c: Config, s: State, sent: nat, taken: nat)
    requires Ordered(s, sent, taken)
    ensures Ordered(ProducerStep(c, s), sent + (if s.loop < VALUES_TO_PRODUCE && |s.queue| < QUEUE_SIZE then 1 else 0),
                    taken)
  {
    ConsecutivePush(s.queue, taken);
    ModAdd16(sent, 1);
  }

  lemma TakeKeepsOrder(c: Config, s: State, sent: nat, taken: nat)
    requires Ordered(s, sent, taken)
    ensures Ordered(ConsumerStep(c, s), sent, taken + if s.queue != [] then 1 else 0)
  {
    if s.queue != [] {
      ConsecutivePop(s.queue, taken);
      ModAdd16(taken, 1);
    }
  }

  lemma StepKeepsOrder(c: Config, s: State, e: Event, sent: nat, taken: nat)
    requires Ordered(s, sent, taken)
    ensures Ordered(Step(c, s, e), sent + (if Sends(s, e) then 1 else 0), taken + if Takes(s, e) then 1 else 0)
  {
    match e {
      case Produce => SendKeepsOrder(c, s, sent, taken);
      case Consume => TakeKeepsOrder(c, s, sent, taken);
      case Tick =>
    }
  }

  /** On every run, whatever the delays and the starts, late or not: each value sent is received
      once and in order, nothing else is, and the consumer's flag stays clear. */
  lemma {:induction false} EveryRunInOrder(c: Config, pw: nat, cw: nat, evs: seq<Event>)
    ensures var b := Begin(pw, cw); Ordered(Exec(c, b, evs), Count(c, b, evs, Sends), Count(c, b, evs, Takes))
    decreases |evs|
  {
    if evs == [] {
    } else {
      var b, front := Begin(pw, cw), evs[..|evs| - 1];
      EveryRunInOrder(c, pw, cw, front);
      StepKeepsOrder(c, Exec(c, b, front), evs[|evs| - 1], Count(c, b, front, Sends), Count(c, b, front, Takes));
    }
  }

  /** With b batches queued besides the one being sent, the consumer wakes before the batch that
      would be the (k + 1)-th. */
  ghost predicate Fits(c: Config, s: State, k: nat, b: nat) {
    && b <= k && |s.queue| <= VALUES_TO_PRODUCE * b + s.loop
    && s.consumerWakes < s.producerWakes + Periods(c, k - b)
  }

  ghost predicate Inv(c: Config, s: State, k: nat) {
    && !s.producerError && !s.consumerError
    && s.expected < TWO_16 && s.value == (s.expected + |s.queue|) % TWO_16 && Consecutive(s.queue, s.expected)
    && s.now <= s.producerWakes && s.now <= s.consumerWakes
    && s.loop <= VALUES_TO_PRODUCE && (s.loop > 0 ==> s.now == s.producerWakes)
    && exists b: nat :: Fits(c, s, k, b)
  }

  lemma ProduceKeeps(c: Config, s: State, k: nat)
    requires k <= 3 && Inv(c, s, k) && s.producerWakes <= s.now
    ensures Inv(c, ProducerStep(c, s), k)
  {
    var b: nat :| Fits(c, s, k, b);
    assert b < k;
    if s.loop < VALUES_TO_PRODUCE {
      ConsecutivePush(s.queue, s.expected);
      ModAdd16(s.expected + |s.queue|, 1);
      assert Fits(c, ProducerStep(c, s), k, b);
    } else {
      assert Fits(c, ProducerStep(c, s), k, b + 1);
    }
  }

  lemma ConsumeKeeps(c: Config, s: State, k: nat)
    requires c.consumerDelay < Periods(c, k) && Inv(c, s, k) && s.consumerWakes <= s.now
    ensures Inv(c, ConsumerStep(c, s), k)
  {
    var b: nat :| Fits(c, s, k, b);
    if s.queue != [] {
      ConsecutivePop(s.queue, s.expected);
      ConsecutiveMod(s.queue[1..], s.expected + 1);
      ModAdd16(s.expected + 1, |s.queue| - 1);
      assert Fits(c, ConsumerStep(c, s), k, b);
    } else {
      assert Fits(c, ConsumerStep(c, s), k, 0);
    }
  }

  lemma StepKeeps(c: Config, s: State, e: Event, k: nat)
    requires k <= 3 && c.consumerDelay < Periods(c, k) && Inv(c, s, k)
    ensures Inv(c, Step(c, s, e), k)
  {
    match e
    case Produce => if s.producerWakes <= s.now { ProduceKeeps(c, s, k); }
    case Consume => if s.consumerWakes <= s.now { ConsumeKeeps(c, s, k); }
    case Tick =>
      var b: nat :| Fits(c, s, k, b);
      assert Fits(c, Step(c, s, Tick), k, b);
  }

  lemma {:induction false} EveryRunKeeps(c: Config, pw: nat, cw: nat, evs: seq<Event>, k: nat)
    requires k <= 3 && c.consumerDelay < Periods(c, k) && cw < pw + Periods(c, k)
    ensures Inv(c, Exec(c, Begin(pw, cw), evs), k)
    decreases |evs|
  {
    if evs == [] {
      assert Fits(c, Begin(pw, cw), k, 0);
    } else {
      EveryRunKeeps(c, pw, cw, evs[..|evs| - 1], k);
      StepKeeps(c, Exec(c, Begin(pw, cw), evs[..|evs| - 1]), evs[|evs| - 1], k);
    }
  }

  lemma InvBounds(c: Config, s: State, k: nat)
    requires Inv(c, s, k)
    ensures |s.queue| <= VALUES_TO_PRODUCE * k
  {
    var b: nat :| Fits(c, s, k, b);
    if s.loop > 0 {
      assert b < k;
    }
  }

  /** With the consumer sleeping less than k producer periods, k up to three, the queue never
      holds more than k batches exactly when the consumer's first run comes less than k producer
      periods after the producer's. */
  lemma BatchesIff(c: Config, pw: nat, cw: nat, k: nat)
    requires k <= 3 && c.consumerDelay < Periods(c, k)
    ensures (forall evs: seq<Event> :: |Exec(c, Begin(pw, cw), evs).queue| <= VALUES_TO_PRODUCE * k)
            <==> cw < pw + Periods(c, k)
  {
    if cw < pw + Periods(c, k) {
      forall evs: seq<Event> ensures |Exec(c, Begin(pw, cw), evs).queue| <= VALUES_TO_PRODUCE * k {
        EveryRunKeeps(c, pw, cw, evs, k);
        InvBounds(c, Exec(c, Begin(pw, cw), evs), k);
      }
    } else {
      var evs := OneTooMany(c, pw, cw, k);
      assert |Exec(c, Begin(pw, cw), evs).queue| > VALUES_TO_PRODUCE * k;
    }
  }

  /** With the consumer sleeping less than three producer periods, neither error flag is ever set
      exactly when the consumer's first run comes less than three producer periods late. */
  lemma NoErrorsIff(c: Config, pw: nat, cw: nat)
    requires c.consumerDelay < Periods(c, 3)
    ensures (forall evs: seq<Event> :: !Failed(Exec(c, Begin(pw, cw), evs))) <==> cw < pw + Periods(c, 3)
  {
    if cw < pw + Periods(c, 3) {
      forall evs: seq<Event> ensures !Failed(Exec(c, Begin(pw, cw), evs)) {
        EveryRunKeeps(c, pw, cw, evs, 3);
      }
    } else {
      var evs := Refusal(c, pw, cw);
      assert Failed(Exec(c, Begin(pw, cw), evs));
    }
  }

  predicate Failed(s: State) { s.producerError || s.consumerError }

  /** The two checks, in any state whatever: a send that finds ten queued, and a value that is not
      the next. The consumer sleeps only when it has emptied the queue. */
  lemma ChecksSetTheFlags(c: Config, s: State, e: Event)
    ensures var t := Step(c, s, e);
            && (t.producerError <==>
                  || s.producerError
                  || (ProducerTurn(s, e) && s.loop < VALUES_TO_PRODUCE && |s.queue| >= QUEUE_SIZE))
            && (t.consumerError <==> s.consumerError || (Takes(s, e) && s.queue[0] != s.expected))
            && (t.consumerWakes != s.consumerWakes ==> s.queue == [] && t.consumerWakes == s.now + c.consumerDelay)
  {
  }

  /** Each turn of the producer is one of its three sends, successful or not, or its delay, and time
      waits for it: so many turns after its first it is at that place of its loop, in that period. */
  ghost predicate OnTime(c: Config, s: State, pw: nat, turns: nat) {
    s.now <= s.producerWakes == pw + Periods(c, turns / 4) && s.loop == turns % 4
  }

  lemma QuarterTurns(n: nat)
    ensures (n + 1) / 4 == n / 4 + if n % 4 == 3 then 1 else 0
    ensures (n + 1) % 4 == if n % 4 == 3 then 0 else n % 4 + 1
  {
  }

  lemma StepOnTime(c: Config, s: State, e: Event, pw: nat, turns: nat)
    requires OnTime(c, s, pw, turns)
    ensures OnTime(c, Step(c, s, e), pw, turns + if ProducerTurn(s, e) then 1 else 0)
  {
    QuarterTurns(turns);
    assert Periods(c, turns / 4 + 1) == Periods(c, turns / 4) + c.producerDelay;
  }

  lemma {:induction false} ProducerIsOnTime(c: Config, pw: nat, cw: nat, evs: seq<Event>)
    ensures var b := Begin(pw, cw); OnTime(c, Exec(c, b, evs), pw, Count(c, b, evs, ProducerTurn))
    decreases |evs|
  {
    if evs == [] {
    } else {
      var b, front := Begin(pw, cw), evs[..|evs| - 1];
      ProducerIsOnTime(c, pw, cw, front);
      StepOnTime(c, Exec(c, b, front), evs[|evs| - 1], pw, Count(c, b, front, ProducerTurn));
    }
  }

  /** From every start at which the consumer is not k periods late, the queue never exceeds k
      batches. */
  ghost predicate NeverBehind(c: Config, k: nat) {
    forall pw: nat, cw: nat, evs: seq<Event> ::
      cw < pw + Periods(c, k) ==> |Exec(c, Begin(pw, cw), evs).queue| <= VALUES_TO_PRODUCE * k
  }

  /** The exact condition on the delays: that bound holds precisely when the consumer sleeps less
      than k producer periods. */
  lemma NeverBehindIff(c: Config, k: nat)
    requires 1 <= k <= 3 && c.producerDelay > 0
    ensures NeverBehind(c, k) <==> c.consumerDelay < Periods(c, k)
  {
    if c.consumerDelay < Periods(c, k) {
      forall pw: nat, cw: nat, evs: seq<Event> | cw < pw + Periods(c, k)
        ensures |Exec(c, Begin(pw, cw), evs).queue| <= VALUES_TO_PRODUCE * k
      {
        BatchesIff(c, pw, cw, k);
      }
    } else {
      var s := FallBehind(c, k);
      var evs: seq<Event> :| Exec(c, Begin(0, 0), evs) == Step(c, s, Produce);
      assert |Exec(c, Begin(0, 0), evs).queue| > VALUES_TO_PRODUCE * k;
    }
  }

  /** From no start at which the consumer is not three periods late is an error ever seen. */
  ghost predicate NeverFails(c: Config) {
    forall pw: nat, cw: nat, evs: seq<Event> ::
      cw < pw + Periods(c, 3) ==> !Failed(Exec(c, Begin(pw, cw), evs))
  }

  /** The ten-slot queue is never found full precisely when the consumer sleeps less than three
      producer periods. */
  lemma NeverFailsIff(c: Config)
    requires c.producerDelay > 0
    ensures NeverFails(c) <==> c.consumerDelay < Periods(c, 3)
  {
    if c.consumerDelay < Periods(c, 3) {
      forall pw: nat, cw: nat, evs: seq<Event> | cw < pw + Periods(c, 3)
        ensures !Failed(Exec(c, Begin(pw, cw), evs))
      {
        NoErrorsIff(c, pw, cw);
      }
    } else {
      var s := FallBehind(c, 3);
      ReachNext(c, Begin(0, 0), Step(c, s, Produce), Produce);
      var evs: seq<Event> :| Exec(c, Begin(0, 0), evs) == Step(c, Step(c, s, Produce), Produce);
      assert Failed(Exec(c, Begin(0, 0), evs));
    }
  }

  /** The delays as the file computes them from portTICK_RATE_MS. */
  function Delays(tickMs: nat): Config
    requires tickMs > 0
  {
    Config(200 / tickMs, if 20 / tickMs <= 200 / tickMs then 200 / tickMs - 20 / tickMs else 0)
  }

  /** With ticks longer than 20 ms the 20 ms lead truncates to nothing. */
  lemma DelaysAreOrderedIff(tickMs: nat)
    requires 0 < tickMs <= 200
    ensures Delays(tickMs).producerDelay > 0
    ensures Delays(tickMs).consumerDelay < Delays(tickMs).producerDelay <==> tickMs <= 20
  {
    Quotient(20, 200, tickMs);
    if tickMs <= 20 {
      QuotientPositive(20, tickMs);
    }
    QuotientPositive(200, tickMs);
  }

  /** So the queue holds one batch at most, from every start less than a period late, exactly with
      ticks of at most 20 ms. */
  lemma OneBatchIff(tickMs: nat)
    requires 0 < tickMs <= 200
    ensures NeverBehind(Delays(tickMs), 1) <==> tickMs <= 20
  {
    var c := Delays(tickMs);
    DelaysAreOrderedIff(tickMs);
    assert Periods(c, 1) == Periods(c, 0) + c.producerDelay;
    NeverBehindIff(c, 1);
  }

  /** But with any tick up to 200 ms the errors depend on the start alone. */
  lemma EveryTickIsSafe(tickMs: nat, pw: nat, cw: nat)
    requires 0 < tickMs <= 200
    ensures var c := Delays(tickMs);
            (forall evs: seq<Event> :: !Failed(Exec(c, Begin(pw, cw), evs))) <==> cw < pw + Periods(c, 3)
  {
    var c := Delays(tickMs);
    DelaysAreOrderedIff(tickMs);
    assert Periods(c, 3) == Periods(c, 1) + c.producerDelay + c.producerDelay;
    NoErrorsIff(c, pw, cw);
  }

  lemma {:induction false} Quotient(a: nat, b: nat, d: nat)
    requires a <= b && d > 0
    ensures a / d <= b / d
  {
    MulCancel(d, a / d, b / d + 1);
  }

  lemma QuotientPositive(a: nat, d: nat)
    requires 0 < d <= a
    ensures a / d > 0
  {
  }

  lemma ExecSnoc(c: Config, s: State, evs: seq<Event>, e: Event)
    ensures Exec(c, s, evs + [e]) == Step(c, Exec(c, s, evs), e)
  {
    assert (evs + [e])[..|evs|] == evs;
  }

  ghost predicate Reaches(c: Config, b: State, s: State) { exists evs: seq<Event> :: Exec(c, b, evs) == s }

  lemma ReachNext(c: Config, b: State, s: State, e: Event)
    requires Reaches(c, b, s)
    ensures Reaches(c, b, Step(c, s, e))
  {
    var evs: seq<Event> :| Exec(c, b, evs) == s;
    ExecSnoc(c, b, evs, e);
  }

  lemma {:induction false} Ticks(c: Config, b: State, s: State, n: nat)
    requires Reaches(c, b, s) && s.now + n <= s.producerWakes && s.now + n <= s.consumerWakes
    ensures Reaches(c, b, s.(now := s.now + n))
  {
    if n > 0 {
      Ticks(c, b, s, n - 1);
      ReachNext(c, b, s.(now := s.now + n - 1), Tick);
    }
  }

  /** n batches have been sent and the consumer has not yet run. */
  ghost predicate Waiting(c: Config, s: State, pw: nat, cw: nat, n: nat) {
    && s.now <= s.producerWakes == pw + Periods(c, n) && s.now <= s.consumerWakes == cw
    && s.loop == 0 && |s.queue| == VALUES_TO_PRODUCE * n
  }

  lemma SendBatch(c: Config, b: State, s: State, pw: nat, cw: nat, n: nat) returns (t: State)
    requires n < 3 && Reaches(c, b, s) && Waiting(c, s, pw, cw, n) && s.now == s.producerWakes
    ensures Reaches(c, b, t) && Waiting(c, t, pw, cw, n + 1)
  {
    var s1 := Step(c, s, Produce);
    var s2 := Step(c, s1, Produce);
    var s3 := Step(c, s2, Produce);
    t := Step(c, s3, Produce);
    ReachNext(c, b, s, Produce);
    ReachNext(c, b, s1, Produce);
    ReachNext(c, b, s2, Produce);
    ReachNext(c, b, s3, Produce);
  }

  /** While the consumer sleeps past n periods the producer sends n batches and is about to send
      the next. */
  lemma {:induction false} LateFrom(c: Config, b: State, s: State, pw: nat, cw: nat, n: nat) returns (t: State)
    requires n <= 3 && cw >= pw + Periods(c, n) && Reaches(c, b, s) && Waiting(c, s, pw, cw, 0)
    ensures Reaches(c, b, t) && Waiting(c, t, pw, cw, n) && t.now == t.producerWakes
  {
    t := s;
    if n > 0 {
      t := LateFrom(c, b, s, pw, cw, n - 1);
      t := SendBatch(c, b, t, pw, cw, n - 1);
    }
    Ticks(c, b, t, t.producerWakes - t.now);
    t := t.(now := t.producerWakes);
  }

  /** A consumer that starts n periods late. */
  lemma LateConsumer(c: Config, pw: nat, cw: nat, n: nat) returns (s: State)
    requires n <= 3 && cw >= pw + Periods(c, n)
    ensures Reaches(c, Begin(pw, cw), s) && Waiting(c, s, pw, cw, n) && s.now == s.producerWakes
  {
    var b := Begin(pw, cw);
    assert Exec(c, b, []) == b;
    s := LateFrom(c, b, b, pw, cw, n);
  }

  lemma OneTooMany(c: Config, pw: nat, cw: nat, n: nat) returns (evs: seq<Event>)
    requires n <= 3 && cw >= pw + Periods(c, n)
    ensures |Exec(c, Begin(pw, cw), evs).queue| == VALUES_TO_PRODUCE * n + 1
  {
    var t := LateConsumer(c, pw, cw, n);
    ReachNext(c, Begin(pw, cw), t, Produce);
    evs :| Exec(c, Begin(pw, cw), evs) == Step(c, t, Produce);
  }

  lemma Refusal(c: Config, pw: nat, cw: nat) returns (evs: seq<Event>)
    requires cw >= pw + Periods(c, 3)
    ensures Exec(c, Begin(pw, cw), evs).producerError
  {
    var t := LateConsumer(c, pw, cw, 3);
    ReachNext(c, Begin(pw, cw), t, Produce);
    ReachNext(c, Begin(pw, cw), Step(c, t, Produce), Produce);
    evs :| Exec(c, Begin(pw, cw), evs) == Step(c, Step(c, t, Produce), Produce);
  }

  /** The consumer looks first and sleeps past n of the producer's periods. */
  lemma FallBehind(c: Config, n: nat) returns (s: State)
    requires 1 <= n <= 3 && c.producerDelay > 0 && c.consumerDelay >= Periods(c, n)
    ensures Waiting(c, s, 0, c.consumerDelay, n) && s.now == s.producerWakes
    ensures Reaches(c, Begin(0, 0), s) && Reaches(c, Begin(0, 0), Step(c, s, Produce))
  {
    var b := Begin(0, 0);
    assert Exec(c, b, []) == b;
    ReachNext(c, b, b, Consume);
    s := LateFrom(c, b, Step(c, b, Consume), 0, c.consumerDelay, n);
    ReachNext(c, b, s, Produce);
  }
}
