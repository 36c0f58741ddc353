/** The blocking-queue demo: a producer posts 0, 1, 2, ... modulo 2^16 and a consumer checks
    what it takes out. Either may block on the queue, for a limited time. One transition is one
    attempt or one check by a task the scheduler may run, or the end of a block time. */
module BlockQ {
  import opened Common
  import opened Kernel

  /** A pair of tasks and their queue; a task with no block time gives up at once. */
  datatype Config = Config(
    capacity: nat, producerPrio: nat, consumerPrio: nat, producerBlocks: bool, consumerBlocks: bool)

  /** The consumer is about to receive, or examines what it has received. */
  datatype Pc = Receive | Compare(usData: nat)

  datatype State = State(
    queue: seq<nat>,
    producer: Task, consumer: Task,                   // priority, and ready or blocked on the queue
    producerExpired: bool, consumerExpired: bool,     // the block time has run out
    usValue: nat, pc: Pc, usExpectedValue: nat,
    producerError: bool, consumerError: bool, sentChecks: nat, readChecks: nat,
    posted: nat, received: seq<nat>)                  // history: how many posted, and what was checked

  datatype Event = Producer | Consumer | ProducerExpiry | ConsumerExpiry

  /** The scheduler may run a before b. */
  predicate Ahead(a: Task, b: Task) { a.status.Ready? && (b.status.Ready? ==> b.prio <= a.prio) }

  /** A task waiting for the queue is readied by the other's success. */
  function Woken(t: Task): Task { if t.status.Blocked? then t.(status := Ready) else t }

  function ProducerStep(c: Config, s: State): State {
    if |s.queue| < c.capacity then
      s.(queue := s.queue + [s.usValue], posted := s.posted + 1, usValue := (s.usValue + 1) % TWO_16,
         sentChecks := if s.producerError then s.sentChecks else (s.sentChecks + 1) % TWO_16,
         producerExpired := false, consumer := Woken(s.consumer))
    else if c.producerBlocks && !s.producerExpired then s.(producer := s.producer.(status := Blocked))
    else s.(producerError := true, producerExpired := false)
  }

  function ConsumerStep(c: Config, s: State): State {
    match s.pc
    case Receive =>
      if s.queue != [] then
        s.(pc := Compare(s.queue[0]), queue := s.queue[1..], consumerExpired := false,
           producer := Woken(s.producer))
      else if c.consumerBlocks && !s.consumerExpired then s.(consumer := s.consumer.(status := Blocked))
      else s.(consumerExpired := false)
    case Compare(d) =>
      if d != s.usExpectedValue then
        s.(usExpectedValue := d, consumerError := true, pc := Receive, received := s.received + [d])
      else
        s.(usExpectedValue := (s.usExpectedValue + 1) % TWO_16, pc := Receive, received := s.received + [d],
           readChecks := if s.consumerError then s.readChecks else (s.readChecks + 1) % TWO_16)
  }

  function Step(c: Config, s: State, e: Event): State {
    match e
    case Producer => if Ahead(s.producer, s.consumer) then ProducerStep(c, s) else s
    case Consumer => if Ahead(s.consumer, s.producer) then ConsumerStep(c, s) else s
    case ProducerExpiry =>
      if s.producer.status.Blocked? then s.(producer := s.producer.(status := Ready), producerExpired := true) else s
    case ConsumerExpiry =>
      if s.consumer.status.Blocked? then s.(consumer := s.consumer.(status := Ready), consumerExpired := true) else s
  }

  function Exec(c: Config, s: State, evs: seq<Event>): State
    decreases |evs|
  {
    if evs == [] then s else Step(c, Exec(c, s, evs[..|evs| - 1]), evs[|evs| - 1])
  }

  function Start(c: Config): State {
    State([], Task(c.producerPrio, c.producerPrio, Ready), Task(c.consumerPrio, c.consumerPrio, Ready),
          false, false, 0, Receive, 0, false, false, 0, 0, 0, [])
  }

  /** The three pairs that vStartBlockingQueueTasks creates, given its priority argument. */
  function FirstPair(prio: nat): Config { Config(1, 0, prio, false, true) }

  function SecondPair(prio: nat): Config { Config(1, prio, 0, true, false) }

  function ThirdPair(): Config { Config(5, 0, 0, true, true) }

  // ----- the order of the values -----------------------------------------------------------

  /** How many values have left the queue: those checked and the one in hand. */
  function Taken(s: State): nat { |s.received| + if s.pc.Compare? then 1 else 0 }

  /** Everything posted has been checked, is in hand, or is queued, consecutive throughout. */
  ghost predicate Ordered(c: Config, s: State) {
    && s.posted == Taken(s) + |s.queue| && |s.queue| <= c.capacity
    && Consecutive(s.received, 0) && Consecutive(s.queue, Taken(s))
    && (s.pc.Compare? ==> s.pc.usData == |s.received| % TWO_16)
    && s.usValue == s.posted % TWO_16 && s.usExpectedValue == |s.received| % TWO_16
    && !s.consumerError && s.readChecks == |s.received| % TWO_16
    && (!s.producerError ==> s.sentChecks == s.posted % TWO_16)
  }

  lemma ProducerKeepsOrder(c: Config, s: State)
    requires Ordered(c, s)
    ensures Ordered(c, ProducerStep(c, s))
  {
    if |s.queue| < c.capacity {
      ConsecutivePush(s.queue, Taken(s));
      ModAdd16(s.posted, 1);
    }
  }

  lemma ConsumerKeepsOrder(c: Config, s: State)
    requires Ordered(c, s)
    ensures Ordered(c, ConsumerStep(c, s))
  {
    if s.pc.Compare? {
      ConsecutivePush(s.received, 0);
      ModAdd16(|s.received|, 1);
    } else if s.queue != [] {
      ConsecutivePop(s.queue, Taken(s));
    }
  }

  lemma {:induction false} EveryRunKeepsOrder(c: Config, evs: seq<Event>)
    ensures Ordered(c, Exec(c, Start(c), evs))
    decreases |evs|
  {
    if evs == [] {
    } else {
      EveryRunKeepsOrder(c, evs[..|evs| - 1]);
      match evs[|evs| - 1] {
        case Producer => ProducerKeepsOrder(c, Exec(c, Start(c), evs[..|evs| - 1]));
        case Consumer => ConsumerKeepsOrder(c, Exec(c, Start(c), evs[..|evs| - 1]));
        case _ =>
      }
    }
  }

  /** For every capacity, both priorities, any block times, any schedule and any expiries: the
      consumer checks 0, 1, 2, ... in order, each value once, and never has to catch up; what is
      posted and not yet taken is what the queue holds. */
  lemma EveryRunInOrder(c: Config, evs: seq<Event>)
    ensures var s := Exec(c, Start(c), evs);
            && !s.consumerError && Consecutive(s.received, 0) && s.readChecks == |s.received| % TWO_16
            && s.posted == Taken(s) + |s.queue| && |s.queue| <= c.capacity
            && Consecutive(s.queue, Taken(s))
  {
    EveryRunKeepsOrder(c, evs);
  }

  // ----- who waits for what ----------------------------------------------------------------

  /** Priorities never change, a blocked consumer has an empty queue to wait for and a blocked
      producer a full one. */
  ghost predicate Waits(c: Config, s: State) {
    && s.producer.prio == c.producerPrio && s.consumer.prio == c.consumerPrio
    && (s.producer.status.Ready? || s.producer.status.Blocked?)
    && (s.consumer.status.Ready? || s.consumer.status.Blocked?)
    && (s.consumer.status.Blocked? ==> c.consumerBlocks && s.queue == [] && s.pc.Receive?)
    && (s.producer.status.Blocked? ==> c.producerBlocks && |s.queue| >= c.capacity)
    && (s.producerExpired ==> c.producerBlocks)
  }

  lemma StepKeepsWaits(c: Config, s: State, e: Event)
    requires Waits(c, s) && |s.queue| <= c.capacity
    ensures Waits(c, Step(c, s, e))
  {
  }

  lemma {:induction false} EveryRunKeepsWaits(c: Config, evs: seq<Event>)
    ensures Waits(c, Exec(c, Start(c), evs))
    decreases |evs|
  {
    if evs == [] {
    } else {
      EveryRunKeepsWaits(c, evs[..|evs| - 1]);
      EveryRunKeepsOrder(c, evs[..|evs| - 1]);
      StepKeepsWaits(c, Exec(c, Start(c), evs[..|evs| - 1]), evs[|evs| - 1]);
    }
  }

  /** The two tasks never wait for each other: on every run of a queue with room for something, at
      least one of them can run. */
  lemma {:induction false} NeverDeadlocks(c: Config, evs: seq<Event>)
    requires c.capacity > 0
    ensures var s := Exec(c, Start(c), evs); Ahead(s.producer, s.consumer) || Ahead(s.consumer, s.producer)
  {
    EveryRunKeepsWaits(c, evs);
  }

  /** A consumer of higher priority that blocks on reads preempts the producer as soon as there is
      something to read: the producer runs only while the consumer waits for an empty queue. */
  lemma {:induction false} ProducerRunsOnEmptyQueue(c: Config, evs: seq<Event>)
    requires c.producerPrio < c.consumerPrio
    ensures var s := Exec(c, Start(c), evs);
            Ahead(s.producer, s.consumer) ==> s.consumer.status.Blocked? && s.queue == []
  {
    EveryRunKeepsWaits(c, evs);
  }

  /** So such a producer, though it does not block, never finds the queue full. */
  lemma {:induction false} PreemptedProducerNeverFails(c: Config, evs: seq<Event>)
    requires c.producerPrio < c.consumerPrio && c.capacity > 0
    ensures !Exec(c, Start(c), evs).producerError
    decreases |evs|
  {
    if evs == [] {
    } else {
      PreemptedProducerNeverFails(c, evs[..|evs| - 1]);
      ProducerRunsOnEmptyQueue(c, evs[..|evs| - 1]);
    }
  }

  /** A send that fails: the queue is full and the producer will not wait, or has waited enough. */
  ghost predicate SendFails(c: Config, s: State, e: Event) {
    e.Producer? && Ahead(s.producer, s.consumer) && |s.queue| >= c.capacity && (!c.producerBlocks || s.producerExpired)
  }

  ghost predicate SomeSendFails(c: Config, evs: seq<Event>) {
    exists n :: 0 <= n < |evs| && SendFails(c, Exec(c, Start(c), evs[..n]), evs[n])
  }

  /** The two checks, in any state whatever. */
  lemma StepSetsError(c: Config, s: State, e: Event)
    ensures Step(c, s, e).producerError <==> s.producerError || SendFails(c, s, e)
    ensures Step(c, s, e).consumerError <==>
              s.consumerError || (Checks(s, e) && s.pc.usData != s.usExpectedValue)
  {
  }

  /** A task blocks exactly when the queue has nothing for it and it has a block time that has not
      just run out; a block time that has is spent by the next attempt. */
  lemma StepBlocks(c: Config, s: State, e: Event)
    requires Waits(c, s) && |s.queue| <= c.capacity && c.capacity > 0
    ensures var t := Step(c, s, e);
            && (s.producer.status.Ready? && t.producer.status.Blocked? <==>
                  e.Producer? && Ahead(s.producer, s.consumer) && |s.queue| == c.capacity
                  && c.producerBlocks && !s.producerExpired)
            && (s.consumer.status.Ready? && t.consumer.status.Blocked? <==>
                  e.Consumer? && Ahead(s.consumer, s.producer) && s.pc.Receive? && s.queue == []
                  && c.consumerBlocks && !s.consumerExpired)
            && (e.Producer? && Ahead(s.producer, s.consumer) ==> !t.producerExpired)
            && (e.Consumer? && Ahead(s.consumer, s.producer) && s.pc.Receive? ==> !t.consumerExpired)
  {
  }

  lemma FrontFails(c: Config, evs: seq<Event>)
    requires evs != []
    ensures var front := evs[..|evs| - 1];
            SomeSendFails(c, evs) <==>
              SomeSendFails(c, front) || SendFails(c, Exec(c, Start(c), front), evs[|evs| - 1])
  {
    var front := evs[..|evs| - 1];
    if SomeSendFails(c, front) {
      var n :| 0 <= n < |front| && SendFails(c, Exec(c, Start(c), front[..n]), front[n]);
      assert front[..n] == evs[..n] && front[n] == evs[n];
    }
    if SomeSendFails(c, evs) {
      var n :| 0 <= n < |evs| && SendFails(c, Exec(c, Start(c), evs[..n]), evs[n]);
      if n < |front| {
        assert front[..n] == evs[..n] && front[n] == evs[n];
      }
    }
  }

  /** The producer's flag tells of a failed send and of nothing else. */
  lemma {:induction false} ErrorIffSendFails(c: Config, evs: seq<Event>)
    ensures Exec(c, Start(c), evs).producerError <==> SomeSendFails(c, evs)
    decreases |evs|
  {
    if evs == [] {
    } else {
      ErrorIffSendFails(c, evs[..|evs| - 1]);
      FrontFails(c, evs);
      StepSetsError(c, Exec(c, Start(c), evs[..|evs| - 1]), evs[|evs| - 1]);
    }
  }

  /** A producer that blocks sees no error until its block time has run out once. */
  lemma {:induction false} NoExpiryNoError(c: Config, evs: seq<Event>)
    requires c.producerBlocks && ProducerExpiry !in evs
    ensures var s := Exec(c, Start(c), evs); !s.producerError && !s.producerExpired
    decreases |evs|
  {
    if evs == [] {
    } else {
      NoExpiryNoError(c, evs[..|evs| - 1]);
    }
  }

  /** The demo's three pairs. */
  lemma {:induction false} TheThreePairs(prio: nat, evs: seq<Event>)
    ensures prio > 0 ==> !Exec(FirstPair(prio), Start(FirstPair(prio)), evs).producerError
    ensures ProducerExpiry !in evs ==> !Exec(SecondPair(prio), Start(SecondPair(prio)), evs).producerError
    ensures ProducerExpiry !in evs ==> !Exec(ThirdPair(), Start(ThirdPair()), evs).producerError
  {
    if prio > 0 {
      PreemptedProducerNeverFails(FirstPair(prio), evs);
    }
    if ProducerExpiry !in evs {
      NoExpiryNoError(SecondPair(prio), evs);
      NoExpiryNoError(ThirdPair(), evs);
    }
  }

  // ----- progress --------------------------------------------------------------------------

  /** The three ways in which a value gets further. */
  predicate Sends(c: Config, s: State, e: Event) {
    e.Producer? && Ahead(s.producer, s.consumer) && |s.queue| < c.capacity
  }

  predicate Takes(s: State, e: Event) {
    e.Consumer? && Ahead(s.consumer, s.producer) && s.pc.Receive? && s.queue != []
  }

  predicate Checks(s: State, e: Event) { e.Consumer? && Ahead(s.consumer, s.producer) && s.pc.Compare? }

  /** A value is posted, taken or checked exactly in such an event. */
  lemma StepCounts(c: Config, s: State, e: Event)
    ensures var t := Step(c, s, e);
            && t.posted == s.posted + (if Sends(c, s, e) then 1 else 0)
            && Taken(t) == Taken(s) + (if Takes(s, e) then 1 else 0)
            && |t.received| == |s.received| + (if Checks(s, e) then 1 else 0)
  {
  }

  /** A task does something: an attempt or a check that changes the state. */
  predicate Moves(c: Config, s: State, e: Event) {
    (e.Producer? || e.Consumer?) && Step(c, s, e) != s
  }

  ghost predicate Busy(c: Config, s: State, evs: seq<Event>)
    decreases |evs|
  {
    evs == [] || (Busy(c, s, evs[..|evs| - 1]) && Moves(c, Exec(c, s, evs[..|evs| - 1]), evs[|evs| - 1]))
  }

  /** An upper bound on what the tasks can do before the consumer checks another value. */
  function Rank(c: Config, s: State): int {
    2 * (c.capacity - |s.queue|) + (if s.pc.Receive? then 5 else 0)
    + (if s.producer.status.Ready? then 1 else 0) + (if s.consumer.status.Ready? then 1 else 0)
    + (if s.producerError then 0 else 1)
    + (if s.producerExpired then 2 else 0) + (if s.consumerExpired then 2 else 0)
  }

  lemma MoveLowersRank(c: Config, s: State, e: Event)
    requires Waits(c, s) && Moves(c, s, e)
    ensures Checks(s, e) || Rank(c, Step(c, s, e)) < Rank(c, s)
  {
  }

  /** The demo goes on: for every pair of tasks, every run in which the tasks do something more than
      twice the capacity plus thirteen times, with no block time running out, checks another value. */
  lemma {:induction false} EveryScheduleDelivers(c: Config, s: State, evs: seq<Event>)
    requires Waits(c, s) && |s.queue| <= c.capacity && Busy(c, s, evs)
    ensures var t := Exec(c, s, evs);
            && Waits(c, t) && |t.queue| <= c.capacity && |t.received| >= |s.received|
            && (|t.received| > |s.received| || Rank(c, t) + |evs| <= Rank(c, s))
    ensures |evs| > 2 * c.capacity + 13 ==> |Exec(c, s, evs).received| > |s.received|
    decreases |evs|
  {
    if evs == [] {
    } else {
      var front, e := evs[..|evs| - 1], evs[|evs| - 1];
      var u := Exec(c, s, front);
      EveryScheduleDelivers(c, s, front);
      StepKeepsWaits(c, u, e);
      StepCounts(c, u, e);
      MoveLowersRank(c, u, e);
    }
  }

  /** The more urgent of the two tasks blocks on the queue, or neither is more urgent. */
  predicate Yields(c: Config) {
    (c.producerPrio > c.consumerPrio ==> c.producerBlocks) && (c.consumerPrio > c.producerPrio ==> c.consumerBlocks)
  }

  lemma SomeoneMoves(c: Config, s: State)
    requires Waits(c, s) && |s.queue| <= c.capacity && c.capacity > 0 && Yields(c)
    ensures Moves(c, s, Producer) || Moves(c, s, Consumer)
  {
  }

  /** The queue after n sends by a producer that the consumer cannot preempt. */
  lemma {:induction false} Filled(c: Config, n: nat) returns (evs: seq<Event>)
    requires c.producerPrio > c.consumerPrio && n <= c.capacity
    ensures var s := Exec(c, Start(c), evs);
            && |s.queue| == n && s.producer == Start(c).producer && s.consumer == Start(c).consumer
            && s.pc.Receive? && !s.producerExpired && !s.consumerExpired
  {
    if n == 0 {
      evs := [];
    } else {
      var front := Filled(c, n - 1);
      evs := front + [Producer];
      assert evs[..|evs| - 1] == front;
    }
  }

  /** A more urgent producer that does not block starves the consumer once the queue is full. */
  lemma ProducerStarves(c: Config) returns (evs: seq<Event>)
    requires c.producerPrio > c.consumerPrio && !c.producerBlocks
    ensures var s := Exec(c, Start(c), evs); !Moves(c, s, Producer) && !Moves(c, s, Consumer)
  {
    var front := Filled(c, c.capacity);
    evs := front + [Producer];
    assert evs[..|evs| - 1] == front;
  }

  ghost predicate NeverStuck(c: Config) {
    forall evs: seq<Event> ::
      var s := Exec(c, Start(c), evs); Moves(c, s, Producer) || Moves(c, s, Consumer)
  }

  /** The exact condition: on every run one of the two tasks can do something precisely when the more
      urgent of them blocks on the queue. */
  lemma {:induction false} NeverStuckIff(c: Config)
    requires c.capacity > 0
    ensures NeverStuck(c) <==> Yields(c)
  {
    if Yields(c) {
      forall evs: seq<Event>
        ensures var s := Exec(c, Start(c), evs); Moves(c, s, Producer) || Moves(c, s, Consumer)
      {
        EveryRunKeepsWaits(c, evs);
        EveryRunKeepsOrder(c, evs);
        SomeoneMoves(c, Exec(c, Start(c), evs));
      }
    } else if c.producerPrio > c.consumerPrio {
      var evs := ProducerStarves(c);
    } else {
      assert Exec(c, Start(c), []) == Start(c);
    }
  }

  lemma {:induction false} ThePairsNeverStick(prio: nat)
    ensures NeverStuck(FirstPair(prio)) && NeverStuck(SecondPair(prio)) && NeverStuck(ThirdPair())
  {
    NeverStuckIff(FirstPair(prio));
    NeverStuckIff(SecondPair(prio));
    NeverStuckIff(ThirdPair());
  }
}
