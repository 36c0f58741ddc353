/** The polled-queue demo's two loops, updating the queue and their counters in place. Each call
    runs one statement, proved against the transitions of PollQ. */
module PollQTasks {
  import opened Common
  import opened PollQ

  class Demo {
    const delays: Config
    var now: nat
    var producerWakes: nat
    var consumerWakes: nat
    var loop: nat            // xLoop
    var value: nat           // usValue
    var expected: nat        // usExpectedValue
    var queue: seq<nat>
    var producerError: bool
    var consumerError: bool

    ghost function Abs(): State
      reads this
    {
      State(now, producerWakes, consumerWakes, loop, value, expected, queue, producerError, consumerError)
    }

    constructor (delays: Config, producerWakes: nat, consumerWakes: nat)
      ensures this.delays == delays
      ensures Abs() == Begin(producerWakes, consumerWakes)
    {
      this.delays := delays;
      this.producerWakes, this.consumerWakes := producerWakes, consumerWakes;
      now, loop, value, expected, queue := 0, 0, 0, 0, [];
      producerError, consumerError := false, false;
    }

    /** The next send of vPolledQueueProducer, or its delay after the third. */
    method PolledQueueProducer()
      modifies this
      ensures Abs() == ProducerStep(delays, old(Abs()))
    {
      if loop < VALUES_TO_PRODUCE {
        if |queue| >= QUEUE_SIZE {
          producerError := true;
        } else {
          queue := queue + [value];
          value := (value + 1) % TWO_16;
        }
        loop := loop + 1;
      } else {
        loop := 0;
        producerWakes := now + delays.producerDelay;
      }
    }

    /** The next receive and check of vPolledQueueConsumer, or its delay. */
    method PolledQueueConsumer()
      modifies this
      ensures Abs() == ConsumerStep(delays, old(Abs()))
    {
      if queue == [] {
        consumerWakes := now + delays.consumerDelay;
      } else {
        var usData := queue[0];
        queue := queue[1..];
        if usData != expected {
          consumerError := true;
          expected := usData;
        }
        expected := (expected + 1) % TWO_16;
      }
    }

    method Happen(e: Event)
      modifies this
      ensures Abs() == Step(delays, old(Abs()), e)
    {
      match e {
        case Produce =>
          if producerWakes <= now {
            PolledQueueProducer();
          }
        case Consume =>
          if consumerWakes <= now {
            PolledQueueConsumer();
          }
        case Tick =>
          if now < producerWakes && now < consumerWakes {
            now := now + 1;
          }
      }
    }
  }

  /** The demo under any interleaving and from any start: with the consumer sleeping less than k
      producer periods and starting less than k periods late, no error is seen for k up to three,
      and the queue holds k batches at most. */
  method RunDemo(delays: Config, producerWakes: nat, consumerWakes: nat, evs: seq<Event>) returns (d: Demo)
    ensures fresh(d) && d.Abs() == Exec(delays, Begin(producerWakes, consumerWakes), evs)
    ensures forall k: nat :: k <= 3 && InStep(delays, producerWakes, consumerWakes, k) ==>
              !d.producerError && !d.consumerError && |d.queue| <= VALUES_TO_PRODUCE * k
  {
    d := new Demo(delays, producerWakes, consumerWakes);
    for i := 0 to |evs|
      invariant d.delays == delays && d.Abs() == Exec(delays, Begin(producerWakes, consumerWakes), evs[..i])
    {
      assert evs[..i + 1][..i] == evs[..i];
      d.Happen(evs[i]);
    }
    assert evs[..|evs|] == evs;
    forall k: nat | k <= 3 && InStep(delays, producerWakes, consumerWakes, k)
      ensures !d.producerError && !d.consumerError && |d.queue| <= VALUES_TO_PRODUCE * k
    {
      EveryRunKeeps(delays, producerWakes, consumerWakes, evs, k);
      InvBounds(delays, d.Abs(), k);
    }
  }

  predicate InStep(delays: Config, producerWakes: nat, consumerWakes: nat, k: nat) {
    delays.consumerDelay < Periods(delays, k) && consumerWakes < producerWakes + Periods(delays, k)
  }
}
