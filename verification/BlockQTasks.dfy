/** The blocking-queue demo's two loops, updating the queue and their counters in place. Each call
    makes one attempt or one check, proved against the transitions of BlockQ. */
module BlockQTasks {
  import opened Common
  import opened Kernel
  import opened BlockQ

  class Demo {
    const config: Config
    var queue: seq<nat>
    var producer: Task
    var consumer: Task
    var producerExpired: bool
    var consumerExpired: bool
    var usValue: nat
    var pc: Pc
    var usExpectedValue: nat
    var producerError: bool   // sErrorEverOccurred of the producer
    var consumerError: bool   // and of the consumer
    var sentChecks: nat       // *psCheckVariable of the producer
    var readChecks: nat       // and of the consumer
    ghost var posted: nat
    ghost var received: seq<nat>

    ghost function Abs(): State
      reads this
    {
      State(queue, producer, consumer, producerExpired, consumerExpired, usValue, pc, usExpectedValue,
            producerError, consumerError, sentChecks, readChecks, posted, received)
    }

    constructor (config: Config)
      ensures this.config == config && Abs() == Start(config)
    {
      this.config := config;
      queue, posted, received := [], 0, [];
      producer := Task(config.producerPrio, config.producerPrio, Ready);
      consumer := Task(config.consumerPrio, config.consumerPrio, Ready);
      producerExpired, consumerExpired := false, false;
      usValue, pc, usExpectedValue := 0, Receive, 0;
      producerError, consumerError, sentChecks, readChecks := false, false, 0, 0;
    }

    /** The next attempt of vBlockingQueueProducer. */
    method BlockingQueueProducer()
      modifies this
      ensures Abs() == ProducerStep(config, old(Abs()))
    {
      if |queue| < config.capacity {
        queue := queue + [usValue];
        posted := posted + 1;
        producerExpired := false;
        if consumer.status == Blocked {
          consumer := consumer.(status := Ready);
        }
        if !producerError {
          sentChecks := (sentChecks + 1) % TWO_16;
        }
        usValue := (usValue + 1) % TWO_16;
      } else if config.producerBlocks && !producerExpired {
        producer := producer.(status := Blocked);
      } else {
        producerExpired := false;
        producerError := true;
      }
    }

    /** The next attempt or check of vBlockingQueueConsumer. */
    method BlockingQueueConsumer()
      modifies this
      ensures Abs() == ConsumerStep(config, old(Abs()))
    {
      match pc {
        case Receive =>
          if queue != [] {
            pc := Compare(queue[0]);
            queue := queue[1..];
            consumerExpired := false;
            if producer.status == Blocked {
              producer := producer.(status := Ready);
            }
          } else if config.consumerBlocks && !consumerExpired {
            consumer := consumer.(status := Blocked);
          } else {
            consumerExpired := false;
          }
        case Compare(usData) =>
          if usData != usExpectedValue {
            usExpectedValue := usData;
            consumerError := true;
          } else {
            if !consumerError {
              readChecks := (readChecks + 1) % TWO_16;
            }
            usExpectedValue := (usExpectedValue + 1) % TWO_16;
          }
          received := received + [usData];
          pc := Receive;
      }
    }

    method Happen(e: Event)
      modifies this
      ensures Abs() == Step(config, old(Abs()), e)
    {
      match e {
        case Producer =>
          if Ahead(producer, consumer) {
            BlockingQueueProducer();
          }
        case Consumer =>
          if Ahead(consumer, producer) {
            BlockingQueueConsumer();
          }
        case ProducerExpiry =>
          if producer.status == Blocked {
            producer := producer.(status := Ready);
            producerExpired := true;
          }
        case ConsumerExpiry =>
          if consumer.status == Blocked {
            consumer := consumer.(status := Ready);
            consumerExpired := true;
          }
      }
    }
  }

  /** One pair of tasks under any schedule. */
  method RunDemo(config: Config, evs: seq<Event>) returns (d: Demo)
    ensures fresh(d) && d.Abs() == Exec(config, Start(config), evs)
    ensures !d.consumerError && Consecutive(d.received, 0) && d.posted == Taken(d.Abs()) + |d.queue|
    ensures d.producerError <==> SomeSendFails(config, evs)
    ensures config.producerPrio < config.consumerPrio && config.capacity > 0 ==> !d.producerError
  {
    d := new Demo(config);
    for i := 0 to |evs|
      invariant d.config == config && d.Abs() == Exec(config, Start(config), evs[..i])
    {
      assert evs[..i + 1][..i] == evs[..i];
      d.Happen(evs[i]);
    }
    assert evs[..|evs|] == evs;
    EveryRunInOrder(config, evs);
    ErrorIffSendFails(config, evs);
    if config.producerPrio < config.consumerPrio && config.capacity > 0 {
      PreemptedProducerNeverFails(config, evs);
    }
  }
}
