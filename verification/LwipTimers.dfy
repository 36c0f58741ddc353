/** The lwIP example's timer dispatcher: an alarm sets a flag every quarter second, the main
    loop sees the flag and advances a 32-bit millisecond counter, and each protocol's handler
    runs when the counter is a multiple of its interval. */
module LwipTimers {
  import opened Common

  const TCP_TMR_INTERVAL: nat := 250
  const ARP_TMR_INTERVAL: nat := 5000
  const IP_TMR_INTERVAL: nat := 1000
  const AUTOIP_TMR_INTERVAL: nat := 100
  const IGMP_TMR_INTERVAL: nat := 100
  const DHCP_FINE_TIMER_MSECS: nat := 500
  const DHCP_COARSE_TIMER_MSECS: nat := 60000
  const DNS_TMR_INTERVAL: nat := 1000

  /** The counter after n calls. */
  function Counter(n: nat): nat { 250 * n % TWO_32 }

  predicate Due(n: nat, interval: nat)
    requires interval > 0
  {
    Counter(n) % interval == 0
  }

  /** How often a handler has run in the first n calls. */
  function Runs(n: nat, interval: nat): nat
    requires interval > 0
  {
    if n == 0 then 0 else Runs(n - 1, interval) + if Due(n, interval) then 1 else 0
  }

  /** How often each handler has run. */
  datatype Tally = Tally(tcp: nat, arp: nat, ip: nat, autoip: nat, igmp: nat, dhcpFine: nat, dhcpCoarse: nat, dns: nat)

  function Expected(n: nat): Tally {
    Tally(Runs(n, TCP_TMR_INTERVAL), Runs(n, ARP_TMR_INTERVAL), Runs(n, IP_TMR_INTERVAL),
          Runs(n, AUTOIP_TMR_INTERVAL), Runs(n, IGMP_TMR_INTERVAL), Runs(n, DHCP_FINE_TIMER_MSECS),
          Runs(n, DHCP_COARSE_TIMER_MSECS), Runs(n, DNS_TMR_INTERVAL))
  }

  /** One handler's test: run it when the counter is a multiple of its interval. */
  function RunWhenDue(runs: nat, counter: nat, interval: nat): nat
    requires interval > 0
  {
    if counter % interval == 0 then runs + 1 else runs
  }

  /** All the tests of one call, in their order. */
  function RunAll(h: Tally, counter: nat): Tally {
    Tally(RunWhenDue(h.tcp, counter, TCP_TMR_INTERVAL), RunWhenDue(h.arp, counter, ARP_TMR_INTERVAL),
          RunWhenDue(h.ip, counter, IP_TMR_INTERVAL), RunWhenDue(h.autoip, counter, AUTOIP_TMR_INTERVAL),
          RunWhenDue(h.igmp, counter, IGMP_TMR_INTERVAL), RunWhenDue(h.dhcpFine, counter, DHCP_FINE_TIMER_MSECS),
          RunWhenDue(h.dhcpCoarse, counter, DHCP_COARSE_TIMER_MSECS), RunWhenDue(h.dns, counter, DNS_TMR_INTERVAL))
  }

  lemma CounterStep(n: nat)
    ensures (Counter(n) + 250) % TWO_32 == Counter(n + 1)
  {
    ModAdd(250 * n, 250);
  }

  lemma RunsStep(n: nat, interval: nat)
    requires interval > 0
    ensures Runs(n + 1, interval) == RunWhenDue(Runs(n, interval), Counter(n + 1), interval)
  {
  }

  lemma ExpectedStep(n: nat)
    ensures Expected(n + 1) == RunAll(Expected(n), Counter(n + 1))
  {
    RunsStep(n, TCP_TMR_INTERVAL);
    RunsStep(n, ARP_TMR_INTERVAL);
    RunsStep(n, IP_TMR_INTERVAL);
    RunsStep(n, AUTOIP_TMR_INTERVAL);
    RunsStep(n, DHCP_FINE_TIMER_MSECS);
    RunsStep(n, DHCP_COARSE_TIMER_MSECS);
  }

  class Dispatcher {
    var lwip250mStimer: nat
    var lwipProcessTimerFlag: bool
    var handlers: Tally
    ghost var calls: nat
    ghost var alarms: nat

    /** The counter and the handlers are where the calls so far have brought them, and there
        has been an alarm for every call, and one more while the flag is up. */
    ghost predicate Valid()
      reads this
    {
      && lwip250mStimer == Counter(calls) && handlers == Expected(calls)
      && calls + (if lwipProcessTimerFlag then 1 else 0) <= alarms
    }

    constructor ()
      ensures Valid() && calls == 0 && alarms == 0
    {
      lwip250mStimer, lwipProcessTimerFlag, handlers := 0, false, Tally(0, 0, 0, 0, 0, 0, 0, 0);
      calls, alarms := 0, 0;
    }

    /** The alarm only raises the flag for the main loop. */
    method AlarmCallback()
      requires Valid()
      modifies this
      ensures Valid() && lwipProcessTimerFlag && calls == old(calls) && alarms == old(alarms) + 1
    {
      lwipProcessTimerFlag := true;
      alarms := alarms + 1;
    }

    /** The body of lwipProcessTimers after the counter has moved. */
    method RunHandlers()
      modifies this`handlers
      ensures handlers == RunAll(old(handlers), lwip250mStimer)
    {
      var t := lwip250mStimer;
      handlers := handlers.(tcp := RunWhenDue(handlers.tcp, t, TCP_TMR_INTERVAL));
      handlers := handlers.(arp := RunWhenDue(handlers.arp, t, ARP_TMR_INTERVAL));
      handlers := handlers.(ip := RunWhenDue(handlers.ip, t, IP_TMR_INTERVAL));
      handlers := handlers.(autoip := RunWhenDue(handlers.autoip, t, AUTOIP_TMR_INTERVAL));
      handlers := handlers.(igmp := RunWhenDue(handlers.igmp, t, IGMP_TMR_INTERVAL));
      handlers := handlers.(dhcpFine := RunWhenDue(handlers.dhcpFine, t, DHCP_FINE_TIMER_MSECS));
      handlers := handlers.(dhcpCoarse := RunWhenDue(handlers.dhcpCoarse, t, DHCP_COARSE_TIMER_MSECS));
      handlers := handlers.(dns := RunWhenDue(handlers.dns, t, DNS_TMR_INTERVAL));
    }

    /** One call: lower the flag, advance the counter, run what is due. */
    method ProcessTimers()
      requires Valid() && lwipProcessTimerFlag
      modifies this
      ensures Valid() && !lwipProcessTimerFlag && calls == old(calls) + 1 && alarms == old(alarms)
    {
      CounterStep(calls);
      ExpectedStep(calls);
      calls := calls + 1;
      lwipProcessTimerFlag := false;
      lwip250mStimer := (lwip250mStimer + 250) % TWO_32;
      RunHandlers();
    }

    /** The main loop with the alarm firing at will: alarm[i] tells how often it fires before the
        i-th pass. A pass that finds the flag up makes one call, however many alarms raised it. */
    method MainLoop(alarm: seq<nat>)
      requires Valid()
      modifies this
      ensures Valid() && alarms == old(alarms) + Total(alarm)
      ensures calls == old(calls) + Served(alarm, old(lwipProcessTimerFlag))
      ensures lwipProcessTimerFlag <==> alarm == [] && old(lwipProcessTimerFlag)
      ensures 250 * calls < TWO_32 ==>
                handlers == Tally(calls, calls / 20, calls / 4, calls / 2, calls / 2, calls / 2, calls / 240, calls / 4)
    {
      ghost var up := lwipProcessTimerFlag;
      for i := 0 to |alarm|
        invariant Valid() && alarms == old(alarms) + Total(alarm[..i])
        invariant calls == old(calls) + Served(alarm[..i], up)
        invariant lwipProcessTimerFlag <==> i == 0 && up
      {
        assert alarm[..i + 1][..i] == alarm[..i];
        for k := 0 to alarm[i]
          invariant Valid() && alarms == old(alarms) + Total(alarm[..i]) + k
          invariant calls == old(calls) + Served(alarm[..i], up)
          invariant lwipProcessTimerFlag <==> (i == 0 && up) || k > 0
        {
          AlarmCallback();
        }
        if lwipProcessTimerFlag {
          ProcessTimers();
        }
      }
      assert alarm[..|alarm|] == alarm;
      if 250 * calls < TWO_32 {
        FirstLap(calls);
      }
    }
  }

  function Total(alarm: seq<nat>): nat {
    if alarm == [] then 0 else Total(alarm[..|alarm| - 1]) + alarm[|alarm| - 1]
  }

  /** The passes that make a call: those before which the alarm fired, and the first if the flag
      was up already. */
  function Served(alarm: seq<nat>, up: bool): nat {
    if alarm == [] then 0 else
      Served(alarm[..|alarm| - 1], up) + if alarm[|alarm| - 1] > 0 || (|alarm| == 1 && up) then 1 else 0
  }

  /** No quarter second is lost exactly when no pass takes longer than the alarm's period: at most
      one alarm before each pass. */
  lemma {:induction false} NoneLostIff(alarm: seq<nat>)
    ensures Served(alarm, false) <= Total(alarm)
    ensures Served(alarm, false) == Total(alarm) <==> forall i :: 0 <= i < |alarm| ==> alarm[i] <= 1
  {
    if alarm == [] {
    } else {
      var front := alarm[..|alarm| - 1];
      NoneLostIff(front);
      assert forall i :: 0 <= i < |front| ==> front[i] == alarm[i];
    }
  }

  lemma {:induction false} QuotientSteps(n: nat, m: nat)
    requires n > 0 && m > 0
    ensures n / m == (n - 1) / m + if n % m == 0 then 1 else 0
  {
    var q, r := n / m, n % m;
    assert n == m * q + r;
    if r == 0 {
      MulCancel(m, 0, q);
      assert n - 1 == m * (q - 1) + (m - 1);
      DivUnique(n - 1, m, q - 1, m - 1);
    } else {
      DivUnique(n - 1, m, q, r - 1);
    }
  }

  /** A handler due at every m-th call has run floor(n/m) times after n calls. */
  lemma {:induction false} PeriodicRuns(n: nat, interval: nat, m: nat)
    requires interval > 0 && m > 0
    requires forall j: nat :: j <= n ==> (Due(j, interval) <==> j % m == 0)
    ensures Runs(n, interval) == n / m
  {
    if n > 0 {
      PeriodicRuns(n - 1, interval, m);
      QuotientSteps(n, m);
    }
  }

  lemma CounterBeforeWrap(n: nat)
    requires 250 * n < TWO_32
    ensures Counter(n) == 250 * n
  {
  }

  lemma Scale(k: nat, q: nat, r: nat)
    ensures 250 * (k * q + r) == 250 * k * q + 250 * r
  {
  }

  lemma {:induction false} DueEveryKth(j: nat, k: nat)
    requires k > 0 && 250 * j < TWO_32
    ensures Due(j, 250 * k) <==> j % k == 0
  {
    var q, r := j / k, j % k;
    Scale(k, q, r);
    CounterBeforeWrap(j);
    DivUnique(250 * j, 250 * k, q, 250 * r);
  }

  /** Until the counter wraps, a handler whose interval is k quarter seconds has run exactly
      floor(n/k) times after n calls. */
  lemma {:induction false} HandlerRuns(n: nat, k: nat)
    requires k > 0 && 250 * n < TWO_32
    ensures Runs(n, 250 * k) == n / k
  {
    forall j: nat | j <= n ensures Due(j, 250 * k) <==> j % k == 0 {
      DueEveryKth(j, k);
    }
    PeriodicRuns(n, 250 * k, k);
  }

  /** The two 100 ms handlers run only at every other call, every half second. */
  lemma {:induction false} HundredRuns(n: nat)
    requires 250 * n < TWO_32
    ensures Runs(n, 100) == n / 2
  {
    forall j: nat | j <= n ensures Due(j, 100) <==> j % 2 == 0 {
      var q := j / 2;
      DivUnique(250 * j, 100, if j % 2 == 0 then 5 * q else 5 * q + 2, if j % 2 == 0 then 0 else 50);
    }
    PeriodicRuns(n, 100, 2);
  }

  lemma FirstLap(n: nat)
    requires 250 * n < TWO_32
    ensures Expected(n) == Tally(n, n / 20, n / 4, n / 2, n / 2, n / 2, n / 240, n / 4)
  {
    HandlerRuns(n, 1);
    HandlerRuns(n, 2);
    HandlerRuns(n, 4);
    HandlerRuns(n, 20);
    HandlerRuns(n, 240);
    HundredRuns(n);
  }

  /** Which lap of the 32-bit counter the n-th call falls in. */
  function Lap(n: nat): nat { 250 * n / TWO_32 }

  /** After the counter wraps it is a multiple of 250 only in every 125th lap, since 2^32 leaves
      46 over: in all the laps between, no handler whose interval is a multiple of 250 runs. */
  lemma MultipleOf250Iff(n: nat)
    ensures Counter(n) % 250 == 0 <==> Lap(n) % 125 == 0
  {
    var l: int, t: int := Lap(n), Counter(n);
    assert 250 * n == TWO_32 * l + t;
    var m := n - 17179869 * l;
    assert 46 * l + t == 250 * m;
    if t % 250 == 0 {
      var u := t / 250;
      assert 23 * l == 125 * (m - u);
      assert l == 125 * (87 * (m - u) - 16 * l);
    }
    if l % 125 == 0 {
      var p := l / 125;
      assert t == 250 * (m - 23 * p);
    }
  }

  lemma {:induction false} DeadLaps(n: nat, k: nat)
    requires k > 0 && Lap(n) % 125 != 0
    ensures !Due(n, 250 * k)
  {
    MultipleOf250Iff(n);
    Factor(Counter(n), k);
  }

  lemma {:induction false} Factor(x: nat, k: nat)
    requires k > 0
    ensures x % (250 * k) == 0 ==> x % 250 == 0
  {
    var q := x / (250 * k);
    if x % (250 * k) == 0 {
      assert x == 250 * k * q;
      assert 250 * k * q == 250 * (k * q);
    }
  }

  /** In particular nothing of that kind runs in the 124 laps after the first wrap. */
  lemma {:induction false} NoRunsAfterTheWrap(n: nat, m: nat, k: nat)
    requires k > 0 && n <= m && (forall j: nat :: n < j <= m ==> 1 <= Lap(j) <= 124)
    ensures Runs(m, 250 * k) == Runs(n, 250 * k)
    decreases m
  {
    if n < m {
      NoRunsAfterTheWrap(n, m - 1, k);
      DeadLaps(m, k);
    }
  }
}
