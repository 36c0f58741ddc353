/** The two ends of the command pipeline put together: the bytes a client sends decide which
    LEDs are lit. */
module CommandPipeline {
  import opened Common
  import Led
  import opened SocketServer

  /** The commands posted during a run of the LED tasks, accepted by the queue or not. */
  function Posts(evs: seq<Led.Event>): seq<char>
    decreases |evs|
  {
    if evs == [] then [] else
      Posts(evs[..|evs| - 1]) +
      match evs[|evs| - 1] case Post(c) => [c] case ManagerStep => [] case ShowStep => []
  }

  /** Some post of the run finds thirty commands queued. */
  ghost predicate SomeRefused(evs: seq<Led.Event>)
    decreases |evs|
  {
    evs != [] &&
    (SomeRefused(evs[..|evs| - 1]) || Led.Refuses(Led.Exec(Led.START, evs[..|evs| - 1]), evs[|evs| - 1]))
  }

  lemma OneMore(s: Led.State, e: Led.Event)
    ensures Led.Step(s, e).accepted ==
              s.accepted + match e
                           case Post(c) => (if Led.Refuses(s, e) then [] else [c])
                           case ManagerStep => []
                           case ShowStep => []
  {
  }

  /** On every run the commands accepted are all those posted, in order, exactly when each post
      finds fewer than thirty queued. */
  lemma {:induction false} AllAcceptedIff(evs: seq<Led.Event>)
    ensures var s := Led.Exec(Led.START, evs);
            |s.accepted| <= |Posts(evs)| && (s.accepted == Posts(evs) <==> !SomeRefused(evs))
    decreases |evs|
  {
    if evs == [] {
    } else {
      var front, e := evs[..|evs| - 1], evs[|evs| - 1];
      AllAcceptedIff(front);
      OneMore(Led.Exec(Led.START, front), e);
      Shorter(front);
    }
  }

  /** A queue that has refused something has accepted fewer than were posted. */
  lemma {:induction false} Shorter(evs: seq<Led.Event>)
    ensures |Led.Exec(Led.START, evs).accepted| <= |Posts(evs)|
    ensures SomeRefused(evs) ==> |Led.Exec(Led.START, evs).accepted| < |Posts(evs)|
    decreases |evs|
  {
    if evs == [] {
    } else {
      Shorter(evs[..|evs| - 1]);
      OneMore(Led.Exec(Led.START, evs[..|evs| - 1]), evs[|evs| - 1]);
    }
  }

  /** Up to thirty posts are accepted whatever the LED tasks do. */
  lemma {:induction false} ThirtyAlwaysFit(evs: seq<Led.Event>)
    requires |Posts(evs)| <= 30
    ensures !SomeRefused(evs)
    decreases |evs|
  {
    if evs == [] {
    } else {
      var front := evs[..|evs| - 1];
      ThirtyAlwaysFit(front);
      Shorter(front);
      Led.EveryRunKeeps(front);
    }
  }

  /** Under the priorities nothing is refused before the client's first show command. */
  lemma {:induction false} NoShowNoRefusal(evs: seq<Led.Event>)
    requires Led.Scheduled(evs) && Led.LIGHTSHOW !in Posts(evs)
    ensures !SomeRefused(evs) && Led.Exec(Led.START, evs).accepted == Posts(evs)
    decreases |evs|
  {
    if evs == [] {
    } else {
      var front, e := evs[..|evs| - 1], evs[|evs| - 1];
      NoShowNoRefusal(front);
      Led.EveryRunKeeps(front);
      Led.WaitsForShowOnly(Led.Exec(Led.START, front));
      if Led.Refuses(Led.Exec(Led.START, front), e) {
        Led.RefusedOnlyBehindTheShow(front, e);
      }
      OneMore(Led.Exec(Led.START, front), e);
    }
  }

  /** What the client has sent decides how often each command has been carried out. */
  lemma {:induction false} AllCarriedOut(sent: seq<Octet>, evs: seq<Led.Event>)
    requires Posts(evs) == Commands(sent) && !SomeRefused(evs)
    requires var s := Led.Exec(Led.START, evs); s.m.Pend? && s.queue == []
    ensures Led.Exec(Led.START, evs).processed == Commands(sent)
  {
    AllAcceptedIff(evs);
    Led.EveryRunKeeps(evs);
    var s := Led.Exec(Led.START, evs);
    assert s.processed + [] + [] == s.processed;
  }

  lemma DigitsCount(sent: seq<Octet>, i: nat)
    requires i < 8
    ensures multiset(Commands(sent))[Led.Digit(i)] == multiset(sent)['0' + i as char]
  {
    CommandsCount(sent, '0' + i as char);
  }

  lemma LightshowCount(sent: seq<Octet>)
    ensures multiset(Commands(sent))[Led.LIGHTSHOW] == multiset(sent)['s'] + multiset(sent)['S']
  {
    CommandsCount(sent, 'S');
    assert 'S' + ' ' == 's';
  }

  /** When no post found thirty queued and everything has been carried out, LED i is lit exactly
      when the client has sent digit i an odd number of times, and the light show is on exactly
      when it has sent 's' and 'S' together an even number of times. */
  lemma {:induction false} AcceptedBytesDecide(sent: seq<Octet>, evs: seq<Led.Event>, i: nat)
    requires Posts(evs) == Commands(sent) && i < 8 && !SomeRefused(evs)
    requires var s := Led.Exec(Led.START, evs); s.m.Pend? && s.queue == []
    ensures var s := Led.Exec(Led.START, evs);
            && (Led.Lit(s.flags, i) <==> multiset(sent)['0' + i as char] % 2 == 1)
            && (s.active <==> (multiset(sent)['s'] + multiset(sent)['S']) % 2 == 0)
  {
    AllCarriedOut(sent, evs);
    Led.EveryRunKeeps(evs);
    DigitsCount(sent, i);
    LightshowCount(sent);
  }

  /** Without a show command the management task stops only when everything is carried out. */
  lemma NothingLeft(evs: seq<Led.Event>)
    requires Led.Scheduled(evs) && Led.LIGHTSHOW !in Posts(evs) && !Led.ManagerReady(Led.Exec(Led.START, evs))
    ensures var s := Led.Exec(Led.START, evs); s.m.Pend? && s.queue == [] && !SomeRefused(evs)
  {
    NoShowNoRefusal(evs);
    Led.EveryRunKeeps(evs);
    Led.WaitsForShowOnly(Led.Exec(Led.START, evs));
  }

  lemma NoShowSent(sent: seq<Octet>)
    requires 's' !in sent && 'S' !in sent
    ensures Led.LIGHTSHOW !in Commands(sent) && (multiset(sent)['s'] + multiset(sent)['S']) % 2 == 0
  {
    LightshowCount(sent);
    assert Led.LIGHTSHOW !in multiset(Commands(sent));
  }

  /** Under the priorities a client that never sends 's' or 'S' decides the LEDs with every byte:
      whenever the management task has nothing left to do, LED i is lit exactly when digit i has
      been sent an odd number of times, and the show is on. */
  lemma {:induction false} BytesDecideTheLeds(sent: seq<Octet>, evs: seq<Led.Event>, i: nat)
    requires Led.Scheduled(evs) && Posts(evs) == Commands(sent) && i < 8 && 's' !in sent && 'S' !in sent
    requires !Led.ManagerReady(Led.Exec(Led.START, evs))
    ensures var s := Led.Exec(Led.START, evs);
            (Led.Lit(s.flags, i) <==> multiset(sent)['0' + i as char] % 2 == 1) && s.active
  {
    NoShowSent(sent);
    assert Led.LIGHTSHOW !in Posts(evs);
    NothingLeft(evs);
    AcceptedBytesDecide(sent, evs, i);
  }

  lemma {:induction false} StepsPostNothing(evs: seq<Led.Event>, n: nat)
    requires Led.Scheduled(evs)
    ensures Led.Scheduled(evs + Led.ManagerSteps(n)) && Posts(evs + Led.ManagerSteps(n)) == Posts(evs)
    decreases n
  {
    if n == 0 {
      assert evs + Led.ManagerSteps(0) == evs;
    } else {
      var front, all := evs + Led.ManagerSteps(n - 1), evs + Led.ManagerSteps(n);
      StepsPostNothing(evs, n - 1);
      assert all == front + [Led.ManagerStep] && all[..|all| - 1] == front;
    }
  }

  /** And that moment comes: after any such run, 123 statements of the management task in a row, four
      for each command the queue can hold and three for the one in hand, bring it about. */
  lemma {:induction false} TheLedsFollow(sent: seq<Octet>, evs: seq<Led.Event>, n: nat, i: nat)
    requires Led.Scheduled(evs) && Posts(evs) == Commands(sent) && i < 8 && 's' !in sent && 'S' !in sent
    requires n >= 123
    ensures var s := Led.Exec(Led.START, evs + Led.ManagerSteps(n));
            (Led.Lit(s.flags, i) <==> multiset(sent)['0' + i as char] % 2 == 1) && s.active
  {
    Led.EveryRunKeeps(evs);
    assert Led.Rank(Led.Exec(Led.START, evs)) <= 123;
    Led.ManagerFinishes(evs, n);
    StepsPostNothing(evs, n);
    BytesDecideTheLeds(sent, evs + Led.ManagerSteps(n), i);
  }

  // ----- a refusal under the priorities ----------------------------------------------------

  /** The show has just taken its semaphore when a client's line begins with 'S': the management
      task, with that command in hand, waits for the show, which cannot run while the server posts
      the rest of the line. */
  const BLOCKED: seq<Led.Event> :=
    [Led.ShowStep, Led.ShowStep, Led.Post('S'), Led.ManagerStep, Led.ManagerStep]

  lemma Snoc(evs: seq<Led.Event>, e: Led.Event)
    requires Led.Scheduled(evs) && Led.MayHappen(Led.Exec(Led.START, evs), e)
    ensures Led.Scheduled(evs + [e])
    ensures Led.Exec(Led.START, evs + [e]) == Led.Step(Led.Exec(Led.START, evs), e)
  {
    assert (evs + [e])[..|evs|] == evs;
  }

  ghost predicate Stuck(evs: seq<Led.Event>, n: nat) {
    var s := Led.Exec(Led.START, evs);
    Led.Scheduled(evs) && s.m.SemPend? && s.sem == 0 && |s.queue| == n && !SomeRefused(evs)
  }

  lemma BlockedIsStuck()
    ensures Stuck(BLOCKED, 0)
  {
    var a: seq<Led.Event> := [];
    var s0 := Led.START;
    var s1 := s0.(w := Led.ShowPend);
    Snoc(a, Led.ShowStep);
    var b := a + [Led.ShowStep];
    Snoc(b, Led.ShowStep);
    var c := b + [Led.ShowStep];
    assert Led.Exec(Led.START, c) == s1.(w := Led.Update, sem := 0);
    Snoc(c, Led.Post('S'));
    var d := c + [Led.Post('S')];
    Snoc(d, Led.ManagerStep);
    var e := d + [Led.ManagerStep];
    assert Led.Exec(Led.START, e).m == Led.Switch('S');
    Snoc(e, Led.ManagerStep);
    assert BLOCKED == e + [Led.ManagerStep];
    PostsAreEvents(BLOCKED);
    ThirtyAlwaysFit(BLOCKED);
  }

  lemma {:induction false} PostsAreEvents(evs: seq<Led.Event>)
    ensures |Posts(evs)| <= |evs|
    decreases |evs|
  {
    if evs == [] {
    } else {
      PostsAreEvents(evs[..|evs| - 1]);
    }
  }

  /** n more commands are posted while the management task waits. */
  lemma {:induction false} Flood(c: char, n: nat) returns (evs: seq<Led.Event>)
    requires n <= Led.QUEUE_SIZE
    ensures Stuck(evs, n) && evs == BLOCKED + seq(n, _ => Led.Post(c))
  {
    if n == 0 {
      BlockedIsStuck();
      evs := BLOCKED;
      assert evs == BLOCKED + seq(0, _ => Led.Post(c));
    } else {
      var front := Flood(c, n - 1);
      Snoc(front, Led.Post(c));
      evs := front + [Led.Post(c)];
      assert evs[..|evs| - 1] == front;
      assert seq(n, _ => Led.Post(c)) == seq(n - 1, _ => Led.Post(c)) + [Led.Post(c)];
    }
  }

  /** So a refusal does happen under the priorities: behind an 'S' that finds the show at work, the
      thirty-first further command of the line is lost. */
  lemma LineIsCutShort(c: char) returns (evs: seq<Led.Event>)
    ensures evs == BLOCKED + seq(31, _ => Led.Post(c))
    ensures Led.Scheduled(evs) && SomeRefused(evs)
    ensures |Led.Exec(Led.START, evs).accepted| < |Posts(evs)|
  {
    var n := Led.QUEUE_SIZE;
    var front := Flood(c, n);
    Snoc(front, Led.Post(c));
    evs := front + [Led.Post(c)];
    assert evs[..|evs| - 1] == front;
    assert seq(n + 1, _ => Led.Post(c)) == seq(n, _ => Led.Post(c)) + [Led.Post(c)];
    Shorter(evs);
  }
}
