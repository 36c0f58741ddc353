/** The LED tasks themselves, on the kernel objects they share: the message queue, the event
    flags, the semaphore and the PIO register. Each method is one statement of a task, proved
    against the transitions of Led, whose theorems speak of every interleaving. */
module LedTasks {
  import opened Common
  import opened Led

  class Board {
    var queue: seq<char>             // SSSLEDCommandQ
    var flags: bv16                  // SSSLEDEventFlag
    var pio: Option<bv16>            // what LED_PIO_BASE was last written with
    var sem: int                     // SSSLEDLightshowSem
    var active: bool                 // SSSLEDLightshowActive
    var updates: nat                 // writes to the seven-segment display
    var m: Manager
    var w: Show
    ghost var accepted: seq<char>
    ghost var processed: seq<char>

    ghost function Abs(): State
      reads this
    {
      State(queue, m, w, flags, pio, sem, active, updates, accepted, processed)
    }

    /** SSSCreateOSDataStructs and the two task entries. */
    constructor ()
      ensures Abs() == START
    {
      queue, flags, pio, sem, active, updates := [], 0, None, 1, true, 0;
      m, w := Pend, Delay;
      accepted, processed := [], [];
    }

    /** OSQPost: it fails when the queue is full. */
    method QPost(cmd: char) returns (ok: bool)
      modifies this`queue, this`accepted
      ensures Abs() == Step(old(Abs()), Post(cmd))
      ensures ok <==> |old(queue)| < QUEUE_SIZE
      ensures ok <==> accepted == old(accepted) + [cmd]
    {
      ok := |queue| < QUEUE_SIZE;
      if ok {
        queue := queue + [cmd];
        accepted := accepted + [cmd];
      }
    }

    /** OSFlagPost with OS_FLAG_SET or OS_FLAG_CLR; it returns the flags after the change. */
    method FlagPost(bit: bv16, set_: bool) returns (now: bv16)
      modifies this`flags
      ensures now == flags == if set_ then old(flags) | bit else old(flags) & !bit
    {
      if set_ {
        flags := flags | bit;
      } else {
        flags := flags & !bit;
      }
      now := flags;
    }

    /** The rest of led_bit_toggle once OSFlagQuery has returned `seen`. */
    method PostAndShow(bit: bv16, seen: bv16)
      modifies this`flags, this`pio
      ensures flags == ToggledBy(old(flags), seen, bit)
      ensures pio == Some(flags)
    {
      var led8Val;
      if bit & seen != 0 {
        led8Val := FlagPost(bit, false);
      } else {
        led8Val := FlagPost(bit, true);
      }
      pio := Some(led8Val);
    }

    /** led_bit_toggle run without interruption: it flips one LED, leaves the others and writes
        the result to the PIO. */
    method LedBitToggle(i: nat)
      requires i < 8
      modifies this`flags, this`pio
      ensures forall j: nat :: j < 8 ==> (Lit(flags, j) <==> (Lit(old(flags), j) != (i == j)))
      ensures pio == Some(flags)
    {
      ghost var before := flags;
      PostAndShow(Mask(i), flags);
      FlipsOne(before, i);
    }

    /** The next statement of LEDManagementTask. */
    method ManagementTask()
      modifies this
      ensures Abs() == Step(old(Abs()), ManagerStep)
    {
      match m {
        case Pend =>
          if queue != [] {
            m := Switch(queue[0]);
            queue := queue[1..];
          }
        case Switch(cmd) =>
          if IsDigit(cmd) {
            m := Manager.FlagPost((cmd - '0') as nat, flags);
          } else if cmd == LIGHTSHOW {
            m := if active then SemPend else SemPost;
          } else {
            processed := processed + [cmd];
            m := Pend;
          }
        case FlagPost(i, seen) =>
          if i < 8 {
            PostAndShow(Mask(i), seen);
            processed := processed + [Digit(i)];
            m := Pend;
          }
        case SemPost =>
          sem := sem + 1;
          m := SetActive(true);
        case SemPend =>
          if sem > 0 {
            sem := sem - 1;
            m := SetActive(false);
          }
        case SetActive(on) =>
          active := on;
          processed := processed + [LIGHTSHOW];
          m := Pend;
      }
    }

    /** The next statement of LED7SegLightshowTask. */
    method LightshowTask()
      modifies this`sem, this`updates, this`w
      ensures Abs() == Step(old(Abs()), ShowStep)
    {
      match w {
        case Delay => w := ShowPend;
        case ShowPend =>
          if sem > 0 {
            sem := sem - 1;
            w := Update;
          }
        case Update =>
          updates := updates + 1;
          w := ShowPost;
        case ShowPost =>
          sem := sem + 1;
          w := Delay;
      }
    }
  }

  lemma FlipsOne(flags: bv16, i: nat)
    requires i < 8
    ensures forall j: nat :: j < 8 ==> (Lit(Toggled(flags, flags, i), j) <==> (Lit(flags, j) != (i == j)))
  {
    forall j: nat | j < 8
      ensures Lit(Toggled(flags, flags, i), j) <==> (Lit(flags, j) != (i == j))
    {
      ToggleFlipsOne(flags, i, j);
    }
  }

  /** Any run of the two tasks and the posting server, from start-up. */
  method Run(evs: seq<Event>) returns (b: Board)
    ensures fresh(b) && b.Abs() == Exec(START, evs)
    ensures LitIsOdd(b.flags, b.processed) && b.processed <= b.accepted
    ensures b.pio.Some? ==> b.pio.value == b.flags
  {
    b := new Board();
    for i := 0 to |evs|
      invariant b.Abs() == Exec(START, evs[..i])
    {
      assert evs[..i + 1][..i] == evs[..i];
      match evs[i] {
        case Post(cmd) => var _ := b.QPost(cmd);
        case ManagerStep => b.ManagementTask();
        case ShowStep => b.LightshowTask();
      }
    }
    assert evs[..|evs|] == evs;
    EveryRunShowsTheLeds(evs);
  }
}
