/** The Ethernet receive ring as an interleaving of three agents: the DMA engine,
    the receive interrupt (tse_mac_rcv) and the polling consumer (low_level_input and
    ethernetif_input). One transition is one event of the hardware, one run of the
    interrupt routine, or one statement of the consumer, so an event sequence is an
    interleaving, and a property of every event sequence holds of every interleaving. */
module RxRing {
  import opened Common

  type Frame = seq<bv8>
  /** A pbuf pointer: an index into the memory the pbufs live in. */
  type PbufId = nat

  /** What the driver uses of a pbuf. `len` is written by the interrupt, `payload` by the DMA. */
  datatype Pbuf = Pbuf(len: nat, payload: Frame)

  /** The frame a reader of the pbuf sees. */
  function Content(b: Pbuf): Frame {
    if b.len <= |b.payload| then b.payload[..b.len] else b.payload
  }

  /** The DMA writes a frame over the start of a buffer; the old tail stays. */
  function Overwrite(old_: Frame, f: Frame): (r: Frame)
    ensures f <= r && |r| >= |old_| && forall i :: |f| <= i < |old_| ==> r[i] == old_[i]
  {
    f + if |f| <= |old_| then old_[|f|..] else []
  }

  /** `slots` is LWIP_RX_ETH_BUFFER; the interrupt keeps a frame while the count is below `limit`.
      The driver's own guard `lwipRxCount > LWIP_RX_ETH_BUFFER` is limit == slots + 1. */
  datatype Config = Config(slots: nat, limit: nat) {
    ghost predicate Valid() { slots >= 2 }
  }

  const DRIVER := Config(12, 13)

  /** Where the consumer is; the parameters are its locals nextPkt and p. */
  datatype Pc =
    | Idle                                // before the test of lwipRxCount
    | Allocate                            // before pbuf_alloc
    | Decrement(next: PbufId)             // before the protected --lwipRxCount
    | Load(next: PbufId)                  // before p = lwipRxPbuf[lwipRxIndex]
    | Store(next: PbufId, p: PbufId)      // before lwipRxPbuf[lwipRxIndex] = nextPkt
    | Advance(p: PbufId)                  // before ++lwipRxIndex and its wrap
    | Inspect(p: PbufId)                  // before the test of p->len
    | Dispatch(p: PbufId)                 // back in ethernetif_input with a packet
  {
    /** The count has been lowered but the index has not yet moved. */
    predicate InWindow() { Load? || Store? || Advance? }

    /** The consumer holds a frame already removed from its slot. */
    predicate HoldsFrame() { Advance? || Inspect? || Dispatch? }

    /** The pbuf is owned by the consumer and is in no slot. */
    predicate Holds(x: PbufId) {
      match this
      case Idle => false
      case Allocate => false
      case Decrement(q) => x == q
      case Load(q) => x == q
      case Store(q, _) => x == q
      case Advance(p) => x == p
      case Inspect(p) => x == p
      case Dispatch(p) => x == p
    }
  }

  datatype State = State(
    mem: seq<Pbuf>,
    ring: seq<PbufId>, isr: nat, idx: nat, count: int,
    armed: PbufId, pending: Option<Frame>,
    pc: Pc,
    pool: set<PbufId>, stack: set<PbufId>, lost: set<PbufId>,
    bytesRecv: nat,
    accepted: seq<Frame>,  // history: frames the interrupt kept, in order
    taken: seq<Frame>)     // history: frames the consumer disposed of, in order

  datatype Event =
    | Dma(frame: Frame)                                  // a frame has been written to the armed pbuf
    | Isr(ok: bool)                                      // the interrupt, with the descriptor's error verdict
    | Cpu(alloc: Option<PbufId>, known: bool, ok: bool)  // the consumer's next statement
    | StackFree(p: PbufId)                               // the stack gives a packet back

  function Next(c: Config, i: nat): nat {
    if i + 1 >= c.slots then 0 else i + 1
  }

  predicate WellFormed(c: Config, s: State) {
    && |s.ring| == c.slots
    && s.isr < c.slots && s.idx < c.slots
    && (forall k :: 0 <= k < |s.ring| ==> s.ring[k] < |s.mem|)
    && s.armed < |s.mem|
    && (forall p :: p in s.pool ==> p < |s.mem|)
    && (forall p :: p in s.stack ==> p < |s.mem|)
    && (match s.pc
        case Decrement(q) => q < |s.mem|
        case Load(q) => q < |s.mem|
        case Store(q, p) => q < |s.mem| && p < |s.mem|
        case Advance(p) => p < |s.mem|
        case Inspect(p) => p < |s.mem|
        case Dispatch(p) => p < |s.mem|
        case _ => true)
  }

  /** tse_mac_rcv: label the packet, keep or drop it, arm the DMA again. */
  function IsrStep(c: Config, s: State, ok: bool): (t: State)
    requires c.Valid() && WellFormed(c, s) && s.pending.Some?
  {
    var f := s.pending.value;
    var p := s.ring[s.isr];
    var mem := s.mem[p := s.mem[p].(len := |f|)];
    if ok && s.count < c.limit then
      var isr := Next(c, s.isr);
      s.(mem := mem, count := s.count + 1, isr := isr, bytesRecv := (s.bytesRecv + |f|) % TWO_32,
         accepted := s.accepted + [f], armed := s.ring[isr], pending := None)
    else
      s.(mem := mem, armed := s.ring[s.isr], pending := None)
  }

  /** One statement of low_level_input or ethernetif_input. */
  function CpuStep(c: Config, s: State, alloc: Option<PbufId>, known: bool, ok: bool): (t: State)
    requires c.Valid() && WellFormed(c, s)
  {
    match s.pc
    case Idle => if s.count == 0 then s else s.(pc := Allocate)
    case Allocate =>
      if alloc.Some? && alloc.value in s.pool
      then s.(pc := Decrement(alloc.value), pool := s.pool - {alloc.value})
      else s.(pc := Idle)
    case Decrement(q) => s.(count := s.count - 1, pc := Load(q))
    case Load(q) => s.(pc := Store(q, s.ring[s.idx]))
    case Store(q, p) => s.(ring := s.ring[s.idx := q], pc := Advance(p))
    case Advance(p) => s.(idx := Next(c, s.idx), pc := Inspect(p))
    case Inspect(p) =>
      if s.mem[p].len == 0
      then s.(pc := Idle, lost := s.lost + {p}, taken := s.taken + [Content(s.mem[p])])
      else s.(pc := Dispatch(p))
    case Dispatch(p) =>
      var t := s.(pc := Idle, taken := s.taken + [Content(s.mem[p])]);
      if known && ok then t.(stack := t.stack + {p}) else t.(pool := t.pool + {p})
  }

  lemma CpuKeepsWellFormed(c: Config, s: State, a: Option<PbufId>, known: bool, ok: bool)
    requires c.Valid() && WellFormed(c, s)
    ensures WellFormed(c, CpuStep(c, s, a, known, ok))
  {
  }

  /** An event that cannot happen in a state leaves it alone. */
  function Step(c: Config, s: State, e: Event): State
    requires c.Valid()
  {
    if !WellFormed(c, s) then s else
    match e
    case Dma(f) =>
      if s.pending.None?
      then s.(mem := s.mem[s.armed := s.mem[s.armed].(payload := Overwrite(s.mem[s.armed].payload, f))],
              pending := Some(f))
      else s
    case Isr(ok) => if s.pending.Some? then IsrStep(c, s, ok) else s
    case Cpu(a, known, ok) => CpuStep(c, s, a, known, ok)
    case StackFree(p) => if p in s.stack then s.(stack := s.stack - {p}, pool := s.pool + {p}) else s
  }

  function Exec(c: Config, s: State, evs: seq<Event>): State
    requires c.Valid()
    decreases |evs|
  {
    if evs == [] then s else Step(c, Exec(c, s, evs[..|evs| - 1]), evs[|evs| - 1])
  }

  lemma {:induction false} ExecAppend(c: Config, s: State, a: seq<Event>, b: seq<Event>)
    requires c.Valid()
    ensures Exec(c, s, a + b) == Exec(c, Exec(c, s, a), b)
    decreases |b|
  {
    if b == [] {
      assert a + b == a;
    } else {
      ExecAppend(c, s, a, b[..|b| - 1]);
      assert (a + b)[..|a + b| - 1] == a + b[..|b| - 1];
    }
  }

  // ----- ownership -------------------------------------------------------------------------

  /** In how many places a pbuf is: pool, stack, lost, the consumer's hand, ring slots. */
  ghost function Count(s: State, p: PbufId): nat {
    (if p in s.pool then 1 else 0) + (if p in s.stack then 1 else 0) + (if p in s.lost then 1 else 0)
    + (if s.pc.Holds(p) then 1 else 0) + multiset(s.ring)[p]
  }

  /** Every pbuf has exactly one owner, and nothing else is owned. */
  ghost predicate Conserved(s: State) {
    forall p: PbufId :: Count(s, p) == if p < |s.mem| then 1 else 0
  }

  /** Single ownership without counting: distinct slots, and no pbuf in two places. */
  ghost predicate Separate(s: State) {
    && (forall i, j :: 0 <= i < j < |s.ring| ==> s.ring[i] != s.ring[j])
    && (forall i :: 0 <= i < |s.ring| ==>
          s.ring[i] !in s.pool && s.ring[i] !in s.stack && s.ring[i] !in s.lost && !s.pc.Holds(s.ring[i]))
    && (forall p: PbufId :: s.pc.Holds(p) ==> p < |s.mem| && p !in s.pool && p !in s.stack && p !in s.lost)
    && (forall p :: p in s.pool ==> p < |s.mem| && p !in s.stack && p !in s.lost)
    && (forall p :: p in s.stack ==> p < |s.mem| && p !in s.lost)
  }

  lemma DistinctFromMultiset(r: seq<PbufId>, i: nat, j: nat)
    requires i < j < |r| && multiset(r)[r[i]] <= 1
    ensures r[i] != r[j]
  {
    assert r == r[..j] + [r[j]] + r[j + 1..];
    assert r[i] in r[..j];
  }

  lemma OneOwner(s: State)
    requires Conserved(s)
    ensures Separate(s)
  {
    forall p: PbufId | s.pc.Holds(p) ensures p < |s.mem| && p !in s.pool && p !in s.stack && p !in s.lost {
      assert Count(s, p) <= 1;
    }
    forall p | p in s.pool ensures p < |s.mem| && p !in s.stack && p !in s.lost {
      assert Count(s, p) <= 1;
    }
    forall p | p in s.stack ensures p < |s.mem| && p !in s.lost {
      assert Count(s, p) <= 1;
    }
    forall i | 0 <= i < |s.ring|
      ensures s.ring[i] !in s.pool && s.ring[i] !in s.stack && s.ring[i] !in s.lost && !s.pc.Holds(s.ring[i])
    {
      assert s.ring[i] in multiset(s.ring);
      assert Count(s, s.ring[i]) <= 1;
    }
    forall i, j | 0 <= i < j < |s.ring| ensures s.ring[i] != s.ring[j] {
      assert Count(s, s.ring[i]) <= 1;
      DistinctFromMultiset(s.ring, i, j);
    }
  }

  // ----- the invariant that holds whatever the limit ---------------------------------------

  function Window(s: State): nat { if s.pc.InWindow() then 1 else 0 }

  /** The interrupt's index is the consumer's plus the count, plus one inside the window. */
  ghost predicate Congruent(c: Config, s: State) {
    c.slots > 0 && s.count >= 0 && (s.idx + s.count + Window(s)) % c.slots == s.isr
  }

  ghost predicate Shape(c: Config, s: State) {
    && WellFormed(c, s)
    && 0 <= s.count <= c.limit
    && (s.pc.Allocate? || s.pc.Decrement? ==> s.count >= 1)
    && (s.pc.Store? ==> s.pc.p == s.ring[s.idx])
  }

  ghost predicate Inv(c: Config, s: State) {
    Shape(c, s) && Conserved(s) && Congruent(c, s)
  }

  lemma {:induction false} NextIsModular(c: Config, a: nat)
    requires c.Valid()
    ensures (a + 1) % c.slots == Next(c, a % c.slots)
  {
    var n := c.slots;
    var q, r := a / n, a % n;
    assert a == n * q + r;
    if r + 1 < n {
      assert a + 1 == n * q + (r + 1);
      ModOf(a + 1, n, q, r + 1);
    } else {
      assert a + 1 == n * (q + 1) + 0;
      ModOf(a + 1, n, q + 1, 0);
    }
  }

  lemma {:induction false} ModOf(a: nat, n: nat, q: nat, r: nat)
    requires r < n && a == n * q + r
    ensures a % n == r
  {
    var q', r' := a / n, a % n;
    assert n * q + r == n * q' + r';
    if q < q' {
      MulGap(n, q, q');
    } else if q' < q {
      MulGap(n, q', q);
    }
  }

  lemma {:induction false} MulGap(n: nat, a: nat, b: nat)
    requires a < b
    ensures n * b - n * a >= n
  {
    var d := b - a;
    assert n * b == n * a + n * d;
    assert n * d == n + n * (d - 1);
  }

  /** Two indices that stay congruent: moving both by one keeps them so. */
  lemma {:induction false} NextCongruent(c: Config, i: nat, d: nat)
    requires c.Valid() && i < c.slots
    ensures (Next(c, i) + d) % c.slots == (i + 1 + d) % c.slots
  {
    if i + 1 >= c.slots {
      var n := c.slots;
      var q, r := d / n, d % n;
      assert d == n * q + r;
      assert i + 1 + d == n * (q + 1) + r;
      ModOf(i + 1 + d, n, q + 1, r);
    }
  }

  lemma Swap(r: seq<PbufId>, i: nat, q: PbufId, x: PbufId)
    requires i < |r|
    ensures multiset(r[i := q])[x] + (if x == r[i] then 1 else 0) == multiset(r)[x] + (if x == q then 1 else 0)
  {
    assert r[i] in multiset(r);
    assert multiset(r[i := q]) == multiset(r) - multiset{r[i]} + multiset{q};
  }

  lemma CpuConserves(c: Config, s: State, a: Option<PbufId>, known: bool, ok: bool)
    requires c.Valid() && WellFormed(c, s) && Conserved(s) && (s.pc.Store? ==> s.pc.p == s.ring[s.idx])
    ensures Conserved(CpuStep(c, s, a, known, ok))
  {
    var t := CpuStep(c, s, a, known, ok);
    forall p: PbufId ensures Count(t, p) == if p < |t.mem| then 1 else 0 {
      assert Count(s, p) == if p < |s.mem| then 1 else 0;
      if s.pc.Store? { Swap(s.ring, s.idx, s.pc.next, p); }
    }
  }

  lemma StepConserves(c: Config, s: State, e: Event)
    requires c.Valid() && WellFormed(c, s) && Conserved(s) && (s.pc.Store? ==> s.pc.p == s.ring[s.idx])
    ensures Conserved(Step(c, s, e))
  {
    if e.Cpu? {
      CpuConserves(c, s, e.alloc, e.known, e.ok);
    } else {
      var t := Step(c, s, e);
      forall p: PbufId ensures Count(t, p) == if p < |t.mem| then 1 else 0 {
        assert Count(s, p) == if p < |s.mem| then 1 else 0;
      }
    }
  }

  lemma CpuKeepsShape(c: Config, s: State, a: Option<PbufId>, known: bool, ok: bool)
    requires c.Valid() && Shape(c, s)
    ensures Shape(c, CpuStep(c, s, a, known, ok))
  {
    CpuKeepsWellFormed(c, s, a, known, ok);
  }

  lemma StepKeepsShape(c: Config, s: State, e: Event)
    requires c.Valid() && Shape(c, s) && Separate(s)
    ensures Shape(c, Step(c, s, e))
  {
    match e {
      case Cpu(a, known, ok) => CpuKeepsShape(c, s, a, known, ok);
      case _ =>
    }
  }

  lemma {:induction false} StepKeepsCongruence(c: Config, s: State, e: Event)
    requires c.Valid() && Shape(c, s) && Congruent(c, s)
    ensures Congruent(c, Step(c, s, e))
  {
    if e.Isr? {
      NextIsModular(c, s.idx + s.count + Window(s));
    } else if e.Cpu? && s.pc.Advance? {
      NextCongruent(c, s.idx, s.count);
    }
  }

  lemma StepKeepsInv(c: Config, s: State, e: Event)
    requires c.Valid() && Inv(c, s)
    ensures Inv(c, Step(c, s, e))
  {
    OneOwner(s);
    StepConserves(c, s, e);
    StepKeepsShape(c, s, e);
    StepKeepsCongruence(c, s, e);
  }

  // ----- initial states and runs -----------------------------------------------------------

  /** The state ethernetif_init and tse_sgdma_read_init leave behind. */
  ghost predicate Init(c: Config, s: State) {
    && WellFormed(c, s)
    && Conserved(s)
    && s.isr == 0 && s.idx == 0 && s.count == 0
    && s.armed == s.ring[0] && s.pending.None? && s.pc.Idle?
    && s.bytesRecv == 0 && s.accepted == [] && s.taken == []
  }

  /** With any limit, the driver's own included, every reachable state keeps the index
      congruence, the count bound, the index ranges and single ownership of every pbuf. */
  lemma {:induction false} EveryRunKeepsRing(c: Config, s: State, evs: seq<Event>)
    requires c.Valid() && Init(c, s)
    ensures Inv(c, Exec(c, s, evs))
    decreases |evs|
  {
    if evs == [] {
    } else {
      EveryRunKeepsRing(c, s, evs[..|evs| - 1]);
      StepKeepsInv(c, Exec(c, s, evs[..|evs| - 1]), evs[|evs| - 1]);
    }
  }

  // ----- who owns a pbuf, and since when ---------------------------------------------------

  /** Handing on: the packet in hand is afterwards with the stack exactly when its type is known
      and input accepted it, and in the pool otherwise; no other pbuf changes owner. */
  lemma DispatchDecides(c: Config, s: State, a: Option<PbufId>, known: bool, ok: bool, p: PbufId)
    requires c.Valid() && WellFormed(c, s) && Conserved(s) && s.pc == Dispatch(p)
    ensures var t := Step(c, s, Cpu(a, known, ok));
            && (p in t.stack <==> known && ok)
            && (p in t.pool <==> !known || !ok)
            && t.stack - {p} == s.stack && t.pool - {p} == s.pool && t.lost == s.lost && t.ring == s.ring
            && t.pc.Idle?
  {
    OneOwner(s);
    assert s.pc.Holds(p);
  }

  /** With pbuf p in hand, the event gives it to the stack. */
  predicate HandsUp(s: State, e: Event, p: PbufId) { s.pc == Dispatch(p) && e.Cpu? && e.known && e.ok }

  /** The pool's pbuf p goes to the consumer. */
  predicate Allots(s: State, e: Event, p: PbufId) {
    s.pc.Allocate? && e.Cpu? && e.alloc == Some(p) && p in s.pool
  }

  /** pbuf_free of p, by ethernetif_input or by the stack. */
  predicate Frees(s: State, e: Event, p: PbufId) {
    (s.pc == Dispatch(p) && e.Cpu? && !(e.known && e.ok)) || (e == StackFree(p) && p in s.stack)
  }

  /** p holds a packet whose length reads zero, and is dropped. */
  predicate Forgets(s: State, e: Event, p: PbufId) {
    s.pc == Inspect(p) && e.Cpu? && p < |s.mem| && s.mem[p].len == 0
  }

  /** One event changes the owners exactly so. */
  lemma StepOwners(c: Config, s: State, e: Event, p: PbufId)
    requires c.Valid() && Inv(c, s)
    ensures var t := Step(c, s, e);
            && (p in t.stack <==> HandsUp(s, e, p) || (p in s.stack && e != StackFree(p)))
            && (p in t.pool <==> Frees(s, e, p) || (p in s.pool && !Allots(s, e, p)))
            && (p in t.lost <==> Forgets(s, e, p) || p in s.lost)
  {
    OneOwner(s);
  }

  /** At its n-th event the run gives p to the stack, which keeps it from then on. */
  ghost predicate KeptSince(c: Config, s: State, evs: seq<Event>, p: PbufId, n: nat)
    requires c.Valid() && n < |evs|
  {
    HandsUp(Exec(c, s, evs[..n]), evs[n], p) && StackFree(p) !in evs[n + 1..]
  }

  /** A pbuf is with the stack exactly when the run has handed it up, or the stack had it from the
      start, and the stack has not freed it since. */
  ghost predicate OnLoan(c: Config, s: State, evs: seq<Event>, p: PbufId)
    requires c.Valid()
  {
    (p in s.stack && StackFree(p) !in evs) || exists n: nat :: n < |evs| && KeptSince(c, s, evs, p, n)
  }

  lemma OnLoanFront(c: Config, s: State, evs: seq<Event>, p: PbufId)
    requires c.Valid() && evs != []
    ensures var front, e := evs[..|evs| - 1], evs[|evs| - 1];
            OnLoan(c, s, evs, p) <==>
              HandsUp(Exec(c, s, front), e, p) || (OnLoan(c, s, front, p) && e != StackFree(p))
  {
    var k := |evs| - 1;
    var front, e := evs[..k], evs[k];
    assert evs == front + [e] && evs[k + 1..] == [];
    if HandsUp(Exec(c, s, front), e, p) {
      assert KeptSince(c, s, evs, p, k);
    }
    forall n: nat | n < k
      ensures KeptSince(c, s, evs, p, n) <==> KeptSince(c, s, front, p, n) && e != StackFree(p)
    {
      assert front[..n] == evs[..n] && evs[n + 1..] == front[n + 1..] + [e];
    }
    if OnLoan(c, s, front, p) && e != StackFree(p) && exists n: nat :: n < k && KeptSince(c, s, front, p, n) {
      var n: nat :| n < k && KeptSince(c, s, front, p, n);
      assert KeptSince(c, s, evs, p, n);
    }
  }

  /** A pbuf enters the stack only by a packet of known type that input accepted, and leaves it
      only when the stack frees it, on every run. */
  lemma {:induction false} StackHasWhatItWasGiven(c: Config, s: State, evs: seq<Event>, p: PbufId)
    requires c.Valid() && Init(c, s)
    ensures p in Exec(c, s, evs).stack <==> OnLoan(c, s, evs, p)
    decreases |evs|
  {
    if evs == [] {
    } else {
      var front, e := evs[..|evs| - 1], evs[|evs| - 1];
      StackHasWhatItWasGiven(c, s, front, p);
      EveryRunKeepsRing(c, s, front);
      StepOwners(c, Exec(c, s, front), e, p);
      OnLoanFront(c, s, evs, p);
    }
  }

  /** Kept or dropped, every interrupt notes the frame's length in the pbuf of its slot, and no
      other, and arms the DMA on the slot its index then points to. */
  lemma InterruptArms(c: Config, s: State, ok: bool)
    requires c.Valid() && WellFormed(c, s) && s.pending.Some?
    ensures var t, p := Step(c, s, Isr(ok)), s.ring[s.isr];
            && t.armed == t.ring[t.isr] && t.pending.None? && |t.mem| == |s.mem|
            && t.mem[p] == Pbuf(|s.pending.value|, s.mem[p].payload)
            && forall q: PbufId :: q < |s.mem| && q != p ==> t.mem[q] == s.mem[q]
  {
  }

  /** Without memory a call of low_level_input leaves everything as it was. */
  lemma NoMemoryNoChange(c: Config, s: State, known: bool, ok: bool)
    requires c.Valid() && WellFormed(c, s) && s.pc.Idle?
    ensures var e := Cpu(None, known, ok); s.count > 0 ==> Step(c, Step(c, s, e), e) == s
    ensures s.count == 0 ==> forall a :: Step(c, s, Cpu(a, known, ok)) == s
  {
  }

  // ----- first in, first out ---------------------------------------------------------------

  function Wrap(c: Config, i: nat): nat { if i >= c.slots then i - c.slots else i }

  /** First slot holding an unread frame, and how many slots do. */
  function Start(s: State): nat { if s.pc.Advance? then s.idx + 1 else s.idx }

  function Unread(s: State): int { if s.pc.Load? || s.pc.Store? then s.count + 1 else s.count }

  function InHand(s: State): nat { if s.pc.HoldsFrame() then 1 else 0 }

  /** The k-th unread slot holds the frame accepted at that place, and is not the armed one. */
  ghost predicate SlotHolds(c: Config, s: State, k: nat)
    requires WellFormed(c, s)
  {
    var i, n := Wrap(c, Start(s) + k), |s.taken| + InHand(s) + k;
    i < c.slots && n < |s.accepted| && s.ring[i] != s.armed && Content(s.mem[s.ring[i]]) == s.accepted[n]
  }

  /** Accepted frames are the disposed ones, then the one in hand, then the unread slots. */
  ghost predicate Ledger(s: State) {
    && Unread(s) >= 0
    && |s.accepted| == |s.taken| + InHand(s) + Unread(s)
    && s.taken <= s.accepted
    && (s.pc.HoldsFrame() ==>
          s.pc.p < |s.mem| && s.pc.p != s.armed && Content(s.mem[s.pc.p]) == s.accepted[|s.taken|])
  }

  /** First in, first out: the ledger balances, every unread slot holds its own frame's
      bytes in slot order, and the DMA is armed on no unread and no in-hand pbuf. */
  ghost predicate Fifo(c: Config, s: State) {
    WellFormed(c, s) && Ledger(s) && forall k: nat :: k < Unread(s) ==> SlotHolds(c, s, k)
  }

  /** Where the DMA is armed while it has not run into an unread slot. */
  ghost predicate Lead(c: Config, s: State) {
    && WellFormed(c, s)
    && s.armed == s.ring[s.isr]
    && s.count >= 0 && Unread(s) <= c.slots - 1
    && s.isr == Wrap(c, s.idx + s.count + Window(s))
    && (s.pc.Allocate? || s.pc.Decrement? ==> s.count >= 1)
    && (s.pc.Store? ==> s.pc.p == s.ring[s.idx])
    && (s.pending.Some? ==> s.pending.value <= s.mem[s.armed].payload)
  }

  ghost predicate Safe(c: Config, s: State) { Fifo(c, s) && Lead(c, s) }

  /** An interrupt that keeps its frame finds a free slot beyond the one it arms next. */
  ghost predicate Roomy(c: Config, s: State, e: Event) {
    e == Isr(true) && s.pending.Some? && s.count < c.limit ==> Unread(s) < c.slots - 1
  }

  lemma IsrKeepsLead(c: Config, s: State, ok: bool)
    requires c.Valid() && Roomy(c, s, Isr(ok)) && Lead(c, s) && s.pending.Some?
    ensures Lead(c, IsrStep(c, s, ok))
  {
  }

  lemma IsrKeepsOldSlot(c: Config, s: State, ok: bool, k: nat)
    requires c.Valid() && Roomy(c, s, Isr(ok)) && Separate(s) && Safe(c, s) && s.pending.Some?
    requires k < Unread(s) && WellFormed(c, IsrStep(c, s, ok))
    ensures SlotHolds(c, IsrStep(c, s, ok), k)
  {
    assert SlotHolds(c, s, k);
    var i := Wrap(c, Start(s) + k);
    assert i != s.isr;
    assert s.ring[i] != s.ring[s.isr];
  }

  lemma IsrFillsSlot(c: Config, s: State, k: nat)
    requires c.Valid() && Roomy(c, s, Isr(true)) && Separate(s) && Safe(c, s) && s.pending.Some?
    requires s.count < c.limit && k == Unread(s) && WellFormed(c, IsrStep(c, s, true))
    ensures SlotHolds(c, IsrStep(c, s, true), k)
  {
    var t := IsrStep(c, s, true);
    assert Wrap(c, Start(s) + k) == s.isr;
    assert Content(t.mem[s.ring[s.isr]]) == s.pending.value;
  }

  lemma IsrKeepsSlot(c: Config, s: State, ok: bool, k: nat)
    requires c.Valid() && Roomy(c, s, Isr(ok)) && Separate(s) && Safe(c, s) && s.pending.Some?
    requires k < Unread(IsrStep(c, s, ok)) && WellFormed(c, IsrStep(c, s, ok))
    ensures SlotHolds(c, IsrStep(c, s, ok), k)
  {
    if k < Unread(s) {
      IsrKeepsOldSlot(c, s, ok, k);
    } else {
      IsrFillsSlot(c, s, k);
    }
  }

  lemma IsrKeepsLedger(c: Config, s: State, ok: bool)
    requires c.Valid() && Roomy(c, s, Isr(ok)) && Separate(s) && Safe(c, s) && s.pending.Some?
    ensures Ledger(IsrStep(c, s, ok))
  {
    assert s.pc.HoldsFrame() ==> s.pc.Holds(s.pc.p);
  }

  lemma IsrKeepsSafe(c: Config, s: State, ok: bool)
    requires c.Valid() && Roomy(c, s, Isr(ok)) && Separate(s) && Safe(c, s) && s.pending.Some?
    ensures Safe(c, IsrStep(c, s, ok))
  {
    var t := IsrStep(c, s, ok);
    IsrKeepsLead(c, s, ok);
    IsrKeepsLedger(c, s, ok);
    forall k: nat | k < Unread(t) ensures SlotHolds(c, t, k) {
      IsrKeepsSlot(c, s, ok, k);
    }
  }

  lemma StoreKeepsLead(c: Config, s: State)
    requires c.Valid() && Separate(s) && Lead(c, s) && s.pc.Store?
    ensures Lead(c, CpuStep(c, s, None, true, true))
  {
    assert s.isr != s.idx;
  }

  lemma {:induction false} CpuKeepsLead(c: Config, s: State, a: Option<PbufId>, known: bool, ok: bool)
    requires c.Valid() && Separate(s) && Lead(c, s)
    ensures Lead(c, CpuStep(c, s, a, known, ok))
  {
    if s.pc.Store? {
      StoreKeepsLead(c, s);
    } else {
      CpuKeepsWellFormed(c, s, a, known, ok);
    }
  }

  lemma StoreKeepsSlot(c: Config, s: State, k: nat)
    requires c.Valid() && Separate(s) && Safe(c, s) && s.pc.Store? && k + 1 < Unread(s)
    requires WellFormed(c, CpuStep(c, s, None, true, true))
    ensures SlotHolds(c, CpuStep(c, s, None, true, true), k)
  {
    assert SlotHolds(c, s, k + 1);
    assert Wrap(c, s.idx + (k + 1)) != s.idx;
  }

  lemma AdvanceKeepsSlot(c: Config, s: State, k: nat)
    requires c.Valid() && Separate(s) && Safe(c, s) && s.pc.Advance? && k < Unread(s)
    requires WellFormed(c, CpuStep(c, s, None, true, true))
    ensures SlotHolds(c, CpuStep(c, s, None, true, true), k)
  {
    assert SlotHolds(c, s, k);
  }

  lemma DisposeKeepsSlot(c: Config, s: State, a: Option<PbufId>, known: bool, ok: bool, k: nat)
    requires c.Valid() && Safe(c, s) && (s.pc.Inspect? || s.pc.Dispatch?)
    requires WellFormed(c, CpuStep(c, s, a, known, ok)) && k < Unread(s)
    ensures SlotHolds(c, CpuStep(c, s, a, known, ok), k)
  {
    assert SlotHolds(c, s, k);
  }

  lemma WaitKeepsSlot(c: Config, s: State, a: Option<PbufId>, known: bool, ok: bool, k: nat)
    requires c.Valid() && Safe(c, s) && (s.pc.Idle? || s.pc.Allocate? || s.pc.Decrement? || s.pc.Load?)
    requires WellFormed(c, CpuStep(c, s, a, known, ok)) && k < Unread(CpuStep(c, s, a, known, ok))
    ensures SlotHolds(c, CpuStep(c, s, a, known, ok), k)
  {
    assert SlotHolds(c, s, k);
  }

  lemma CpuKeepsSlot(c: Config, s: State, a: Option<PbufId>, known: bool, ok: bool, k: nat)
    requires c.Valid() && Separate(s) && Safe(c, s) && WellFormed(c, CpuStep(c, s, a, known, ok))
    requires k < Unread(CpuStep(c, s, a, known, ok))
    ensures SlotHolds(c, CpuStep(c, s, a, known, ok), k)
  {
    match s.pc {
      case Store(_, _) => StoreKeepsSlot(c, s, k);
      case Advance(_) => AdvanceKeepsSlot(c, s, k);
      case Inspect(_) => DisposeKeepsSlot(c, s, a, known, ok, k);
      case Dispatch(_) => DisposeKeepsSlot(c, s, a, known, ok, k);
      case _ => WaitKeepsSlot(c, s, a, known, ok, k);
    }
  }

  lemma CpuKeepsLedger(c: Config, s: State, a: Option<PbufId>, known: bool, ok: bool)
    requires c.Valid() && Separate(s) && Safe(c, s)
    ensures Ledger(CpuStep(c, s, a, known, ok))
  {
    if s.pc.Store? { assert SlotHolds(c, s, 0); }
  }

  lemma CpuKeepsSafe(c: Config, s: State, a: Option<PbufId>, known: bool, ok: bool)
    requires c.Valid() && Separate(s) && Safe(c, s)
    ensures Safe(c, CpuStep(c, s, a, known, ok))
  {
    var t := CpuStep(c, s, a, known, ok);
    CpuKeepsLead(c, s, a, known, ok);
    CpuKeepsLedger(c, s, a, known, ok);
    forall k: nat | k < Unread(t) ensures SlotHolds(c, t, k) {
      CpuKeepsSlot(c, s, a, known, ok, k);
    }
  }

  lemma DmaKeepsSafe(c: Config, s: State, f: Frame)
    requires c.Valid() && Safe(c, s)
    ensures Safe(c, Step(c, s, Dma(f)))
  {
    var t := Step(c, s, Dma(f));
    forall k: nat | k < Unread(t) ensures SlotHolds(c, t, k) {
      assert SlotHolds(c, s, k);
    }
  }

  lemma FreeKeepsSafe(c: Config, s: State, p: PbufId)
    requires c.Valid() && Safe(c, s)
    ensures Safe(c, Step(c, s, StackFree(p)))
  {
    var t := Step(c, s, StackFree(p));
    forall k: nat | k < Unread(t) ensures SlotHolds(c, t, k) {
      assert SlotHolds(c, s, k);
    }
  }

  lemma {:induction false} StepKeepsSafe(c: Config, s: State, e: Event)
    requires c.Valid() && Roomy(c, s, e) && Separate(s) && Safe(c, s)
    ensures Safe(c, Step(c, s, e))
  {
    match e
    case Dma(f) => DmaKeepsSafe(c, s, f);
    case Isr(ok) => if s.pending.Some? { IsrKeepsSafe(c, s, ok); }
    case Cpu(a, known, ok) => CpuKeepsSafe(c, s, a, known, ok);
    case StackFree(p) => FreeKeepsSafe(c, s, p);
  }

  /** An interrupt without room leaves every slot unread, the armed one among them. */
  lemma NoRoomNoQueue(c: Config, s: State, e: Event)
    requires c.Valid() && Safe(c, s) && !Roomy(c, s, e)
    ensures !Fifo(c, Step(c, s, e))
  {
    var t := Step(c, s, e);
    if WellFormed(c, t) {
      var k := if Start(t) <= t.isr then t.isr - Start(t) else t.isr + c.slots - Start(t);
      assert Wrap(c, Start(t) + k) == t.isr && 0 <= k < Unread(t);
      assert !SlotHolds(c, t, k);
    }
  }

  /** Every interrupt of the run finds room. */
  ghost predicate RoomyRun(c: Config, s: State, evs: seq<Event>)
    requires c.Valid()
  {
    forall n :: 0 <= n < |evs| ==> Roomy(c, Exec(c, s, evs[..n]), evs[n])
  }

  /** The ring is a queue at every point of the run: at its end, and all the way there. */
  ghost predicate FifoRun(c: Config, s: State, evs: seq<Event>)
    requires c.Valid()
    decreases |evs|
  {
    Fifo(c, Exec(c, s, evs)) && (evs == [] || FifoRun(c, s, evs[..|evs| - 1]))
  }

  lemma {:induction false} FifoAt(c: Config, s: State, evs: seq<Event>, n: nat)
    requires c.Valid() && FifoRun(c, s, evs) && n <= |evs|
    ensures Fifo(c, Exec(c, s, evs[..n]))
    decreases |evs|
  {
    if n == |evs| {
      assert evs[..n] == evs;
    } else {
      FifoAt(c, s, evs[..|evs| - 1], n);
      assert evs[..|evs| - 1][..n] == evs[..n];
    }
  }

  lemma FrontRoomy(c: Config, s: State, evs: seq<Event>)
    requires c.Valid() && evs != []
    ensures var front := evs[..|evs| - 1];
            RoomyRun(c, s, evs) <==> RoomyRun(c, s, front) && Roomy(c, Exec(c, s, front), evs[|evs| - 1])
  {
    var front := evs[..|evs| - 1];
    if RoomyRun(c, s, evs) {
      assert Roomy(c, Exec(c, s, evs[..|front|]), evs[|front|]);
      forall n | 0 <= n < |front| ensures Roomy(c, Exec(c, s, front[..n]), front[n]) {
        assert front[..n] == evs[..n];
      }
    }
    if RoomyRun(c, s, front) && Roomy(c, Exec(c, s, front), evs[|evs| - 1]) {
      forall n | 0 <= n < |evs| ensures Roomy(c, Exec(c, s, evs[..n]), evs[n]) {
        if n < |front| {
          assert front[..n] == evs[..n] && front[n] == evs[n];
        }
      }
    }
  }

  lemma {:induction false} RoomyRunIsSafe(c: Config, s: State, evs: seq<Event>)
    requires c.Valid() && Init(c, s) && RoomyRun(c, s, evs)
    ensures Safe(c, Exec(c, s, evs)) && FifoRun(c, s, evs)
    decreases |evs|
  {
    if evs == [] {
    } else {
      var front := evs[..|evs| - 1];
      FrontRoomy(c, s, evs);
      RoomyRunIsSafe(c, s, front);
      EveryRunKeepsRing(c, s, front);
      OneOwner(Exec(c, s, front));
      StepKeepsSafe(c, Exec(c, s, front), evs[|evs| - 1]);
    }
  }

  /** The exact condition for any ring size and any threshold, the driver's own included, run by
      run: the ring is a queue throughout exactly when every interrupt that keeps a frame finds
      fewer than slots - 1 unread slots. */
  lemma {:induction false} FifoIffRoomy(c: Config, s: State, evs: seq<Event>)
    requires c.Valid() && Init(c, s)
    ensures FifoRun(c, s, evs) <==> RoomyRun(c, s, evs)
    decreases |evs|
  {
    if evs == [] {
      RoomyRunIsSafe(c, s, evs);
    } else {
      var front := evs[..|evs| - 1];
      FifoIffRoomy(c, s, front);
      FrontRoomy(c, s, evs);
      if RoomyRun(c, s, evs) {
        RoomyRunIsSafe(c, s, evs);
      } else if RoomyRun(c, s, front) {
        RoomyRunIsSafe(c, s, front);
        NoRoomNoQueue(c, Exec(c, s, front), evs[|evs| - 1]);
      }
    }
  }

  /** A threshold that leaves two slots spare makes every run roomy. */
  lemma SafeLimitRuns(c: Config, s: State, evs: seq<Event>)
    requires c.Valid() && c.limit <= c.slots - 2 && Init(c, s)
    ensures Safe(c, Exec(c, s, evs))
  {
    assert RoomyRun(c, s, evs);
    RoomyRunIsSafe(c, s, evs);
  }

  /** Frames come out in arrival order, each with its own bytes, on every run. */
  ghost predicate InOrder(c: Config)
    requires c.Valid()
  {
    forall s: State, evs: seq<Event> :: Init(c, s) ==> Exec(c, s, evs).taken <= Exec(c, s, evs).accepted
  }

  /** The exact bound: the ring is a queue on every interleaving precisely when the
      interrupt stops two slots short of the ring's size. */
  lemma InOrderIffTwoSlotsSpare(c: Config)
    requires c.Valid()
    ensures InOrder(c) <==> c.limit <= c.slots - 2
  {
    if c.limit <= c.slots - 2 {
      forall s: State, evs: seq<Event> | Init(c, s)
        ensures Exec(c, s, evs).taken <= Exec(c, s, evs).accepted
      {
        SafeLimitRuns(c, s, evs);
      }
    } else {
      var s, evs := Overrun(c);
      assert !(Exec(c, s, evs).taken <= Exec(c, s, evs).accepted);
    }
  }

  // ----- the run that breaks a limit of slots - 1 or more ----------------------------------

  function Iota(n: nat): (r: seq<PbufId>)
    ensures |r| == n && forall i :: 0 <= i < n ==> r[i] == i
  {
    if n == 0 then [] else Iota(n - 1) + [n - 1]
  }

  lemma {:induction false} IotaCounts(n: nat, p: PbufId)
    ensures multiset(Iota(n))[p] == if p < n then 1 else 0
  {
    if n > 0 {
      IotaCounts(n - 1, p);
    }
  }

  function Fresh(c: Config): State
    requires c.Valid()
  {
    State(seq(c.slots + 1, i => Pbuf(0, [])), Iota(c.slots), 0, 0, 0, 0, None, Idle,
          {c.slots}, {}, {}, 0, [], [])
  }

  lemma FreshIsInit(c: Config)
    requires c.Valid()
    ensures Init(c, Fresh(c))
  {
    var s := Fresh(c);
    forall p: PbufId ensures Count(s, p) == if p < |s.mem| then 1 else 0 {
      IotaCounts(c.slots, p);
    }
  }

  /** k frames have been accepted and none taken. */
  ghost predicate Filled(c: Config, s: State, k: nat) {
    && c.Valid() && k < c.slots
    && s.ring == Iota(c.slots) && |s.mem| == c.slots + 1
    && s.isr == k && s.idx == 0 && s.count == k && s.armed == k
    && s.pending.None? && s.pc.Idle? && s.pool == {c.slots} && s.stack == {} && s.taken == []
    && |s.accepted| == k
    && (k > 0 ==> s.accepted[0] == [0] && s.mem[0].len == 1 && |s.mem[0].payload| == 1)
    && (k == 0 ==> s.mem[0].payload == [])
  }

  lemma ExecSnoc(c: Config, s: State, evs: seq<Event>, e: Event)
    requires c.Valid()
    ensures Exec(c, s, evs + [e]) == Step(c, Exec(c, s, evs), e)
  {
    assert (evs + [e])[..|evs|] == evs;
  }

  lemma {:induction false} Fill(c: Config, k: nat) returns (evs: seq<Event>)
    requires c.Valid() && c.limit >= c.slots - 1 && k < c.slots
    ensures Filled(c, Exec(c, Fresh(c), evs), k)
  {
    if k == 0 {
      evs := [];
    } else {
      var front := Fill(c, k - 1);
      FillOne(c, Exec(c, Fresh(c), front), k - 1);
      ExecSnoc(c, Fresh(c), front, Dma([0]));
      ExecSnoc(c, Fresh(c), front + [Dma([0])], Isr(true));
      evs := front + [Dma([0])] + [Isr(true)];
    }
  }

  lemma FillOne(c: Config, u: State, k: nat)
    requires c.Valid() && c.limit >= c.slots - 1 && k + 1 < c.slots && Filled(c, u, k)
    ensures Filled(c, Step(c, Step(c, u, Dma([0])), Isr(true)), k + 1)
  {
    var u1 := Step(c, u, Dma([0]));
    assert u1.pending == Some([0]);
  }

  /** The consumer has lowered the count and stopped there, with every slot but one unread. */
  lemma EnterWindow(c: Config) returns (evs: seq<Event>)
    requires c.Valid() && c.limit >= c.slots - 1
    ensures var w := Exec(c, Fresh(c), evs);
            && Filled(c, w.(pc := Idle, count := c.slots - 1, pool := {c.slots}), c.slots - 1)
            && WellFormed(c, w) && w.pc == Load(c.slots) && w.count == c.slots - 2
  {
    var s := Fresh(c);
    var fill := Fill(c, c.slots - 1);
    var u := Exec(c, s, fill);
    var cpu := Cpu(Some(c.slots), true, true);
    var u1 := u.(pc := Allocate);
    var u2 := u1.(pc := Decrement(c.slots), pool := u.pool - {c.slots});
    assert Step(c, u, cpu) == u1;
    assert Step(c, u1, cpu) == u2;
    ExecSnoc(c, s, fill, cpu);
    ExecSnoc(c, s, fill + [cpu], cpu);
    ExecSnoc(c, s, fill + [cpu] + [cpu], cpu);
    evs := fill + [cpu] + [cpu] + [cpu];
  }

  /** With the count already lowered but the slot not yet emptied, one more frame is accepted,
      the DMA is armed on the unread slot, and the consumer hands up another frame's bytes. */
  lemma Overrun(c: Config) returns (s: State, evs: seq<Event>)
    requires c.Valid() && c.limit >= c.slots - 1
    ensures Init(c, s)
    ensures |Exec(c, s, evs).accepted| == c.slots && Exec(c, s, evs).accepted[0] == [0]
    ensures Exec(c, s, evs).taken == [[1]]
  {
    s := Fresh(c);
    FreshIsInit(c);
    var enter := EnterWindow(c);
    ExecSnoc(c, s, enter, Dma([0]));
    ExecSnoc(c, s, enter + [Dma([0])], Isr(true));
    ExecSnoc(c, s, enter + [Dma([0])] + [Isr(true)], Dma([1]));
    var front := enter + [Dma([0])] + [Isr(true)] + [Dma([1])];
    var w := Overwritten(c, Exec(c, s, enter));
    Finish(c, w);
    evs := front + Cpus(5);
    ExecAppend(c, s, front, Cpus(5));
  }

  lemma Overwritten(c: Config, u: State) returns (w: State)
    requires c.Valid() && c.limit >= c.slots - 1
    requires Filled(c, u.(pc := Idle, count := c.slots - 1, pool := {c.slots}), c.slots - 1)
    requires WellFormed(c, u) && u.pc == Load(c.slots) && u.count == c.slots - 2
    ensures w == Step(c, Step(c, Step(c, u, Dma([0])), Isr(true)), Dma([1]))
    ensures WellFormed(c, w) && w.pc == Load(c.slots) && |w.mem| == c.slots + 1 && w.taken == []
    ensures w.ring[w.idx] == 0 && w.mem[0] == Pbuf(1, [1])
    ensures |w.accepted| == c.slots && w.accepted[0] == [0]
  {
    var u1 := Step(c, u, Dma([0]));
    assert u1.pending == Some([0]) && u1.mem[0].len == 1 && |u1.mem[0].payload| == 1;
    var u2 := Step(c, u1, Isr(true));
    assert u2.armed == u2.ring[0] && u2.count == c.slots - 1 && u2.mem[0] == u1.mem[0];
    w := Step(c, u2, Dma([1]));
  }

  function Cpus(n: nat): seq<Event> {
    if n == 0 then [] else Cpus(n - 1) + [Cpu(None, true, true)]
  }

  lemma CpusSnoc(c: Config, w: State, n: nat)
    requires c.Valid()
    ensures Exec(c, w, Cpus(n + 1)) == Step(c, Exec(c, w, Cpus(n)), Cpu(None, true, true))
  {
    ExecSnoc(c, w, Cpus(n), Cpu(None, true, true));
  }

  lemma {:induction false} FiveSteps(c: Config, w: State, w1: State, w2: State, w3: State, w4: State)
    requires c.Valid()
    requires var e := Cpu(None, true, true);
             Step(c, w, e) == w1 && Step(c, w1, e) == w2 && Step(c, w2, e) == w3 && Step(c, w3, e) == w4
    ensures Exec(c, w, Cpus(5)) == Step(c, w4, Cpu(None, true, true))
  {
    CpusSnoc(c, w, 0);
    CpusSnoc(c, w, 1);
    CpusSnoc(c, w, 2);
    CpusSnoc(c, w, 3);
    CpusSnoc(c, w, 4);
  }

  lemma LoadAndStore(c: Config, w: State)
    requires c.Valid() && WellFormed(c, w) && w.pc.Load?
    ensures var p, e := w.ring[w.idx], Cpu(None, true, true);
            var w1 := w.(pc := Store(w.pc.next, p));
            Step(c, w, e) == w1 && WellFormed(c, w1)
            && Step(c, w1, e) == w1.(ring := w.ring[w.idx := w.pc.next], pc := Advance(p))
  {
  }

  lemma AdvanceAndInspect(c: Config, w: State)
    requires c.Valid() && WellFormed(c, w) && w.pc.Advance? && w.mem[w.pc.p].len > 0
    ensures var e := Cpu(None, true, true);
            var w1 := w.(idx := Next(c, w.idx), pc := Inspect(w.pc.p));
            Step(c, w, e) == w1 && WellFormed(c, w1) && Step(c, w1, e) == w1.(pc := Dispatch(w.pc.p))
  {
  }

  /** The consumer's last five statements, from Load on. */
  lemma Finish(c: Config, w: State)
    requires c.Valid() && WellFormed(c, w) && w.pc.Load?
    requires w.taken == [] && w.mem[w.ring[w.idx]].len > 0
    ensures var t := Exec(c, w, Cpus(5)); t.taken == [Content(w.mem[w.ring[w.idx]])] && t.accepted == w.accepted
  {
    var p, e := w.ring[w.idx], Cpu(None, true, true);
    LoadAndStore(c, w);
    CpuKeepsWellFormed(c, Step(c, w, e), None, true, true);
    var w2 := w.(ring := w.ring[w.idx := w.pc.next], pc := Advance(p));
    AdvanceAndInspect(c, w2);
    var w3 := w2.(idx := Next(c, w.idx), pc := Inspect(p));
    FiveSteps(c, w, Step(c, w, e), w2, w3, w3.(pc := Dispatch(p)));
    DispatchTakes(c, w3.(pc := Dispatch(p)));
  }

  lemma DispatchTakes(c: Config, w: State)
    requires c.Valid() && WellFormed(c, w) && w.pc.Dispatch?
    ensures var t := Step(c, w, Cpu(None, true, true));
            t.taken == w.taken + [Content(w.mem[w.pc.p])] && t.accepted == w.accepted
  {
  }

  // ----- the driver's own guard ------------------------------------------------------------

  /** The guard as written, `lwipRxCount > LWIP_RX_ETH_BUFFER`, keeps a frame with up to twelve
      on the count. The driver's ring is a queue throughout a run exactly when every interrupt
      that keeps a frame finds fewer than eleven unread: the count, plus one while the consumer
      stands between its decrement and its swap. */
  lemma {:induction false} DriverInOrderIff(s: State, evs: seq<Event>)
    requires Init(DRIVER, s)
    ensures FifoRun(DRIVER, s, evs) <==>
              forall n :: 0 <= n < |evs| && evs[n] == Isr(true) ==>
                var u := Exec(DRIVER, s, evs[..n]);
                u.pending.Some? && u.count <= 12 ==> u.count + (if u.pc.Load? || u.pc.Store? then 1 else 0) < 11
  {
    FifoIffRoomy(DRIVER, s, evs);
    assert forall n :: 0 <= n < |evs| ==>
      (Roomy(DRIVER, Exec(DRIVER, s, evs[..n]), evs[n]) <==>
        (evs[n] == Isr(true) ==>
          var u := Exec(DRIVER, s, evs[..n]);
          u.pending.Some? && u.count <= 12 ==> u.count + (if u.pc.Load? || u.pc.Store? then 1 else 0) < 11));
  }

  /** In particular it is a queue as long as the count stays below ten at each interrupt. */
  lemma {:induction false} DriverInOrderWithinBacklog(s: State, evs: seq<Event>)
    requires Init(DRIVER, s)
    requires forall n :: 0 <= n < |evs| && evs[n] == Isr(true) ==> Exec(DRIVER, s, evs[..n]).count < 10
    ensures FifoRun(DRIVER, s, evs)
  {
    DriverInOrderIff(s, evs);
  }

  // ----- byte accounting -------------------------------------------------------------------

  function TotalLength(fs: seq<Frame>): nat {
    if fs == [] then 0 else TotalLength(fs[..|fs| - 1]) + |fs[|fs| - 1]|
  }

  lemma TotalLengthSnoc(fs: seq<Frame>, f: Frame)
    ensures TotalLength(fs + [f]) == TotalLength(fs) + |f|
  {
    assert (fs + [f])[..|fs|] == fs;
  }

  /** Only an accepting interrupt changes either side. */
  lemma StepAccepts(c: Config, s: State, e: Event) returns (f: Option<Frame>)
    requires c.Valid()
    ensures var t := Step(c, s, e);
            match f
            case None => t.bytesRecv == s.bytesRecv && t.accepted == s.accepted
            case Some(x) => t.bytesRecv == (s.bytesRecv + |x|) % TWO_32 && t.accepted == s.accepted + [x]
  {
    f := if Step(c, s, e).accepted == s.accepted then None else s.pending;
  }

  lemma OneFrameMore(sum: nat, fs: seq<Frame>, f: Frame)
    requires sum == TotalLength(fs) % TWO_32
    ensures (sum + |f|) % TWO_32 == TotalLength(fs + [f]) % TWO_32
  {
    TotalLengthSnoc(fs, f);
    ModAdd(TotalLength(fs), |f|);
  }

  lemma StepCountsBytes(c: Config, s: State, e: Event)
    requires c.Valid() && s.bytesRecv == TotalLength(s.accepted) % TWO_32
    ensures Step(c, s, e).bytesRecv == TotalLength(Step(c, s, e).accepted) % TWO_32
  {
    var f := StepAccepts(c, s, e);
    if f.Some? {
      OneFrameMore(s.bytesRecv, s.accepted, f.value);
    }
  }

  /** bytes_recv is the total length of the kept frames, modulo the word size, on every run. */
  lemma {:induction false} EveryRunCountsBytes(c: Config, s: State, evs: seq<Event>)
    requires c.Valid() && Init(c, s)
    ensures Exec(c, s, evs).bytesRecv == TotalLength(Exec(c, s, evs).accepted) % TWO_32
    decreases |evs|
  {
    if evs == [] {
    } else {
      EveryRunCountsBytes(c, s, evs[..|evs| - 1]);
      StepCountsBytes(c, Exec(c, s, evs[..|evs| - 1]), evs[|evs| - 1]);
    }
  }

  // ----- the lost pbuf ---------------------------------------------------------------------

  /** A pbuf is dropped on the floor only by a packet whose length reads zero: a run that
      disposed of no empty frame has lost nothing. */
  lemma {:induction false} OnlyEmptyFramesLosePbufs(c: Config, s: State, evs: seq<Event>)
    requires c.Valid() && Init(c, s) && [] !in Exec(c, s, evs).taken
    ensures Exec(c, s, evs).lost == s.lost
    decreases |evs|
  {
    if evs == [] {
    } else {
      var u, t := Exec(c, s, evs[..|evs| - 1]), Exec(c, s, evs);
      TakenGrows(c, u, evs[|evs| - 1]);
      OnlyEmptyFramesLosePbufs(c, s, evs[..|evs| - 1]);
    }
  }

  lemma TakenGrows(c: Config, u: State, e: Event)
    requires c.Valid()
    ensures u.taken <= Step(c, u, e).taken
    ensures Step(c, u, e).lost != u.lost ==> [] in Step(c, u, e).taken
  {
    var t := Step(c, u, e);
    if t.lost != u.lost {
      assert t.taken[|t.taken| - 1] == [];
    }
  }
}
