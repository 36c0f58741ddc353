/** The driver itself: the fields of struct ethernetif, updated in place by
    ethernetif_init, tse_mac_rcv and low_level_input. Each method is proved against the
    transitions of RxRing, whose theorems speak of every interleaving. */
module EthernetIf {
  import opened Common
  import opened RxRing

  class Ethernetif {
    const config: Config
    const mem: array<Pbuf>            // the pbufs of the pool, by pointer
    const lwipRxPbuf: array<PbufId>
    var lwipRxIndexIsr: nat
    var lwipRxIndex: nat
    var lwipRxCount: int
    var bytesRecv: nat
    var armed: PbufId                 // the pbuf whose payload the SGDMA descriptor points to
    var pending: Option<Frame>        // a transfer the interrupt has not yet seen
    var pool: set<PbufId>
    var stack: set<PbufId>
    var pc: Pc                        // where the consumer is, with its locals
    ghost var lost: set<PbufId>
    ghost var accepted: seq<Frame>
    ghost var taken: seq<Frame>

    ghost function Abs(): State
      reads this, mem, lwipRxPbuf
    {
      State(mem[..], lwipRxPbuf[..], lwipRxIndexIsr, lwipRxIndex, lwipRxCount, armed, pending, pc,
            pool, stack, lost, bytesRecv, accepted, taken)
    }

    ghost predicate Valid()
      reads this, mem, lwipRxPbuf
    {
      config.Valid() && WellFormed(config, Abs())
    }

    constructor (config: Config, memory: nat)
      requires config.Valid()
      ensures this.config == config && fresh(mem) && fresh(lwipRxPbuf)
      ensures mem.Length == memory && lwipRxPbuf.Length == config.slots
      ensures pool == Pointers(memory) && stack == {} && lost == {} && pc.Idle?
      ensures accepted == [] && taken == [] && pending.None? && bytesRecv == 0
    {
      this.config := config;
      mem := new Pbuf[memory](_ => Pbuf(0, []));
      lwipRxPbuf := new PbufId[config.slots](_ => 0);
      lwipRxIndexIsr, lwipRxIndex, lwipRxCount, bytesRecv, armed := 0, 0, 0, 0, 0;
      pending, pool, stack := None, Pointers(memory), {};
      pc, lost, accepted, taken := Idle, {}, [], [];
    }

    /** One turn of that loop: a pbuf from the pool goes to the next slot. */
    method FillSlot(idx: nat)
      requires idx < lwipRxPbuf.Length && pool != {} && Dealt(lwipRxPbuf[..idx], pool, mem.Length)
      modifies this`pool, lwipRxPbuf
      ensures Dealt(lwipRxPbuf[..idx + 1], pool, mem.Length)
      ensures |pool| == |old(pool)| - 1
    {
      var p :| p in pool;
      ghost var before := lwipRxPbuf[..idx];
      Deal(before, pool, mem.Length, p);
      pool := pool - {p};
      lwipRxPbuf[idx] := p;
      assert lwipRxPbuf[..idx + 1] == before + [p];
    }

    /** The loop of ethernetif_init: one pbuf from the pool for every slot. */
    method FillRing() returns (ok: bool)
      requires lwipRxPbuf.Length == config.slots && pool == Pointers(mem.Length)
      modifies this`pool, lwipRxPbuf
      ensures ok <==> mem.Length >= config.slots
      ensures ok ==> Dealt(lwipRxPbuf[..], pool, mem.Length)
    {
      var idx := 0;
      while idx < config.slots
        invariant 0 <= idx <= config.slots
        invariant Dealt(lwipRxPbuf[..idx], pool, mem.Length)
        invariant |pool| == mem.Length - idx
      {
        if pool == {} {
          return false;
        }
        FillSlot(idx);
        idx := idx + 1;
      }
      assert lwipRxPbuf[..] == lwipRxPbuf[..idx];
      return true;
    }

    /** ethernetif_init: fill the ring, clear the indices, arm the DMA. It fails exactly when
        the pool has fewer pbufs than the ring has slots. */
    method EthernetifInit() returns (ok: bool)
      requires config.Valid() && lwipRxPbuf.Length == config.slots
      requires pool == Pointers(mem.Length) && stack == {} && lost == {} && pc.Idle?
      requires accepted == [] && taken == [] && pending.None? && bytesRecv == 0
      modifies this, lwipRxPbuf
      ensures ok <==> mem.Length >= config.slots
      ensures ok ==> Valid() && Init(config, Abs())
    {
      ok := FillRing();
      if ok {
        lwipRxCount := 0;
        lwipRxIndex := 0;
        lwipRxIndexIsr := 0;
        armed := lwipRxPbuf[lwipRxIndexIsr];
        DealtIsInit(config, Abs());
      }
    }

    /** The part of tse_mac_rcv for a frame that is kept. */
    method Keep(frame: Frame)
      requires Valid()
      modifies this`bytesRecv, this`accepted, this`lwipRxCount, this`lwipRxIndexIsr
      ensures lwipRxIndexIsr == Next(config, old(lwipRxIndexIsr)) < config.slots
      ensures lwipRxCount == old(lwipRxCount) + 1 && accepted == old(accepted) + [frame]
      ensures bytesRecv == (old(bytesRecv) + |frame|) % TWO_32
    {
      bytesRecv := (bytesRecv + |frame|) % TWO_32;
      accepted := accepted + [frame];
      lwipRxCount := lwipRxCount + 1;
      lwipRxIndexIsr := lwipRxIndexIsr + 1;
      if lwipRxIndexIsr >= config.slots {
        lwipRxIndexIsr := 0;
      }
    }

    /** The interrupt notes how many bytes the DMA has written. */
    method Label(p: PbufId, pklen: nat)
      requires p < mem.Length
      modifies mem
      ensures mem[..] == old(mem[..])[p := old(mem[..])[p].(len := pklen)]
    {
      mem[p] := mem[p].(len := pklen);
    }

    /** tse_mac_rcv, called by tse_sgdmaRx_isr for the transfer that has just ended. */
    method TseMacRcv(ok: bool)
      requires Valid() && pending.Some?
      modifies this, mem
      ensures Valid() && Abs() == Step(config, old(Abs()), Isr(ok))
    {
      ghost var s := Abs();
      Label(lwipRxPbuf[lwipRxIndexIsr], |pending.value|);
      if ok {
        if lwipRxCount >= config.limit {
          // no free buffer: the frame is dropped
        } else {
          Keep(pending.value);
        }
      }
      armed := lwipRxPbuf[lwipRxIndexIsr];
      pending := None;
      assert Abs() == IsrStep(config, s, ok);
    }

    /** A frame arrives in the armed buffer. */
    method DmaComplete(frame: Frame)
      requires Valid() && pending.None?
      modifies this, mem
      ensures Valid() && Abs() == Step(config, old(Abs()), Dma(frame))
    {
      ghost var s := Abs();
      mem[armed] := mem[armed].(payload := Overwrite(mem[armed].payload, frame));
      pending := Some(frame);
      assert Abs().mem == Step(config, s, Dma(frame)).mem;
    }

    /** pbuf_free of a packet the stack had kept. */
    method PbufFree(p: PbufId)
      requires Valid() && p in stack
      modifies this
      ensures Valid() && Abs() == Step(config, old(Abs()), StackFree(p))
    {
      stack := stack - {p};
      pool := pool + {p};
    }

    /** The test for a waiting frame; without one there is nothing to do. */
    method TestCount(ghost cpu: Event) returns (some: bool)
      requires Valid() && pc.Idle? && cpu.Cpu?
      modifies this`pc
      ensures Valid() && Abs() == Step(config, old(Abs()), cpu) && (if some then pc.Allocate? else pc.Idle?)
    {
      some := lwipRxCount != 0;
      if some {
        pc := Allocate;
      }
    }

    /** A replacement pbuf is taken first, so that the slot never stays empty; without memory the
        frame is left in the ring for the next call. */
    method PbufAlloc(alloc: Option<PbufId>, ghost cpu: Event) returns (nextPkt: Option<PbufId>)
      requires Valid() && pc.Allocate? && cpu.Cpu? && cpu.alloc == alloc
      modifies this`pc, this`pool
      ensures Valid() && Abs() == Step(config, old(Abs()), cpu)
      ensures pc == if nextPkt.None? then Idle else Decrement(nextPkt.value)
    {
      if alloc.None? || alloc.value !in pool {
        pc := Idle;
        return None;
      }
      pool := pool - {alloc.value};
      pc := Decrement(alloc.value);
      return alloc;
    }

    /** The frame comes off the count, with interrupts off, before its slot is emptied. */
    method LowerCount(nextPkt: PbufId, ghost cpu: Event)
      requires Valid() && pc == Decrement(nextPkt) && cpu.Cpu?
      modifies this`pc, this`lwipRxCount
      ensures Valid() && Abs() == Step(config, old(Abs()), cpu) && pc == Load(nextPkt)
    {
      lwipRxCount := lwipRxCount - 1;
      pc := Load(nextPkt);
    }

    /** The oldest frame's pbuf is read from its slot. */
    method LoadSlot(nextPkt: PbufId, ghost cpu: Event) returns (p: PbufId)
      requires Valid() && pc == Load(nextPkt) && cpu.Cpu?
      modifies this`pc
      ensures Valid() && Abs() == Step(config, old(Abs()), cpu) && pc == Store(nextPkt, p)
    {
      p := lwipRxPbuf[lwipRxIndex];
      pc := Store(nextPkt, p);
    }

    /** The replacement goes into that slot. */
    method StoreSlot(nextPkt: PbufId, p: PbufId, ghost cpu: Event)
      requires Valid() && pc == Store(nextPkt, p) && cpu.Cpu?
      modifies this`pc, lwipRxPbuf
      ensures Valid() && Abs() == Step(config, old(Abs()), cpu) && pc == Advance(p)
    {
      ghost var s := Abs();
      lwipRxPbuf[lwipRxIndex] := nextPkt;
      pc := Advance(p);
      assert Abs().ring == s.ring[s.idx := nextPkt];
    }

    /** The consumer moves to the next slot, around the ring. */
    method AdvanceIndex(p: PbufId, ghost cpu: Event)
      requires Valid() && pc == Advance(p) && cpu.Cpu?
      modifies this`pc, this`lwipRxIndex
      ensures Valid() && Abs() == Step(config, old(Abs()), cpu) && pc == Inspect(p)
    {
      lwipRxIndex := lwipRxIndex + 1;
      if lwipRxIndex >= config.slots {
        lwipRxIndex := 0;
      }
      pc := Inspect(p);
    }

    /** A frame of length zero is not handed on, and its pbuf is forgotten. */
    method TestLength(p: PbufId, ghost cpu: Event) returns (packet: Option<PbufId>)
      requires Valid() && pc == Inspect(p) && cpu.Cpu?
      modifies this`pc, this`lost, this`taken
      ensures Valid() && Abs() == Step(config, old(Abs()), cpu)
      ensures pc == if packet.None? then Idle else Dispatch(packet.value)
    {
      if mem[p].len == 0 {
        lost := lost + {p};
        taken := taken + [Content(mem[p])];
        pc := Idle;
        return None;
      }
      pc := Dispatch(p);
      return Some(p);
    }

    /** The rest of ethernetif_input: hand the packet up, or free it. */
    method Dispose(p: PbufId, cpu: Event)
      requires Valid() && pc == Dispatch(p) && cpu.Cpu?
      modifies this
      ensures Valid() && Abs() == Step(config, old(Abs()), cpu)
      ensures stack == old(stack) + if cpu.known && cpu.ok then {p} else {}
      ensures pool == old(pool) + if cpu.known && cpu.ok then {} else {p}
    {
      taken := taken + [Content(mem[p])];
      if cpu.known {
        if cpu.ok {
          stack := stack + {p};
        } else {
          pool := pool + {p};
        }
      } else {
        pool := pool + {p};
      }
      pc := Idle;
    }

    /** The consumer's next statement: low_level_input and then ethernetif_input, resumed
        where the last interrupt left them. */
    method Statement(alloc: Option<PbufId>, known: bool, ok: bool)
      requires Valid()
      modifies this, lwipRxPbuf
      ensures Valid() && Abs() == Step(config, old(Abs()), Cpu(alloc, known, ok))
    {
      ghost var cpu := Cpu(alloc, known, ok);
      match pc {
        case Idle => var _ := TestCount(cpu);
        case Allocate => var _ := PbufAlloc(alloc, cpu);
        case Decrement(q) => LowerCount(q, cpu);
        case Load(q) => var _ := LoadSlot(q, cpu);
        case Store(q, p) => StoreSlot(q, p, cpu);
        case Advance(p) => AdvanceIndex(p, cpu);
        case Inspect(p) => var _ := TestLength(p, cpu);
        case Dispatch(p) => Dispose(p, Cpu(alloc, known, ok));
      }
    }

    /** One event of the interleaving. */
    method Happen(e: Event)
      requires Valid()
      modifies this, mem, lwipRxPbuf
      ensures Valid() && Abs() == Step(config, old(Abs()), e)
    {
      match e {
        case Dma(f) => if pending.None? { DmaComplete(f); }
        case Isr(ok) => if pending.Some? { TseMacRcv(ok); }
        case StackFree(p) => if p in stack { PbufFree(p); }
        case Cpu(alloc, known, ok) => Statement(alloc, known, ok);
      }
    }

    /** The driver under any interleaving whatever: it follows the ring's transitions, so the
        theorems of RxRing about runs are theorems about these fields. */
    method Run(evs: seq<Event>)
      requires Valid()
      modifies this, mem, lwipRxPbuf
      ensures Valid() && Abs() == Exec(config, old(Abs()), evs)
    {
      ghost var s := Abs();
      assert evs[..0] == [];
      for i := 0 to |evs|
        invariant Valid() && Abs() == Exec(config, s, evs[..i])
      {
        Happen(evs[i]);
        ExecSnoc(config, s, evs[..i], evs[i]);
        assert evs[..i] + [evs[i]] == evs[..i + 1];
      }
      assert evs[..|evs|] == evs;
    }

    /** Initialise, then run: the fields are where the events lead from an initial state of the
        ring. So each pbuf keeps one owner, the bytes are counted and the stack has the pbufs it
        was given and has not freed, with any limit, and the frames handed up are a prefix of the
        frames kept on every run in which each interrupt finds room. */
    method InitAndRun(evs: seq<Event>) returns (ghost start: State)
      requires config.Valid() && lwipRxPbuf.Length == config.slots && mem.Length >= config.slots
      requires pool == Pointers(mem.Length) && stack == {} && lost == {} && pc.Idle?
      requires accepted == [] && taken == [] && pending.None? && bytesRecv == 0
      modifies this, mem, lwipRxPbuf
      ensures Init(config, start) && Abs() == Exec(config, start, evs)
      ensures Inv(config, Abs()) && bytesRecv == TotalLength(accepted) % TWO_32
      ensures forall p :: p in stack <==> OnLoan(config, start, evs, p)
      ensures RoomyRun(config, start, evs) ==> Fifo(config, Abs())
    {
      var ok := EthernetifInit();
      start := Abs();
      Run(evs);
      forall p ensures p in stack <==> OnLoan(config, start, evs, p) {
        StackHasWhatItWasGiven(config, start, evs, p);
      }
      EveryRunKeepsRing(config, start, evs);
      EveryRunCountsBytes(config, start, evs);
      if RoomyRun(config, start, evs) {
        RoomyRunIsSafe(config, start, evs);
      }
    }
  }

  /** The pool's pbufs before any is handed out. */
  function Pointers(n: nat): (r: set<PbufId>)
    ensures |r| == n && forall i: PbufId :: i in r <==> i < n
  {
    if n == 0 then {} else Pointers(n - 1) + {n - 1}
  }

  /** The n pbufs are split between a list and the pool, each in exactly one place. */
  ghost predicate Dealt(r: seq<PbufId>, pool: set<PbufId>, n: nat) {
    forall p: PbufId :: multiset(r)[p] + (if p in pool then 1 else 0) == if p < n then 1 else 0
  }

  lemma Deal(r: seq<PbufId>, pool: set<PbufId>, n: nat, x: PbufId)
    requires Dealt(r, pool, n) && x in pool
    ensures Dealt(r + [x], pool - {x}, n)
  {
    forall p: PbufId
      ensures multiset(r + [x])[p] + (if p in pool - {x} then 1 else 0) == if p < n then 1 else 0
    {
      assert multiset(r + [x]) == multiset(r) + multiset{x};
    }
  }

  lemma DealtIsInit(c: Config, s: State)
    requires c.Valid() && |s.ring| == c.slots && Dealt(s.ring, s.pool, |s.mem|)
    requires s.stack == {} && s.lost == {} && s.pc.Idle? && s.isr == s.idx == s.count == 0
    requires s.armed == s.ring[0] && s.pending.None? && s.bytesRecv == 0 && s.accepted == [] && s.taken == []
    ensures Init(c, s)
  {
    forall p: PbufId ensures Count(s, p) == if p < |s.mem| then 1 else 0 {
      assert multiset(s.ring)[p] + (if p in s.pool then 1 else 0) == if p < |s.mem| then 1 else 0;
    }
    forall k | 0 <= k < |s.ring| ensures s.ring[k] < |s.mem| {
      assert s.ring[k] in multiset(s.ring);
    }
  }
}
