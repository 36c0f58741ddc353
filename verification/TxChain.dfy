/** The transmit side: tse_mac_raw_send walks a pbuf chain and gives the DMA one fragment
    per pbuf, through a bounce buffer when the payload is not word aligned. */
module TxChain {
  import opened Common

  /** A pbuf chain: the payload's address and bytes, and the next pbuf. */
  datatype Chain = Null | Pbuf(addr: nat, payload: seq<bv8>, next: Chain)

  /** What the SGDMA descriptor describes: the bytes read and the two framing flags. */
  datatype Fragment = Fragment(data: seq<bv8>, sop: bool, eop: bool)

  const BOUNCE: nat := 1560

  function Count(p: Chain): nat { if p.Null? then 0 else 1 + Count(p.next) }

  function Payload(p: Chain): seq<bv8> { if p.Null? then [] else p.payload + Payload(p.next) }

  /** Every piece that has to go through the bounce buffer fits in it. */
  predicate Bounceable(p: Chain) {
    p.Null? || ((p.addr % 4 != 0 ==> |p.payload| <= BOUNCE) && Bounceable(p.next))
  }

  function Data(fs: seq<Fragment>): seq<bv8> {
    if fs == [] then [] else Data(fs[..|fs| - 1]) + fs[|fs| - 1].data
  }

  /** The frame on the wire is delimited: start of packet on the first fragment only, end of
      packet on the last only. */
  predicate Framed(fs: seq<Fragment>) {
    forall i :: 0 <= i < |fs| ==> (fs[i].sop <==> i == 0) && (fs[i].eop <==> i == |fs| - 1)
  }

  function Sum(tx: nat -> int, n: nat): int { if n == 0 then 0 else Sum(tx, n - 1) + tx(n - 1) }

  /** The lengths of the pieces, as the synchronous write reports them when it succeeds. */
  predicate FullWrites(p: Chain, tx: nat -> int, i: nat) {
    p.Null? || (tx(i) == |p.payload| && FullWrites(p.next, tx, i + 1))
  }

  /** When every write reports its full length the reports add up to the payload. */
  lemma {:induction false} FullWritesSum(p: Chain, tx: nat -> int, i: nat)
    requires FullWrites(p, tx, i)
    ensures Sum(tx, i + Count(p)) == Sum(tx, i) + |Payload(p)|
    decreases p
  {
    if p.Null? {
    } else {
      FullWritesSum(p.next, tx, i + 1);
    }
  }

  lemma {:induction false} DataSnoc(fs: seq<Fragment>, f: Fragment)
    ensures Data(fs + [f]) == Data(fs) + f.data
  {
    assert (fs + [f])[..|fs|] == fs;
  }

  /** Part way along the chain: the fragments so far and the pieces still to go make up the
      whole, and the flags so far are right. */
  ghost predicate Partway(pkt: Chain, p: Chain, sent: seq<Fragment>) {
    && |sent| + Count(p) == Count(pkt)
    && (p == pkt <==> sent == [])
    && Data(sent) + Payload(p) == Payload(pkt)
    && (forall i :: 0 <= i < |sent| ==> (sent[i].sop <==> i == 0) && (sent[i].eop <==> i == Count(pkt) - 1))
  }

  lemma Assoc(a: seq<bv8>, b: seq<bv8>, c: seq<bv8>)
    ensures a + (b + c) == (a + b) + c
  {
  }

  lemma SendOneData(p: Chain, sent: seq<Fragment>, f: Fragment)
    requires p.Pbuf? && f.data == p.payload
    ensures Data(sent + [f]) + Payload(p.next) == Data(sent) + Payload(p)
  {
    DataSnoc(sent, f);
    Assoc(Data(sent), p.payload, Payload(p.next));
  }

  lemma SendOne(pkt: Chain, p: Chain, sent: seq<Fragment>)
    requires Partway(pkt, p, sent) && p != Null
    ensures Partway(pkt, p.next, sent + [Fragment(p.payload, p == pkt, p.next == Null)])
  {
    SendOneData(p, sent, Fragment(p.payload, p == pkt, p.next == Null));
    assert p.next == Null <==> Count(p.next) == 0;
  }

  /** memcpy into the bounce buffer. */
  method Copy(dst: array<bv8>, src: seq<bv8>)
    requires |src| <= dst.Length
    modifies dst
    ensures dst[..|src|] == src && dst[|src|..] == old(dst[|src|..])
  {
    for i := 0 to |src|
      invariant dst[..i] == src[..i]
      invariant forall k :: |src| <= k < dst.Length ==> dst[k] == old(dst[k])
    {
      dst[i] := src[i];
    }
  }

  class Transmitter {
    var bytesSent: nat
    var wire: seq<Fragment>

    /** The data the descriptor points to: the payload itself, or its copy when unaligned. */
    method Aligned(p: Chain, buf2: array<bv8>) returns (data: seq<bv8>)
      requires p != Null && Bounceable(p) && buf2.Length == BOUNCE
      modifies buf2
      ensures data == p.payload
    {
      data := p.payload;
      if p.addr % 4 != 0 {
        Copy(buf2, p.payload);
        data := buf2[..|p.payload|];
      }
    }

    /** tse_mac_raw_send; tx(i) is what the i-th synchronous write reports. The fragments put
        on the wire carry the chain's bytes, in order and framed as one packet. */
    method RawSend(pkt: Chain, tx: nat -> int) returns (ghost sent: seq<Fragment>)
      requires Bounceable(pkt) && bytesSent < TWO_32
      modifies this
      ensures wire == old(wire) + sent
      ensures |sent| == Count(pkt) && Data(sent) == Payload(pkt) && Framed(sent)
      ensures bytesSent == (old(bytesSent) + Sum(tx, Count(pkt))) % TWO_32
      ensures FullWrites(pkt, tx, 0) ==> bytesSent == (old(bytesSent) + |Payload(pkt)|) % TWO_32
    {
      var buf2 := new bv8[BOUNCE];
      var p, n := pkt, 0;
      sent := [];
      while p != Null
        invariant Bounceable(p) && Partway(pkt, p, sent) && n == |sent|
        invariant wire == old(wire) + sent
        invariant bytesSent == (old(bytesSent) + Sum(tx, n)) % TWO_32
        decreases Count(p)
      {
        var data := Aligned(p, buf2);
        var f := Fragment(data, p == pkt, p.next == Null);
        SendOne(pkt, p, sent);
        wire := wire + [f];
        sent := sent + [f];
        ModAdd(old(bytesSent) + Sum(tx, n), tx(n));
        bytesSent := (bytesSent + tx(n)) % TWO_32;
        p, n := p.next, n + 1;
      }
      if FullWrites(pkt, tx, 0) {
        FullWritesSum(pkt, tx, 0);
      }
    }
  }
}
