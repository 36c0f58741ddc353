/** The web server's connection handler: the callbacks of httpd.c on one connection, in any
    order in which lwIP may call them, with any answers of tcp_sndbuf, tcp_write and tcp_close. */
module Httpd {
  import opened Common
  import opened Fs
  import opened RequestLine

  const MAX_RETRIES: nat := 4

  // ----- what lwIP answers -----------------------------------------------------------------

  datatype Answer = Done | NoMemory | Refused

  datatype CloseAnswer = Closing | Deallocated | Failed

  /** One call's worth of answers: the send buffer's room (a u16_t), the k-th tcp_write, and
      tcp_close. */
  datatype Tcp = Tcp(sndbuf: nat, write: nat -> Answer, close: CloseAnswer)

  predicate IsTcp(t: Tcp) { t.sndbuf < TWO_16 }

  // ----- the state of a connection ---------------------------------------------------------

  datatype Hs = Hs(file: Option<seq<Octet>>, pos: nat, left: nat, retries: nat)

  /** The control block: not yet accepted, in ESTABLISHED, in CLOSE_WAIT, in one of the states
      after tcp_close has succeeded, or deallocated. */
  datatype Pcb = Pending | Established | CloseWait | Ending | Gone

  datatype Conn = Conn(
    pcb: Pcb,
    arg: bool, sent: bool, recv: bool,  // the callback argument and the callbacks are set
    hs: Hs, live: bool,                 // the http_state block, and whether it is allocated
    out: seq<Octet>,                    // everything tcp_write has accepted
    allocs: nat, frees: nat,            // calls of mem_malloc that succeeded, and of mem_free
    fault: bool,                        // some callback has used a block that was not allocated
    quiet: nat)                         // polls since the last sent callback

  datatype Event =
    | Accept(memory: bool)
    | Recv(mem: seq<Octet>, tcp: Tcp)   // a segment
    | RecvError                         // a call with an error code
    | Fin(tcp: Tcp)                     // the peer has closed
    | Sent(tcp: Tcp)
    | Poll(tcp: Tcp)
    | Err                               // the connection was reset or given up
    | Removed                           // a closed connection's control block is deallocated

  predicate IsEvent(e: Event) {
    match e
    case Recv(mem, t) => Memory(mem) && IsTcp(t)
    case Fin(t) => IsTcp(t)
    case Sent(t) => IsTcp(t)
    case Poll(t) => IsTcp(t)
    case _ => true
  }

  const FRESH := Conn(Pending, false, false, false, Hs(None, 0, 0, 0), false, [], 0, 0, false, 0)

  // ----- send_data -------------------------------------------------------------------------

  /** The do-while loop: how the last attempt ended and the length it leaves. */
  function Write(len: nat, write: nat -> Answer, k: nat): (r: (Answer, nat))
    ensures r.1 <= len
  {
    var err := write(k);
    if err == NoMemory then
      if len / 2 > 1 then Write(len / 2, write, k + 1) else (NoMemory, len / 2)
    else (err, len)
  }

  /** The lengths the loop attempts. */
  function Attempts(len: nat, write: nat -> Answer, k: nat): seq<nat> {
    [len] + if write(k) == NoMemory && len / 2 > 1 then Attempts(len / 2, write, k + 1) else []
  }

  /** A callback uses the block it was given. */
  function Use(s: Conn): Conn {
    if s.arg && s.live then s else s.(fault := true)
  }

  function SendData(s: Conn, t: Tcp): Conn {
    var len := Min(t.sndbuf, s.hs.left);
    var (err, n) := Write(len, t.write, 0);
    if err != Done || s.hs.file.None? then s
    else if s.hs.pos + n <= |s.hs.file.value| then
      s.(out := s.out + s.hs.file.value[s.hs.pos..s.hs.pos + n],
         hs := s.hs.(pos := s.hs.pos + n, left := s.hs.left - n))
    else s.(fault := true)
  }

  // ----- the other functions of httpd.c ----------------------------------------------------

  function Free(s: Conn): Conn {
    s.(frees := s.frees + 1, fault := s.fault || !s.live, live := false)
  }

  /** The control block is deallocated, and conn_err has been called with its argument;
      mem_free ignores a null pointer. */
  function Abort(s: Conn): Conn {
    (if s.arg then Free(s) else s).(pcb := Gone, arg := false, sent := false, recv := false)
  }

  function CloseConn(s: Conn, close: CloseAnswer): Conn {
    Free(s).(arg := false, sent := false, recv := false,
             pcb := match close case Closing => Ending case Deallocated => Pcb.Gone case Failed => s.pcb)
  }

  /** ++hs->retries, in eight bits. */
  function Retry(s: Conn): Conn {
    s.(hs := s.hs.(retries := (s.hs.retries + 1) % 256), quiet := s.quiet + 1)
  }

  function HttpPoll(s: Conn, t: Tcp): Conn {
    if !s.arg then if s.pcb.Established? then Abort(s) else s
    else
      var v := Retry(Use(s));
      if v.hs.retries == MAX_RETRIES then Abort(Free(v).(arg := false)) else SendData(v, t)
  }

  function HttpSent(s: Conn, t: Tcp): Conn {
    if !s.sent then s
    else
      var u := Use(s);
      var v := u.(hs := u.hs.(retries := 0), quiet := 0);
      if v.hs.left > 0 then SendData(v, t) else CloseConn(v, t.close)
  }

  /** A file begins to be served. */
  function Open(s: Conn, file: seq<Octet>): Conn {
    s.(hs := s.hs.(file := Some(file), pos := 0, left := |file|))
  }

  function HttpRecv(fs: Files, s: Conn, mem: seq<Octet>, t: Tcp): Conn
    requires HasDefaults(fs) && Memory(mem)
  {
    if !s.recv then Abort(s)  // data after tcp_close
    else
      var u := Use(s);
      if u.hs.file.Some? then u
      else if IsGet(mem) then SendData(Open(u, Chosen(fs, mem)), t).(sent := true)
      else CloseConn(u, t.close)
  }

  function HttpFin(s: Conn, t: Tcp): Conn {
    var u := s.(pcb := if s.pcb.Established? then CloseWait else s.pcb);
    if s.recv then CloseConn(u, t.close) else u
  }

  function HttpAccept(s: Conn, memory: bool): Conn {
    if memory then
      s.(pcb := Established, arg := true, recv := true, hs := Hs(None, 0, 0, 0), live := true,
         allocs := s.allocs + 1)
    else s.(pcb := Gone)
  }

  function Step(fs: Files, s: Conn, e: Event): Conn
    requires HasDefaults(fs) && IsEvent(e)
  {
    match s.pcb
    case Pending => if e.Accept? then HttpAccept(s, e.memory) else s
    case Gone => s
    case _ =>
      match e
      case Accept(_) => s
      case Recv(mem, t) => HttpRecv(fs, s, mem, t)
      case RecvError => s
      case Fin(t) => HttpFin(s, t)
      case Sent(t) => HttpSent(s, t)
      case Poll(t) => HttpPoll(s, t)
      case Err => Abort(s)
      case Removed => if s.recv then s else s.(pcb := Gone)
  }

  predicate AreEvents(evs: seq<Event>) { forall i :: 0 <= i < |evs| ==> IsEvent(evs[i]) }

  function Exec(fs: Files, s: Conn, evs: seq<Event>): Conn
    requires HasDefaults(fs) && AreEvents(evs)
    decreases |evs|
  {
    if |evs| == 0 then s else Step(fs, Exec(fs, s, evs[..|evs| - 1]), evs[|evs| - 1])
  }

  // ----- send_data: attempts ---------------------------------------------------------------

  function Pow2(n: nat): (p: nat)
    ensures p > 0
  {
    if n == 0 then 1 else 2 * Pow2(n - 1)
  }

  /** Attempt j + 1, if it is made, follows a refusal for want of memory and is for half as
      much, but no fewer than two bytes. */
  predicate Halved(a: seq<nat>, write: nat -> Answer, k: nat, j: nat) {
    j + 1 < |a| ==> write(k + j) == NoMemory && a[j + 1] == a[j] / 2 >= 2
  }

  lemma {:induction false} AttemptsHalve(len: nat, write: nat -> Answer, k: nat)
    ensures forall j: nat :: Halved(Attempts(len, write, k), write, k, j)
    decreases len
  {
    var a := Attempts(len, write, k);
    if write(k) == NoMemory && len / 2 > 1 {
      AttemptsHalve(len / 2, write, k + 1);
      var b := Attempts(len / 2, write, k + 1);
      assert a == [len] + b && b[0] == len / 2;
      forall j: nat ensures Halved(a, write, k, j) {
        if j > 0 {
          assert Halved(b, write, k + 1, j - 1);
          assert k + 1 + (j - 1) == k + j;
        }
      }
    }
  }

  lemma AttemptsUnfold(before: seq<nat>, len: nat, write: nat -> Answer, k: nat)
    ensures before + Attempts(len, write, k) ==
              (before + [len]) + if write(k) == NoMemory && len / 2 > 1 then Attempts(len / 2, write, k + 1) else []
  {
  }

  lemma {:induction false} AttemptsFit(len: nat, write: nat -> Answer, k: nat)
    ensures forall j: nat :: j < |Attempts(len, write, k)| ==> Attempts(len, write, k)[j] <= len
    decreases len
  {
    if write(k) == NoMemory && len / 2 > 1 {
      AttemptsFit(len / 2, write, k + 1);
    }
  }

  lemma {:induction false} LastAttempt(len: nat, write: nat -> Answer, k: nat)
    ensures var a, r := Attempts(len, write, k), Write(len, write, k);
            if r.0 != NoMemory then r.1 == a[|a| - 1] else a[|a| - 1] < 4
    decreases len
  {
    if write(k) == NoMemory && len / 2 > 1 {
      LastAttempt(len / 2, write, k + 1);
      var a, b := Attempts(len, write, k), Attempts(len / 2, write, k + 1);
      assert a == [len] + b && a[|a| - 1] == b[|b| - 1];
    }
  }

  lemma {:induction false} LastAnswer(len: nat, write: nat -> Answer, k: nat)
    ensures Write(len, write, k).0 == write(k + |Attempts(len, write, k)| - 1)
    decreases len
  {
    if write(k) == NoMemory && len / 2 > 1 {
      LastAnswer(len / 2, write, k + 1);
      assert |Attempts(len, write, k)| == 1 + |Attempts(len / 2, write, k + 1)|;
    }
  }

  /** What is written is the last attempt; the loop gives up only below four bytes. */
  lemma {:induction false} WriteIsTheLast(len: nat, write: nat -> Answer, k: nat)
    ensures var a, r := Attempts(len, write, k), Write(len, write, k);
            && r.0 == write(k + |a| - 1)
            && (r.0 != NoMemory ==> r.1 == a[|a| - 1])
            && (r.0 == NoMemory ==> a[|a| - 1] < 4)
  {
    LastAttempt(len, write, k);
    LastAnswer(len, write, k);
  }

  lemma {:induction false} AttemptsAreFew(len: nat, write: nat -> Answer, k: nat, n: nat)
    requires n >= 1 && len < Pow2(n + 1)
    ensures |Attempts(len, write, k)| <= n
    decreases n
  {
    if n == 1 {
      assert Pow2(0) == 1 && Pow2(1) == 2 && Pow2(2) == 4;
    } else {
      assert len / 2 < Pow2(n);
      AttemptsAreFew(len / 2, write, k + 1, n - 1);
    }
  }

  /** Every call of send_data ends after at most fifteen calls of tcp_write, none with more than
      the send buffer holds, than is left, or than fits the sixteen bits of its length. */
  lemma SendDataEnds(s: Conn, t: Tcp)
    requires IsTcp(t)
    ensures var a := Attempts(Min(t.sndbuf, s.hs.left), t.write, 0);
            && a[0] == Min(t.sndbuf, s.hs.left) && 1 <= |a| <= 15
            && (forall j: nat :: j < |a| ==> a[j] <= t.sndbuf && a[j] <= s.hs.left && a[j] < TWO_16)
            && (forall j: nat :: Halved(a, t.write, 0, j))
  {
    var len := Min(t.sndbuf, s.hs.left);
    AttemptsHalve(len, t.write, 0);
    AttemptsFit(len, t.write, 0);
    Pow2Sixteen();
    AttemptsAreFew(len, t.write, 0, 15);
  }

  lemma Pow2Sixteen()
    ensures Pow2(16) == TWO_16
  {
    assert Pow2(4) == 16;
    assert Pow2(8) == 256;
    assert Pow2(12) == 4096;
  }

  // ----- invariants ------------------------------------------------------------------------

  /** The block is allocated while the callbacks refer to it and only then, it was allocated at
      most once, and no callback has touched it otherwise. */
  predicate Lifetime(s: Conn) {
    && !s.fault && (s.arg <==> s.live) && (s.recv <==> s.live)
    && (s.sent ==> s.live && s.hs.file.Some?)
    && s.frees + (if s.live then 1 else 0) == s.allocs <= 1
    && (s.live ==> s.pcb.Established? || s.pcb.CloseWait?)
    && (s.pcb.Pending? ==> s == FRESH)
  }

  /** What has been given to TCP is the part of the chosen file in front of the position. */
  predicate Stream(s: Conn) {
    match s.hs.file
    case None => s.hs.left == 0 && s.out == []
    case Some(file) => s.hs.pos + s.hs.left == |file| && s.out == file[..s.hs.pos]
  }

  predicate Patience(s: Conn) {
    s.live ==> s.hs.retries == s.quiet < MAX_RETRIES
  }

  lemma SendDataKeeps(s: Conn, t: Tcp)
    requires Lifetime(s) && Stream(s)
    ensures Lifetime(SendData(s, t)) && Stream(SendData(s, t))
    ensures var r := SendData(s, t);
            r.live == s.live && r.hs.file == s.hs.file && r.hs.retries == s.hs.retries && r.quiet == s.quiet
  {
    var (err, n) := Write(Min(t.sndbuf, s.hs.left), t.write, 0);
    if err == Done && s.hs.file.Some? {
      var file := s.hs.file.value;
      assert file[..s.hs.pos] + file[s.hs.pos..s.hs.pos + n] == file[..s.hs.pos + n];
    }
  }

  lemma CloseConnKeeps(s: Conn, close: CloseAnswer)
    requires Lifetime(s) && s.live
    ensures Lifetime(CloseConn(s, close)) && !CloseConn(s, close).live
  {
  }

  lemma PollKeeps(s: Conn, t: Tcp)
    requires Lifetime(s) && Stream(s) && Patience(s)
    ensures var r := HttpPoll(s, t); Lifetime(r) && Stream(r) && Patience(r)
  {
    if s.arg {
      var v := Retry(s);
      if v.hs.retries < MAX_RETRIES {
        SendDataKeeps(v, t);
      }
    }
  }

  lemma SentKeeps(s: Conn, t: Tcp)
    requires Lifetime(s) && Stream(s) && Patience(s)
    ensures var r := HttpSent(s, t); Lifetime(r) && Stream(r) && Patience(r)
  {
    if s.sent {
      var v := s.(hs := s.hs.(retries := 0), quiet := 0);
      if v.hs.left > 0 {
        SendDataKeeps(v, t);
      } else {
        CloseConnKeeps(v, t.close);
      }
    }
  }

  lemma RecvKeeps(fs: Files, s: Conn, mem: seq<Octet>, t: Tcp)
    requires HasDefaults(fs) && Memory(mem)
    requires Lifetime(s) && Stream(s) && Patience(s) && !s.pcb.Pending?
    ensures var r := HttpRecv(fs, s, mem, t); Lifetime(r) && Stream(r) && Patience(r)
  {
    if s.recv && s.hs.file.None? {
      if IsGet(mem) {
        var file := Chosen(fs, mem);
        assert file[..0] == [];
        SendDataKeeps(Open(s, file), t);
      } else {
        CloseConnKeeps(s, t.close);
      }
    }
  }

  lemma {:induction false} StepKeeps(fs: Files, s: Conn, e: Event)
    requires HasDefaults(fs) && IsEvent(e) && Lifetime(s) && Stream(s) && Patience(s)
    ensures var r := Step(fs, s, e); Lifetime(r) && Stream(r) && Patience(r)
  {
    if !s.pcb.Pending? && !s.pcb.Gone? {
      match e
      case Recv(mem, t) => RecvKeeps(fs, s, mem, t);
      case Sent(t) => SentKeeps(s, t);
      case Poll(t) => PollKeeps(s, t);
      case _ =>
    }
  }

  lemma {:induction false} ExecKeeps(fs: Files, s: Conn, evs: seq<Event>)
    requires HasDefaults(fs) && AreEvents(evs) && Lifetime(s) && Stream(s) && Patience(s)
    ensures var r := Exec(fs, s, evs); Lifetime(r) && Stream(r) && Patience(r)
    decreases |evs|
  {
    if |evs| == 0 {
    } else {
      ExecKeeps(fs, s, evs[..|evs| - 1]);
      StepKeeps(fs, Exec(fs, s, evs[..|evs| - 1]), evs[|evs| - 1]);
    }
  }

  // ----- what TCP is given -----------------------------------------------------------------

  /** What one call of send_data hands to TCP from a position in a file: as many bytes as its last
      attempt was for, if tcp_write accepted that attempt, and otherwise nothing. */
  function Piece(file: Option<seq<Octet>>, pos: nat, t: Tcp): seq<Octet> {
    if file.None? || pos > |file.value| then []
    else
      var len := Min(t.sndbuf, |file.value| - pos);
      var a := Attempts(len, t.write, 0);
      AttemptsFit(len, t.write, 0);
      if t.write(|a| - 1) == Done then file.value[pos..pos + a[|a| - 1]] else []
  }

  /** Whatever the answers, what tcp_write accepts is sent, skipped and no longer left, and nothing
      else changes. */
  lemma {:induction false} SendDataGives(s: Conn, t: Tcp)
    requires Lifetime(s) && Stream(s)
    ensures var p := Piece(s.hs.file, s.hs.pos, t);
            && |p| <= s.hs.left
            && SendData(s, t) ==
               s.(out := s.out + p, hs := s.hs.(pos := s.hs.pos + |p|, left := s.hs.left - |p|))
  {
    if s.hs.file.Some? {
      WriteIsTheLast(Min(t.sndbuf, s.hs.left), t.write, 0);
    }
  }

  /** What an event hands to TCP after so much has been handed over: a request opens its file; after
      that every sent callback, and every poll but the fourth quiet one, goes on with it. */
  function Handed(fs: Files, s: Conn, e: Event, given: nat): seq<Octet>
    requires HasDefaults(fs) && IsEvent(e)
  {
    match e
    case Recv(mem, t) =>
      if s.live && s.hs.file.None? && IsGet(mem) then Piece(Some(Chosen(fs, mem)), 0, t) else []
    case Sent(t) => if s.sent then Piece(s.hs.file, given, t) else []
    case Poll(t) => if s.live && s.quiet + 1 < MAX_RETRIES then Piece(s.hs.file, given, t) else []
    case _ => []
  }

  /** All the pieces tcp_write has accepted on a run, one after the other. */
  function Given(fs: Files, evs: seq<Event>): seq<Octet>
    requires HasDefaults(fs) && AreEvents(evs)
    decreases |evs|
  {
    if |evs| == 0 then [] else
      var front := evs[..|evs| - 1];
      Given(fs, front) + Handed(fs, Exec(fs, FRESH, front), evs[|evs| - 1], |Given(fs, front)|)
  }

  lemma {:induction false} NothingLeftToGive(file: seq<Octet>, t: Tcp)
    ensures Piece(Some(file), |file|, t) == []
  {
    AttemptsFit(Min(t.sndbuf, 0), t.write, 0);
  }

  lemma PollHands(s: Conn, t: Tcp)
    requires Lifetime(s) && Stream(s) && Patience(s)
    ensures HttpPoll(s, t).out ==
              s.out + if s.live && s.quiet + 1 < MAX_RETRIES then Piece(s.hs.file, |s.out|, t) else []
  {
    if s.live && s.quiet + 1 < MAX_RETRIES {
      SendDataGives(Retry(s), t);
    }
  }

  lemma SentHands(s: Conn, t: Tcp)
    requires Lifetime(s) && Stream(s) && Patience(s)
    ensures HttpSent(s, t).out == s.out + if s.sent then Piece(s.hs.file, |s.out|, t) else []
  {
    if s.sent {
      if s.hs.left > 0 {
        SendDataGives(s.(hs := s.hs.(retries := 0), quiet := 0), t);
      } else {
        NothingLeftToGive(s.hs.file.value, t);
      }
    }
  }

  lemma RecvHands(fs: Files, s: Conn, mem: seq<Octet>, t: Tcp)
    requires HasDefaults(fs) && Memory(mem) && IsTcp(t)
    requires Lifetime(s) && Stream(s) && Patience(s)
    ensures HttpRecv(fs, s, mem, t).out == s.out + Handed(fs, s, Recv(mem, t), |s.out|)
  {
    if s.live && s.hs.file.None? && IsGet(mem) {
      assert Chosen(fs, mem)[..0] == [];
      SendDataGives(Open(s, Chosen(fs, mem)), t);
    }
  }

  lemma {:induction false} StepHands(fs: Files, s: Conn, e: Event)
    requires HasDefaults(fs) && IsEvent(e) && Lifetime(s) && Stream(s) && Patience(s)
    ensures Step(fs, s, e).out == s.out + Handed(fs, s, e, |s.out|)
  {
    match e {
      case Recv(mem, t) => RecvHands(fs, s, mem, t);
      case Sent(t) => SentHands(s, t);
      case Poll(t) => PollHands(s, t);
      case _ =>
    }
  }

  /** On every run, whatever tcp_write answers, what has been written is exactly what it accepted. */
  lemma {:induction false} OutIsWhatTcpAccepted(fs: Files, evs: seq<Event>)
    requires HasDefaults(fs) && AreEvents(evs)
    ensures Exec(fs, FRESH, evs).out == Given(fs, evs)
    decreases |evs|
  {
    if |evs| == 0 {
    } else {
      var front := evs[..|evs| - 1];
      OutIsWhatTcpAccepted(fs, front);
      ExecKeeps(fs, FRESH, front);
      StepHands(fs, Exec(fs, FRESH, front), evs[|evs| - 1]);
    }
  }

  // ----- the theorems ----------------------------------------------------------------------

  /** On every run the http_state block is freed at most once, exactly once when the connection
      is over and never before; no callback touches it without owning it; and it never sees a
      fourth poll without a sent callback. Callbacks are registered only while it is allocated. */
  lemma {:induction false} EveryRunFreesOnce(fs: Files, evs: seq<Event>)
    requires HasDefaults(fs) && AreEvents(evs)
    ensures var s := Exec(fs, FRESH, evs);
            && !s.fault && s.frees <= s.allocs <= 1
            && (s.pcb.Gone? || s.pcb.Ending? ==> s.frees == s.allocs)
            && (s.live ==> s.frees == 0 && s.hs.retries == s.quiet <= 3)
            && (s.arg || s.sent || s.recv ==> s.live)
  {
    ExecKeeps(fs, FRESH, evs);
  }

  /** On every run the bytes given to TCP are the first |file| - left bytes of the file chosen. */
  lemma {:induction false} EveryRunSendsAPrefix(fs: Files, evs: seq<Event>)
    requires HasDefaults(fs) && AreEvents(evs)
    ensures var s := Exec(fs, FRESH, evs);
            match s.hs.file
            case None => s.out == []
            case Some(file) => s.hs.left <= |file| && s.out == file[..|file| - s.hs.left]
  {
    ExecKeeps(fs, FRESH, evs);
  }

  /** The sent callback closes the connection exactly when the whole file has been written. */
  lemma SentClosesIffWritten(s: Conn, t: Tcp)
    requires Lifetime(s) && Stream(s) && Patience(s) && s.sent
    ensures !HttpSent(s, t).live <==> s.out == s.hs.file.value
  {
    var v := s.(hs := s.hs.(retries := 0), quiet := 0);
    if v.hs.left > 0 {
      SendDataKeeps(v, t);
      assert |s.out| == s.hs.pos < |s.hs.file.value|;
    } else {
      assert s.hs.file.value[..s.hs.pos] == s.hs.file.value;
    }
  }

  /** After a tcp_close that failed, the next poll gives the connection up exactly when the peer
      has not closed; in CLOSE_WAIT the control block is left to lwIP. */
  lemma PollReleasesIff(fs: Files, s: Conn, t: Tcp)
    requires HasDefaults(fs) && IsTcp(t) && Lifetime(s) && !s.live
    requires s.pcb.Established? || s.pcb.CloseWait? || s.pcb.Ending?
    ensures Step(fs, s, Poll(t)).pcb.Gone? <==> s.pcb.Established?
    ensures s.pcb.Established? ==> Step(fs, s, Poll(t)).frees == s.frees
  {
  }

  /** Once a file has been chosen no event changes the choice: later requests are ignored. */
  lemma TheFirstRequestCounts(fs: Files, s: Conn, e: Event)
    requires HasDefaults(fs) && IsEvent(e) && Lifetime(s) && !s.pcb.Pending?
    ensures s.hs.file.Some? ==> Step(fs, s, e).hs.file == s.hs.file
    ensures s.hs.file.None? && Step(fs, s, e).hs.file.Some? ==>
              e.Recv? && IsGet(e.mem) && Step(fs, s, e).hs.file.value == Chosen(fs, e.mem)
  {
  }

  function Polls(evs: seq<Event>): nat {
    if |evs| == 0 then 0 else Polls(evs[..|evs| - 1]) + if evs[|evs| - 1].Poll? then 1 else 0
  }

  predicate Quiet(evs: seq<Event>) { forall i :: 0 <= i < |evs| ==> !evs[i].Sent? }

  lemma QuietStep(fs: Files, s: Conn, e: Event)
    requires HasDefaults(fs) && IsEvent(e) && Lifetime(s) && Stream(s) && Patience(s)
    requires !e.Sent? && !s.pcb.Pending?
    ensures var r := Step(fs, s, e);
            r.live ==> s.live && r.quiet == s.quiet + if e.Poll? then 1 else 0
  {
    if e.Poll? && s.arg {
      SendDataKeeps(Retry(s), e.tcp);
    }
  }

  lemma SendDataKeepsPcb(s: Conn, t: Tcp)
    ensures SendData(s, t).pcb == s.pcb
  {
  }

  lemma {:induction false} NotPendingAgain(fs: Files, s: Conn, e: Event)
    requires HasDefaults(fs) && IsEvent(e) && !s.pcb.Pending?
    ensures !Step(fs, s, e).pcb.Pending?
  {
    match e {
      case Poll(t) => SendDataKeepsPcb(Retry(Use(s)), t);
      case Sent(t) =>
        var u := Use(s);
        SendDataKeepsPcb(u.(hs := u.hs.(retries := 0), quiet := 0), t);
      case Recv(mem, t) => SendDataKeepsPcb(Open(Use(s), Chosen(fs, mem)), t);
      case _ =>
    }
  }

  /** From any state of an accepted connection: four polls with no sent callback in between end
      it, whatever else happens. */
  lemma {:induction false} FourQuietPollsEnd(fs: Files, s: Conn, evs: seq<Event>)
    requires HasDefaults(fs) && AreEvents(evs) && Lifetime(s) && Stream(s) && Patience(s)
    requires Quiet(evs) && !s.pcb.Pending?
    ensures var r := Exec(fs, s, evs);
            !r.pcb.Pending? && (r.live ==> s.quiet + Polls(evs) == r.quiet < MAX_RETRIES)
    ensures Polls(evs) >= MAX_RETRIES ==> !Exec(fs, s, evs).live
    decreases |evs|
  {
    if |evs| == 0 {
    } else {
      var some, e := evs[..|evs| - 1], evs[|evs| - 1];
      FourQuietPollsEnd(fs, s, some);
      ExecKeeps(fs, s, some);
      NotPendingAgain(fs, Exec(fs, s, some), e);
      QuietStep(fs, Exec(fs, s, some), e);
      StepKeeps(fs, Exec(fs, s, some), e);
    }
  }

  /** A sent callback that finds room and a willing tcp_write. */
  predicate Flows(e: Event) { e.Sent? && IsEvent(e) && e.tcp.sndbuf > 0 && e.tcp.write(0) == Done }

  function FlowCount(evs: seq<Event>): nat
    decreases |evs|
  {
    if |evs| == 0 then 0 else (if Flows(evs[0]) then 1 else 0) + FlowCount(evs[1..])
  }

  /** The sent callbacks of a run all flow; in between there are further segments, and polls, but
      never four without a sent callback, `quiet` being those since the last. */
  predicate Flowing(evs: seq<Event>, quiet: nat)
    decreases |evs|
  {
    |evs| == 0 ||
    (IsEvent(evs[0]) &&
     match evs[0]
     case Sent(_) => Flows(evs[0]) && Flowing(evs[1..], 0)
     case Poll(_) => quiet + 1 < MAX_RETRIES && Flowing(evs[1..], quiet + 1)
     case Recv(_, _) => Flowing(evs[1..], quiet)
     case RecvError => Flowing(evs[1..], quiet)
     case _ => false)
  }

  lemma {:induction false} FlowingEvents(evs: seq<Event>, quiet: nat)
    requires Flowing(evs, quiet)
    ensures AreEvents(evs)
    decreases |evs|
  {
    if |evs| == 0 {
    } else {
      FlowingEvents(evs[1..], match evs[0] case Sent(_) => 0 case Poll(_) => quiet + 1 case _ => quiet);
      forall i | 0 <= i < |evs| ensures IsEvent(evs[i]) {
        assert i > 0 ==> evs[i] == evs[1..][i - 1];
      }
    }
  }

  lemma FlowStep(fs: Files, s: Conn, e: Event)
    requires HasDefaults(fs) && Flows(e) && Lifetime(s) && Stream(s) && Patience(s) && s.sent
    ensures var r := Step(fs, s, e);
            if s.hs.left == 0 then !r.live && r.out == s.hs.file.value
            else r.sent && r.live && r.hs.left < s.hs.left && r.hs.file == s.hs.file && r.quiet == 0
  {
    if s.hs.left == 0 {
      assert s.hs.file.value[..s.hs.pos] == s.hs.file.value;
    } else {
      SendDataKeeps(s.(hs := s.hs.(retries := 0), quiet := 0), e.tcp);
    }
  }

  /** Between sent callbacks a poll may write more, and a segment is ignored. */
  lemma WaitStep(fs: Files, s: Conn, e: Event)
    requires HasDefaults(fs) && IsEvent(e) && Lifetime(s) && Stream(s) && Patience(s) && s.sent
    requires e.Recv? || e.RecvError? || (e.Poll? && s.quiet + 1 < MAX_RETRIES)
    ensures var r := Step(fs, s, e);
            && r.sent && r.live && r.hs.left <= s.hs.left && r.hs.file == s.hs.file
            && r.quiet == s.quiet + if e.Poll? then 1 else 0
  {
    if e.Poll? {
      SendDataKeeps(Retry(s), e.tcp);
    }
  }

  /** After the first n events the connection is closed and the file has been written. */
  ghost predicate ServedBy(fs: Files, s: Conn, evs: seq<Event>, n: nat)
    requires HasDefaults(fs) && AreEvents(evs) && s.hs.file.Some?
  {
    n <= |evs| && !Exec(fs, s, evs[..n]).live && Exec(fs, s, evs[..n]).out == s.hs.file.value
  }

  /** While TCP accepts something at every sent callback the whole file is written and the
      connection closed by the time there have been left + 1 of them, whatever further segments
      arrive, and with up to three polls between one sent callback and the next. */
  lemma {:induction false} TheWholeFileIsServed(fs: Files, s: Conn, evs: seq<Event>) returns (n: nat)
    requires HasDefaults(fs) && Lifetime(s) && Stream(s) && Patience(s) && s.sent
    requires Flowing(evs, s.quiet) && FlowCount(evs) > s.hs.left
    ensures AreEvents(evs) && ServedBy(fs, s, evs, n)
    decreases |evs|
  {
    FlowingEvents(evs, s.quiet);
    var r := Step(fs, s, evs[0]);
    StepKeeps(fs, s, evs[0]);
    if Flows(evs[0]) {
      FlowStep(fs, s, evs[0]);
    } else {
      WaitStep(fs, s, evs[0]);
    }
    if Flows(evs[0]) && s.hs.left == 0 {
      n := 1;
      assert evs[..1][..0] == [] && evs[..1][0] == evs[0];
      assert Exec(fs, s, evs[..1]) == r;
    } else {
      var m := TheWholeFileIsServed(fs, r, evs[1..]);
      n := m + 1;
      ServedLater(fs, s, evs, m);
    }
  }

  lemma ServedLater(fs: Files, s: Conn, evs: seq<Event>, m: nat)
    requires HasDefaults(fs) && |evs| > 0 && AreEvents(evs) && s.hs.file.Some?
    requires Step(fs, s, evs[0]).hs.file == s.hs.file && ServedBy(fs, Step(fs, s, evs[0]), evs[1..], m)
    ensures ServedBy(fs, s, evs, m + 1)
  {
    ExecFromFirst(fs, s, evs[..m + 1]);
    assert evs[..m + 1][1..] == evs[1..][..m];
  }

  lemma {:induction false} ExecFromFirst(fs: Files, s: Conn, evs: seq<Event>)
    requires HasDefaults(fs) && AreEvents(evs) && |evs| > 0
    ensures Exec(fs, s, evs) == Exec(fs, Step(fs, s, evs[0]), evs[1..])
    decreases |evs|
  {
    if |evs| == 1 {
      assert evs[..0] == [];
    } else {
      ExecFromFirst(fs, s, evs[..|evs| - 1]);
      assert evs[1..][..|evs| - 2] == evs[..|evs| - 1][1..];
    }
  }

  // ----- how a connection begins and ends --------------------------------------------------

  /** Nothing that a connection without a request reacts to, but polls. */
  predicate Idle(evs: seq<Event>) {
    forall i :: 0 <= i < |evs| ==> !evs[i].Recv? && !evs[i].Fin? && !evs[i].Err?
  }

  /** Accepted, with so many polls and no request yet. */
  function Listening(polls: nat): Conn {
    Conn(Established, true, false, true, Hs(None, 0, 0, polls), true, [], 1, 0, false, polls)
  }

  lemma IdleStep(fs: Files, n: nat, e: Event)
    requires HasDefaults(fs) && IsEvent(e) && !e.Recv? && !e.Fin? && !e.Err?
    requires n + (if e.Poll? then 1 else 0) < MAX_RETRIES
    ensures Step(fs, Listening(n), e) == Listening(n + if e.Poll? then 1 else 0)
  {
  }

  lemma {:induction false} IdleRun(fs: Files, idle: seq<Event>)
    requires HasDefaults(fs) && AreEvents(idle) && Idle(idle) && Polls(idle) < MAX_RETRIES
    ensures Exec(fs, Listening(0), idle) == Listening(Polls(idle))
    decreases |idle|
  {
    if |idle| == 0 {
    } else {
      IdleRun(fs, idle[..|idle| - 1]);
      IdleStep(fs, Polls(idle[..|idle| - 1]), idle[|idle| - 1]);
    }
  }

  /** A connection up to its first segment. */
  function Opening(idle: seq<Event>, first: Event): seq<Event> { [Accept(true)] + idle + [first] }

  lemma OpeningEvents(idle: seq<Event>, first: Event)
    requires AreEvents(idle) && IsEvent(first)
    ensures AreEvents(Opening(idle, first))
  {
  }

  lemma OpeningRun(fs: Files, idle: seq<Event>, first: Event)
    requires HasDefaults(fs) && AreEvents(idle) && IsEvent(first) && Idle(idle) && Polls(idle) < MAX_RETRIES
    ensures AreEvents(Opening(idle, first))
    ensures Exec(fs, FRESH, Opening(idle, first)) == Step(fs, Listening(Polls(idle)), first)
  {
    var evs := [Accept(true)] + idle;
    OpeningEvents(idle, first);
    assert Opening(idle, first)[..|evs|] == evs;
    ExecFromFirst(fs, FRESH, evs);
    assert evs[1..] == idle;
    assert Step(fs, FRESH, Accept(true)) == Listening(0);
    IdleRun(fs, idle);
  }

  /** From the accepted connection on: a first segment with a GET for some URI is answered with the
      file wanted, of which the piece TCP accepts is written at once, and the sent callback is
      registered to go on with it. */
  lemma {:induction false} AGetIsAnswered(fs: Files, idle: seq<Event>, mem: seq<Octet>, t: Tcp, uri: seq<Octet>)
    requires HasDefaults(fs) && forall k: nat :: k < Length(fs) ==> |At(fs, k).name| <= 39
    requires AreEvents(idle) && Idle(idle) && Polls(idle) < MAX_RETRIES
    requires Requests(mem, uri) && uri != [] && IsTcp(t)
    ensures AreEvents(Opening(idle, Recv(mem, t)))
    ensures var s, file := Exec(fs, FRESH, Opening(idle, Recv(mem, t))), Wanted(fs, uri);
            && s.live && s.sent && s.recv && s.pcb.Established? && s.quiet == Polls(idle)
            && s.hs.file == Some(file) && s.out == Piece(Some(file), 0, t) && s.hs.left == |file| - |s.out|
  {
    OpeningRun(fs, idle, Recv(mem, t));
    EveryUriIsServed(fs, mem, uri);
    var u, file := Listening(Polls(idle)), Wanted(fs, uri);
    assert file[..0] == [];
    SendDataGives(Open(u, file), t);
  }

  /** A first segment that is no GET ends the connection: the block is freed, nothing is written. */
  lemma {:induction false} AnythingElseIsRefused(fs: Files, idle: seq<Event>, mem: seq<Octet>, t: Tcp)
    requires HasDefaults(fs) && AreEvents(idle) && Idle(idle) && Polls(idle) < MAX_RETRIES
    requires Memory(mem) && mem[..4] != "GET " && IsTcp(t)
    ensures AreEvents(Opening(idle, Recv(mem, t)))
    ensures var s := Exec(fs, FRESH, Opening(idle, Recv(mem, t)));
            && !s.live && s.frees == 1 && s.out == [] && s.hs.file.None?
            && s.pcb == match t.close case Closing => Ending case Deallocated => Gone case Failed => Established
  {
    OpeningRun(fs, idle, Recv(mem, t));
  }

  /** Without memory for the block the connection is refused, and nothing happens on it. */
  lemma {:induction false} RefusedForGood(fs: Files, evs: seq<Event>)
    requires HasDefaults(fs) && AreEvents(evs) && evs != [] && evs[0] == Accept(false)
    ensures Exec(fs, FRESH, evs) == FRESH.(pcb := Gone)
    decreases |evs|
  {
    if |evs| == 1 {
      assert evs[..0] == [];
    } else {
      RefusedForGood(fs, evs[..|evs| - 1]);
    }
  }

  lemma {:induction false} ExecAppend(fs: Files, s: Conn, a: seq<Event>, b: seq<Event>)
    requires HasDefaults(fs) && AreEvents(a) && AreEvents(b)
    ensures AreEvents(a + b) && Exec(fs, s, a + b) == Exec(fs, Exec(fs, s, a), b)
    decreases |b|
  {
    if |b| == 0 {
      assert a + b == a;
    } else {
      ExecAppend(fs, s, a, b[..|b| - 1]);
      assert (a + b)[..|a + b| - 1] == a + b[..|b| - 1];
    }
  }

  /** The server's purpose, from the accepted connection to its end: while TCP accepts something at
      every sent callback a GET is answered with the whole file wanted, and the connection closed. */
  lemma {:induction false} AGetIsServed(fs: Files, idle: seq<Event>, mem: seq<Octet>, t: Tcp, uri: seq<Octet>,
                                        evs: seq<Event>) returns (n: nat)
    requires HasDefaults(fs) && forall k: nat :: k < Length(fs) ==> |At(fs, k).name| <= 39
    requires AreEvents(idle) && Idle(idle) && Polls(idle) < MAX_RETRIES
    requires Requests(mem, uri) && uri != [] && IsTcp(t)
    requires Flowing(evs, Polls(idle)) && FlowCount(evs) > |Wanted(fs, uri)|
    ensures var all := Opening(idle, Recv(mem, t)) + evs;
            && AreEvents(all) && n <= |all|
            && !Exec(fs, FRESH, all[..n]).live && Exec(fs, FRESH, all[..n]).out == Wanted(fs, uri)
  {
    var opening := Opening(idle, Recv(mem, t));
    AGetIsAnswered(fs, idle, mem, t, uri);
    ExecKeeps(fs, FRESH, opening);
    FlowingEvents(evs, Polls(idle));
    var m := TheWholeFileIsServed(fs, Exec(fs, FRESH, opening), evs);
    n := |opening| + m;
    ExecAppend(fs, FRESH, opening, evs[..m]);
    assert (opening + evs)[..n] == opening + evs[..m];
  }

  /** A live connection ends with exactly these events: it is reset, the peer closes, the first
      segment is no GET, a sent callback finds everything written, or a fourth quiet poll comes. */
  lemma {:induction false} EndsIff(fs: Files, s: Conn, e: Event)
    requires HasDefaults(fs) && IsEvent(e) && Lifetime(s) && Stream(s) && Patience(s) && s.live
    ensures !Step(fs, s, e).live <==>
              || e.Err? || e.Fin?
              || (e.Recv? && s.hs.file.None? && e.mem[..4] != "GET ")
              || (e.Sent? && s.sent && s.hs.file == Some(s.out))
              || (e.Poll? && s.quiet == 3)
  {
    match e {
      case Recv(mem, t) =>
        if s.hs.file.None? && IsGet(mem) {
          assert Chosen(fs, mem)[..0] == [];
          SendDataKeeps(Open(s, Chosen(fs, mem)), t);
        }
      case Sent(t) => if s.sent { SentClosesIffWritten(s, t); }
      case Poll(t) => if s.quiet + 1 < MAX_RETRIES { SendDataKeeps(Retry(s), t); }
      case _ =>
    }
  }

  /** How it ends: the block is freed, no callback stays registered, nothing more is written, and
      the control block is closed as tcp_close answers, or is gone after a reset or an abort. */
  lemma {:induction false} HowItEnds(fs: Files, s: Conn, e: Event)
    requires HasDefaults(fs) && IsEvent(e) && Lifetime(s) && Stream(s) && Patience(s)
    requires s.live && !Step(fs, s, e).live
    ensures var t := Step(fs, s, e);
            && t.frees == 1 && !t.arg && !t.sent && !t.recv && t.out == s.out && t.hs.file == s.hs.file
            && t.pcb == (if e.Err? || e.Poll? then Gone
                         else match e.tcp.close
                              case Closing => Ending
                              case Deallocated => Gone
                              case Failed => if e.Fin? then CloseWait else s.pcb)
  {
    EndsIff(fs, s, e);
  }

  /** Without a block the control block goes with a late segment, a reset, lwIP's own time-out, or,
      while the peer has not closed, a poll; the handler does nothing else any more. */
  lemma {:induction false} AfterTheEnd(fs: Files, s: Conn, e: Event)
    requires HasDefaults(fs) && IsEvent(e) && Lifetime(s) && !s.live && !s.pcb.Pending?
    ensures var t := Step(fs, s, e);
            && t == s.(pcb := t.pcb)
            && (t.pcb.Gone? <==> s.pcb.Gone? || e.Recv? || e.Err? || e.Removed? || (e.Poll? && s.pcb.Established?))
  {
  }
}
