/** The web server's callbacks on one connection, updating http_state in place. Each method is
    proved against the transitions of Httpd, whose theorems speak of every order of calls. */
module HttpServer {
  import opened Common
  import opened Fs
  import opened RequestLine
  import opened Httpd

  class Connection {
    const fs: Files
    var pcb: Pcb
    var arg: bool
    var sent: bool
    var recv: bool
    var file: Option<seq<Octet>>  // hs->file: the file, and how far the pointer has advanced
    var pos: nat
    var left: nat                 // hs->left
    var retries: nat              // hs->retries
    var live: bool
    var out: seq<Octet>
    var allocs: nat
    var frees: nat
    ghost var fault: bool
    ghost var quiet: nat

    ghost function Abs(): Conn
      reads this
    {
      Conn(pcb, arg, sent, recv, Hs(file, pos, left, retries), live, out, allocs, frees, fault, quiet)
    }

    constructor (fs: Files)
      ensures this.fs == fs && Abs() == FRESH
    {
      this.fs := fs;
      pcb, arg, sent, recv := Pending, false, false, false;
      file, pos, left, retries, live := None, 0, 0, 0, false;
      out, allocs, frees, fault, quiet := [], 0, 0, false, 0;
    }

    /** A callback uses the block it was given; that is a fault unless the block is allocated. */
    ghost method Touch()
      modifies this`fault
      ensures Abs() == Use(old(Abs()))
    {
      fault := fault || !(arg && live);
    }

    /** The block goes back to the allocator. */
    method MemFree()
      modifies this`frees, this`live, this`fault
      ensures Abs() == Httpd.Free(old(Abs()))
    {
      frees := frees + 1;
      fault := fault || !live;
      live := false;
    }

    /** tcp_abort, and lwIP's own way of giving up: conn_err is called, then the control block is
        no more. */
    method Abort()
      modifies this
      ensures Abs() == Httpd.Abort(old(Abs()))
    {
      if arg {
        MemFree();
      }
      pcb, arg, sent, recv := Gone, false, false, false;
    }

    method CloseConn(close: CloseAnswer)
      modifies this
      ensures Abs() == Httpd.CloseConn(old(Abs()), close)
    {
      arg := false;
      sent := false;
      recv := false;
      MemFree();
      match close {
        case Closing => pcb := Ending;
        case Deallocated => pcb := Gone;
        case Failed =>
      }
    }

    /** The do-while loop of send_data; `attempts` are the lengths given to tcp_write. */
    method TryToWrite(t: Tcp) returns (err: Answer, len: nat, ghost attempts: seq<nat>)
      ensures (err, len) == Write(Min(t.sndbuf, left), t.write, 0)
      ensures attempts == Attempts(Min(t.sndbuf, left), t.write, 0)
    {
      if t.sndbuf < left {
        len := t.sndbuf;
      } else {
        len := left;
      }
      ghost var first := len;
      AttemptsUnfold([], len, t.write, 0);
      attempts := [len];
      err := t.write(0);
      if err == NoMemory {
        len := len / 2;
      }
      var k := 0;
      while err == NoMemory && len > 1
        invariant Write(first, t.write, 0) ==
                    if err == NoMemory && len > 1 then Write(len, t.write, k + 1) else (err, len)
        invariant Attempts(first, t.write, 0) ==
                    attempts + if err == NoMemory && len > 1 then Attempts(len, t.write, k + 1) else []
        decreases len, err.NoMemory?
      {
        k := k + 1;
        AttemptsUnfold(attempts, len, t.write, k);
        attempts := attempts + [len];
        err := t.write(k);
        if err == NoMemory {
          len := len / 2;
        }
      }
    }

    method SendData(t: Tcp)
      modifies this`pos, this`left, this`out, this`fault
      ensures Abs() == Httpd.SendData(old(Abs()), t)
    {
      var err, len, _ := TryToWrite(t);
      if err == Done && file.Some? {
        if pos + len <= |file.value| {
          out := out + file.value[pos..pos + len];
          pos := pos + len;
          left := left - len;
        } else {
          fault := true;
        }
      }
    }

    /** One more poll without a sent callback. */
    method CountRetry()
      modifies this`retries, this`quiet, this`fault
      ensures Abs() == Retry(Use(old(Abs())))
    {
      Touch();
      retries := (retries + 1) % 256;
      quiet := quiet + 1;
    }

    method GiveUp()
      modifies this
      ensures Abs() == Httpd.Abort(Httpd.Free(old(Abs())).(arg := false))
    {
      arg := false;
      MemFree();
      Abort();
    }

    method HttpPoll(t: Tcp)
      modifies this
      ensures Abs() == Httpd.HttpPoll(old(Abs()), t)
    {
      if !arg && pcb == Established {
        Abort();
      } else if arg {
        CountRetry();
        if retries == MAX_RETRIES {
          GiveUp();
        } else {
          SendData(t);
        }
      }
    }

    /** http_sent, called when it has been registered. */
    method HttpSent(t: Tcp)
      modifies this
      ensures Abs() == Httpd.HttpSent(old(Abs()), t)
    {
      if sent {
        Touch();
        retries := 0;
        quiet := 0;
        if left > 0 {
          SendData(t);
        } else {
          CloseConn(t.close);
        }
      }
    }

    /** hs->file and hs->left for the file a request asks for. */
    method OpenFor(data: array<Octet>)
      requires HasDefaults(fs) && Memory(data[..])
      modifies this`file, this`pos, this`left, data
      ensures Abs() == Open(old(Abs()), Chosen(fs, old(data[..])))
    {
      var found := Select(fs, data);
      file, pos, left := Some(found), 0, |found|;
    }

    /** http_recv with a segment, which it may rewrite; data after tcp_close makes lwIP abort. */
    method HttpRecv(data: array<Octet>, t: Tcp)
      requires HasDefaults(fs) && Memory(data[..])
      modifies this, data
      ensures Abs() == Httpd.HttpRecv(fs, old(Abs()), old(data[..]), t)
    {
      if !recv {
        Abort();
        return;
      }
      Touch();
      if file == None {
        assert data[..4] == data[..][..4];
        if data[..4] == METHOD {
          OpenFor(data);
          SendData(t);
          sent := true;
        } else {
          CloseConn(t.close);
        }
      }
    }

    /** http_recv without a segment: the peer has closed. */
    method HttpFin(t: Tcp)
      modifies this
      ensures Abs() == Httpd.HttpFin(old(Abs()), t)
    {
      if pcb == Established {
        pcb := CloseWait;
      }
      if recv {
        CloseConn(t.close);
      }
    }

    /** http_accept; `memory` says whether mem_malloc succeeds. */
    method HttpAccept(memory: bool)
      modifies this
      ensures Abs() == Httpd.HttpAccept(old(Abs()), memory)
    {
      if !memory {
        pcb := Gone;
        return;
      }
      allocs := allocs + 1;
      live := true;
      file, pos, left := None, 0, 0;
      retries := 0;
      arg := true;
      recv := true;
      pcb := Established;
    }

    method Happen(e: Event)
      requires HasDefaults(fs) && IsEvent(e)
      modifies this
      ensures Abs() == Step(fs, old(Abs()), e)
    {
      if pcb == Pending {
        if e.Accept? {
          HttpAccept(e.memory);
        }
      } else if pcb != Gone {
        match e {
          case Accept(_) =>
          case Recv(mem, t) =>
            var data := new Octet[|mem|](i requires 0 <= i < |mem| => mem[i]);
            assert data[..] == mem;
            HttpRecv(data, t);
          case RecvError =>
          case Fin(t) => HttpFin(t);
          case Sent(t) => HttpSent(t);
          case Poll(t) => HttpPoll(t);
          case Err => Abort();
          case Removed =>
            if !recv {
              pcb := Gone;
            }
        }
      }
    }
  }

  /** A connection from beginning to end. */
  method Serve(fs: Files, evs: seq<Event>) returns (c: Connection)
    requires HasDefaults(fs) && AreEvents(evs)
    ensures fresh(c) && c.Abs() == Exec(fs, FRESH, evs)
    ensures !c.fault && c.frees <= c.allocs <= 1 && (c.pcb == Gone ==> c.frees == c.allocs)
    ensures c.out == Given(fs, evs)
    ensures c.file.Some? ==> c.left <= |c.file.value| && c.out == c.file.value[..|c.file.value| - c.left]
  {
    c := new Connection(fs);
    for i := 0 to |evs|
      invariant c.fs == fs && c.Abs() == Exec(fs, FRESH, evs[..i])
    {
      assert evs[..i + 1][..i] == evs[..i];
      c.Happen(evs[i]);
    }
    assert evs[..|evs|] == evs;
    EveryRunFreesOnce(fs, evs);
    EveryRunSendsAPrefix(fs, evs);
    OutIsWhatTcpAccepted(fs, evs);
  }
}
