/** The socket end of the command pipeline: struct SSSConn, whose receive buffer is filled,
    searched and emptied in place, and the commands it posts. The socket delivers a stream of
    bytes cut into arbitrary pieces. */
module SocketServer {
  import opened Common

  const RX_BUF_SIZE: nat := 1500
  const TX_BUF_SIZE: nat := 1500

  const QUIT: Octet := 'Q'

  // ----- what the bytes mean ---------------------------------------------------------------

  function ToUpper(c: Octet): Octet {
    if 'a' <= c <= 'z' then 'A' + (c - 'a') else c
  }

  predicate Printable(c: Octet) { ' ' <= c <= '~' }

  predicate IsCommand(b: Octet) { Printable(ToUpper(b)) && ToUpper(b) != QUIT }

  /** The commands a run of bytes stands for: the printable ones other than quit, upper-cased. */
  function Commands(bs: seq<Octet>): seq<Octet> {
    if bs == [] then [] else
      Commands(bs[..|bs| - 1]) + if IsCommand(bs[|bs| - 1]) then [ToUpper(bs[|bs| - 1])] else []
  }

  /** The client asks for the connection to be closed. */
  predicate Quits(bs: seq<Octet>) { 'q' in bs || 'Q' in bs }

  /** Each small letter stands for its capital, every other byte for itself. */
  lemma Capitals(c: Octet)
    ensures ToUpper('a') == 'A' && ToUpper('b') == 'B' && ToUpper('c') == 'C' && ToUpper('d') == 'D'
    ensures ToUpper('e') == 'E' && ToUpper('f') == 'F' && ToUpper('g') == 'G' && ToUpper('h') == 'H'
    ensures ToUpper('i') == 'I' && ToUpper('j') == 'J' && ToUpper('k') == 'K' && ToUpper('l') == 'L'
    ensures ToUpper('m') == 'M' && ToUpper('n') == 'N' && ToUpper('o') == 'O' && ToUpper('p') == 'P'
    ensures ToUpper('q') == 'Q' && ToUpper('r') == 'R' && ToUpper('s') == 'S' && ToUpper('t') == 'T'
    ensures ToUpper('u') == 'U' && ToUpper('v') == 'V' && ToUpper('w') == 'W' && ToUpper('x') == 'X'
    ensures ToUpper('y') == 'Y' && ToUpper('z') == 'Z'
    ensures c < 'a' || 'z' < c ==> ToUpper(c) == c
  {
  }

  /** Which bytes are commands, and which quit, by their codes. */
  lemma CommandBytes(b: Octet)
    ensures IsCommand(b) <==> 32 <= b as int <= 126 && b != 'q' && b != 'Q'
    ensures ToUpper(b) == QUIT <==> b == 'q' || b == 'Q'
  {
  }

  /** What strchr finds: a newline with no zero byte before it. */
  ghost predicate Visible(bs: seq<Octet>) {
    exists k :: 0 <= k < |bs| && bs[k] == '\n' && NUL !in bs[..k]
  }

  /** One sprintf into the transmit buffer. */
  datatype Line = Prompt(command: Octet) | Goodbye

  function Text(l: Line): string {
    match l
    case Prompt(c) => "--> Simple Socket Server Command " + [c] + ".\n"
    case Goodbye => "Terminating connection.\n\n\r"
  }

  /** How far a line moves the write position. */
  function Width(l: Line): nat { if l.Prompt? then 36 else 26 }

  lemma TextWidth(l: Line)
    ensures |Text(l)| == Width(l) && (l.Prompt? ==> Text(l)[33] == l.command)
  {
    assert |"--> Simple Socket Server Command "| == 33 && |"Terminating connection.\n\n\r"| == 26;
  }

  function Render(ls: seq<Line>): string {
    if ls == [] then "" else Render(ls[..|ls| - 1]) + Text(ls[|ls| - 1])
  }

  function TotalWidth(ls: seq<Line>): nat {
    if ls == [] then 0 else TotalWidth(ls[..|ls| - 1]) + Width(ls[|ls| - 1])
  }

  /** The write position is the length of the text. */
  lemma {:induction false} RenderWidth(ls: seq<Line>)
    ensures |Render(ls)| == TotalWidth(ls)
  {
    if ls == [] {
    } else {
      RenderWidth(ls[..|ls| - 1]);
      TextWidth(ls[|ls| - 1]);
    }
  }

  lemma {:induction false} WidthAppend(a: seq<Line>, b: seq<Line>)
    ensures TotalWidth(a + b) == TotalWidth(a) + TotalWidth(b)
  {
    if b == [] {
      assert a + b == a;
    } else {
      WidthAppend(a, b[..|b| - 1]);
      assert (a + b)[..|a + b| - 1] == a + b[..|b| - 1];
    }
  }

  function Echo(b: Octet): seq<Line> {
    var c := ToUpper(b);
    if !Printable(c) then [] else if c == QUIT then [Prompt(c), Goodbye] else [Prompt(c)]
  }

  /** What a byte is answered with: its capital is echoed, and a quit has the last word. */
  lemma EchoLines(b: Octet)
    ensures Echo(b) == if b == 'q' || b == 'Q' then [Prompt('Q'), Goodbye]
                       else if 32 <= b as int <= 126 then [Prompt(ToUpper(b))]
                       else []
  {
  }

  function EchoWidth(b: Octet): nat {
    if !Printable(ToUpper(b)) then 0 else if ToUpper(b) == QUIT then 62 else 36
  }

  lemma EchoWidths(b: Octet)
    ensures TotalWidth(Echo(b)) == EchoWidth(b)
  {
    var p := Prompt(ToUpper(b));
    assert [p][..0] == [] && TotalWidth([p]) == 36;
    assert [p, Goodbye] == [p] + [Goodbye];
    WidthAppend([p], [Goodbye]);
    assert [Goodbye][..0] == [] && TotalWidth([Goodbye]) == 26;
  }

  function Reply(bs: seq<Octet>): seq<Line> {
    if bs == [] then [] else Reply(bs[..|bs| - 1]) + Echo(bs[|bs| - 1])
  }

  function ReplyLength(bs: seq<Octet>): nat { TotalWidth(Reply(bs)) }

  lemma ReplyOne(bs: seq<Octet>)
    requires bs != []
    ensures ReplyLength(bs) == ReplyLength(bs[..|bs| - 1]) + EchoWidth(bs[|bs| - 1])
  {
    WidthAppend(Reply(bs[..|bs| - 1]), Echo(bs[|bs| - 1]));
    EchoWidths(bs[|bs| - 1]);
  }

  function QuitCount(bs: seq<Octet>): nat {
    if bs == [] then 0 else
      QuitCount(bs[..|bs| - 1]) + if bs[|bs| - 1] == 'q' || bs[|bs| - 1] == 'Q' then 1 else 0
  }

  lemma CostsOne(b: Octet)
    ensures EchoWidth(b) == (if IsCommand(b) then 36 else 0) + (if b == 'q' || b == 'Q' then 62 else 0)
  {
  }

  lemma CommandsOne(bs: seq<Octet>)
    requires bs != []
    ensures |Commands(bs)| == |Commands(bs[..|bs| - 1])| + if IsCommand(bs[|bs| - 1]) then 1 else 0
  {
  }

  /** The reply takes 36 bytes for each command and 62 for each quit. */
  lemma {:induction false} ReplyCosts(bs: seq<Octet>)
    ensures ReplyLength(bs) == 36 * |Commands(bs)| + 62 * QuitCount(bs)
  {
    if bs == [] {
    } else {
      ReplyOne(bs);
      CommandsOne(bs);
      CostsOne(bs[|bs| - 1]);
      ReplyCosts(bs[..|bs| - 1]);
    }
  }

  /** The text fits its buffer, terminating zero included, exactly when those costs come to less
      than 1500; without a quit, up to forty-one commands. */
  lemma ReplyFitsIff(bs: seq<Octet>)
    ensures |Render(Reply(bs))| < TX_BUF_SIZE <==> 36 * |Commands(bs)| + 62 * QuitCount(bs) < 1500
    ensures QuitCount(bs) == 0 ==> (|Render(Reply(bs))| < TX_BUF_SIZE <==> |Commands(bs)| <= 41)
  {
    RenderWidth(Reply(bs));
    ReplyCosts(bs);
  }

  lemma {:induction false} CommandsAppend(a: seq<Octet>, b: seq<Octet>)
    ensures Commands(a + b) == Commands(a) + Commands(b)
  {
    if b == [] {
      assert a + b == a;
    } else {
      CommandsAppend(a, b[..|b| - 1]);
      assert (a + b)[..|a + b| - 1] == a + b[..|b| - 1];
    }
  }

  lemma PostedAfter(before: seq<Octet>, done: seq<Octet>, batch: seq<Octet>)
    ensures (before + Commands(done)) + Commands(batch) == before + Commands(done + batch)
  {
    CommandsAppend(done, batch);
  }

  lemma QuitsAppend(a: seq<Octet>, b: seq<Octet>)
    ensures Quits(a + b) <==> Quits(a) || Quits(b)
  {
  }

  /** With no zero byte before it, strchr finds a newline wherever it is. */
  lemma NothingHidden(bs: seq<Octet>, k: nat)
    requires NUL !in bs && k < |bs| && bs[k] == '\n'
    ensures Visible(bs)
  {
    assert NUL !in bs[..k];
  }

  /** Where the search ends without a newline it would never find one. */
  lemma SearchEnds(bs: seq<Octet>, i: nat)
    requires i <= |bs| && (i < |bs| ==> bs[i] == NUL)
    requires forall k :: 0 <= k < i ==> bs[k] != '\n'
    ensures !Visible(bs)
  {
    forall k | 0 <= k < |bs| && bs[k] == '\n' ensures NUL in bs[..k] {
      if i < k {
        assert bs[..k][i] == NUL;
      }
    }
  }

  /** No stretch of the stream is as long as this without a newline. */
  ghost predicate LinesWithin(stream: seq<Octet>, n: nat) {
    forall a: nat, b: nat :: a + n <= b <= |stream| ==> '\n' in stream[a..b]
  }

  lemma ShortLinesLeaveRoom(stream: seq<Octet>, a: nat, b: nat, n: nat)
    requires NUL !in stream && LinesWithin(stream, n) && a <= b <= |stream|
    ensures b - a < n || Visible(stream[a..b])
  {
    if b - a >= n {
      var k :| 0 <= k < b - a && stream[a..b][k] == '\n';
      NothingHidden(stream[a..b], k);
    }
  }

  /** A stream of whole lines is carried out to the last byte, however it was cut up: once the
      server waits for more, nothing is left over. */
  lemma WholeLinesAreCarriedOut(stream: seq<Octet>, executed: seq<Octet>, left: seq<Octet>)
    requires executed + left == stream && NUL !in stream
    requires stream != [] ==> stream[|stream| - 1] == '\n'
    ensures executed == stream || Visible(left)
  {
    if left != [] {
      assert stream[|stream| - 1] == left[|left| - 1];
      assert forall k :: 0 <= k < |left| ==> left[k] == stream[|executed| + k];
      NothingHidden(left, |left| - 1);
    }
  }

  function Bit(b: bool): nat { if b then 1 else 0 }

  lemma CountSnoc(bs: seq<Octet>, c: Octet)
    requires bs != []
    ensures multiset(bs)[c] == multiset(bs[..|bs| - 1])[c] + Bit(bs[|bs| - 1] == c)
  {
    assert bs == bs[..|bs| - 1] + [bs[|bs| - 1]];
  }

  lemma CommandsSnoc(bs: seq<Octet>, c: Octet)
    requires bs != []
    ensures var b := bs[|bs| - 1];
            multiset(Commands(bs))[c] ==
              multiset(Commands(bs[..|bs| - 1]))[c] + Bit(IsCommand(b) && ToUpper(b) == c)
  {
    var front, b := bs[..|bs| - 1], bs[|bs| - 1];
    if IsCommand(b) {
      assert Commands(bs)[..|Commands(front)|] == Commands(front);
      CountSnoc(Commands(bs), c);
    }
  }

  /** The bytes that ask for a command. */
  lemma AsksFor(b: Octet, c: Octet)
    ensures Bit(IsCommand(b) && ToUpper(b) == c) ==
              if 'A' <= c <= 'Z' && c != 'Q' then Bit(b == c) + Bit(b == c + ' ')
              else if ' ' <= c <= '~' && !('a' <= c <= 'z') && c != 'Q' then Bit(b == c)
              else 0
  {
  }

  /** A command is posted as often as the client sends its byte, a letter as often as the client
      sends it small or large; small letters, quits and what cannot be printed are never posted. */
  lemma {:induction false} CommandsCount(bs: seq<Octet>, c: Octet)
    ensures multiset(Commands(bs))[c] ==
              if 'A' <= c <= 'Z' && c != 'Q' then multiset(bs)[c] + multiset(bs)[c + ' ']
              else if ' ' <= c <= '~' && !('a' <= c <= 'z') && c != 'Q' then multiset(bs)[c]
              else 0
  {
    if bs == [] {
    } else {
      CommandsCount(bs[..|bs| - 1], c);
      CommandsSnoc(bs, c);
      AsksFor(bs[|bs| - 1], c);
      CountSnoc(bs, c);
      if 'A' <= c <= 'Z' {
        CountSnoc(bs, c + ' ');
      }
    }
  }

  /** What the command interpreter has produced for a run of bytes. */
  ghost predicate Interpreted(bs: seq<Octet>, tx: seq<Line>, posts: seq<Octet>, quit: bool) {
    tx == Reply(bs) && posts == Commands(bs) && (quit <==> Quits(bs))
  }

  lemma One(all: seq<Octet>, k: nat, tx: seq<Line>, posts: seq<Octet>, quit: bool)
    requires k < |all| && Interpreted(all[..k], tx, posts, quit)
    ensures Interpreted(all[..k + 1], tx + Echo(all[k]),
                        posts + if IsCommand(all[k]) then [ToUpper(all[k])] else [],
                        quit || all[k] == 'q' || all[k] == 'Q')
  {
    assert all[..k + 1][..k] == all[..k];
    QuitsOne(all, k);
  }

  lemma QuitsOne(all: seq<Octet>, k: nat)
    requires k < |all|
    ensures Quits(all[..k + 1]) <==> Quits(all[..k]) || all[k] == 'q' || all[k] == 'Q'
  {
    QuitsAppend(all[..k], [all[k]]);
    assert all[..k + 1] == all[..k] + [all[k]];
  }

  // ----- the receive loop as two positions in the stream -----------------------------------

  /** What recv is asked for and gives: no more than is ready, than there is, or than fits. */
  function Request(stream: seq<Octet>, done: nat, taken: nat, size: nat): nat
    requires done <= taken <= |stream| && taken - done < RX_BUF_SIZE
  {
    Min(Min(size, RX_BUF_SIZE - (taken - done) - 1), |stream| - taken)
  }

  datatype Outcome =
    | Waiting     // still in the receive loop
    | Closed      // the client quit; the connection is reset
    | RxOverrun   // the terminating zero would go one past the receive buffer
    | TxOverrun   // the reply would go past the transmit buffer

  /** How the receive loop stands: how much of the stream has been carried out and taken. */
  datatype Place = Place(outcome: Outcome, done: nat, taken: nat) {
    predicate Open(stream: seq<Octet>) {
      outcome.Waiting? && done <= taken <= |stream| && taken - done < RX_BUF_SIZE - 1
    }
  }

  /** One turn: carry out everything that has been taken, or take more. */
  ghost function Next(stream: seq<Octet>, p: Place, size: nat): Place
    requires p.Open(stream)
  {
    var batch := stream[p.done..p.taken];
    if Visible(batch) then
      if ReplyLength(batch) >= TX_BUF_SIZE then p.(outcome := TxOverrun)
      else Place(if Quits(batch) then Closed else Waiting, p.taken, p.taken)
    else
      var taken := p.taken + Request(stream, p.done, p.taken, size);
      Place(if taken - p.done < RX_BUF_SIZE - 1 then Waiting else RxOverrun, p.done, taken)
  }

  /** How it stands after k turns, if size(j) bytes are ready at the j-th. */
  ghost function After(stream: seq<Octet>, size: nat -> nat, k: nat): (p: Place)
    ensures p.done <= p.taken <= |stream| && (p.outcome.Waiting? ==> p.Open(stream))
  {
    if k == 0 then Place(Waiting, 0, 0) else
      var p := After(stream, size, k - 1);
      if p.outcome.Waiting? then Next(stream, p, size(k - 1)) else p
  }

  /** Once the loop has been left nothing changes. */
  lemma {:induction false} AfterStays(stream: seq<Octet>, size: nat -> nat, k: nat, n: nat)
    requires k <= n && !After(stream, size, k).outcome.Waiting?
    ensures After(stream, size, n) == After(stream, size, k)
    decreases n
  {
    if k < n {
      AfterStays(stream, size, k, n - 1);
    }
  }

  /** At the k-th turn the piece that is ready fills the receive buffer behind bytes without a
      visible newline. */
  ghost predicate FillsAt(stream: seq<Octet>, size: nat -> nat, k: nat) {
    var p := After(stream, size, k);
    && p.outcome.Waiting? && !Visible(stream[p.done..p.taken])
    && |stream| - p.done >= RX_BUF_SIZE - 1 && size(k) >= RX_BUF_SIZE - 1 - (p.taken - p.done)
  }

  /** At the k-th turn the bytes carried out get a reply that does not fit. */
  ghost predicate OverrepliesAt(stream: seq<Octet>, size: nat -> nat, k: nat) {
    var p := After(stream, size, k);
    && p.outcome.Waiting? && Visible(stream[p.done..p.taken])
    && ReplyLength(stream[p.done..p.taken]) >= TX_BUF_SIZE
  }

  lemma TurnFails(stream: seq<Octet>, size: nat -> nat, k: nat)
    ensures After(stream, size, k + 1).outcome.RxOverrun? <==>
              After(stream, size, k).outcome.RxOverrun? || FillsAt(stream, size, k)
    ensures After(stream, size, k + 1).outcome.TxOverrun? <==>
              After(stream, size, k).outcome.TxOverrun? || OverrepliesAt(stream, size, k)
  {
  }

  /** At one of the first n turns. */
  ghost predicate FillsBefore(stream: seq<Octet>, size: nat -> nat, n: nat) {
    n > 0 && (FillsBefore(stream, size, n - 1) || FillsAt(stream, size, n - 1))
  }

  ghost predicate OverrepliesBefore(stream: seq<Octet>, size: nat -> nat, n: nat) {
    n > 0 && (OverrepliesBefore(stream, size, n - 1) || OverrepliesAt(stream, size, n - 1))
  }

  /** A run ends in an overrun of the receive buffer exactly when at some turn a piece fills it, and
      of the transmit buffer exactly when at some turn the reply is too long. */
  lemma {:induction false} OverrunsIff(stream: seq<Octet>, size: nat -> nat, n: nat)
    ensures After(stream, size, n).outcome.RxOverrun? <==> FillsBefore(stream, size, n)
    ensures After(stream, size, n).outcome.TxOverrun? <==> OverrepliesBefore(stream, size, n)
  {
    if n > 0 {
      OverrunsIff(stream, size, n - 1);
      TurnFails(stream, size, n - 1);
    }
  }

  /** A first piece of 1499 bytes is enough, whatever is in it. */
  lemma OnePieceFills(stream: seq<Octet>, size: nat -> nat, n: nat)
    requires |stream| >= 1499 && size(0) >= 1499 && n > 0
    ensures After(stream, size, n) == Place(RxOverrun, 0, 1499)
  {
    assert !Visible(stream[0..0]);
    assert After(stream, size, 1) == Place(RxOverrun, 0, RX_BUF_SIZE - 1);
    AfterStays(stream, size, 1, n);
  }

  /** Something is ready whenever the server asks. */
  ghost predicate Patient(size: nat -> nat) { forall k :: size(k) >= 1 }

  /** The server has taken everything and waits for more. */
  ghost predicate Settled(stream: seq<Octet>, done: nat, taken: nat) {
    done <= taken == |stream| && !Visible(stream[done..taken])
  }

  ghost predicate Advanced(stream: seq<Octet>, done: nat, taken: nat, pass: nat) {
    pass <= done + taken || Settled(stream, done, taken)
  }

  /** What the buffer holds is what one recv added to something without a visible newline. */
  ghost predicate Piecemeal(stream: seq<Octet>, done: nat, taken: nat, size: nat -> nat) {
    done <= taken <= |stream|
    && exists k, a :: done <= a <= taken && taken - a <= size(k) && !Visible(stream[done..a])
  }

  lemma NothingYet(stream: seq<Octet>, size: nat -> nat, at: nat)
    requires at <= |stream|
    ensures Piecemeal(stream, at, at, size)
  {
    var k := 0;
    assert at - at <= size(k) && !Visible(stream[at..at]);
  }

  lemma {:induction false} AfterIsPiecemeal(stream: seq<Octet>, size: nat -> nat, k: nat)
    ensures var p := After(stream, size, k); Piecemeal(stream, p.done, p.taken, size)
  {
    if k == 0 {
      NothingYet(stream, size, 0);
    } else {
      AfterIsPiecemeal(stream, size, k - 1);
      var p := After(stream, size, k - 1);
      if p.outcome.Waiting? {
        if Visible(stream[p.done..p.taken]) {
          NothingYet(stream, size, p.taken);
        } else {
          assert After(stream, size, k).taken - p.taken <= size(k - 1);
        }
      }
    }
  }

  lemma NextAdvances(stream: seq<Octet>, p: Place, size: nat, k: nat)
    requires p.Open(stream) && size >= 1 && Advanced(stream, p.done, p.taken, k)
    ensures var q := Next(stream, p, size); q.outcome.Waiting? ==> Advanced(stream, q.done, q.taken, k + 1)
  {
    if Visible(stream[p.done..p.taken]) {
      assert p.done < p.taken;
    }
  }

  /** With something always ready every turn gets on, until all has been taken. */
  lemma {:induction false} AfterAdvances(stream: seq<Octet>, size: nat -> nat, k: nat)
    requires Patient(size)
    ensures var p := After(stream, size, k); p.outcome.Waiting? ==> Advanced(stream, p.done, p.taken, k)
  {
    if k > 0 {
      AfterAdvances(stream, size, k - 1);
      var p := After(stream, size, k - 1);
      if p.outcome.Waiting? {
        NextAdvances(stream, p, size(k - 1), k - 1);
      }
    }
  }

  lemma {:induction false} AfterSettles(stream: seq<Octet>, size: nat -> nat, k: nat)
    requires Patient(size) && k > 2 * |stream| && After(stream, size, k).outcome.Waiting?
    ensures var p := After(stream, size, k); Settled(stream, p.done, p.taken)
  {
    AfterAdvances(stream, size, k);
  }

  lemma {:induction false} AfterOverrun(stream: seq<Octet>, size: nat -> nat, k: nat)
    ensures var p := After(stream, size, k); p.outcome.RxOverrun? ==> p.taken - p.done == RX_BUF_SIZE - 1
    ensures var p := After(stream, size, k);
            p.outcome.TxOverrun? ==> ReplyLength(stream[p.done..p.taken]) >= TX_BUF_SIZE
  {
    if k > 0 {
      AfterOverrun(stream, size, k - 1);
    }
  }

  /** Short pieces of short lines leave the receive buffer room: it never holds more than
      n + m - 1 bytes. */
  lemma ShortPieces(stream: seq<Octet>, done: nat, taken: nat, size: nat -> nat, n: nat, m: nat)
    requires Piecemeal(stream, done, taken, size) && NUL !in stream && LinesWithin(stream, n)
    requires forall k :: size(k) <= m
    ensures taken - done < n + m
  {
    var k, a :| done <= a <= taken && taken - a <= size(k) && !Visible(stream[done..a]);
    ShortLinesLeaveRoom(stream, done, a, n);
  }

  /** Any fewer than len bytes in a row of the stream get a reply that fits its buffer. */
  ghost predicate RepliesFit(stream: seq<Octet>, len: nat) {
    forall a: nat, b: nat :: a <= b <= |stream| && b - a < len ==> ReplyLength(stream[a..b]) < TX_BUF_SIZE
  }

  /** Fewer than twenty-five bytes always do, at 62 bytes of reply for each at most. */
  lemma ShortRepliesFit(stream: seq<Octet>, len: nat)
    requires len <= 25
    ensures RepliesFit(stream, len)
  {
    forall a: nat, b: nat | a <= b <= |stream| && b - a < len ensures ReplyLength(stream[a..b]) < TX_BUF_SIZE {
      ReplyPerByte(stream[a..b]);
    }
  }

  lemma {:induction false} ReplyPerByte(bs: seq<Octet>)
    ensures ReplyLength(bs) <= 62 * |bs|
  {
    if bs == [] {
    } else {
      ReplyOne(bs);
      ReplyPerByte(bs[..|bs| - 1]);
    }
  }

  /** A client whose lines of fewer than n bytes, in pieces of at most m, fit the receive buffer
      together, and get replies that fit theirs, causes no overrun. */
  lemma {:induction false} GentleClient(stream: seq<Octet>, size: nat -> nat, k: nat, n: nat, m: nat)
    requires NUL !in stream && LinesWithin(stream, n) && (forall j :: size(j) <= m)
    requires n + m < RX_BUF_SIZE && RepliesFit(stream, n + m)
    ensures After(stream, size, k).outcome.Waiting? || After(stream, size, k).outcome.Closed?
  {
    var p := After(stream, size, k);
    AfterIsPiecemeal(stream, size, k);
    ShortPieces(stream, p.done, p.taken, size, n, m);
    AfterOverrun(stream, size, k);
    assert p.taken - p.done < n + m;
  }

  // ----- the connection --------------------------------------------------------------------

  datatype ConnState = Ready | Close

  class SSSConn {
    var state: ConnState
    var fd: int
    var close: bool
    const rx: array<Octet>
    var rd: nat
    var wr: nat
    var posted: seq<Octet>         // every call of OSQPost, in order
    var sent: seq<seq<Line>>       // every call of send, in order
    ghost var executed: seq<Octet> // the bytes handed to the command interpreter

    /** The loop head: everything from the write position on is zero, which is what keeps the
        newline search inside the buffer. */
    ghost predicate Valid()
      reads this, rx
    {
      && rx.Length == RX_BUF_SIZE
      && rd == 0 && wr < RX_BUF_SIZE - 1
      && (forall k :: wr <= k < rx.Length ==> rx[k] == NUL)
    }

    ghost predicate IsReset()
      reads this, rx
    {
      fd == -1 && state == Ready && !close && Valid() && wr == 0
    }

    constructor ()
      ensures IsReset() && fresh(rx)
    {
      rx := new Octet[RX_BUF_SIZE](_ => NUL);
      state, fd, close, rd, wr := Ready, -1, false, 0, 0;
      posted, sent, executed := [], [], [];
    }

    /** memset on part of the receive buffer. */
    method Zero(from: nat, n: nat)
      requires from + n <= rx.Length
      modifies rx
      ensures forall k :: 0 <= k < rx.Length ==>
                rx[k] == if from <= k < from + n then NUL else old(rx[k])
    {
      for i := 0 to n
        invariant forall k :: 0 <= k < rx.Length ==>
                    rx[k] == if from <= k < from + i then NUL else old(rx[k])
      {
        rx[from + i] := NUL;
      }
    }

    /** memmove of n bytes down to the start of the receive buffer. */
    method MoveDown(from: nat, n: nat)
      requires from + n <= rx.Length
      modifies rx
      ensures forall k :: 0 <= k < rx.Length ==>
                rx[k] == if k < n then old(rx[from + k]) else old(rx[k])
    {
      for i := 0 to n
        invariant forall k :: 0 <= k < rx.Length ==>
                    rx[k] == if k < i then old(rx[from + k]) else old(rx[k])
      {
        rx[i] := rx[from + i];
      }
    }

    /** The connection is made ready for the next client. */
    method Reset()
      requires rx.Length == RX_BUF_SIZE
      modifies this`fd, this`state, this`close, this`rd, this`wr, rx
      ensures IsReset()
    {
      Zero(0, rx.Length);
      close := false;
      fd, state := -1, Ready;
      wr := 0;
      rd := 0;
    }

    /** sss_handle_accept: a second client never displaces the first. */
    method HandleAccept(socket: int)
      modifies this`fd
      ensures fd == if old(fd) == -1 && socket >= 0 then socket else old(fd)
    {
      if fd == -1 {
        if socket >= 0 {
          fd := socket;
        }
      }
    }

    /** Search for a newline, up to the first zero byte. */
    method FindNewline() returns (found: bool)
      requires Valid()
      ensures found <==> Visible(rx[..wr])
    {
      var i := 0;
      while rx[i] != NUL && rx[i] != '\n'
        invariant 0 <= i <= wr
        invariant NUL !in rx[..i]
        invariant forall k :: 0 <= k < i ==> rx[k] != '\n'
        decreases wr - i
      {
        assert rx[..i + 1] == rx[..i] + [rx[i]];
        i := i + 1;
      }
      found := rx[i] == '\n';
      assert rx[..wr][..i] == rx[..i];
      if !found {
        SearchEnds(rx[..wr], i);
      }
    }

    /** One turn of the command loop: what the next byte asks for, and what it echoes. */
    method NextCommand() returns (lines: seq<Line>)
      requires rd < rx.Length
      modifies this`rd, this`close, this`posted
      ensures rd == old(rd) + 1 && lines == Echo(rx[old(rd)])
      ensures close <==> old(close) || rx[old(rd)] == 'q' || rx[old(rd)] == 'Q'
      ensures posted == old(posted) + if IsCommand(rx[old(rd)]) then [ToUpper(rx[old(rd)])] else []
    {
      var command := ToUpper(rx[rd]);
      rd := rd + 1;
      lines := [];
      if Printable(command) {
        lines := [Prompt(command)];
        if command == QUIT {
          lines := lines + [Goodbye];
          close := true;
        } else {
          posted := posted + [command];
        }
      }
    }

    /** The same turn, with what the loop has produced so far. */
    method NextLine(ghost all: seq<Octet>, tx: seq<Line>, ghost before: seq<Octet>, ghost posts: seq<Octet>)
      returns (tx': seq<Line>, ghost posts': seq<Octet>)
      requires rd < |all| <= rx.Length && all == rx[..|all|]
      requires Interpreted(all[..rd], tx, posts, close) && posted == before + posts
      modifies this`rd, this`close, this`posted
      ensures rd == old(rd) + 1 && posted == before + posts'
      ensures Interpreted(all[..rd], tx', posts', close)
    {
      ghost var more := if IsCommand(rx[rd]) then [ToUpper(rx[rd])] else [];
      assert (before + posts) + more == before + (posts + more);
      One(all, rd, tx, posts, close);
      var lines := NextCommand();
      posts' := posts + more;
      tx' := tx + lines;
    }

    /** The command loop, up to the first line that no longer fits the transmit buffer. */
    method Interpret(ghost all: seq<Octet>) returns (ok: bool, tx: seq<Line>, ghost posts: seq<Octet>)
      requires rd == 0 && !close && wr <= rx.Length && all == rx[..wr]
      modifies this`rd, this`close, this`posted
      ensures rd <= wr && Interpreted(all[..rd], tx, posts, close)
      ensures posted == old(posted) + posts
      ensures ok <==> TotalWidth(tx) < TX_BUF_SIZE
      ensures ok ==> rd == wr
    {
      ok, tx, posts := true, [], [];
      ghost var before := posted;
      while rd < wr && ok
        invariant rd <= wr && (ok <==> TotalWidth(tx) < TX_BUF_SIZE) && posted == before + posts
        invariant Interpreted(all[..rd], tx, posts, close)
        decreases wr - rd
      {
        tx, posts := NextLine(all, tx, before, posts);
        ok := TotalWidth(tx) < TX_BUF_SIZE;
      }
    }

    /** sss_exec_command: everything received is carried out, also what follows the newline. */
    method ExecCommand() returns (ok: bool)
      requires Valid() && !close
      modifies this`rd, this`close, this`posted, this`sent, this`executed
      ensures ok <==> ReplyLength(rx[..wr]) < TX_BUF_SIZE
      ensures ok ==> rd == wr && executed == old(executed) + rx[..wr]
      ensures ok ==> posted == old(posted) + Commands(rx[..wr])
      ensures ok ==> sent == old(sent) + [Reply(rx[..wr])]
      ensures ok ==> (close <==> Quits(rx[..wr]))
      ensures !ok ==> executed == old(executed)
    {
      ghost var all, posts := rx[..wr], [];
      var tx;
      ok, tx, posts := Interpret(all);
      if ok {
        assert all[..rd] == all;
        sent := sent + [tx];
        executed := executed + rx[..wr];
      } else {
        ReplyGrows(all, rd);
      }
    }

    /** The tail of the loop: drop what has been read and zero what that frees. */
    method ManageBuffer()
      requires rx.Length == RX_BUF_SIZE && rd <= wr < RX_BUF_SIZE - 1
      requires forall k :: wr <= k < rx.Length ==> rx[k] == NUL
      modifies this`rd, this`wr, rx
      ensures Valid() && rx[..wr] == old(rx[rd..wr])
    {
      var used := rd;
      MoveDown(rd, wr - rd);
      rd := 0;
      wr := wr - used;
      Zero(wr, used);
    }

    /** recv: the next bytes of the stream go behind those already there. */
    method Receive(bytes: seq<Octet>)
      requires Valid() && |bytes| <= RX_BUF_SIZE - wr - 1
      modifies this`wr, rx
      ensures wr == old(wr) + |bytes| && rx[..wr] == old(rx[..wr]) + bytes
      ensures forall k :: wr <= k < rx.Length ==> rx[k] == NUL
    {
      var start := wr;
      for i := 0 to |bytes|
        invariant forall k :: 0 <= k < rx.Length ==>
                    rx[k] == if start <= k < start + i then bytes[k - start] else old(rx[k])
      {
        rx[start + i] := bytes[i];
      }
      wr := start + |bytes|;
    }

    /** Between two passes of the receive loop: the bytes carried out are the first of those
        taken from the stream and the buffer holds the others; `before` is what was posted by
        earlier connections. */
    ghost predicate Midway(stream: seq<Octet>, taken: nat, before: seq<Octet>)
      reads this, rx
    {
      && Valid() && state == Ready && !close
      && |executed| <= taken <= |stream|
      && executed == stream[..|executed|] && rx[..wr] == stream[|executed|..taken]
      && posted == before + Commands(executed) && !Quits(executed)
    }

    /** The branch of a pass that finds no newline: ask the socket, which has `size` bytes ready.
        It fails exactly when the buffer becomes full, as the zero then goes past its end. */
    method Ask(stream: seq<Octet>, taken: nat, size: nat) returns (ok: bool, taken': nat)
      requires Valid() && |executed| <= taken <= |stream| && rx[..wr] == stream[|executed|..taken]
      modifies this`wr, rx
      ensures taken' == taken + Request(stream, |executed|, taken, size)
      ensures wr == taken' - |executed| && rx[..wr] == stream[|executed|..taken']
      ensures forall k :: wr <= k < rx.Length ==> rx[k] == NUL
      ensures ok <==> wr < RX_BUF_SIZE - 1
    {
      var n := Min(Min(size, RX_BUF_SIZE - wr - 1), |stream| - taken);
      ok, taken' := true, taken + n;
      Receive(stream[taken..taken']);
      assert stream[|executed|..taken'] == stream[|executed|..taken] + stream[taken..taken'];
      if n > 0 {
        if wr + 1 < rx.Length {
          rx[wr + 1] := NUL;
        } else {
          ok := false;
        }
      }
    }

    /** The branch of a pass that finds a newline: carry out all that is in the buffer. */
    method Execute(stream: seq<Octet>, taken: nat, ghost before: seq<Octet>) returns (ok: bool)
      requires Midway(stream, taken, before)
      modifies this`rd, this`close, this`posted, this`sent, this`executed
      ensures ok <==> ReplyLength(stream[|old(executed)|..taken]) < TX_BUF_SIZE
      ensures ok ==> rd == wr && executed == stream[..taken]
      ensures ok ==> posted == before + Commands(executed)
      ensures ok ==> (close <==> Quits(executed)) && (close <==> Quits(stream[|old(executed)|..taken]))
      ensures !ok ==> executed == old(executed)
    {
      ghost var done, batch := executed, rx[..wr];
      assert done + batch == stream[..taken];
      ok := ExecCommand();
      PostedAfter(before, done, batch);
      QuitsAppend(done, batch);
    }

    /** The end of a pass: note a quit, and manage the buffer. */
    method Finish() returns (outcome: Outcome)
      requires rx.Length == RX_BUF_SIZE && rd <= wr < RX_BUF_SIZE - 1
      requires forall k :: wr <= k < rx.Length ==> rx[k] == NUL
      modifies this`state, this`rd, this`wr, rx
      ensures outcome == if close then Closed else Waiting
      ensures state == if close then Close else Ready
      ensures Valid() && rx[..wr] == old(rx[rd..wr])
    {
      state := if close then Close else Ready;
      ManageBuffer();
      outcome := if state == Close then Closed else Waiting;
    }

    /** One pass of the receive loop: it leaves the loop open, or closed by a quit, or fails, as Next
        says of the two positions in the stream. */
    method Pass(stream: seq<Octet>, taken: nat, size: nat, ghost before: seq<Octet>)
      returns (outcome: Outcome, taken': nat)
      requires Midway(stream, taken, before)
      modifies this, rx
      ensures Place(outcome, |executed|, taken') == Next(stream, Place(Waiting, |old(executed)|, taken), size)
      ensures |executed| <= taken' <= |stream| && executed == stream[..|executed|]
      ensures outcome.Waiting? ==> Midway(stream, taken', before)
      ensures outcome.Closed? ==> state == Close && Quits(executed) && rx.Length == RX_BUF_SIZE
      ensures !outcome.TxOverrun? ==> posted == before + Commands(executed)
    {
      taken' := taken;
      var found := FindNewline();
      if found {
        var ok := Execute(stream, taken, before);
        if !ok {
          return TxOverrun, taken;
        }
      } else {
        var ok;
        ok, taken' := Ask(stream, taken, size);
        if !ok {
          return RxOverrun, taken';
        }
      }
      assert rx[rd..wr] == stream[|executed|..taken'];
      outcome := Finish();
    }

    /** The receive loop itself, for up to `passes` turns. */
    method Turns(stream: seq<Octet>, size: nat -> nat, passes: nat, ghost before: seq<Octet>)
      returns (outcome: Outcome, taken: nat, ghost pass: nat)
      requires Midway(stream, 0, before) && executed == []
      modifies this, rx
      ensures Place(outcome, |executed|, taken) == After(stream, size, pass)
      ensures if outcome.Waiting? then pass == passes else pass <= passes
      ensures |executed| <= taken <= |stream| && executed == stream[..|executed|]
      ensures outcome.Waiting? ==> Midway(stream, taken, before)
      ensures outcome.Closed? ==> Quits(executed) && |executed| == taken && rx.Length == RX_BUF_SIZE
      ensures !outcome.TxOverrun? ==> posted == before + Commands(executed)
    {
      taken, outcome, pass := 0, Waiting, 0;
      var turn := 0;
      while outcome.Waiting? && turn < passes
        invariant turn == pass <= passes && Place(outcome, |executed|, taken) == After(stream, size, pass)
        invariant |executed| <= taken <= |stream| && executed == stream[..|executed|]
        invariant outcome.Waiting? ==> Midway(stream, taken, before)
        invariant outcome.Closed? ==> Quits(executed) && |executed| == taken && rx.Length == RX_BUF_SIZE
        invariant !outcome.TxOverrun? ==> posted == before + Commands(executed)
        decreases passes - turn
      {
        outcome, taken := Pass(stream, taken, size(turn), before);
        turn, pass := turn + 1, pass + 1;
      }
    }

    /** sss_handle_receive, for up to `passes` turns of its loop. `stream` is what the client
        sends and size(k) how much of it is ready at the k-th turn. */
    method HandleReceive(stream: seq<Octet>, size: nat -> nat, passes: nat)
      returns (outcome: Outcome, taken: nat)
      requires Valid() && wr == 0 && state == Ready && !close
      modifies this, rx
      ensures Place(outcome, |executed|, taken) == After(stream, size, passes)
      ensures |executed| <= taken <= |stream| && executed == stream[..|executed|]
      ensures !outcome.TxOverrun? ==> posted == old(posted) + Commands(executed)
      ensures outcome.Waiting? ==> Midway(stream, taken, old(posted))
      ensures outcome.Waiting? && Patient(size) && passes > 2 * |stream| ==> Settled(stream, |executed|, taken)
      ensures outcome.Closed? ==> IsReset() && Quits(executed) && |executed| == taken
    {
      rd, wr := 0, 0;
      executed := [];
      assert rx[..wr] == [] && stream[..0] == [];
      ghost var pass;
      outcome, taken, pass := Turns(stream, size, passes, posted);
      if outcome.Waiting? {
        if Patient(size) && passes > 2 * |stream| {
          AfterSettles(stream, size, passes);
        }
      } else {
        AfterStays(stream, size, pass, passes);
      }
      if outcome.Closed? {
        Reset();
      }
    }

    /** A client that sends whole lines without zero bytes is served in full, every byte carried
        out up to a quit, if its lines of fewer than n bytes in pieces of at most m fit the receive
        buffer together, and the replies to as many bytes fit theirs. */
    method ServeLines(stream: seq<Octet>, size: nat -> nat, passes: nat, ghost n: nat, ghost m: nat)
      returns (outcome: Outcome)
      requires Valid() && wr == 0 && state == Ready && !close
      requires NUL !in stream && LinesWithin(stream, n) && (stream != [] ==> stream[|stream| - 1] == '\n')
      requires Patient(size) && (forall k :: size(k) <= m) && passes > 2 * |stream|
      requires n + m < RX_BUF_SIZE && RepliesFit(stream, n + m)
      modifies this, rx
      ensures outcome.Waiting? || outcome.Closed?
      ensures outcome.Waiting? ==> executed == stream && !Quits(stream)
      ensures outcome.Closed? ==> executed <= stream && Quits(executed)
      ensures posted == old(posted) + Commands(executed)
    {
      var taken;
      outcome, taken := HandleReceive(stream, size, passes);
      GentleClient(stream, size, passes, n, m);
      if outcome.Waiting? {
        assert stream[|executed|..taken] == stream[|executed|..];
        assert executed + stream[|executed|..] == stream;
        WholeLinesAreCarriedOut(stream, executed, stream[|executed|..]);
        assert executed == stream;
      }
    }
  }

  lemma {:induction false} ReplyGrows(all: seq<Octet>, k: nat)
    requires k <= |all|
    ensures ReplyLength(all[..k]) <= ReplyLength(all)
    decreases |all| - k
  {
    if k == |all| {
      assert all[..k] == all;
    } else {
      assert all[..k + 1][..k] == all[..k];
      ReplyOne(all[..k + 1]);
      ReplyGrows(all, k + 1);
    }
  }
}
