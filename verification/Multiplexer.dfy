/**
 * The JSON-RPC multiplexer over one pooled connection (`PooledConnection`, src/electrumx.js).
 *
 * Settling a promise is appending to `settled`. Trimming and parsing a line is a parameter: it either
 * is not JSON, is JSON null - on which the data handler throws - or carries an id (`None` for a
 * notification, or an id no call can have) and a reply. Chunks, timeouts, write errors and kills may come
 * at any time and in any order, until an exception leaves the data handler: nothing catches it, and the
 * process ends.
 */
module Multiplexer {
  import opened Wrappers

  datatype Reply = Resolved(result: string) | Rejected(error: string)

  datatype Decoded = NotJson | Null | Message(id: Option<int>, reply: Reply)

  type Decoder = string -> Decoded

  datatype Cause = ByReply(reply: Reply) | ByTimeout | ByKill(error: string) | ByWriteError

  datatype Settlement = Settlement(id: int, cause: Cause)

  datatype Conn = Conn(
    connected: bool,
    dead: bool,
    buf: string,
    pending: seq<int>,
    nextId: int,
    settled: seq<Settlement>,
    crashed: bool)

  const IDLE := Conn(false, false, "", [], 1, [], false)

  // ---------- The operations ----------

  /** The index of the first newline, or the length. */
  function Newline(s: string): (i: nat)
    ensures i <= |s| && '\n' !in s[..i] && (i < |s| ==> s[i] == '\n')
  {
    if s == [] || s[0] == '\n' then 0 else 1 + Newline(s[1..])
  }

  function Without(ids: seq<int>, id: int): seq<int> {
    if ids == [] then [] else if ids[0] == id then ids[1..] else [ids[0]] + Without(ids[1..], id)
  }

  function Settle(c: Conn, id: int, cause: Cause): Conn {
    c.(pending := Without(c.pending, id), settled := c.settled + [Settlement(id, cause)])
  }

  /** One complete line. */
  function Deliver(c: Conn, line: string, decode: Decoder): Conn {
    match decode(line)
    case NotJson => c
    case Null => c.(crashed := true)
    case Message(id, reply) =>
      if id.Some? && id.value in c.pending then Settle(c, id.value, ByReply(reply)) else c
  }

  predicate HasLine(c: Conn) {
    Newline(c.buf) < |c.buf|
  }

  /** The first complete line leaves the buffer and is delivered. */
  function TakeLine(c: Conn, decode: Decoder): (c': Conn)
    requires HasLine(c)
    ensures c'.buf == c.buf[Newline(c.buf) + 1..]
  {
    var nl := Newline(c.buf);
    Deliver(c.(buf := c.buf[nl + 1..]), c.buf[..nl], decode)
  }

  /** The complete lines of the buffer, one after the other, as long as none throws. */
  function Drain(c: Conn, decode: Decoder): Conn
    decreases |c.buf|
  {
    if HasLine(c) && !c.crashed then Drain(TakeLine(c, decode), decode) else c
  }

  function Received(c: Conn, chunk: string, decode: Decoder): Conn {
    if c.crashed then c else Drain(c.(buf := c.buf + chunk), decode)
  }

  /** A call is refused without an id on a dead or unconnected socket. */
  function Issued(c: Conn, writeFails: bool): (Conn, Option<int>) {
    if c.dead || !c.connected then (c, None)
    else
      var issued := c.(nextId := c.nextId + 1, pending := c.pending + [c.nextId]);
      (if writeFails then Settle(issued, c.nextId, ByWriteError) else issued, Some(c.nextId))
  }

  function TimeOut(c: Conn, id: int): Conn {
    if id in c.pending then Settle(c, id, ByTimeout) else c
  }

  function Killed(ids: seq<int>, error: string): seq<Settlement> {
    seq(|ids|, i requires 0 <= i < |ids| => Settlement(ids[i], ByKill(error)))
  }

  function Closed(c: Conn, error: string): Conn {
    if c.dead then c
    else c.(dead := true, connected := false, pending := [], settled := c.settled + Killed(c.pending, error))
  }

  class PooledConnection {
    const decode: Decoder
    var connected: bool
    var dead: bool
    var buf: string
    var pending: seq<int>
    var nextId: int
    var settled: seq<Settlement>
    ghost var crashed: bool

    ghost function View(): Conn
      reads this
    {
      Conn(connected, dead, buf, pending, nextId, settled, crashed)
    }

    constructor (decode: Decoder)
      ensures this.decode == decode && View() == IDLE
    {
      this.decode := decode;
      connected, dead, buf, pending, nextId, settled := false, false, "", [], 1, [];
      crashed := false;
    }

    method Connected()
      modifies this
      ensures View() == old(View()).(connected := true)
    {
      connected := true;
    }

    /** Says whether an exception left it. */
    method OnData(chunk: string) returns (thrown: bool)
      requires !crashed
      modifies this
      ensures View() == Received(old(View()), chunk, decode) && thrown == crashed
    {
      buf := buf + chunk;
      var nl := Newline(buf);
      while nl < |buf|
        invariant nl == Newline(buf) && !crashed
        invariant Received(old(View()), chunk, decode) == Drain(View(), decode)
        decreases |buf|
      {
        thrown := HandleLine(nl);
        if thrown { return true; }
        nl := Newline(buf);
      }
      return false;
    }

    /** The body of the loop of `OnData`. */
    method HandleLine(nl: nat) returns (thrown: bool)
      requires nl == Newline(buf) < |buf| && !crashed
      modifies this
      ensures View() == TakeLine(old(View()), decode) && thrown == crashed
    {
      var line := buf[..nl];
      buf := buf[nl + 1..];
      var msg := decode(line);
      if msg.NotJson? { return false; }
      if msg.Null? {
        crashed := true;
        return true;
      }
      if msg.id.None? { return false; }
      var id := msg.id.value;
      if id !in pending { return false; }
      pending := Without(pending, id);
      settled := settled + [Settlement(id, ByReply(msg.reply))];
      return false;
    }

    method Call(writeFails: bool) returns (id: Option<int>)
      modifies this
      ensures (View(), id) == Issued(old(View()), writeFails)
    {
      if dead || !connected { return None; }
      var n := nextId;
      nextId := nextId + 1;
      pending := pending + [n];
      if writeFails {
        pending := Without(pending, n);
        settled := settled + [Settlement(n, ByWriteError)];
      }
      return Some(n);
    }

    method TimedOut(id: int)
      modifies this
      ensures View() == TimeOut(old(View()), id)
    {
      if id in pending {
        pending := Without(pending, id);
        settled := settled + [Settlement(id, ByTimeout)];
      }
    }

    method Kill(error: string)
      modifies this
      ensures View() == Closed(old(View()), error)
    {
      if dead { return; }
      dead := true;
      connected := false;
      for i := 0 to |pending|
        invariant dead && !connected && pending == old(pending) && buf == old(buf) && nextId == old(nextId)
        invariant crashed == old(crashed)
        invariant settled == old(settled) + Killed(old(pending), error)[..i]
      {
        settled := settled + [Settlement(pending[i], ByKill(error))];
      }
      pending := [];
    }
  }

  // ---------- Runs ----------

  datatype Event =
    | Connect
    | Data(chunk: string)
    | Issue(writeFails: bool)
    | Timer(id: int)
    | Close(error: string)

  /** Nothing happens in a process that has ended. */
  function Step(c: Conn, e: Event, decode: Decoder): Conn {
    if c.crashed then c else
    match e
    case Connect => c.(connected := true)
    case Data(chunk) => Received(c, chunk, decode)
    case Issue(writeFails) => Issued(c, writeFails).0
    case Timer(id) => TimeOut(c, id)
    case Close(error) => Closed(c, error)
  }

  function Run(c: Conn, es: seq<Event>, decode: Decoder): Conn
    decreases |es|
  {
    if es == [] then c else Run(Step(c, es[0], decode), es[1..], decode)
  }

  // ---------- Chunking independence ----------

  lemma {:induction false} NewlineConcat(a: string, b: string)
    ensures Newline(a + b) == if Newline(a) < |a| then Newline(a) else |a| + Newline(b)
  {
    if a == [] {
      assert a + b == b;
    } else {
      assert (a + b)[1..] == a[1..] + b;
      NewlineConcat(a[1..], b);
    }
  }

  lemma DeliverIgnoresBuffer(c: Conn, buf: string, line: string, decode: Decoder)
    ensures Deliver(c.(buf := buf), line, decode) == Deliver(c, line, decode).(buf := buf)
  {
  }

  lemma TakeLineConcat(c: Conn, more: string, decode: Decoder)
    requires HasLine(c)
    ensures var c' := c.(buf := c.buf + more);
            HasLine(c') && TakeLine(c', decode) == TakeLine(c, decode).(buf := TakeLine(c, decode).buf + more)
  {
    var nl := Newline(c.buf);
    var line, rest := c.buf[..nl], c.buf[nl + 1..];
    NewlineConcat(c.buf, more);
    assert (c.buf + more)[..nl] == line;
    assert (c.buf + more)[nl + 1..] == rest + more;
    DeliverIgnoresBuffer(c, rest, line, decode);
    DeliverIgnoresBuffer(c, rest + more, line, decode);
  }

  /** What is left of a connection: when the process has ended, the unread buffer does not count. */
  function Left(c: Conn): Conn {
    if c.crashed then c.(buf := "") else c
  }

  /** Draining what is there and then more, or all at once, is the same. */
  lemma {:induction false} DrainTwice(c: Conn, more: string, decode: Decoder)
    ensures Left(Received(Drain(c, decode), more, decode)) == Left(Drain(c.(buf := c.buf + more), decode))
    decreases |c.buf|
  {
    if HasLine(c) && !c.crashed {
      DrainTwice(TakeLine(c, decode), more, decode);
      TakeLineConcat(c, more, decode);
    }
  }

  /** Two chunks do what their concatenation does: same pending calls, same settlements, and the same
      buffer unless the process has ended. */
  lemma ChunkingIndependence(c: Conn, a: string, b: string, decode: Decoder)
    ensures Left(Received(Received(c, a, decode), b, decode)) == Left(Received(c, a + b, decode))
  {
    DrainTwice(c.(buf := c.buf + a), b, decode);
    assert c.buf + a + b == c.buf + (a + b);
  }

  function Feed(c: Conn, chunks: seq<string>, decode: Decoder): Conn
    decreases |chunks|
  {
    if chunks == [] then c else Feed(Received(c, chunks[0], decode), chunks[1..], decode)
  }

  function Concat(chunks: seq<string>): string {
    if chunks == [] then [] else chunks[0] + Concat(chunks[1..])
  }

  /** The complete lines of a stream, and what follows the last of them. */
  function Lines(s: string): seq<string>
    decreases |s|
  {
    var nl := Newline(s);
    if nl == |s| then [] else [s[..nl]] + Lines(s[nl + 1..])
  }

  function Rest(s: string): string
    decreases |s|
  {
    var nl := Newline(s);
    if nl == |s| then s else Rest(s[nl + 1..])
  }

  function DeliverAll(c: Conn, lines: seq<string>, decode: Decoder): Conn
    decreases |lines|
  {
    if lines == [] || c.crashed then c else DeliverAll(Deliver(c, lines[0], decode), lines[1..], decode)
  }

  lemma {:induction false} DrainIsLines(c: Conn, decode: Decoder)
    requires !c.crashed
    ensures Left(Drain(c, decode)) == Left(DeliverAll(c.(buf := Rest(c.buf)), Lines(c.buf), decode))
    decreases |c.buf|
  {
    if HasLine(c) {
      var nl, c' := Newline(c.buf), TakeLine(c, decode);
      DeliverIgnoresBuffer(c, c'.buf, c.buf[..nl], decode);
      DeliverIgnoresBuffer(c, Rest(c.buf), c.buf[..nl], decode);
      assert Lines(c.buf)[0] == c.buf[..nl] && Lines(c.buf)[1..] == Lines(c'.buf);
      if !c'.crashed { DrainIsLines(c', decode); }
    }
  }

  /** However the stream is cut, the connection ends as if the whole stream had been split at its
      newlines and its complete lines delivered one by one, up to the first that throws. */
  lemma {:induction false} AnyChunking(c: Conn, chunks: seq<string>, decode: Decoder)
    requires '\n' !in c.buf && !c.crashed
    ensures Left(Feed(c, chunks, decode))
         == Left(DeliverAll(c.(buf := Rest(c.buf + Concat(chunks))), Lines(c.buf + Concat(chunks)), decode))
    decreases |chunks|
  {
    FeedIsOneChunk(c, chunks, decode);
    DrainIsLines(c.(buf := c.buf + Concat(chunks)), decode);
  }

  lemma {:induction false} FeedIsOneChunk(c: Conn, chunks: seq<string>, decode: Decoder)
    requires '\n' !in c.buf
    ensures Left(Feed(c, chunks, decode)) == Left(Received(c, Concat(chunks), decode))
    decreases |chunks|
  {
    if chunks == [] {
      assert c.buf + [] == c.buf;
    } else if Received(c, chunks[0], decode).crashed {
      NothingAfterCrash(Received(c, chunks[0], decode), chunks[1..], decode);
      ChunkingIndependence(c, chunks[0], Concat(chunks[1..]), decode);
    } else {
      NoNewlineLeft(c.(buf := c.buf + chunks[0]), decode);
      FeedIsOneChunk(Received(c, chunks[0], decode), chunks[1..], decode);
      ChunkingIndependence(c, chunks[0], Concat(chunks[1..]), decode);
    }
  }

  lemma {:induction false} NothingAfterCrash(c: Conn, chunks: seq<string>, decode: Decoder)
    requires c.crashed
    ensures Feed(c, chunks, decode) == c
    decreases |chunks|
  {
    if chunks != [] { NothingAfterCrash(c, chunks[1..], decode); }
  }

  lemma {:induction false} NoNewlineLeft(c: Conn, decode: Decoder)
    ensures Drain(c, decode).crashed || '\n' !in Drain(c, decode).buf
    decreases |c.buf|
  {
    if HasLine(c) && !c.crashed {
      NoNewlineLeft(TakeLine(c, decode), decode);
    } else if !c.crashed {
      assert c.buf[..Newline(c.buf)] == c.buf;
    }
  }

  lemma {:induction false} CrashesOnNull(c: Conn, lines: seq<string>, decode: Decoder)
    requires !c.crashed
    ensures DeliverAll(c, lines, decode).crashed <==> exists line | line in lines :: decode(line).Null?
    decreases |lines|
  {
    if lines != [] {
      assert lines[0] in lines && forall line :: line in lines <==> line == lines[0] || line in lines[1..];
      if !decode(lines[0]).Null? { CrashesOnNull(Deliver(c, lines[0], decode), lines[1..], decode); }
    }
  }

  /** Which streams are processed to their end: exactly those without a complete line that holds JSON
      null. Such a line ends the process. */
  lemma ProcessedIff(c: Conn, chunks: seq<string>, decode: Decoder)
    requires '\n' !in c.buf && !c.crashed
    ensures Feed(c, chunks, decode).crashed
       <==> exists line | line in Lines(c.buf + Concat(chunks)) :: decode(line).Null?
  {
    var stream := c.buf + Concat(chunks);
    AnyChunking(c, chunks, decode);
    CrashesOnNull(c.(buf := Rest(stream)), Lines(stream), decode);
  }

  function Joined(lines: seq<string>): string {
    if lines == [] then "" else lines[0] + "\n" + Joined(lines[1..])
  }

  lemma CutAtNewline(s: string, nl: nat)
    requires nl < |s| && s[nl] == '\n'
    ensures s == s[..nl] + "\n" + s[nl + 1..]
  {
  }

  lemma NoneLeft(s: string)
    requires Newline(s) == |s|
    ensures '\n' !in s
  {
    assert s[..|s|] == s;
  }

  /** The lines of a stream with a newline in it: the first, and those of what follows. */
  lemma LinesUnroll(s: string, line: string, more: string)
    requires var nl := Newline(s); nl < |s| && line == s[..nl] && more == s[nl + 1..]
    ensures Lines(s) == [line] + Lines(more) && Rest(s) == Rest(more) && s == line + "\n" + more && '\n' !in line
  {
    CutAtNewline(s, Newline(s));
  }

  lemma {:induction false} JoinedLines(s: string)
    ensures Joined(Lines(s)) + Rest(s) == s
    decreases |s|
  {
    var nl := Newline(s);
    if nl < |s| {
      var line, more := s[..nl], s[nl + 1..];
      LinesUnroll(s, line, more);
      JoinedLines(more);
      JoinedMore(line, Lines(more), Rest(more));
    }
  }

  lemma JoinedMore(line: string, lines: seq<string>, rest: string)
    ensures Joined([line] + lines) + rest == line + "\n" + (Joined(lines) + rest)
  {
    assert ([line] + lines)[1..] == lines;
  }

  lemma {:induction false} NoNewlineLeftIn(s: string, line: string)
    ensures '\n' !in Rest(s) && (line in Lines(s) ==> '\n' !in line)
    decreases |s|
  {
    var nl := Newline(s);
    if nl == |s| {
      NoneLeft(s);
    } else {
      var more := s[nl + 1..];
      LinesUnroll(s, s[..nl], more);
      NoNewlineLeftIn(more, line);
    }
  }

  /** Splitting loses and invents nothing: the lines, each with its newline, and the rest are the stream, and
      no newline is left in any of them. */
  lemma LinesMeaning(s: string)
    ensures Joined(Lines(s)) + Rest(s) == s
    ensures '\n' !in Rest(s) && forall line | line in Lines(s) :: '\n' !in line
  {
    JoinedLines(s);
    NoNewlineLeftIn(s, "");
    forall line | line in Lines(s) ensures '\n' !in line { NoNewlineLeftIn(s, line); }
  }

  // ---------- Exactly-once settlement ----------

  function Ids(ss: seq<Settlement>): seq<int> {
    seq(|ss|, i requires 0 <= i < |ss| => ss[i].id)
  }

  /** How often an id is pending or has been settled. */
  function Seen(c: Conn, id: int): nat {
    multiset(c.pending)[id] + multiset(Ids(c.settled))[id]
  }

  /** Every id issued so far is either pending or settled, once, and no other id is either; a dead
      connection has nothing pending. */
  ghost predicate Accounted(c: Conn) {
    && c.nextId >= 1
    && (forall id :: Seen(c, id) == if 1 <= id < c.nextId then 1 else 0)
    && (c.dead ==> c.pending == [])
  }

  lemma {:induction false} WithoutRemoves(ids: seq<int>, id: int)
    ensures multiset(Without(ids, id)) == multiset(ids) - multiset{id}
  {
    if ids != [] {
      var rest := ids[1..];
      assert ids == [ids[0]] + rest;
      if ids[0] != id {
        WithoutRemoves(rest, id);
        assert multiset([ids[0]] + Without(rest, id)) == multiset{ids[0]} + multiset(Without(rest, id));
      }
    }
  }

  lemma SettleKeeps(c: Conn, id: int, cause: Cause, x: int)
    requires id in c.pending
    ensures Seen(Settle(c, id, cause), x) == Seen(c, x)
  {
    WithoutRemoves(c.pending, id);
    assert Ids(c.settled + [Settlement(id, cause)]) == Ids(c.settled) + [id];
  }

  lemma SettleAccounted(c: Conn, id: int, cause: Cause)
    requires Accounted(c) && id in c.pending
    ensures Accounted(Settle(c, id, cause))
  {
    forall x ensures Seen(Settle(c, id, cause), x) == Seen(c, x) { SettleKeeps(c, id, cause, x); }
  }

  lemma DeliverAccounted(c: Conn, line: string, decode: Decoder)
    requires Accounted(c)
    ensures Accounted(Deliver(c, line, decode))
  {
    var msg := decode(line);
    if msg.Null? {
      forall x ensures Seen(Deliver(c, line, decode), x) == Seen(c, x) {
      }
    } else if msg.Message? && msg.id.Some? && msg.id.value in c.pending {
      SettleAccounted(c, msg.id.value, ByReply(msg.reply));
    }
  }

  lemma BufferAside(c: Conn, buf: string)
    requires Accounted(c)
    ensures Accounted(c.(buf := buf))
  {
    var c' := c.(buf := buf);
    assert forall x :: Seen(c', x) == Seen(c, x);
  }

  lemma {:induction false} DrainAccounted(c: Conn, decode: Decoder)
    requires Accounted(c)
    ensures Accounted(Drain(c, decode)) && Drain(c, decode).dead == c.dead
    decreases |c.buf|
  {
    if HasLine(c) && !c.crashed {
      var nl := Newline(c.buf);
      BufferAside(c, c.buf[nl + 1..]);
      DeliverAccounted(c.(buf := c.buf[nl + 1..]), c.buf[..nl], decode);
      DrainAccounted(TakeLine(c, decode), decode);
    }
  }

  lemma IssueAccounted(c: Conn, writeFails: bool)
    requires Accounted(c)
    ensures Accounted(Issued(c, writeFails).0) && Issued(c, writeFails).0.dead == c.dead
  {
    if !c.dead && c.connected {
      var issued := c.(nextId := c.nextId + 1, pending := c.pending + [c.nextId]);
      forall x ensures Seen(issued, x) == if 1 <= x < issued.nextId then 1 else 0 {
        assert Seen(issued, x) == Seen(c, x) + if x == c.nextId then 1 else 0;
      }
      if writeFails { SettleAccounted(issued, c.nextId, ByWriteError); }
    }
  }

  lemma CloseAccounted(c: Conn, error: string)
    requires Accounted(c)
    ensures Accounted(Closed(c, error)) && Closed(c, error).dead
  {
    if !c.dead {
      assert Ids(c.settled + Killed(c.pending, error)) == Ids(c.settled) + c.pending;
      forall x ensures Seen(Closed(c, error), x) == Seen(c, x) {
      }
    }
  }

  lemma StepAccounted(c: Conn, e: Event, decode: Decoder)
    requires Accounted(c)
    ensures Accounted(Step(c, e, decode)) && (c.dead ==> Step(c, e, decode).dead)
  {
    if c.crashed { return; }
    match e {
      case Connect =>
        forall x ensures Seen(Step(c, e, decode), x) == Seen(c, x) {
        }
      case Data(chunk) =>
        BufferAside(c, c.buf + chunk);
        DrainAccounted(c.(buf := c.buf + chunk), decode);
      case Issue(writeFails) => IssueAccounted(c, writeFails);
      case Timer(id) =>
        if id in c.pending { SettleAccounted(c, id, ByTimeout); }
      case Close(error) => CloseAccounted(c, error);
    }
  }

  /** Exactly-once settlement: in every run of connects, calls, chunks, timeouts and kills, each issued
      id is pending or settled, exactly once, and ids never repeat; and once dead, a connection stays
      dead with nothing pending. */
  lemma {:induction false} ExactlyOnce(c: Conn, es: seq<Event>, decode: Decoder)
    requires Accounted(c)
    ensures Accounted(Run(c, es, decode))
    ensures c.dead ==> Run(c, es, decode).dead && Run(c, es, decode).pending == []
    decreases |es|
  {
    if es != [] {
      StepAccounted(c, es[0], decode);
      ExactlyOnce(Step(c, es[0], decode), es[1..], decode);
    }
  }

  /** What a line does: a message with the id of a pending call settles that call with its reply, and no other;
      JSON null ends the process; any other line does nothing. */
  lemma LineMeaning(c: Conn, line: string, decode: Decoder)
    ensures var c' := Deliver(c, line, decode);
            match decode(line)
            case NotJson => c' == c
            case Null => c' == c.(crashed := true)
            case Message(None, _) => c' == c
            case Message(Some(id), reply) =>
              if id in c.pending then
                && c' == c.(pending := c'.pending, settled := c.settled + [Settlement(id, ByReply(reply))])
                && multiset(c'.pending) == multiset(c.pending) - multiset{id}
              else c' == c
  {
    match decode(line)
    case Message(Some(id), _) => WithoutRemoves(c.pending, id);
    case _ =>
  }

  /** A call gets the next id and is pending, unless its write fails, which settles it; on a dead or
      unconnected socket it is refused. */
  lemma IssueMeaning(c: Conn, writeFails: bool)
    ensures var (c', id) := Issued(c, writeFails);
            if c.dead || !c.connected then c' == c && id == None
            else
              && id == Some(c.nextId)
              && c' == c.(nextId := c.nextId + 1, pending := c'.pending, settled := c'.settled)
              && multiset(c'.pending) == multiset(c.pending) + (if writeFails then multiset{} else multiset{c.nextId})
              && c'.settled == c.settled + (if writeFails then [Settlement(c.nextId, ByWriteError)] else [])
  {
    WithoutRemoves(c.pending + [c.nextId], c.nextId);
  }

  /** A timer settles its own call if it is still pending. */
  lemma TimerMeaning(c: Conn, id: int)
    ensures var c' := TimeOut(c, id);
            if id in c.pending then
              && c' == c.(pending := c'.pending, settled := c.settled + [Settlement(id, ByTimeout)])
              && multiset(c'.pending) == multiset(c.pending) - multiset{id}
            else c' == c
  {
    WithoutRemoves(c.pending, id);
  }

  /** A kill settles everything pending, in order; on a dead connection it does nothing. */
  lemma KillMeaning(c: Conn, error: string)
    ensures var c' := Closed(c, error);
            if c.dead then c' == c
            else
              && c' == c.(dead := true, connected := false, pending := [], settled := c'.settled)
              && |c'.settled| == |c.settled| + |c.pending| && c.settled <= c'.settled
              && forall i | 0 <= i < |c.pending| :: c'.settled[|c.settled| + i] == Settlement(c.pending[i], ByKill(error))
  {
  }

  /** The connection starts accounted for. */
  lemma ExactlyOnceFromStart(es: seq<Event>, decode: Decoder)
    ensures Accounted(Run(IDLE, es, decode))
  {
    assert forall x :: Seen(IDLE, x) == 0;
    ExactlyOnce(IDLE, es, decode);
  }

  /** Why an event may settle an id: a complete line with that very id, its own timer, its own failed
      write, or a kill. */
  ghost predicate Justified(c: Conn, e: Event, decode: Decoder, s: Settlement) {
    match s.cause
    case ByReply(reply) =>
      e.Data? && exists line | line in Lines(c.buf + e.chunk) :: decode(line) == Message(Some(s.id), reply)
    case ByTimeout => e == Timer(s.id)
    case ByKill(error) => e == Close(error) && s.id in c.pending
    case ByWriteError => e == Issue(true) && s.id == c.nextId
  }

  lemma {:induction false} DrainJustified(c: Conn, decode: Decoder, s: Settlement)
    requires s in Drain(c, decode).settled && s !in c.settled
    ensures s.cause.ByReply?
    ensures exists line | line in Lines(c.buf) :: decode(line) == Message(Some(s.id), s.cause.reply)
    decreases |c.buf|
  {
    if HasLine(c) && !c.crashed {
      var c' := TakeLine(c, decode);
      assert Lines(c.buf) == [c.buf[..Newline(c.buf)]] + Lines(c'.buf);
      if s in c'.settled {
        assert c.buf[..Newline(c.buf)] in Lines(c.buf);
      } else {
        DrainJustified(c', decode, s);
        var line :| line in Lines(c'.buf) && decode(line) == Message(Some(s.id), s.cause.reply);
        assert line in Lines(c.buf);
      }
    }
  }

  lemma {:induction false} DrainOnlySettlesMore(c: Conn, decode: Decoder)
    ensures c.settled <= Drain(c, decode).settled && Drain(c, decode).nextId == c.nextId
    decreases |c.buf|
  {
    if HasLine(c) && !c.crashed {
      DrainOnlySettlesMore(TakeLine(c, decode), decode);
    }
  }

  /** A step never undoes or rewrites a settlement, never takes back an id, and settles an id only for a
      reason of that id's own. */
  lemma SettledForItsOwnReason(c: Conn, e: Event, decode: Decoder, s: Settlement)
    ensures c.settled <= Step(c, e, decode).settled && Step(c, e, decode).nextId >= c.nextId
    ensures s in Step(c, e, decode).settled && s !in c.settled ==> Justified(c, e, decode, s)
  {
    if e.Data? && !c.crashed {
      var c' := c.(buf := c.buf + e.chunk);
      DrainOnlySettlesMore(c', decode);
      if s in Step(c, e, decode).settled && s !in c.settled { DrainJustified(c', decode, s); }
    }
  }
}
