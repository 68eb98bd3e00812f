/**
 * The SOCKS5 client handshake (src/socks5.js), after RFC 1928: a greeting (section 3), a CONNECT request
 * (section 4) and its reply (section 6), read from a stream that arrives in arbitrary chunks.
 *
 * Bytes beyond the reply belong to the tunnel. The handshake does not hand them on at once but in the
 * next turn of the event loop, so chunks may get in before them.
 */
module Socks5 {
  import opened Wrappers
  import opened NameScript

  datatype Error = BadVersion | AllMethodsRejected | UnsupportedMethod | ConnectFailed(rep: Byte) | UnknownAddressType

  /** Where the handshake stands. `handed` is what the caller has received through the tunnel, `deferred`
      what waits for the next turn. */
  datatype Stage =
    | Greeting(buf: Bytes)
    | Replying(buf: Bytes)
    | Tunnel(handed: Bytes, deferred: Bytes)
    | Failed(error: Error)

  datatype Sock = Sock(stage: Stage, sent: seq<Bytes>)

  datatype Target = Target(host: Bytes, port: nat)

  /** The source throws on a longer host name and on a larger port. */
  ghost predicate Sendable(t: Target) {
    |t.host| <= 255 && t.port < 0x1_0000
  }

  const HELLO: Bytes := [0x05, 0x01, 0x00]

  const STARTED := Sock(Greeting([]), [HELLO])

  /** VER, CMD, RSV, ATYP = domain name, length, name, and the port in network order. */
  function ConnectRequest(t: Target): Bytes
    requires Sendable(t)
  {
    [0x05, 0x01, 0x00, 0x03, |t.host|] + t.host + [t.port / 256, t.port % 256]
  }

  // ---------- Reading ----------

  datatype Verdict = NeedMore | Bad(error: Error) | Complete(length: nat)

  function JudgeGreeting(b: Bytes): Verdict {
    if |b| < 2 then NeedMore
    else if b[0] != 0x05 then Bad(BadVersion)
    else if b[1] == 0xff then Bad(AllMethodsRejected)
    else if b[1] != 0x00 then Bad(UnsupportedMethod)
    else Complete(2)
  }

  function JudgeReply(b: Bytes): (v: Verdict)
    ensures v.Complete? ==> v.length <= |b|
  {
    if |b| < 4 then NeedMore
    else if b[0] != 0x05 then Bad(BadVersion)
    else if b[1] != 0x00 then Bad(ConnectFailed(b[1]))
    else if b[3] == 0x01 then Enough(b, 4 + 4 + 2)
    else if b[3] == 0x04 then Enough(b, 4 + 16 + 2)
    else if b[3] == 0x03 then if |b| < 5 then NeedMore else Enough(b, 4 + 1 + b[4] as int + 2)
    else Bad(UnknownAddressType)
  }

  function Enough(b: Bytes, need: nat): Verdict {
    if |b| < need then NeedMore else Complete(need)
  }

  function OnChunk(s: Sock, chunk: Bytes, t: Target): Sock
    requires Sendable(t)
  {
    match s.stage
    case Greeting(buf) =>
      var b := buf + chunk;
      (match JudgeGreeting(b)
       case NeedMore => s.(stage := Greeting(b))
       case Bad(e) => s.(stage := Failed(e))
       case Complete(_) => Sock(Replying(b[2..]), s.sent + [ConnectRequest(t)]))
    case Replying(buf) =>
      var b := buf + chunk;
      (match JudgeReply(b)
       case NeedMore => s.(stage := Replying(b))
       case Bad(e) => s.(stage := Failed(e))
       case Complete(need) => s.(stage := Tunnel([], b[need..])))
    case Tunnel(handed, deferred) => s.(stage := Tunnel(handed + chunk, deferred))
    case Failed(_) => s
  }

  /** The next turn of the event loop: what was deferred is emitted. */
  function OnTurn(s: Sock): Sock {
    if s.stage.Tunnel? then s.(stage := Tunnel(s.stage.handed + s.stage.deferred, [])) else s
  }

  /** The data handler and the state it closes over. Once settled, an error has closed the socket, or the
      caller's own handler has taken over: `handed` is what that handler receives. */
  class Handshake {
    const target: Target
    var stage: string
    var buf: Bytes
    var settled: bool
    var error: Option<Error>
    var sent: seq<Bytes>
    var handed: Bytes
    var deferred: Bytes

    ghost predicate Valid()
      reads this
    {
      && Sendable(target)
      && (stage == "greeting" || stage == "reply" || stage == "tunnel")
      && (stage == "tunnel" ==> settled && error.None?)
      && (stage != "tunnel" ==> handed == [])
      && (settled <==> error.Some? || stage == "tunnel")
    }

    ghost function View(): Sock
      requires Valid()
      reads this
    {
      Sock(if error.Some? then Failed(error.value)
           else if stage == "greeting" then Greeting(buf)
           else if stage == "reply" then Replying(buf)
           else Tunnel(handed, deferred),
           sent)
    }

    constructor (target: Target)
      requires Sendable(target)
      ensures this.target == target && Valid() && View() == STARTED
    {
      this.target := target;
      stage, buf, settled, error := "greeting", [], false, None;
      sent, handed, deferred := [HELLO], [], [];
    }

    method Finish(e: Error)
      requires Valid() && !settled
      modifies this
      ensures Valid() && View() == Sock(Failed(e), old(sent))
    {
      settled := true;
      error := Some(e);
    }

    method OnData(chunk: Bytes)
      requires Valid()
      modifies this
      ensures Valid() && View() == OnChunk(old(View()), chunk, target)
    {
      if settled {
        if stage == "tunnel" { handed := handed + chunk; }
        return;
      }
      buf := buf + chunk;
      if stage == "greeting" {
        if |buf| < 2 { return; }
        var ver, methodByte := buf[0], buf[1];
        buf := buf[2..];
        if ver != 0x05 { Finish(BadVersion); return; }
        if methodByte == 0xff { Finish(AllMethodsRejected); return; }
        if methodByte != 0x00 { Finish(UnsupportedMethod); return; }
        sent := sent + [ConnectRequest(target)];
        stage := "reply";
        return;
      }
      if |buf| < 4 { return; }
      var ver, rep, atyp := buf[0], buf[1], buf[3];
      if ver != 0x05 { Finish(BadVersion); return; }
      if rep != 0x00 { Finish(ConnectFailed(rep)); return; }
      var need;
      if atyp == 0x01 {
        need := 4 + 4 + 2;
      } else if atyp == 0x04 {
        need := 4 + 16 + 2;
      } else if atyp == 0x03 {
        if |buf| < 5 { return; }
        need := 4 + 1 + buf[4] as int + 2;
      } else {
        Finish(UnknownAddressType);
        return;
      }
      if |buf| < need { return; }
      deferred := buf[need..];
      buf := [];
      stage := "tunnel";
      settled := true;
    }

    /** The callback of the next turn. */
    method EmitDeferred()
      requires Valid()
      modifies this
      ensures Valid() && View() == OnTurn(old(View()))
    {
      if stage == "tunnel" {
        handed := handed + deferred;
        deferred := [];
      }
    }
  }

  // ---------- Chunks and turns ----------

  datatype Event = Chunk(bytes: Bytes) | Turn

  function On(s: Sock, e: Event, t: Target): Sock
    requires Sendable(t)
  {
    match e
    case Chunk(bytes) => OnChunk(s, bytes, t)
    case Turn => OnTurn(s)
  }

  function Feed(s: Sock, es: seq<Event>, t: Target): Sock
    requires Sendable(t)
    decreases |es|
  {
    if es == [] then s else Feed(On(s, es[0], t), es[1..], t)
  }

  /** The stream that a run of events delivers. */
  function Stream(es: seq<Event>): Bytes {
    if es == [] then [] else (if es[0].Chunk? then es[0].bytes else []) + Stream(es[1..])
  }

  /** What arrives before the next turn, and after it. */
  function Before(es: seq<Event>): Bytes {
    if es == [] || es[0].Turn? then [] else es[0].bytes + Before(es[1..])
  }

  function After(es: seq<Event>): Bytes {
    if es == [] then [] else if es[0].Turn? then Stream(es[1..]) else After(es[1..])
  }

  lemma {:induction false} StreamSplits(es: seq<Event>)
    ensures Stream(es) == Before(es) + After(es)
  {
    if es != [] { StreamSplits(es[1..]); }
  }

  lemma {:induction false} StreamConcat(a: seq<Event>, b: seq<Event>)
    ensures Stream(a + b) == Stream(a) + Stream(b)
  {
    if a == [] {
      assert a + b == b;
    } else {
      assert (a + b)[1..] == a[1..] + b;
      StreamConcat(a[1..], b);
    }
  }

  lemma {:induction false} FeedConcat(s: Sock, a: seq<Event>, b: seq<Event>, t: Target)
    requires Sendable(t)
    ensures Feed(s, a + b, t) == Feed(Feed(s, a, t), b, t)
    decreases |a|
  {
    if a == [] {
      assert a + b == b;
    } else {
      assert (a + b)[1..] == a[1..] + b && (a + b)[0] == a[0];
      FeedConcat(On(s, a[0], t), a[1..], b, t);
    }
  }

  // ---------- The reply ----------

  /** Later bytes never change a decided reply. */
  lemma ReplyDecidedEarly(b: Bytes, more: Bytes)
    ensures !JudgeReply(b).NeedMore? ==> JudgeReply(b + more) == JudgeReply(b)
  {
  }

  /** While the stream does not decide the reply, the handshake waits with all of it. */
  lemma {:induction false} Undecided(s: Sock, b: Bytes, es: seq<Event>, t: Target)
    requires Sendable(t) && s.stage == Replying(b) && JudgeReply(b + Stream(es)).NeedMore?
    ensures Feed(s, es, t) == s.(stage := Replying(b + Stream(es)))
    decreases |es|
  {
    if es == [] {
      assert b + [] == b;
    } else if es[0].Turn? {
      assert Stream(es) == Stream(es[1..]);
      Undecided(s, b, es[1..], t);
    } else {
      var b' := b + es[0].bytes;
      assert b' + Stream(es[1..]) == b + Stream(es);
      ReplyDecidedEarly(b', Stream(es[1..]));
      Undecided(s.(stage := Replying(b')), b', es[1..], t);
    }
  }

  /** Whatever is judged by what has arrived, and for good, is decided by one of the chunks. */
  lemma {:induction false} FirstDecision(judge: Bytes -> Verdict, b: Bytes, es: seq<Event>) returns (i: nat)
    requires forall x: Bytes, more: Bytes :: !judge(x).NeedMore? ==> judge(x + more) == judge(x)
    requires judge(b).NeedMore? && !judge(b + Stream(es)).NeedMore?
    ensures i < |es| && es[i].Chunk? && judge(b + Stream(es[..i])).NeedMore?
    ensures judge(b + Stream(es[..i]) + es[i].bytes) == judge(b + Stream(es))
    decreases |es|
  {
    assert b + [] == b;
    var x := if es[0].Chunk? then es[0].bytes else [];
    var b' := b + x;
    assert b' + Stream(es[1..]) == b + Stream(es);
    if judge(b').NeedMore? {
      var j := FirstDecision(judge, b', es[1..]);
      i := j + 1;
      assert es[..i] == [es[0]] + es[1..][..j];
      StreamAfter(es[0], es[1..][..j], b, x);
    } else {
      i := 0;
      assert es[..0] == [] && judge(b' + Stream(es[1..])) == judge(b');
    }
  }

  /** A stream that decides the reply does so in one of its chunks. */
  lemma DecidingChunk(b: Bytes, es: seq<Event>) returns (i: nat)
    requires JudgeReply(b).NeedMore? && !JudgeReply(b + Stream(es)).NeedMore?
    ensures i < |es| && es[i].Chunk? && JudgeReply(b + Stream(es[..i])).NeedMore?
    ensures JudgeReply(b + Stream(es[..i]) + es[i].bytes) == JudgeReply(b + Stream(es))
  {
    forall x: Bytes, more: Bytes ensures !JudgeReply(x).NeedMore? ==> JudgeReply(x + more) == JudgeReply(x) {
      ReplyDecidedEarly(x, more);
    }
    i := FirstDecision(JudgeReply, b, es);
  }

  lemma StreamAfter(e: Event, pre: seq<Event>, b: Bytes, x: Bytes)
    requires x == if e.Chunk? then e.bytes else []
    ensures b + Stream([e] + pre) == b + x + Stream(pre)
  {
    assert ([e] + pre)[1..] == pre;
  }

  /** Where the handshake stands after its reply, for any stream in any chunks and any turns: it waits,
      fails or opens the tunnel as if the stream had arrived whole. */
  lemma {:induction false} ReplyAnyChunking(s: Sock, b: Bytes, es: seq<Event>, t: Target)
    requires Sendable(t) && s.stage == Replying(b) && JudgeReply(b).NeedMore?
    ensures var end := Feed(s, es, t);
            && end.sent == s.sent
            && match JudgeReply(b + Stream(es))
               case NeedMore => end.stage == Replying(b + Stream(es))
               case Bad(e) => end.stage == Failed(e)
               case Complete(_) => end.stage.Tunnel?
  {
    if JudgeReply(b + Stream(es)).NeedMore? {
      Undecided(s, b, es, t);
    } else {
      var i := DecidingChunk(b, es);
      assert es == es[..i] + [Chunk(es[i].bytes)] + es[i + 1..];
      Decided(s, b, es[..i], es[i].bytes, es[i + 1..], t);
      SettledStays(s.(stage := WholeReply(b + Stream(es[..i]) + es[i].bytes)), es[i + 1..], t);
    }
  }

  /** A failed handshake stays failed, and an open tunnel open. */
  lemma {:induction false} SettledStays(s: Sock, es: seq<Event>, t: Target)
    requires Sendable(t) && (s.stage.Failed? || s.stage.Tunnel?)
    ensures var end := Feed(s, es, t);
            end.sent == s.sent && (if s.stage.Failed? then end.stage == s.stage else end.stage.Tunnel?)
    decreases |es|
  {
    if es != [] { SettledStays(On(s, es[0], t), es[1..], t); }
  }

  /** What a stream that has decided the reply leaves, before any turn. */
  function WholeReply(stream: Bytes): Stage {
    match JudgeReply(stream)
    case NeedMore => Replying(stream)
    case Bad(e) => Failed(e)
    case Complete(need) => Tunnel([], stream[need..])
  }

  lemma Decided(s: Sock, b: Bytes, pre: seq<Event>, chunk: Bytes, rest: seq<Event>, t: Target)
    requires Sendable(t) && s.stage == Replying(b) && JudgeReply(b + Stream(pre)).NeedMore?
    ensures Feed(s, pre + [Chunk(chunk)] + rest, t) == Feed(s.(stage := WholeReply(b + Stream(pre) + chunk)), rest, t)
  {
    Undecided(s, b, pre, t);
    var waiting := s.(stage := Replying(b + Stream(pre)));
    assert pre + [Chunk(chunk)] + rest == pre + ([Chunk(chunk)] + rest);
    FeedConcat(s, pre, [Chunk(chunk)] + rest, t);
    FeedOne(waiting, Chunk(chunk), rest, t);
  }

  lemma FeedOne(s: Sock, e: Event, rest: seq<Event>, t: Target)
    requires Sendable(t)
    ensures Feed(s, [e] + rest, t) == Feed(On(s, e, t), rest, t)
    ensures Stream([e] + rest) == (if e.Chunk? then e.bytes else []) + Stream(rest)
  {
    assert ([e] + rest)[1..] == rest;
  }

  /** The stream of such a run. */
  lemma WholeStream(b: Bytes, pre: seq<Event>, chunk: Bytes, rest: seq<Event>)
    ensures b + Stream(pre + [Chunk(chunk)] + rest) == b + Stream(pre) + chunk + (Before(rest) + After(rest))
  {
    assert pre + [Chunk(chunk)] + rest == pre + ([Chunk(chunk)] + rest);
    assert ([Chunk(chunk)] + rest)[1..] == rest;
    StreamConcat(pre, [Chunk(chunk)] + rest);
    StreamSplits(rest);
  }

  /** With nothing deferred, chunks are handed on as they come. */
  lemma {:induction false} OpenTunnelRuns(sent: seq<Bytes>, h: Bytes, es: seq<Event>, t: Target)
    requires Sendable(t)
    ensures Feed(Sock(Tunnel(h, []), sent), es, t) == Sock(Tunnel(h + Stream(es), []), sent)
    decreases |es|
  {
    if es == [] {
      assert h + [] == h;
    } else {
      var x := if es[0].Chunk? then es[0].bytes else [];
      OpenTunnelStep(sent, h, es[0], t);
      OpenTunnelRuns(sent, h + x, es[1..], t);
      assert h + (x + Stream(es[1..])) == h + x + Stream(es[1..]);
    }
  }

  lemma OpenTunnelStep(sent: seq<Bytes>, h: Bytes, e: Event, t: Target)
    requires Sendable(t)
    ensures On(Sock(Tunnel(h, []), sent), e, t) == Sock(Tunnel(h + if e.Chunk? then e.bytes else [], []), sent)
  {
  }

  /** The deferred bytes are handed on at the first turn. */
  lemma {:induction false} TunnelRuns(s: Sock, h: Bytes, d: Bytes, es: seq<Event>, t: Target)
    requires Sendable(t) && s.stage == Tunnel(h, d)
    ensures Feed(s, es, t) == s.(stage :=
              if Turn in es then Tunnel(h + Before(es) + d + After(es), []) else Tunnel(h + Before(es), d))
    decreases |es|
  {
    assert h + [] == h;
    if es != [] {
      assert es == [es[0]] + es[1..];
      if es[0].Turn? {
        OpenTunnelRuns(s.sent, h + d, es[1..], t);
      } else {
        var x := es[0].bytes;
        assert h + x + Before(es[1..]) == h + Before(es);
        TunnelRuns(s.(stage := Tunnel(h + x, d)), h + x, d, es[1..], t);
      }
    }
  }

  /** Which bytes the caller gets, and in which order. When `chunk` completes the reply, what it holds
      beyond the reply comes after everything that arrives before the next turn; nothing is lost or
      added. */
  lemma TunnelBytes(s: Sock, b: Bytes, pre: seq<Event>, chunk: Bytes, rest: seq<Event>, t: Target)
    requires Sendable(t) && s.stage == Replying(b) && JudgeReply(b + Stream(pre)).NeedMore?
    requires JudgeReply(b + Stream(pre) + chunk).Complete? && Turn in rest
    ensures var left := (b + Stream(pre) + chunk)[JudgeReply(b + Stream(pre) + chunk).length..];
            Feed(s, pre + [Chunk(chunk)] + rest, t) == s.(stage := Tunnel(Before(rest) + left + After(rest), []))
  {
    Decided(s, b, pre, chunk, rest, t);
    var decided := s.(stage := WholeReply(b + Stream(pre) + chunk));
    TunnelRuns(decided, [], decided.stage.deferred, rest, t);
    assert [] + Before(rest) == Before(rest);
  }

  /** The bytes handed on are exactly the stream after the reply if and only if the bytes left over from
      the reply's chunk and those that arrive before the next turn read the same in either order: none
      left over or none arriving, in particular. */
  lemma TunnelBytesExactIff(s: Sock, b: Bytes, pre: seq<Event>, chunk: Bytes, rest: seq<Event>, t: Target)
    requires Sendable(t) && s.stage == Replying(b) && JudgeReply(b + Stream(pre)).NeedMore?
    requires JudgeReply(b + Stream(pre) + chunk).Complete? && Turn in rest
    ensures var es := pre + [Chunk(chunk)] + rest;
            var need := JudgeReply(b + Stream(pre) + chunk).length;
            var left := (b + Stream(pre) + chunk)[need..];
            && JudgeReply(b + Stream(es)) == Complete(need)
            && (Feed(s, es, t).stage == Tunnel((b + Stream(es))[need..], []) <==>
                  left + Before(rest) == Before(rest) + left)
  {
    var head := b + Stream(pre) + chunk;
    TunnelBytes(s, b, pre, chunk, rest, t);
    WholeStream(b, pre, chunk, rest);
    ReplyDecidedEarly(head, Before(rest) + After(rest));
    OrderMatters(head, JudgeReply(head).length, Before(rest), After(rest));
  }

  lemma OrderMatters(head: Bytes, need: nat, early: Bytes, late: Bytes)
    requires need <= |head|
    ensures early + head[need..] + late == (head + (early + late))[need..]
       <==> head[need..] + early == early + head[need..]
  {
    var left := head[need..];
    assert (head + (early + late))[need..] == left + early + late;
    if early + left + late == left + early + late {
      assert early + left == (early + left + late)[..|early + left|];
      assert left + early == (left + early + late)[..|early + left|];
    }
  }

  /** With a turn right after the chunk that completes the reply, any cutting of the stream hands on
      exactly the stream after the reply, for a reply of any address type. */
  lemma TunnelBytesExact(s: Sock, reply: Bytes, payload: Bytes, pre: seq<Event>, chunk: Bytes, rest: seq<Event>, t: Target)
    requires Sendable(t) && s.stage == Replying([]) && JudgeReply(reply) == Complete(|reply|)
    requires Stream(pre + [Chunk(chunk), Turn] + rest) == reply + payload
    requires JudgeReply(Stream(pre)).NeedMore? && JudgeReply(Stream(pre) + chunk).Complete?
    ensures Feed(s, pre + [Chunk(chunk), Turn] + rest, t) == s.(stage := Tunnel(payload, []))
  {
    var es := pre + [Chunk(chunk)] + ([Turn] + rest);
    assert pre + [Chunk(chunk), Turn] + rest == es;
    assert [] + Stream(pre) == Stream(pre) && [] + Stream(es) == Stream(es);
    ReplyDecidedEarly(reply, payload);
    TunnelBytesExactIff(s, [], pre, chunk, [Turn] + rest, t);
    TunnelBytes(s, [], pre, chunk, [Turn] + rest, t);
    assert Before([Turn] + rest) == [];
    var left := (Stream(pre) + chunk)[JudgeReply(Stream(pre) + chunk).length..];
    assert left + [] == [] + left;
    assert (reply + payload)[|reply|..] == payload;
  }

  // ---------- The greeting ----------

  /** The greeting stage looks at one chunk only: bytes that arrive with the server's choice wait for the
      next chunk. Cutting a chunk in two there changes nothing exactly when the choice is not yet
      complete, or is refused, or the bytes behind it do not decide the reply. A server that waits for
      the request, as section 3 has it, sends no such bytes. */
  lemma GreetingChunkingIff(g: Bytes, sent: seq<Bytes>, a: Bytes, b: Bytes, t: Target)
    requires Sendable(t) && |g| < 2
    ensures var s := Sock(Greeting(g), sent);
            OnChunk(OnChunk(s, a, t), b, t) == OnChunk(s, a + b, t) <==>
              || |g + a| < 2
              || JudgeGreeting(g + a).Bad?
              || JudgeReply((g + a + b)[2..]).NeedMore?
  {
    assert g + (a + b) == g + a + b;
    if |g + a| >= 2 {
      assert (g + a)[2..] + b == (g + a + b)[2..];
    }
  }

  /** The server's choice of no authentication, in any chunks and turns, leads to the reply stage with the
      request sent once. */
  lemma {:induction false} ChoiceThenRequest(g: Bytes, es: seq<Event>, s: Sock, t: Target)
    requires Sendable(t) && s.stage == Greeting(g) && |g| < 2 && g + Stream(es) == [0x05, 0x00]
    ensures Feed(s, es, t) == Sock(Replying([]), s.sent + [ConnectRequest(t)])
    decreases |es|
  {
    assert g + [] == g;
    if es[0].Turn? {
      assert Stream(es) == Stream(es[1..]);
      ChoiceThenRequest(g, es[1..], s, t);
    } else {
      var b := g + es[0].bytes;
      assert b + Stream(es[1..]) == [0x05, 0x00];
      if |b| < 2 {
        ChoiceThenRequest(b, es[1..], s.(stage := Greeting(b)), t);
      } else {
        assert b == [0x05, 0x00] && Stream(es[1..]) == [];
        Undecided(On(s, es[0], t), [], es[1..], t);
      }
    }
  }

  /** Different targets have different requests. */
  lemma RequestInjective(t: Target, u: Target)
    requires Sendable(t) && Sendable(u) && ConnectRequest(t) == ConnectRequest(u)
    ensures t == u
  {
    var r, n := ConnectRequest(t), |t.host|;
    assert r[4] == |t.host| && ConnectRequest(u)[4] == |u.host|;
    assert r[5..5 + n] == t.host && ConnectRequest(u)[5..5 + n] == u.host;
    assert r[5 + n] == t.port / 256 && r[6 + n] == t.port % 256;
    assert ConnectRequest(u)[5 + n] == u.port / 256 && ConnectRequest(u)[6 + n] == u.port % 256;
  }

  // ---------- The formats of RFC 1928 ----------

  /** A granted CONNECT reply, section 6: VER, REP, RSV, ATYP, BND.ADDR and BND.PORT, the address four bytes for
      IPv4, sixteen for IPv6, and for a domain a length and as many bytes. */
  ghost predicate GrantedReply(b: Bytes) {
    |b| > 4 && b[0] == 0x05 && b[1] == 0x00 &&
    var address := |b| - 4 - 2;
    || (b[3] == 0x01 && address == 4)
    || (b[3] == 0x04 && address == 16)
    || (b[3] == 0x03 && address == 1 + b[4] as int)
  }

  /** Which streams begin with a granted reply, and where it ends: exactly those whose first bytes are one. */
  lemma GrantedIff(stream: Bytes, length: nat)
    ensures JudgeReply(stream) == Complete(length) <==> length <= |stream| && GrantedReply(stream[..length])
  {
    if length <= |stream| {
      assert forall i | 0 <= i < length :: stream[..length][i] == stream[i];
    }
  }

  /** Which streams are refused: four bytes are in, and the version is wrong, or the reply is not 0, or the
      address type is none of the three; the first of these that holds is the error. */
  lemma RefusedIff(stream: Bytes, e: Error)
    ensures JudgeReply(stream) == Bad(e) <==>
      && |stream| >= 4
      && e == (if stream[0] != 5 then BadVersion
               else if stream[1] != 0 then ConnectFailed(stream[1])
               else UnknownAddressType)
      && (stream[0] != 5 || stream[1] != 0 || (stream[3] != 1 && stream[3] != 3 && stream[3] != 4))
  {
  }

  /** What the server's choice of method, section 3, leads to: version 5 and method 0 go on, behind two bytes;
      the rest fails. */
  lemma ChoiceMeaning(g: Bytes, sent: seq<Bytes>, chunk: Bytes, t: Target)
    requires Sendable(t)
    ensures var b := g + chunk;
            OnChunk(Sock(Greeting(g), sent), chunk, t) ==
              if |b| < 2 then Sock(Greeting(b), sent)
              else if b[0] != 5 then Sock(Failed(BadVersion), sent)
              else if b[1] == 255 then Sock(Failed(AllMethodsRejected), sent)
              else if b[1] != 0 then Sock(Failed(UnsupportedMethod), sent)
              else Sock(Replying(b[2..]), sent + [ConnectRequest(t)])
  {
  }

  /** A server's reading of a CONNECT request for a domain, section 4: nothing if it is not exactly one. */
  function ReadRequest(b: Bytes): Option<Target> {
    if |b| < 7 || b[0] != 5 || b[1] != 1 || b[2] != 0 || b[3] != 3 || |b| != 5 + b[4] as int + 2 then None
    else
      var n: nat := b[4];
      Some(Target(b[5..5 + n], b[5 + n] as int * 0x100 + b[6 + n] as int))
  }

  /** A server reads the request as the target it was written for: the port's high byte comes first. */
  lemma RequestReadsBack(t: Target)
    requires Sendable(t)
    ensures ReadRequest(ConnectRequest(t)) == Some(t)
  {
    var r, n := ConnectRequest(t), |t.host|;
    assert r[4] == n && r[5..5 + n] == t.host;
    assert r[5 + n] == t.port / 256 && r[6 + n] == t.port % 256;
  }

  /** The greeting, section 3: version 5, one method, no authentication. */
  lemma GreetingBytes()
    ensures STARTED == Sock(Greeting([]), [[5, 1, 0]])
  {
  }
}
