/** The SOCKS socket of proto/socks/tcp.c: its handshake over a descriptor. */
module SocksSocket {
  import opened ByteStrings
  import opened Descriptors
  import opened Options
  import opened RBuffers
  import opened Socks
  import opened SocksHandshake
  import opened Targets

  const DEFAULT_BUFFER := 32

  /** A client message goes on after its version byte. */
  ghost predicate Longer<T>(d: Decoder<T>)
  {
    forall data :: d(data).Got? ==> d(data).n > 1
  }

  /** The five decoders of the two versions. */
  datatype Decoders = Decoders(
    authSel: Decoder<seq<Byte>>, authAck: Decoder<Byte>, message5: Decoder<(Byte, Target)>,
    request4: Decoder<(Byte, Target)>, response4: Decoder<Byte>)
  {
    ghost predicate Valid()
    {
      && Sane(authSel) && Stable(authSel) && Sane(authAck) && Stable(authAck)
      && Sane(message5) && Stable(message5) && Sane(request4) && Stable(request4)
      && Sane(response4) && Stable(response4)
      && Prompt(authSel) && Prompt(authAck) && Prompt(message5) && Prompt(request4) && Prompt(response4)
      && Longer(authSel) && Longer(request4)
    }
  }

  const SOCKS: Decoders := Decoders(DecodeAuthSel, DecodeAuthAck, DecodeMessage5, DecodeRequest4, DecodeResponse4)

  lemma {:induction false} SocksDecodersValid()
    ensures SOCKS.Valid()
  {
    AuthDecodersStable();
    Message5Stable();
    Version4Stable();
    AuthDecodersPrompt();
    Message5Prompt();
    Version4Prompt();
  }

  /** How a handshake ends: success, the messages to send, the target a server records, and the
      lengths of the peer's messages. */
  datatype Ending = Ending(ok: bool, answers: seq<seq<Byte>>, target: Option<Target>, lengths: seq<nat>)

  const REFUSED := Ending(false, [], None, [])

  /** What the server does with a stream of client bytes. */
  ghost function ServerEnding(k: Decoders, stream: seq<Byte>): Ending
    requires k.Valid()
  {
    if stream == [] then REFUSED
    else if stream[0] == SOCKS5_VERSION then Server5Ending(k, stream)
    else if stream[0] == SOCKS4_VERSION then Server4Ending(k, stream)
    else REFUSED
  }

  ghost function Server4Ending(k: Decoders, stream: seq<Byte>): Ending
  {
    var v := k.request4(stream);
    if v.Got? && v.value.0 == CMD_CONNECT then Ending(true, [RESPONSE4], Some(v.value.1), [v.n]) else REFUSED
  }

  ghost function Server5Ending(k: Decoders, stream: seq<Byte>): Ending
    requires k.Valid()
  {
    var v := k.authSel(stream);
    if v.Got? && METHOD_NO_AUTH in v.value then
      var e := Connect5Ending(k, stream[v.n..]);
      e.(answers := [AUTH_ACK] + e.answers, lengths := [v.n] + e.lengths)
    else REFUSED
  }

  ghost function Connect5Ending(k: Decoders, stream: seq<Byte>): Ending
  {
    var v := k.message5(stream);
    if v.Got? && v.value.0 == CMD_CONNECT then Ending(true, [RESPONSE5], Some(v.value.1), [v.n]) else REFUSED
  }

  /** What a client makes of a stream of server bytes. */
  ghost function ClientEnding(k: Decoders, setup: Setup, stream: seq<Byte>): Ending
    requires k.Valid()
  {
    if setup.V4? then
      var v := k.response4(stream);
      Ending(v.Got? && v.value == SOCKS4_REP_SUCCESS, [Request(setup)], None, if v.Got? then [v.n] else [])
    else
      var v := k.authAck(stream);
      if v.Got? && v.value == METHOD_NO_AUTH then
        var e := Reply5Ending(k, stream[v.n..]);
        e.(answers := [AUTH_SEL, Request(setup)], lengths := [v.n] + e.lengths)
      else
        Ending(false, [AUTH_SEL], None, [])
  }

  ghost function Reply5Ending(k: Decoders, stream: seq<Byte>): Ending
  {
    var v := k.message5(stream);
    if v.Got? && v.value.0 == SOCKS5_REP_SUCCESS then Ending(true, [], None, [v.n]) else REFUSED
  }

  function Total(lengths: seq<nat>): nat
  {
    if lengths == [] then 0 else lengths[0] + Total(lengths[1..])
  }

  /** When a handshake that reads one or two messages takes in nothing behind them. A fragment ends
      with the last message; or the last message fills the grown buffer; or both messages together
      fill the buffer at the first of them and no fragment ends in between. */
  ghost predicate Lossless(events: seq<Event>, lengths: seq<nat>)
  {
    match |lengths|
    case 1 => Cut(events, lengths[0]) || lengths[0] == GrownTo(DEFAULT_BUFFER, lengths[0])
    case 2 => lengths[0] > 0 && LosslessPair(events, lengths[0], lengths[1], GrownTo(DEFAULT_BUFFER, lengths[0]))
    case _ => false
  }

  ghost predicate LosslessPair(events: seq<Event>, n1: nat, n2: nat, grown: nat)
    requires n1 > 0 && grown > 0
  {
    Cut(events, n1 + n2) || n2 == GrownTo(grown, n2) || (n1 + n2 == grown && NoCut(events, n1 - 1, n1 + n2))
  }

  /** One message, of which `b` bytes were read before. */
  lemma {:induction false} OneMessage(start: seq<Event>, b: nat, events: seq<Event>, left: seq<Event>, n: nat,
      rest: nat, size': nat)
    requires Advanced(start, b, events) && b < n && Took(events, left, b, n, rest, DEFAULT_BUFFER, size')
    ensures rest == 0 <==> Lossless(start, [n])
  {
    TookNothingMore(events, left, b, n, rest, DEFAULT_BUFFER, size');
    assert Cut(events, n - b) <==> Cut(start, b + (n - b));
  }

  lemma {:induction false} Shifted(start: seq<Event>, b: nat, events: seq<Event>, from: nat, to: nat)
    requires Advanced(start, b, events) && b <= from && b <= to
    ensures NoCut(events, from - b, to - b) <==> NoCut(start, from, to)
  {
    forall m: nat {:trigger Cut(start, m)} | from < m < to ensures Cut(start, m) <==> Cut(events, m - b) {
      assert Cut(events, m - b) <==> Cut(start, b + (m - b));
    }
    forall m: nat {:trigger Cut(events, m)} | from - b < m < to - b ensures Cut(events, m) <==> Cut(start, b + m) {
    }
  }

  /** Two messages, the second one perhaps partly or wholly taken in with the first. */
  lemma {:induction false} TwoMessages(start: seq<Event>, b: nat, events: seq<Event>, mid: seq<Event>,
      left: seq<Event>, n1: nat, r1: nat, size1: nat, n2: nat, r2: nat, size2: nat)
    requires Advanced(start, b, events) && b < n1 && n2 > 0
    requires Took(events, mid, b, n1, r1, DEFAULT_BUFFER, size1) && Took(mid, left, r1, n2, r2, size1, size2)
    ensures r2 == 0 <==> Lossless(start, [n1, n2])
  {
    var t1 := n1 + r1;
    assert Cut(events, t1 - b) <==> Cut(start, b + (t1 - b));
    assert Cut(events, n1 + n2 - b) <==> Cut(start, b + (n1 + n2 - b));
    Shifted(start, b, events, n1 - 1, t1);
    if r1 < n2 {
      TookNothingMore(mid, left, r1, n2, r2, size1, size2);
      assert Cut(mid, n2 - r1) <==> Cut(events, t1 - b + (n2 - r1));
      assert t1 - b + (n2 - r1) == n1 + n2 - b;
    }
  }

  /** A message of `n` bytes has been taken from `stream`, of which `before` bytes were buffered, and
      the buffer holds `held` behind it. */
  ghost predicate Received(stream: seq<Byte>, n: nat, events: seq<Event>, left: seq<Event>, before: nat,
      held: seq<Byte>, size: nat, size': nat)
  {
    n <= |stream| && Took(events, left, before, n, |held|, size, size') && held + Incoming(left) == stream[n..]
  }

  /** What a handshake over `stream` that began with `start` to arrive, and is now to end as `e`,
      leaves: on success the buffer holds `held`, which is then dropped. Those are bytes behind the
      peer's messages, none exactly if the handshake was lossless. */
  ghost predicate Ends(e: Ending, ok: bool, start: seq<Event>, stream: seq<Byte>, held: seq<Byte>, left: seq<Event>)
  {
    && ok == e.ok
    && (ok ==>
      && Total(e.lengths) <= |stream| && held + Incoming(left) == stream[Total(e.lengths)..]
      && (held == [] <==> Lossless(start, e.lengths)))
  }

  /** And what it has sent, of which those messages get out whose write succeeds, and recorded. */
  ghost predicate Done(e: Ending, ok: bool, start: seq<Event>, stream: seq<Byte>, held: seq<Byte>, left: seq<Event>,
      sent: seq<Byte>, writes: seq<bool>, sent': seq<Byte>, target: Option<Target>, target': Option<Target>)
  {
    && Ends(e, ok, start, stream, held, left)
    && sent' == sent + Written(e.answers, writes)
    && target' == if ok then e.target else target
  }

  /** After one message. */
  lemma {:induction false} EndsAfterOne(e: Ending, start: seq<Event>, b: nat, events: seq<Event>, stream: seq<Byte>,
      n: nat, held: seq<Byte>, left: seq<Event>, size': nat)
    requires e.ok && e.lengths == [n] && Advanced(start, b, events) && b < n
    requires Received(stream, n, events, left, b, held, DEFAULT_BUFFER, size')
    ensures Ends(e, true, start, stream, held, left)
  {
    OneMessage(start, b, events, left, n, |held|, size');
    assert Total([n]) == n;
  }

  /** After two messages. */
  lemma {:induction false} EndsAfterTwo(e: Ending, start: seq<Event>, b: nat, events: seq<Event>, stream: seq<Byte>,
      n1: nat, held1: seq<Byte>, mid: seq<Event>, size1: nat, n2: nat, held: seq<Byte>, left: seq<Event>, size2: nat)
    requires e.ok && e.lengths == [n1, n2] && Advanced(start, b, events) && b < n1 && 0 < n2
    requires Received(stream, n1, events, mid, b, held1, DEFAULT_BUFFER, size1)
    requires Received(held1 + Incoming(mid), n2, mid, left, |held1|, held, size1, size2)
    ensures Ends(e, true, start, stream, held, left)
  {
    TwoMessages(start, b, events, mid, left, n1, |held1|, size1, n2, |held|, size2);
    assert [n1, n2][1..] == [n2] && Total([n2]) == n2;
    assert stream[n1..][n2..] == stream[n1 + n2..];
  }

  /** One message after the other. */
  lemma {:induction false} WrittenNext(first: seq<Byte>, rest: seq<seq<Byte>>, sent: seq<Byte>,
      writes: seq<bool>, sent1: seq<Byte>, writes1: seq<bool>)
    requires sent1 == sent + Written([first], writes) && writes1 == After(writes, 1)
    ensures sent1 + Written(rest, writes1) == sent + Written([first] + rest, writes)
  {
    assert ([first] + rest)[1..] == rest;
    var piece := if NextOk(writes) then first else [];
    assert Written([first], writes) == piece + [] == piece;
    ConcatAssociative(sent, piece, Written(rest, writes1));
  }

  /** The version 5 server after its two steps, the second one ending as `e`. */
  lemma {:induction false} Ends5(k: Decoders, start: seq<Event>, events: seq<Event>, stream: seq<Byte>,
      mid: seq<Event>, held1: seq<Byte>, size1: nat, e: Ending, held: seq<Byte>, left: seq<Event>, size2: nat)
    requires k.Valid() && Advanced(start, 1, events)
    requires k.authSel(stream).Got? && METHOD_NO_AUTH in k.authSel(stream).value
    requires Received(stream, k.authSel(stream).n, events, mid, 1, held1, DEFAULT_BUFFER, size1)
    requires e == Connect5Ending(k, held1 + Incoming(mid))
    requires e.ok ==> Received(held1 + Incoming(mid), k.message5(held1 + Incoming(mid)).n, mid, left, |held1|, held,
      size1, size2)
    ensures Ends(Server5Ending(k, stream), e.ok, start, stream, held, left)
    ensures Server5Ending(k, stream).answers == [AUTH_ACK] + e.answers
    ensures Server5Ending(k, stream).target == e.target
  {
    var n1, rest := k.authSel(stream).n, held1 + Incoming(mid);
    assert rest == stream[n1..];
    if e.ok {
      var n2 := k.message5(rest).n;
      assert [n1] + [n2] == [n1, n2];
      EndsAfterTwo(Server5Ending(k, stream), start, 1, events, stream, n1, held1, mid, size1, n2, held, left, size2);
    }
  }

  /** The version 5 client likewise. */
  lemma {:induction false} ClientEnds5(k: Decoders, setup: Setup, events: seq<Event>, stream: seq<Byte>,
      mid: seq<Event>, held1: seq<Byte>, size1: nat, e: Ending, held: seq<Byte>, left: seq<Event>, size2: nat,
      sent: seq<Byte>, writes: seq<bool>, sent2: seq<Byte>)
    requires k.Valid() && setup.V5?
    requires k.authAck(stream).Got? && k.authAck(stream).value == METHOD_NO_AUTH
    requires Received(stream, k.authAck(stream).n, events, mid, 0, held1, DEFAULT_BUFFER, size1)
    requires e == Reply5Ending(k, held1 + Incoming(mid))
    requires e.ok ==> Received(held1 + Incoming(mid), k.message5(held1 + Incoming(mid)).n, mid, left, |held1|, held,
      size1, size2)
    requires sent2 == sent + Written([AUTH_SEL] + [Request(setup)], writes)
    ensures Done(ClientEnding(k, setup, stream), e.ok, events, stream, held, left, sent, writes, sent2, None, None)
  {
    assert [AUTH_SEL] + [Request(setup)] == [AUTH_SEL, Request(setup)];
    var n1, rest := k.authAck(stream).n, held1 + Incoming(mid);
    assert rest == stream[n1..];
    if e.ok {
      var n2 := k.message5(rest).n;
      assert [n1] + [n2] == [n1, n2];
      EndsAfterTwo(ClientEnding(k, setup, stream), events, 0, events, stream, n1, held1, mid, size1, n2, held, left,
        size2);
    }
  }

  /** Without the rest of its message a version byte is refused, whatever it is: a server that takes
      a garbage byte for one after a failed read does no harm. */
  lemma {:induction false} VersionAlone(k: Decoders, vers: Byte)
    requires k.Valid()
    ensures ServerEnding(k, [vers]) == REFUSED
  {
  }

  lemma {:induction false} OneArrived(b: Byte, events: seq<Event>) returns (all: seq<Event>)
    ensures Advanced(all, 1, events)
  {
    var fragment: Fragment := [b];
    all := [Arrive(fragment)] + events;
    assert all[1..] == events;
  }

  class Socket {
    const fd: Fd
    var target: Option<Target>

    constructor (fd: Fd)
      ensures this.fd == fd && target == None
    {
      this.fd, target := fd, None;
    }

    /** One write of the handshake; nobody looks whether it fails. */
    method Send(message: seq<Byte>)
      modifies fd`sent, fd`outcomes
      ensures fd.sent == old(fd.sent) + Written([message], old(fd.outcomes))
      ensures fd.outcomes == After(old(fd.outcomes), 1)
    {
      assert message + [] == message && fd.sent + [] == fd.sent;
      var _ := fd.Write(message);
    }

    /** A read of the handshake, for the message `d` decodes. */
    method Receive<T>(rbuf: RBuffer, d: Decoder<T>) returns (r: Outcome<T>)
      requires rbuf.Valid() && Sane(d) && Stable(d) && Prompt(d)
      modifies rbuf, rbuf.buf, fd`events
      ensures rbuf.Valid() && (rbuf.buf == old(rbuf.buf) || fresh(rbuf.buf))
      ensures var stream := old(rbuf.Contents() + Incoming(fd.events));
        && (r.Success? <==> d(stream).Got?)
        && (r.Success? ==> r.value == d(stream).value)
      ensures r.Success? ==> var stream := old(rbuf.Contents() + Incoming(fd.events));
        Received(stream, d(stream).n, old(fd.events), fd.events, |old(rbuf.Contents())|, rbuf.Contents(),
          old(rbuf.size), rbuf.size)
    {
      r := ReadWhole(rbuf, fd, d);
    }

    /** The version 5 request and its answer. */
    method Connect5(rbuf: RBuffer, k: Decoders) returns (ok: bool)
      requires rbuf.Valid() && k.Valid()
      modifies this, rbuf, rbuf.buf, fd`events, fd`sent, fd`outcomes
      ensures rbuf.Valid()
      ensures var e := Connect5Ending(k, old(rbuf.Contents() + Incoming(fd.events)));
        && ok == e.ok && target == (if ok then e.target else old(target))
        && fd.sent == old(fd.sent) + Written(e.answers, old(fd.outcomes))
      ensures ok ==> var stream := old(rbuf.Contents() + Incoming(fd.events));
        Received(stream, k.message5(stream).n, old(fd.events), fd.events, |old(rbuf.Contents())|, rbuf.Contents(),
          old(rbuf.size), rbuf.size)
    {
      assert fd.sent + [] == fd.sent;
      var r := Receive(rbuf, k.message5);
      if !r.Success? || r.value.0 != CMD_CONNECT {
        return false;
      }
      target := Some(r.value.1);
      var response := EncodeResponse5(SOCKS5_REP_SUCCESS);
      Send(response);
      ok := true;
    }

    /** The version 5 method selection and its answer. */
    method Select5(rbuf: RBuffer, k: Decoders) returns (ok: bool)
      requires rbuf.Valid() && k.Valid()
      modifies rbuf, rbuf.buf, fd`events, fd`sent, fd`outcomes
      ensures rbuf.Valid() && (rbuf.buf == old(rbuf.buf) || fresh(rbuf.buf))
      ensures var v := k.authSel(old(rbuf.Contents() + Incoming(fd.events)));
        ok <==> v.Got? && METHOD_NO_AUTH in v.value
      ensures ok ==> var stream := old(rbuf.Contents() + Incoming(fd.events));
        Received(stream, k.authSel(stream).n, old(fd.events), fd.events, |old(rbuf.Contents())|, rbuf.Contents(),
          old(rbuf.size), rbuf.size)
      ensures ok ==> fd.sent == old(fd.sent) + Written([AUTH_ACK], old(fd.outcomes))
      ensures ok ==> fd.outcomes == After(old(fd.outcomes), 1)
      ensures !ok ==> fd.sent == old(fd.sent)
    {
      var r := Receive(rbuf, k.authSel);
      if !r.Success? || METHOD_NO_AUTH !in r.value {
        return false;
      }
      var ack := EncodeAuthAck(METHOD_NO_AUTH);
      Send(ack);
      ok := true;
    }

    /** The version 5 method selection, then the request. `start` is what was to arrive when the
        handshake began. */
    method Serve5(rbuf: RBuffer, k: Decoders, ghost start: seq<Event>) returns (ok: bool)
      requires rbuf.Valid() && k.Valid() && rbuf.size == DEFAULT_BUFFER
      requires |rbuf.Contents()| == 1 && Advanced(start, 1, fd.events)
      modifies this, rbuf, rbuf.buf, fd`events, fd`sent, fd`outcomes
      ensures rbuf.Valid()
      ensures var stream := old(rbuf.Contents() + Incoming(fd.events));
        Done(Server5Ending(k, stream), ok, start, stream, rbuf.Contents(), fd.events, old(fd.sent), old(fd.outcomes),
          fd.sent, old(target), target)
    {
      ghost var stream, events, sent, writes := rbuf.Contents() + Incoming(fd.events), fd.events, fd.sent, fd.outcomes;
      ok := Select5(rbuf, k);
      if !ok {
        assert sent + [] == sent;
        return;
      }
      ghost var mid, held, size1, sent1, writes1 := fd.events, rbuf.Contents(), rbuf.size, fd.sent, fd.outcomes;
      ghost var e := Connect5Ending(k, held + Incoming(mid));
      ok := Connect5(rbuf, k);
      Ends5(k, start, events, stream, mid, held, size1, e, rbuf.Contents(), fd.events, rbuf.size);
      WrittenNext(AUTH_ACK, e.answers, sent, writes, sent1, writes1);
    }

    method Serve4(rbuf: RBuffer, k: Decoders, ghost start: seq<Event>) returns (ok: bool)
      requires rbuf.Valid() && k.Valid() && rbuf.size == DEFAULT_BUFFER
      requires |rbuf.Contents()| == 1 && Advanced(start, 1, fd.events)
      modifies this, rbuf, rbuf.buf, fd`events, fd`sent, fd`outcomes
      ensures rbuf.Valid()
      ensures var stream := old(rbuf.Contents() + Incoming(fd.events));
        Done(Server4Ending(k, stream), ok, start, stream, rbuf.Contents(), fd.events, old(fd.sent), old(fd.outcomes),
          fd.sent, old(target), target)
    {
      ghost var stream, events := rbuf.Contents() + Incoming(fd.events), fd.events;
      assert fd.sent + [] == fd.sent;
      var r := Receive(rbuf, k.request4);
      if !r.Success? || r.value.0 != CMD_CONNECT {
        return false;
      }
      EndsAfterOne(Server4Ending(k, stream), start, 1, events, stream, k.request4(stream).n, rbuf.Contents(), fd.events,
        rbuf.size);
      target := Some(r.value.1);
      var response := EncodeResponse4(SOCKS4_REP_SUCCESS);
      Send(response);
      ok := true;
    }

    /** Goes on according to the version byte, which is back at the start of the buffer. */
    method Serve(rbuf: RBuffer, k: Decoders, vers: Byte, ghost start: seq<Event>) returns (ok: bool)
      requires rbuf.Valid() && k.Valid() && rbuf.Contents() == [vers] && rbuf.size == DEFAULT_BUFFER
      requires Advanced(start, 1, fd.events)
      modifies this, rbuf, rbuf.buf, fd`events, fd`sent, fd`outcomes
      ensures rbuf.Valid()
      ensures var stream := [vers] + Incoming(old(fd.events));
        Done(ServerEnding(k, stream), ok, start, stream, rbuf.Contents(), fd.events, old(fd.sent), old(fd.outcomes),
          fd.sent, old(target), target)
    {
      if vers == SOCKS5_VERSION {
        ok := Serve5(rbuf, k, start);
      } else if vers == SOCKS4_VERSION {
        ok := Serve4(rbuf, k, start);
      } else {
        assert fd.sent + [] == fd.sent;
        ok := false;
      }
    }

    /** Reads the version byte and puts it back at the start of the buffer. A failed read is not
        noticed: then the byte is whatever was in memory. */
    method ReadVersion(rbuf: RBuffer) returns (n: int, vers: Byte, ghost start: seq<Event>)
      requires rbuf.Valid() && rbuf.Contents() == [] && rbuf.size == DEFAULT_BUFFER
      modifies rbuf, rbuf.buf, fd`events
      ensures rbuf.Valid() && (rbuf.buf == old(rbuf.buf) || fresh(rbuf.buf))
      ensures n <= 0 ==> Incoming(old(fd.events)) == [] == Incoming(fd.events)
      ensures n > 0 ==> start == old(fd.events) && [vers] + Incoming(fd.events) == Incoming(start)
      ensures n == 0 ==> rbuf.Contents() == []
      ensures n != 0 ==>
        rbuf.Contents() == [vers] && rbuf.size == DEFAULT_BUFFER && Advanced(start, 1, fd.events)
    {
      start := fd.events;
      var first;
      n, first := fd.Read(1);
      vers := *;
      if n == 0 {
        return;
      }
      if n > 0 {
        vers := first[0];
        assert first == [vers];
      } else {
        start := OneArrived(vers, fd.events);
      }
      assert [] + [vers] == [vers];
      rbuf.Push([vers]);
    }

    /** The server half of _socks_tcp_socket_handshake_c. The outcome depends only on the bytes that
        arrive and on which writes succeed, not on fragments. What is still buffered at the end is
        `dropped`. */
    method ServerHandshake(k: Decoders) returns (ok: bool, ghost dropped: seq<Byte>)
      requires k.Valid()
      modifies this, fd`events, fd`sent, fd`outcomes
      ensures var stream := Incoming(old(fd.events));
        Done(ServerEnding(k, stream), ok, old(fd.events), stream, dropped, fd.events, old(fd.sent), old(fd.outcomes),
          fd.sent, old(target), target)
    {
      assert fd.sent + [] == fd.sent;
      var rbuf := new RBuffer(DEFAULT_BUFFER);
      var n, vers;
      ghost var start;
      n, vers, start := ReadVersion(rbuf);
      if n == 0 {
        return false, [];
      }
      if n < 0 {
        VersionAlone(k, vers);
        assert [vers] + [] == [vers];
      }
      ok := Serve(rbuf, k, vers, start);
      dropped := rbuf.Contents();
    }

    /** The client half of version 4, with the target already resolved to an IPv4 address. */
    method Client4(rbuf: RBuffer, k: Decoders, setup: Setup) returns (ok: bool)
      requires rbuf.Valid() && k.Valid() && rbuf.size == DEFAULT_BUFFER && rbuf.Contents() == [] && setup.V4?
      modifies rbuf, rbuf.buf, fd`events, fd`sent, fd`outcomes
      ensures rbuf.Valid()
      ensures var stream := Incoming(old(fd.events));
        Done(ClientEnding(k, setup, stream), ok, old(fd.events), stream, rbuf.Contents(), fd.events, old(fd.sent),
          old(fd.outcomes), fd.sent, None, None)
    {
      ghost var stream, events := Incoming(fd.events), fd.events;
      assert rbuf.Contents() + stream == stream;
      var request := EncodeRequest4(CMD_CONNECT, setup.ipv4, setup.port);
      Send(request);
      var r := Receive(rbuf, k.response4);
      ok := r.Success? && r.value == SOCKS4_REP_SUCCESS;
      if ok {
        EndsAfterOne(ClientEnding(k, setup, stream), events, 0, events, stream, k.response4(stream).n, rbuf.Contents(),
          fd.events, rbuf.size);
      }
    }

    /** The version 5 reply. */
    method Reply5(rbuf: RBuffer, k: Decoders) returns (ok: bool)
      requires rbuf.Valid() && k.Valid()
      modifies rbuf, rbuf.buf, fd`events
      ensures rbuf.Valid()
      ensures ok == Reply5Ending(k, old(rbuf.Contents() + Incoming(fd.events))).ok
      ensures ok ==> var stream := old(rbuf.Contents() + Incoming(fd.events));
        Received(stream, k.message5(stream).n, old(fd.events), fd.events, |old(rbuf.Contents())|, rbuf.Contents(),
          old(rbuf.size), rbuf.size)
    {
      var r := Receive(rbuf, k.message5);
      ok := r.Success? && r.value.0 == SOCKS5_REP_SUCCESS;
    }

    /** The client half of version 5. */
    method Client5(rbuf: RBuffer, k: Decoders, setup: Setup) returns (ok: bool)
      requires rbuf.Valid() && k.Valid() && rbuf.size == DEFAULT_BUFFER && rbuf.Contents() == [] && setup.V5?
      modifies rbuf, rbuf.buf, fd`events, fd`sent, fd`outcomes
      ensures rbuf.Valid()
      ensures var stream := Incoming(old(fd.events));
        Done(ClientEnding(k, setup, stream), ok, old(fd.events), stream, rbuf.Contents(), fd.events, old(fd.sent),
          old(fd.outcomes), fd.sent, None, None)
    {
      ghost var stream, events, sent, writes := Incoming(fd.events), fd.events, fd.sent, fd.outcomes;
      assert rbuf.Contents() + stream == stream;
      var sel := Socks5EncodeAuthSel([METHOD_NO_AUTH]);
      Send(sel);
      ghost var sent1, writes1 := fd.sent, fd.outcomes;
      var r := Receive(rbuf, k.authAck);
      if !r.Success? || r.value != METHOD_NO_AUTH {
        return false;
      }
      ghost var mid, held, size1 := fd.events, rbuf.Contents(), rbuf.size;
      ghost var e := Reply5Ending(k, held + Incoming(mid));
      var request := Socks5EncodeRequest(CMD_CONNECT, setup.want);
      Send(request);
      WrittenNext(sel, [request], sent, writes, sent1, writes1);
      ok := Reply5(rbuf, k);
      ClientEnds5(k, setup, events, stream, mid, held, size1, e, rbuf.Contents(), fd.events, rbuf.size, sent, writes,
        fd.sent);
    }

    /** The client half of _socks_tcp_socket_handshake_c. */
    method ClientHandshake(k: Decoders, setup: Setup) returns (ok: bool, ghost dropped: seq<Byte>)
      requires k.Valid()
      modifies fd`events, fd`sent, fd`outcomes
      ensures var stream := Incoming(old(fd.events));
        Done(ClientEnding(k, setup, stream), ok, old(fd.events), stream, dropped, fd.events, old(fd.sent),
          old(fd.outcomes), fd.sent, None, None)
    {
      var rbuf := new RBuffer(DEFAULT_BUFFER);
      if setup.V4? {
        ok := Client4(rbuf, k, setup);
      } else {
        ok := Client5(rbuf, k, setup);
      }
      dropped := rbuf.Contents();
    }
  }

  function Replies(setup: Setup): seq<Byte>
  {
    if setup.V5? then AUTH_ACK + RESPONSE5 else RESPONSE4
  }

  /** What the client sends, in order, when all goes well. */
  function Questions(setup: Setup): seq<seq<Byte>>
  {
    if setup.V5? then [AUTH_SEL, Request(setup)] else [Request(setup)]
  }

  /** A client that gets the usual replies loses what the server sends behind them exactly if no
      fragment ends with them; a peer that sends nothing behind its messages loses nothing. */
  lemma {:induction false} RepliesLossless(setup: Setup, events: seq<Event>, lengths: seq<nat>)
    ensures Lossless(events, if setup.V5? then [|AUTH_ACK|, |RESPONSE5|] else [|RESPONSE4|]) <==>
      Cut(events, |Replies(setup)|)
    ensures 1 <= |lengths| <= 2 && lengths[0] > 0 && Total(lengths) == |Incoming(events)| ==>
      Lossless(events, lengths)
  {
    CutAtEnd(events);
    if |lengths| == 1 {
      assert Total(lengths) == lengths[0] + Total(lengths[1..]) == lengths[0];
    } else if |lengths| == 2 {
      assert lengths[1..] == [lengths[1]];
      assert Total(lengths) == lengths[0] + Total([lengths[1]]) == lengths[0] + lengths[1];
    }
  }

  /** On the server's replies, whatever follows, the client succeeds, sends its messages and reads
      the replies and nothing more. */
  ghost predicate ClientFits(k: Decoders, setup: Setup, down: seq<Byte>)
    requires k.Valid()
  {
    var e := ClientEnding(k, setup, Replies(setup) + down);
    e.ok && e.answers == Questions(setup) && Total(e.lengths) == |Replies(setup)|
  }

  /** On the client's messages, whatever follows, the server succeeds, replies, records the target
      the client wants and reads the messages and nothing more. */
  ghost predicate ServerFits(k: Decoders, setup: Setup, up: seq<Byte>)
    requires k.Valid()
  {
    var e := ServerEnding(k, Concat(Questions(setup)) + up);
    && e.ok && Concat(e.answers) == Replies(setup) && e.target == Some(setup.Wanted())
    && Total(e.lengths) == |Concat(Questions(setup))|
  }

  /** The two halves fit. */
  lemma {:induction false} HalvesFit(setup: Setup, up: seq<Byte>, down: seq<Byte>)
    requires setup.Valid()
    ensures SOCKS.Valid() && ClientFits(SOCKS, setup, down) && ServerFits(SOCKS, setup, up)
  {
    SocksDecodersValid();
    if setup.V5? {
      AuthRoundTrip([METHOD_NO_AUTH], METHOD_NO_AUTH);
      Request5RoundTrip(CMD_CONNECT, setup.want);
      ResponsesRoundTrip(SOCKS5_REP_SUCCESS);
      Client5Fits(SOCKS, setup, down);
      Server5Fits(SOCKS, setup, up);
    } else {
      Request4RoundTrip(CMD_CONNECT, setup.ipv4, setup.port);
      ResponsesRoundTrip(SOCKS4_REP_SUCCESS);
      Client4Fits(SOCKS, setup, down);
      Server4Fits(SOCKS, setup, Request(setup), up);
    }
  }

  lemma {:induction false} Client4Fits(k: Decoders, setup: Setup, down: seq<Byte>)
    requires k.Valid() && setup.V4? && Recognizes(k.response4, RESPONSE4, SOCKS4_REP_SUCCESS)
    ensures ClientFits(k, setup, down)
  {
    TotalOfOne(RESPONSE4);
  }

  lemma {:induction false} Server4Fits(k: Decoders, setup: Setup, request: seq<Byte>, up: seq<Byte>)
    requires k.Valid() && setup.V4? && request == Request(setup)
    requires Recognizes(k.request4, request, (CMD_CONNECT, setup.Wanted()))
    ensures ServerFits(k, setup, up)
  {
    TotalOfOne(request);
    TotalOfOne(RESPONSE4);
    assert (request + up)[0] == request[0] == SOCKS4_VERSION;
  }

  lemma {:induction false} Client5Fits(k: Decoders, setup: Setup, down: seq<Byte>)
    requires k.Valid() && setup.V5?
    requires Recognizes(k.authAck, AUTH_ACK, METHOD_NO_AUTH)
    requires Recognizes(k.message5, RESPONSE5, (SOCKS5_REP_SUCCESS, Target(IPv4([0, 0, 0, 0]), 0)))
    ensures ClientFits(k, setup, down)
  {
    ConcatAssociative(AUTH_ACK, RESPONSE5, down);
    assert (AUTH_ACK + (RESPONSE5 + down))[|AUTH_ACK|..] == RESPONSE5 + down;
    TotalOfTwo(AUTH_ACK, RESPONSE5);
  }

  lemma {:induction false} Server5Fits(k: Decoders, setup: Setup, up: seq<Byte>)
    requires k.Valid() && setup.V5?
    requires Recognizes(k.authSel, AUTH_SEL, [METHOD_NO_AUTH])
    requires Recognizes(k.message5, Request(setup), (CMD_CONNECT, setup.Wanted()))
    ensures ServerFits(k, setup, up)
  {
    ConcatAssociative(AUTH_SEL, Request(setup), up);
    assert (AUTH_SEL + (Request(setup) + up))[|AUTH_SEL|..] == Request(setup) + up;
    TotalOfTwo(AUTH_SEL, Request(setup));
    TotalOfTwo(AUTH_ACK, RESPONSE5);
  }

  lemma {:induction false} TotalOfOne(a: seq<Byte>)
    ensures Concat([a]) == a && Total([|a|]) == |a|
  {
    assert a + [] == a;
  }

  lemma {:induction false} TotalOfTwo(a: seq<Byte>, b: seq<Byte>)
    ensures Concat([a, b]) == a + b && Concat([a] + [b]) == a + b
    ensures Total([|a|] + [|b|]) == |a + b|
  {
    assert [a, b][1..] == [b] && ([a] + [b])[1..] == [b];
    TotalOfOne(b);
    assert ([|a|] + [|b|])[1..] == [|b|];
  }
}
