/** Two VMess sockets against each other: the handshake agrees, and what one side writes the other
    side reads. */
module VmessSession {
  import opened ByteStrings
  import opened Cfb
  import opened Descriptors
  import opened Options
  import opened RBuffers
  import opened Targets
  import opened VBuffers
  import opened VmessFrames
  import opened VmessHeader
  import opened VmessSocket
  import opened VmessStream
  import opened VmessWriter

  /** The handshake agrees. The server waits for a request, the client for a response, each on a
      stream cut into any fragments. If what reaches the server starts with the client's request
      and, once the server has answered, what reaches the client starts with that answer, then both
      succeed and share key, iv, generation time and nonce, the server's target is the client's,
      and what is left in or on the way to their buffers is exactly the start of the data. */
  lemma {:induction false} HandshakeAgrees(cr: Crypto, userId: Block, clock: nat -> Clock, client: Auth,
      want: Target, pad: Padding,
    up: seq<Byte>, s: Reader, serverOk: bool, serverSeen: seq<Byte>, s': Reader,
    down: seq<Byte>, c: Reader, clientOk: bool, clientSeen: seq<Byte>, c': Reader)
    requires SharedAuth(cr, userId, client) && ClockAgrees(cr, userId, client.genTime, clock)
    requires |pad| <= 15 && (want.addr.Domain? ==> |want.addr.name| <= 0xff)
    requires Sane(RequestDecoder(cr, userId, clock)) && Sane(ResponseDecoder(cr, client))
    requires HeaderStep(RequestDecoder(cr, userId, clock), s, serverOk, serverSeen, s')
    requires s.Stream() == EncodeRequest(cr, userId, client, Request(want, 1, 0, 1, 1), pad) + up
    requires HeaderStep(ResponseDecoder(cr, client), c, clientOk, clientSeen, c')
    requires serverOk ==>
      c.Stream() == EncodeResponse(cr, RequestDecoder(cr, userId, clock)(serverSeen).value.0, 1) + down
    ensures serverOk && RequestDecoder(cr, userId, clock)(serverSeen).value == (client, Request(want, 1, 0, 1, 1))
    ensures s'.Stream() == up
    ensures clientOk && c'.Stream() == down
  {
    var req := Request(want, 1, 0, 1, 1);
    RequestRecognized(cr, userId, clock, client, req, pad);
    HeaderReceived(RequestDecoder(cr, userId, clock), EncodeRequest(cr, userId, client, req, pad), (client, req), up,
      s, serverOk, serverSeen, s');
    ResponseRoundTrip(cr, client, client, 1);
    HeaderReceived(ResponseDecoder(cr, client), EncodeResponse(cr, client, 1), 1, down, c, clientOk, clientSeen, c');
  }

  // ---------- the writing side ----------

  lemma {:induction false} FramesAppend(enc: Encoder, a: seq<Payload>, b: seq<Payload>)
    ensures Frames(enc, a + b) == Frames(enc, a) + Frames(enc, b)
    decreases |a|
  {
    if a == [] {
      assert a + b == b;
      assert [] + Frames(enc, b) == Frames(enc, b);
    } else {
      assert (a + b)[1..] == a[1..] + b;
      FramesAppend(enc, a[1..], b);
      ConcatAssociative(enc(a[0]), Frames(enc, a[1..]), Frames(enc, b));
    }
  }

  /** The frames of some payloads are sent until a write fails; `ok` if none does. */
  ghost predicate Sends(enc: Encoder, payloads: seq<Payload>, ok: bool, sent: seq<Byte>, outcomes: seq<bool>,
      sent': seq<Byte>, outcomes': seq<bool>)
  {
    var done := Min(|payloads|, Leading(outcomes));
    && ok == (done == |payloads|) && sent' == sent + Frames(enc, payloads[..done])
    && outcomes' == After(outcomes, if ok then done else done + 1)
  }

  lemma {:induction false} LeadingAfter(outcomes: seq<bool>, n: nat, m: nat)
    requires n <= Leading(outcomes)
    ensures Leading(outcomes) == n + Leading(After(outcomes, n))
    ensures After(After(outcomes, n), m) == After(outcomes, n + m)
    decreases n
  {
    if n > 0 {
      LeadingAfter(outcomes[1..], n - 1, m);
      AfterNext(outcomes, n);
    }
  }

  /** Two groups of payloads, one after the other. */
  lemma {:induction false} SendsBoth(enc: Encoder, a: seq<Payload>, b: seq<Payload>, ok: bool, sent: seq<Byte>,
      outcomes: seq<bool>, sent1: seq<Byte>, outcomes1: seq<bool>, sent2: seq<Byte>, outcomes2: seq<bool>)
    requires Sends(enc, a, true, sent, outcomes, sent1, outcomes1)
    requires Sends(enc, b, ok, sent1, outcomes1, sent2, outcomes2)
    ensures Sends(enc, a + b, ok, sent, outcomes, sent2, outcomes2)
  {
    var done := Min(|b|, Leading(outcomes1));
    LeadingAfter(outcomes, |a|, if ok then done else done + 1);
    assert a[..|a|] == a && (a + b)[..|a| + done] == a + b[..done];
    FramesAppend(enc, a, b[..done]);
    ConcatAssociative(sent, Frames(enc, a), Frames(enc, b[..done]));
  }

  /** A failure in the first group is one of both. */
  lemma {:induction false} SendsSome(enc: Encoder, a: seq<Payload>, b: seq<Payload>, sent: seq<Byte>,
      outcomes: seq<bool>, sent': seq<Byte>, outcomes': seq<bool>)
    requires Sends(enc, a, false, sent, outcomes, sent', outcomes')
    ensures Sends(enc, a + b, false, sent, outcomes, sent', outcomes')
  {
    var done := Leading(outcomes);
    assert (a + b)[..done] == a[..done];
  }

  /** One write of a session. */
  method WriteNext(sock: Socket, data: seq<Byte>) returns (ok: bool)
    requires sock.Valid() && sock.vser != null && sock.vser.buf == null
    modifies sock.vser, sock.fd`sent, sock.fd`outcomes
    ensures sock.Valid() && (ok ==> sock.vser.buf == null)
    ensures Sends(FrameEncoder(sock.cr, sock.vser.auth), Chunks(data), ok, old(sock.fd.sent), old(sock.fd.outcomes),
      sock.fd.sent, sock.fd.outcomes)
  {
    var n := sock.Write(data);
    ok := n != -1;
  }

  lemma {:induction false} NextWrite(writes: seq<seq<Byte>>, i: nat)
    requires i < |writes|
    ensures AllChunks(writes[..i + 1]) == AllChunks(writes[..i]) + Chunks(writes[i])
    decreases i
  {
    if i == 0 {
      assert writes[..1] == [writes[0]] && writes[..0] == [];
      assert AllChunks([writes[0]]) == Chunks(writes[0]) + AllChunks([]);
    } else {
      NextWrite(writes[1..], i - 1);
      assert writes[..i + 1][1..] == writes[1..][..i] && writes[..i][1..] == writes[1..][..i - 1];
    }
  }

  lemma {:induction false} FirstWrites(writes: seq<seq<Byte>>, i: nat) returns (rest: seq<Payload>)
    requires i <= |writes|
    ensures AllChunks(writes) == AllChunks(writes[..i]) + rest
    decreases |writes| - i
  {
    if i == |writes| {
      rest := [];
      assert writes[..i] == writes;
    } else {
      NextWrite(writes, i);
      var later := FirstWrites(writes, i + 1);
      rest := Chunks(writes[i]) + later;
    }
  }

  /** One more write. */
  lemma {:induction false} SendsNext(enc: Encoder, writes: seq<seq<Byte>>, i: nat, ok: bool, sent: seq<Byte>,
      outcomes: seq<bool>, sent1: seq<Byte>, outcomes1: seq<bool>, sent2: seq<Byte>, outcomes2: seq<bool>)
    requires i < |writes| && Sends(enc, AllChunks(writes[..i]), true, sent, outcomes, sent1, outcomes1)
    requires Sends(enc, Chunks(writes[i]), ok, sent1, outcomes1, sent2, outcomes2)
    ensures Sends(enc, AllChunks(if ok then writes[..i + 1] else writes), ok, sent, outcomes, sent2, outcomes2)
  {
    NextWrite(writes, i);
    SendsBoth(enc, AllChunks(writes[..i]), Chunks(writes[i]), ok, sent, outcomes, sent1, outcomes1, sent2, outcomes2);
    if !ok {
      var rest := FirstWrites(writes, i + 1);
      SendsSome(enc, AllChunks(writes[..i + 1]), rest, sent, outcomes, sent2, outcomes2);
    }
  }

  /** Writes until one fails. */
  method WriteAll(sock: Socket, writes: seq<seq<Byte>>) returns (ok: bool)
    requires sock.Valid() && sock.vser != null && sock.vser.buf == null
    modifies sock.vser, sock.fd`sent, sock.fd`outcomes
    ensures sock.Valid()
    ensures Sends(FrameEncoder(sock.cr, sock.vser.auth), AllChunks(writes), ok, old(sock.fd.sent),
      old(sock.fd.outcomes), sock.fd.sent, sock.fd.outcomes)
  {
    ghost var enc, sent, outcomes := FrameEncoder(sock.cr, sock.vser.auth), sock.fd.sent, sock.fd.outcomes;
    assert sent + [] == sent && writes[..0] == [];
    for i := 0 to |writes|
      invariant sock.Valid() && sock.vser.buf == null
      invariant Sends(enc, AllChunks(writes[..i]), true, sent, outcomes, sock.fd.sent, sock.fd.outcomes)
    {
      ghost var sent1, outcomes1 := sock.fd.sent, sock.fd.outcomes;
      ok := WriteNext(sock, writes[i]);
      SendsNext(enc, writes, i, ok, sent, outcomes, sent1, outcomes1, sock.fd.sent, sock.fd.outcomes);
      if !ok {
        return;
      }
    }
    assert writes[..|writes|] == writes;
    ok := true;
  }

  /** How many frames of a session get out before a write fails. */
  function FramesOut(writes: seq<seq<Byte>>, outcomes: seq<bool>): (done: nat)
    ensures done <= |AllChunks(writes)|
  {
    Min(|AllChunks(writes)|, Leading(outcomes))
  }

  /** The end frame gets out: the write after the last frame, or after the frame that failed, succeeds. */
  predicate EndOut(writes: seq<seq<Byte>>, outcomes: seq<bool>)
  {
    var done := FramesOut(writes, outcomes);
    NextOk(After(outcomes, if done == |AllChunks(writes)| then done else done + 1))
  }

  /** What a session puts on the wire. */
  function WireOut(enc: Encoder, writes: seq<seq<Byte>>, outcomes: seq<bool>): seq<Byte>
  {
    Frames(enc, AllChunks(writes)[..FramesOut(writes, outcomes)]) + if EndOut(writes, outcomes) then END_FRAME else []
  }

  /** The writing side of a session: writes until one fails, then the close, which does not care. */
  method WriteAndClose(sock: Socket, writes: seq<seq<Byte>>)
    requires sock.Valid() && sock.Connected()
    modifies sock.vser, sock.fd
    ensures sock.Valid() && sock.fd.shut && sock.fd.events == old(sock.fd.events)
    ensures sock.fd.sent ==
      old(sock.fd.sent) + WireOut(FrameEncoder(sock.cr, sock.auth), writes, old(sock.fd.outcomes))
  {
    ghost var enc, sent, outcomes := FrameEncoder(sock.cr, sock.auth), sock.fd.sent, sock.fd.outcomes;
    var _ := WriteAll(sock, writes);
    ConcatAssociative(sent, Frames(enc, AllChunks(writes)[..FramesOut(writes, outcomes)]),
      if EndOut(writes, outcomes) then END_FRAME else []);
    sock.Close();
  }

  /** The sizes and modes of one side's reads. */
  datatype Plan = Plan(sizes: seq<nat>, modes: seq<bool>) {

    predicate Valid()
    {
      |sizes| == |modes| && forall i :: 0 <= i < |sizes| ==> sizes[i] > 0
    }

    /** These are the calls that make all of them. */
    predicate Made(calls: seq<Call>)
      requires Valid()
    {
      match this
      case Plan(_, _) => |calls| == |sizes| && FirstMade(calls, sizes, modes)
    }
  }

  /** The calls were made with the first of these sizes and modes. */
  predicate FirstMade(calls: seq<Call>, sizes: seq<nat>, modes: seq<bool>)
    requires |calls| <= |sizes| == |modes|
  {
    forall i :: 0 <= i < |calls| ==> calls[i].size == sizes[i] && calls[i].block == modes[i]
  }

  lemma {:induction false} MadeExtends(calls: seq<Call>, call: Call, sizes: seq<nat>, modes: seq<bool>)
    requires |calls| < |sizes| == |modes| && FirstMade(calls, sizes, modes)
    requires call.size == sizes[|calls|] && call.block == modes[|calls|]
    ensures FirstMade(calls + [call], sizes, modes)
  {
    forall i | 0 <= i < |calls| + 1
      ensures (calls + [call])[i].size == sizes[i] && (calls + [call])[i].block == modes[i]
    {
      if i < |calls| {
        assert calls[i].size == sizes[i];
      }
    }
  }

  /** The reading side: one read for each size and mode asked for, and the trace of states that the
      end-to-end theorem is about. */
  method ReadAll(sock: Socket, d: Decoder<seq<Byte>>, plan: Plan)
    returns (calls: seq<Call>, ghost states: seq<Reader>)
    requires sock.Valid() && plan.Valid()
    requires Sane(d) && Stable(d)
    modifies sock.readBuf, sock.readBuf.buf, sock.rawBuf, sock.rawBuf.buf, sock.fd`events
    ensures sock.Valid() && plan.Made(calls)
    ensures sock.rawBuf.buf == old(sock.rawBuf.buf) || fresh(sock.rawBuf.buf)
    ensures sock.readBuf.buf == old(sock.readBuf.buf) || fresh(sock.readBuf.buf)
    ensures IsReading(d, states, calls)
    ensures states[0] == old(sock.Reading()) && states[|calls|] == sock.Reading()
  {
    calls, states := [], [sock.Reading()];
    while |calls| < |plan.sizes|
      invariant |calls| <= |plan.sizes| && sock.Valid() && IsReading(d, states, calls)
      invariant sock.rawBuf.buf == old(sock.rawBuf.buf) || fresh(sock.rawBuf.buf)
      invariant sock.readBuf.buf == old(sock.readBuf.buf) || fresh(sock.readBuf.buf)
      invariant states[0] == old(sock.Reading()) && states[|calls|] == sock.Reading()
      invariant FirstMade(calls, plan.sizes, plan.modes)
    {
      var k := |calls|;
      var ret, data := sock.ReadWith(d, plan.sizes[k], plan.modes[k]);
      var call := Call(plan.sizes[k], plan.modes[k], ret, data);
      ReadingExtends(d, states, calls, call, sock.Reading());
      MadeExtends(calls, call, plan.sizes, plan.modes);
      calls, states := calls + [call], states + [sock.Reading()];
    }
  }

  /** What two connected sockets owe each other: of `writes` on one side, `done` frames were sent, and
      `calls` are the reads on the other side. */
  ghost predicate Transferred(writes: seq<seq<Byte>>, done: nat, calls: seq<Call>)
    requires done <= |AllChunks(writes)|
  {
    && Delivered(calls) <= Concat(writes)
    && forall k {:trigger calls[k]} :: 0 <= k < |calls| && calls[k].ret == 0 ==>
      Owed(writes, done, Delivered(calls[..k]))
  }

  /** No read failed, and no blocking read gave up. */
  ghost predicate Undisturbed(calls: seq<Call>)
  {
    forall k {:trigger calls[k]} :: 0 <= k < |calls| ==> calls[k].ret >= 0 || (calls[k].ret == -2 && !calls[k].block)
  }

  /** No read goes wrong, and enough blocking ones reach the end. */
  ghost predicate Completed(writes: seq<seq<Byte>>, done: nat, calls: seq<Call>)
    requires done <= |AllChunks(writes)|
  {
    && Undisturbed(calls)
    && (BlockingCount(calls) > |Heard(AllChunks(writes)[..done])| ==> EndSeen(calls))
  }

  lemma {:induction false} TransferHolds(enc: Encoder, d: Decoder<seq<Byte>>, writes: seq<seq<Byte>>, done: nat,
      lost: seq<Byte>, states: seq<Reader>, calls: seq<Call>)
    requires Matched(enc, d) && done <= |AllChunks(writes)|
    requires IsReading(d, states, calls) && states[0].queue == Queue([], false)
    requires states[0].Stream() + lost == SessionWire(enc, AllChunks(writes)[..done])
    ensures Transferred(writes, done, calls)
    ensures lost == [] && !Fails(states[0].events) ==> Completed(writes, done, calls)
  {
    if calls == [] {
      assert Delivered(calls) == [];
    }
    forall k {:trigger calls[k]} | 0 <= k < |calls| {
      EndToEnd(enc, d, writes, done, lost, states, calls, k);
    }
    if lost == [] && !Fails(states[0].events) && BlockingCount(calls) > |Heard(AllChunks(writes)[..done])| {
      assert states[0].Stream() + lost == states[0].Stream();
      EndReached(enc, d, writes, done, states, calls);
    }
  }

  /** One direction of a session: `writes` are made until one fails and then the connection is
      closed, `outcomes` says which writes of frames succeed, `wire` is what is sent, and `stream` is
      what of it arrives at the other side, perhaps with a failure behind it. */
  datatype Flow = Flow(writes: seq<seq<Byte>>, outcomes: seq<bool>, wire: seq<Byte>, stream: seq<Byte>, fails: bool) {

    ghost predicate Valid(enc: Encoder)
    {
      wire == WireOut(enc, writes, outcomes) && stream <= wire
    }

    /** The end frame gets out and everything arrives. */
    predicate Whole()
    {
      EndOut(writes, outcomes) && stream == wire && !fails
    }
  }

  /** The bytes of a session that do not arrive. */
  lemma {:induction false} WhatIsLost(enc: Encoder, flow: Flow) returns (done: nat, lost: seq<Byte>)
    requires flow.Valid(enc)
    ensures done == FramesOut(flow.writes, flow.outcomes)
    ensures flow.stream + lost == SessionWire(enc, AllChunks(flow.writes)[..done])
    ensures flow.Whole() ==> lost == []
  {
    done := FramesOut(flow.writes, flow.outcomes);
    var frames := Frames(enc, AllChunks(flow.writes)[..done]);
    assert frames + [] == frames;
    assert flow.wire <= frames + END_FRAME;
    lost := (frames + END_FRAME)[|flow.stream|..];
  }

  /** What the reads at the other end of a flow can rely on. */
  ghost predicate Arrived(flow: Flow, calls: seq<Call>)
  {
    match flow
    case Flow(writes, outcomes, _, _, _) =>
      && Transferred(writes, FramesOut(writes, outcomes), calls)
      && (flow.Whole() ==> Completed(writes, FramesOut(writes, outcomes), calls))
  }

  /** `sock` has nothing left over and is about to read what arrives of `flow`. */
  ghost predicate Awaits(sock: Socket, flow: Flow)
    requires sock.Valid()
    reads sock, sock.readBuf, sock.rawBuf, sock.vser, sock.readBuf.buf, sock.rawBuf.buf, sock.fd
  {
    match flow
    case Flow(_, _, _, stream, fails) =>
      && sock.readBuf.Value() == Queue([], false)
      && sock.Reading().Stream() == stream && Fails(sock.fd.events) == fails
  }

  /** The reading side of a session, of which what was sent or the start of it arrives. */
  method ReadSession(sock: Socket, d: Decoder<seq<Byte>>, plan: Plan, ghost enc: Encoder, ghost flow: Flow)
    returns (calls: seq<Call>)
    requires Matched(enc, d) && sock.Valid() && Awaits(sock, flow) && flow.Valid(enc) && plan.Valid()
    modifies sock.readBuf, sock.readBuf.buf, sock.rawBuf, sock.rawBuf.buf, sock.fd`events
    ensures plan.Made(calls) && Arrived(flow, calls)
  {
    ghost var done, lost := WhatIsLost(enc, flow);
    ghost var states;
    calls, states := ReadAll(sock, d, plan);
    TransferHolds(enc, d, flow.writes, done, lost, states, calls);
  }

  /** The same for the keys of the socket. */
  method ReadFlow(sock: Socket, plan: Plan, ghost enc: Encoder, ghost flow: Flow) returns (calls: seq<Call>)
    requires sock.Valid() && Awaits(sock, flow) && enc == FrameEncoder(sock.cr, sock.auth) && flow.Valid(enc)
    requires plan.Valid()
    modifies sock.readBuf, sock.readBuf.buf, sock.rawBuf, sock.rawBuf.buf, sock.fd`events
    ensures plan.Made(calls) && Arrived(flow, calls)
  {
    FramesMatched(sock.cr, sock.auth);
    calls := ReadSession(sock, sock.Decoding(), plan, enc, flow);
  }

  /** Nothing that one socket changes is part of the other. */
  ghost predicate Apart(a: Socket, b: Socket)
    reads a, b, a.rawBuf, a.readBuf, b.rawBuf, b.readBuf
  {
    && a != b && a.fd != b.fd && a.rawBuf != b.rawBuf && a.readBuf != b.readBuf
    && a.rawBuf.buf != b.rawBuf.buf && a.readBuf.buf != b.readBuf.buf
    && a.readBuf.buf != b.rawBuf.buf && a.rawBuf.buf != b.readBuf.buf
    && (a.vser != null ==> a.vser != b.vser)
  }

  /** A write does not concern the other socket. */
  method WriteBeside(sock: Socket, other: Socket, writes: seq<seq<Byte>>, ghost enc: Encoder, ghost wire: seq<Byte>)
    requires sock.Valid() && sock.Connected() && other.Valid() && Apart(sock, other)
    requires enc == FrameEncoder(sock.cr, sock.auth) && wire == WireOut(enc, writes, sock.fd.outcomes)
    modifies sock.vser, sock.fd
    ensures sock.Valid() && sock.fd.sent == old(sock.fd.sent) + wire && sock.Reading() == old(sock.Reading())
    ensures other.Valid() && other.Reading() == old(other.Reading())
  {
    WriteAndClose(sock, writes);
  }

  /** Both sides write and close. */
  method WriteBoth(a: Socket, b: Socket, writes: seq<seq<Byte>>, writes': seq<seq<Byte>>, ghost enc: Encoder,
      ghost wire: seq<Byte>, ghost wire': seq<Byte>)
    requires a.Valid() && a.Connected() && b.Valid() && b.Connected() && Apart(a, b)
    requires enc == FrameEncoder(a.cr, a.auth) && wire == WireOut(enc, writes, a.fd.outcomes)
    requires enc == FrameEncoder(b.cr, b.auth) && wire' == WireOut(enc, writes', b.fd.outcomes)
    modifies a.vser, a.fd, b.vser, b.fd
    ensures a.Valid() && a.Reading() == old(a.Reading()) && a.fd.sent == old(a.fd.sent) + wire
    ensures b.Valid() && b.Reading() == old(b.Reading()) && b.fd.sent == old(b.fd.sent) + wire'
  {
    WriteBeside(a, b, writes, enc, wire);
    WriteBeside(b, a, writes', enc, wire');
  }

  /** Nor does a read concern the other socket. */
  method ReadBeside(sock: Socket, other: Socket, plan: Plan, ghost enc: Encoder, ghost flow: Flow)
    returns (calls: seq<Call>)
    requires sock.Valid() && Awaits(sock, flow) && enc == FrameEncoder(sock.cr, sock.auth) && flow.Valid(enc)
    requires plan.Valid() && other.Valid() && Apart(sock, other)
    modifies sock.readBuf, sock.readBuf.buf, sock.rawBuf, sock.rawBuf.buf, sock.fd`events
    ensures plan.Made(calls) && Arrived(flow, calls)
    ensures other.Valid() && other.Reading() == old(other.Reading())
    ensures sock.fd.sent == old(sock.fd.sent) && other.fd.sent == old(other.fd.sent)
  {
    calls := ReadFlow(sock, plan, enc, flow);
  }

  /** Both sides read. */
  method ReadBoth(a: Socket, b: Socket, plan: Plan, plan': Plan, ghost enc: Encoder, ghost up: Flow, ghost down: Flow)
    returns (calls: seq<Call>, calls': seq<Call>)
    requires a.Valid() && b.Valid() && Apart(a, b) && plan.Valid() && plan'.Valid()
    requires enc == FrameEncoder(a.cr, a.auth) && enc == FrameEncoder(b.cr, b.auth)
    requires Awaits(b, up) && up.Valid(enc) && Awaits(a, down) && down.Valid(enc)
    modifies a.readBuf, a.readBuf.buf, a.rawBuf, a.rawBuf.buf, a.fd`events
    modifies b.readBuf, b.readBuf.buf, b.rawBuf, b.rawBuf.buf, b.fd`events
    ensures plan.Made(calls) && Arrived(down, calls)
    ensures plan'.Made(calls') && Arrived(up, calls')
    ensures a.fd.sent == old(a.fd.sent) && b.fd.sent == old(b.fd.sent)
  {
    calls' := ReadBeside(b, a, plan', enc, up);
    calls := ReadFlow(a, plan, enc, down);
  }

  /** Two connected sockets with the same keys: both write until a write fails, and close; both read.
      What arrives at either, in any fragments and with any would-block outcomes or a broken
      connection between them, is what was sent or the start of it. Then what either reads is always
      the start of what the other wrote; once a read returns 0 it is what `Owed` says; and if the end
      frame got out and everything arrives, no read fails, no blocking read gives up and enough of
      them reach the end. */
  method Exchange(a: Socket, b: Socket, writes: seq<seq<Byte>>, writes': seq<seq<Byte>>, plan: Plan, plan': Plan,
      ghost enc: Encoder, ghost up: Flow, ghost down: Flow)
    returns (calls: seq<Call>, calls': seq<Call>)
    requires a.Valid() && a.Connected() && b.Valid() && b.Connected() && Apart(a, b)
    requires a.cr == b.cr && a.auth == b.auth && enc == FrameEncoder(a.cr, a.auth) && plan.Valid() && plan'.Valid()
    requires up.writes == writes && up.outcomes == a.fd.outcomes && Awaits(b, up) && up.Valid(enc)
    requires down.writes == writes' && down.outcomes == b.fd.outcomes && Awaits(a, down) && down.Valid(enc)
    modifies a.vser, a.fd, a.readBuf, a.readBuf.buf, a.rawBuf, a.rawBuf.buf
    modifies b.vser, b.fd, b.readBuf, b.readBuf.buf, b.rawBuf, b.rawBuf.buf
    ensures a.fd.sent == old(a.fd.sent) + up.wire && b.fd.sent == old(b.fd.sent) + down.wire
    ensures plan.Made(calls) && Arrived(down, calls)
    ensures plan'.Made(calls') && Arrived(up, calls')
  {
    WriteBoth(a, b, writes, writes', enc, up.wire, down.wire);
    calls, calls' := ReadBoth(a, b, plan, plan', enc, up, down);
  }

  /** The header has been taken off what arrives, and nothing else. */
  ghost predicate Behind(r: Reader, tail: seq<Byte>, r': Reader)
  {
    r'.queue == r.queue && r'.Stream() == tail && Fails(r'.events) == Fails(r.events)
  }

  /** The server's half of setting up a connection, once the client's header arrives. The other
      socket is not concerned. */
  method Welcome(server: Socket, client: Socket, d: Decoder<(Auth, Request)>, ghost frame: seq<Byte>,
      ghost theirs: Auth, ghost req: Request, ghost up: seq<Byte>)
    returns (ok: bool)
    requires server.Valid() && Sane(d) && Recognizes(d, frame, (theirs, req))
    requires server.Reading().Stream() == frame + up
    requires client.Valid() && Apart(client, server)
    modifies server, server.rawBuf, server.rawBuf.buf, server.fd`events, server.fd`sent, server.fd`outcomes
    ensures server.Valid() && (server.rawBuf.buf == old(server.rawBuf.buf) || fresh(server.rawBuf.buf))
    ensures ok && server.Connected() && fresh(server.vser) && server.auth == theirs && server.target == Some(req.target)
    ensures Behind(old(server.Reading()), up, server.Reading())
    ensures server.fd.sent == old(server.fd.sent) +
      (if NextOk(old(server.fd.outcomes)) then EncodeResponse(server.cr, theirs, 1) else [])
    ensures server.fd.outcomes == After(old(server.fd.outcomes), 1)
    ensures client.Valid() && client.Reading() == old(client.Reading()) && Apart(client, server)
  {
    ghost var r, seen := server.Reading(), [];
    ok, seen := server.ServerHandshake(d);
    HeaderReceived(d, frame, (theirs, req), up, r, ok, seen, server.Reading());
  }

  /** The client's half, once the server's answer arrives. */
  method Greet(client: Socket, server: Socket, d: Decoder<Byte>, want: Target, pad: Padding, ghost frame: seq<Byte>,
      ghost opt: Byte, ghost down: seq<Byte>)
    returns (ok: bool)
    requires client.Valid() && Sane(d) && Recognizes(d, frame, opt)
    requires client.Reading().Stream() == frame + down
    requires server.Valid() && server.Connected() && Apart(client, server)
    modifies client`vser, client.rawBuf, client.rawBuf.buf, client.fd`events, client.fd`sent, client.fd`outcomes
    ensures client.Valid() && (client.rawBuf.buf == old(client.rawBuf.buf) || fresh(client.rawBuf.buf))
    ensures ok && client.Connected() && fresh(client.vser)
    ensures Behind(old(client.Reading()), down, client.Reading())
    ensures var header := EncodeRequest(client.cr, client.userId, client.auth, Request(want, 1, 0, 1, 1), pad);
      client.fd.sent == old(client.fd.sent) + if NextOk(old(client.fd.outcomes)) then header else []
    ensures client.fd.outcomes == After(old(client.fd.outcomes), 1)
    ensures server.Valid() && server.Connected() && server.Reading() == old(server.Reading()) && Apart(client, server)
  {
    ghost var r, seen := client.Reading(), [];
    ok, seen := client.ClientHandshake(d, want, pad);
    HeaderReceived(d, frame, opt, down, r, ok, seen, client.Reading());
  }

  /** Both halves, for decoders that recognize the headers. */
  method Meet(client: Socket, server: Socket, ds: Decoder<(Auth, Request)>, dc: Decoder<Byte>, req: Request,
      pad: Padding, ghost asked: seq<Byte>, ghost up: seq<Byte>, ghost answered: seq<Byte>, ghost down: seq<Byte>)
    returns (serverOk: bool, clientOk: bool)
    requires client.Valid() && server.Valid() && Apart(client, server) && req == Request(req.target, 1, 0, 1, 1)
    requires asked == EncodeRequest(client.cr, client.userId, client.auth, req, pad)
    requires answered == EncodeResponse(server.cr, client.auth, 1)
    requires Sane(ds) && Recognizes(ds, asked, (client.auth, req)) && Sane(dc) && Recognizes(dc, answered, 1)
    requires server.Reading().Stream() == asked + up && client.Reading().Stream() == answered + down
    modifies server, server.rawBuf, server.rawBuf.buf, server.fd`events, server.fd`sent, server.fd`outcomes
    modifies client`vser, client.rawBuf, client.rawBuf.buf, client.fd`events, client.fd`sent, client.fd`outcomes
    ensures serverOk && clientOk && server.Valid() && client.Valid() && server.Connected() && client.Connected()
    ensures server.auth == client.auth && server.target == Some(req.target) && Apart(client, server)
    ensures fresh(client.vser) && (client.rawBuf.buf == old(client.rawBuf.buf) || fresh(client.rawBuf.buf))
    ensures fresh(server.vser) && (server.rawBuf.buf == old(server.rawBuf.buf) || fresh(server.rawBuf.buf))
    ensures Behind(old(server.Reading()), up, server.Reading()) && Behind(old(client.Reading()), down, client.Reading())
    ensures client.fd.sent == old(client.fd.sent) + if NextOk(old(client.fd.outcomes)) then asked else []
    ensures server.fd.sent == old(server.fd.sent) + if NextOk(old(server.fd.outcomes)) then answered else []
    ensures client.fd.outcomes == After(old(client.fd.outcomes), 1)
    ensures server.fd.outcomes == After(old(server.fd.outcomes), 1)
  {
    serverOk := Welcome(server, client, ds, asked, client.auth, req, up);
    clientOk := Greet(client, server, dc, req.target, pad, answered, 1, down);
  }

  /** Two sockets set up a connection. What reaches each of them starts with the header its peer
      sends, in any fragments, and goes on with data. Both succeed, share their keys and the target,
      and have exactly the data left to read. */
  method Connect(client: Socket, server: Socket, clock: nat -> Clock, want: Target, pad: Padding,
      ghost asked: seq<Byte>, ghost up: seq<Byte>, ghost answered: seq<Byte>, ghost down: seq<Byte>)
    returns (serverOk: bool, clientOk: bool)
    requires client.Valid() && server.Valid() && Apart(client, server)
    requires client.cr == server.cr && client.userId == server.userId
    requires SharedAuth(client.cr, client.userId, client.auth)
    requires ClockAgrees(client.cr, client.userId, client.auth.genTime, clock)
    requires |pad| <= 15 && (want.addr.Domain? ==> |want.addr.name| <= 0xff)
    requires asked == EncodeRequest(client.cr, client.userId, client.auth, Request(want, 1, 0, 1, 1), pad)
    requires answered == EncodeResponse(client.cr, client.auth, 1)
    requires server.Reading().Stream() == asked + up
    requires client.Reading().Stream() == answered + down
    modifies server, server.rawBuf, server.rawBuf.buf, server.fd`events, server.fd`sent, server.fd`outcomes
    modifies client`vser, client.rawBuf, client.rawBuf.buf, client.fd`events, client.fd`sent, client.fd`outcomes
    ensures serverOk && clientOk && server.Valid() && client.Valid() && server.Connected() && client.Connected()
    ensures server.auth == client.auth && server.target == Some(want) && Apart(client, server)
    ensures fresh(client.vser) && (client.rawBuf.buf == old(client.rawBuf.buf) || fresh(client.rawBuf.buf))
    ensures fresh(server.vser) && (server.rawBuf.buf == old(server.rawBuf.buf) || fresh(server.rawBuf.buf))
    ensures Behind(old(server.Reading()), up, server.Reading()) && Behind(old(client.Reading()), down, client.Reading())
    ensures client.fd.sent == old(client.fd.sent) + if NextOk(old(client.fd.outcomes)) then asked else []
    ensures server.fd.sent == old(server.fd.sent) + if NextOk(old(server.fd.outcomes)) then answered else []
    ensures client.fd.outcomes == After(old(client.fd.outcomes), 1)
    ensures server.fd.outcomes == After(old(server.fd.outcomes), 1)
  {
    var cr, userId, auth, req := client.cr, client.userId, client.auth, Request(want, 1, 0, 1, 1);
    RequestDecoderSane(cr, userId, clock);
    ResponseDecoderStable(cr, auth);
    RequestRecognized(cr, userId, clock, auth, req, pad);
    ResponseRoundTrip(cr, auth, auth, 1);
    serverOk, clientOk := Meet(client, server, RequestDecoder(cr, userId, clock), ResponseDecoder(cr, auth), req, pad,
      asked, up, answered, down);
  }

  /** A whole session, from two new sockets to the last read. What arrives at each side, in any
      fragments, is the header its peer sends, and then what its peer writes or the start of that,
      perhaps with an error behind it. Then both handshakes succeed, the server learns the target, and
      each side reads what the other is owed to have written; and what each sends is its header and
      then what it writes. */
  method Session(client: Socket, server: Socket, clock: nat -> Clock, want: Target, pad: Padding,
      writes: seq<seq<Byte>>, writes': seq<seq<Byte>>, plan: Plan, plan': Plan, ghost asked: seq<Byte>,
      ghost answered: seq<Byte>, ghost enc: Encoder, ghost up: Flow, ghost down: Flow)
    returns (ok: bool, target: Option<Target>, calls: seq<Call>, calls': seq<Call>)
    requires client.Valid() && server.Valid() && Apart(client, server) && plan.Valid() && plan'.Valid()
    requires client.readBuf.Value() == server.readBuf.Value() == Queue([], false)
    requires client.cr == server.cr && client.userId == server.userId
    requires SharedAuth(client.cr, client.userId, client.auth)
    requires ClockAgrees(client.cr, client.userId, client.auth.genTime, clock)
    requires |pad| <= 15 && (want.addr.Domain? ==> |want.addr.name| <= 0xff)
    requires asked == EncodeRequest(client.cr, client.userId, client.auth, Request(want, 1, 0, 1, 1), pad)
    requires answered == EncodeResponse(client.cr, client.auth, 1) && enc == FrameEncoder(client.cr, client.auth)
    requires server.Reading().Stream() == asked + up.stream && Fails(server.fd.events) == up.fails
    requires client.Reading().Stream() == answered + down.stream && Fails(client.fd.events) == down.fails
    requires up.writes == writes && up.outcomes == After(client.fd.outcomes, 1) && up.Valid(enc)
    requires down.writes == writes' && down.outcomes == After(server.fd.outcomes, 1) && down.Valid(enc)
    modifies client, client.readBuf, client.readBuf.buf, client.rawBuf, client.rawBuf.buf, client.fd
    modifies server, server.readBuf, server.readBuf.buf, server.rawBuf, server.rawBuf.buf, server.fd
    ensures ok && target == Some(want)
    ensures NextOk(old(client.fd.outcomes)) ==> client.fd.sent == old(client.fd.sent) + asked + up.wire
    ensures NextOk(old(server.fd.outcomes)) ==> server.fd.sent == old(server.fd.sent) + answered + down.wire
    ensures plan.Made(calls) && Arrived(down, calls)
    ensures plan'.Made(calls') && Arrived(up, calls')
  {
    var serverOk, clientOk := Connect(client, server, clock, want, pad, asked, up.stream, answered, down.stream);
    ok, target := serverOk && clientOk, server.target;
    calls, calls' := Exchange(client, server, writes, writes', plan, plan', enc, up, down);
  }
}
