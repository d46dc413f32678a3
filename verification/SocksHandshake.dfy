/** The SOCKS handshake of proto/socks/tcp.c as a protocol: a client and a server, each blocking in
    reads, and the bytes in flight between them, delivered in any pieces. */
module SocksHandshake {
  import opened ByteStrings
  import opened Options
  import opened RBuffers
  import opened Socks
  import opened Targets

  /** What the client was set up with. Version 4 only carries IPv4 addresses. */
  datatype Setup = V4(ipv4: Ipv4, port: U16) | V5(want: Target) {

    predicate Valid()
    {
      V5? && want.addr.Domain? ==> |want.addr.name| <= 0xff
    }

    function Wanted(): Target
    {
      match this
      case V4(ipv4, port) => Target(IPv4(ipv4), port)
      case V5(want) => want
    }
  }

  datatype ClientPc = ClientStart | AwaitsAck | AwaitsResponse | ClientDone | ClientFailed
  datatype ServerPc = AwaitsVersion | AwaitsAuthSel | AwaitsRequest5 | AwaitsRequest4 | ServerDone | ServerFailed

  datatype State = State(
    client: ClientPc, server: ServerPc,
    up: seq<Byte>, down: seq<Byte>,                // in flight
    clientBuf: seq<Byte>, serverBuf: seq<Byte>,    // read, not yet decoded
    target: Option<Target>)                        // recorded by the server

  const INIT: State := State(ClientStart, AwaitsVersion, [], [], [], [], None)

  const AUTH_SEL: seq<Byte> := EncodeAuthSel([METHOD_NO_AUTH])
  const AUTH_ACK: seq<Byte> := EncodeAuthAck(METHOD_NO_AUTH)
  const RESPONSE5: seq<Byte> := EncodeResponse5(SOCKS5_REP_SUCCESS)
  const RESPONSE4: seq<Byte> := EncodeResponse4(SOCKS4_REP_SUCCESS)

  function Request(setup: Setup): seq<Byte>
  {
    match setup
    case V4(ipv4, port) => EncodeRequest4(CMD_CONNECT, ipv4, port)
    case V5(want) => EncodeRequest5(CMD_CONNECT, want)
  }

  /** What a side does after a message: where it goes and what it sends. */
  datatype Move<Pc> = Move(pc: Pc, reply: seq<Byte>)

  function ClientMove(setup: Setup, pc: ClientPc, buf: seq<Byte>): Decoded<Move<ClientPc>>
  {
    match pc
    case AwaitsAck =>
      (match DecodeAuthAck(buf)
       case NeedMore => NeedMore
       case Bad => Bad
       case Got(n, m) =>
         Got(n, if m == METHOD_NO_AUTH then Move(AwaitsResponse, Request(setup)) else Move(ClientFailed, [])))
    case AwaitsResponse =>
      if setup.V5? then
        match DecodeMessage5(buf)
        case NeedMore => NeedMore
        case Bad => Bad
        case Got(n, m) => Got(n, Move(if m.0 == SOCKS5_REP_SUCCESS then ClientDone else ClientFailed, []))
      else
        (match DecodeResponse4(buf)
         case NeedMore => NeedMore
         case Bad => Bad
         case Got(n, rep) => Got(n, Move(if rep == SOCKS4_REP_SUCCESS then ClientDone else ClientFailed, [])))
    case _ => NeedMore
  }

  /** The version byte is looked at but stays in the buffer. */
  function ServerMove(pc: ServerPc, buf: seq<Byte>): Decoded<Move<ServerPc>>
  {
    match pc
    case AwaitsVersion =>
      if buf == [] then NeedMore
      else if buf[0] == SOCKS5_VERSION then Got(0, Move(AwaitsAuthSel, []))
      else if buf[0] == SOCKS4_VERSION then Got(0, Move(AwaitsRequest4, []))
      else Bad
    case AwaitsAuthSel =>
      (match DecodeAuthSel(buf)
       case NeedMore => NeedMore
       case Bad => Bad
       case Got(n, methods) =>
         Got(n, if METHOD_NO_AUTH in methods then Move(AwaitsRequest5, AUTH_ACK) else Move(ServerFailed, [])))
    case AwaitsRequest5 =>
      (match DecodeMessage5(buf)
       case NeedMore => NeedMore
       case Bad => Bad
       case Got(n, m) => Got(n, if m.0 == CMD_CONNECT then Move(ServerDone, RESPONSE5) else Move(ServerFailed, [])))
    case AwaitsRequest4 =>
      (match DecodeRequest4(buf)
       case NeedMore => NeedMore
       case Bad => Bad
       case Got(n, m) => Got(n, if m.0 == CMD_CONNECT then Move(ServerDone, RESPONSE4) else Move(ServerFailed, [])))
    case _ => NeedMore
  }

  /** The target in a request just decoded. */
  function RequestedTarget(pc: ServerPc, buf: seq<Byte>): Option<Target>
  {
    if pc == AwaitsRequest5 && DecodeMessage5(buf).Got? then Some(DecodeMessage5(buf).value.1)
    else if pc == AwaitsRequest4 && DecodeRequest4(buf).Got? then Some(DecodeRequest4(buf).value.1)
    else None
  }

  datatype Step =
    | Open                   // the client sends its first message
    | ClientRead(k: nat)     // a read returns k bytes
    | ClientDecode
    | ServerRead(k: nat)
    | ServerDecode

  predicate ClientWaits(pc: ClientPc)
  {
    pc == AwaitsAck || pc == AwaitsResponse
  }

  predicate ServerWaits(pc: ServerPc)
  {
    pc != ServerDone && pc != ServerFailed
  }

  /** A side reads when the bytes it has are not enough, and the first read of the server asks for
      a single byte. */
  predicate Enabled(setup: Setup, s: State, step: Step)
  {
    match step
    case Open => s.client == ClientStart
    case ClientRead(k) =>
      ClientWaits(s.client) && ClientMove(setup, s.client, s.clientBuf).NeedMore? && 1 <= k <= |s.down|
    case ClientDecode => ClientWaits(s.client) && !ClientMove(setup, s.client, s.clientBuf).NeedMore?
    case ServerRead(k) =>
      ServerWaits(s.server) && ServerMove(s.server, s.serverBuf).NeedMore? && 1 <= k <= |s.up|
      && (s.server == AwaitsVersion ==> k == 1)
    case ServerDecode => ServerWaits(s.server) && !ServerMove(s.server, s.serverBuf).NeedMore?
  }

  function Next(setup: Setup, s: State, step: Step): State
    requires Enabled(setup, s, step)
  {
    match step
    case Open =>
      s.(client := if setup.V5? then AwaitsAck else AwaitsResponse,
         up := s.up + if setup.V5? then AUTH_SEL else Request(setup))
    case ClientRead(k) => s.(clientBuf := s.clientBuf + s.down[..k], down := s.down[k..])
    case ClientDecode =>
      (match ClientMove(setup, s.client, s.clientBuf)
       case Got(n, move) =>
         s.(client := move.pc, clientBuf := if n <= |s.clientBuf| then s.clientBuf[n..] else [],
            up := s.up + move.reply)
       case _ => s.(client := ClientFailed))
    case ServerRead(k) => s.(serverBuf := s.serverBuf + s.up[..k], up := s.up[k..])
    case ServerDecode =>
      (match ServerMove(s.server, s.serverBuf)
       case Got(n, move) =>
         s.(server := move.pc, serverBuf := if n <= |s.serverBuf| then s.serverBuf[n..] else [],
            down := s.down + move.reply,
            target := if move.pc == ServerDone then RequestedTarget(s.server, s.serverBuf) else s.target)
       case _ => s.(server := ServerFailed))
  }

  // ---------- the invariant: one message at a time ----------

  /** The message being sent to the server, if the two program counters say there is one. */
  function ToServer(setup: Setup, s: State): Option<seq<Byte>>
  {
    if setup.V5? && s.client == AwaitsAck && (s.server == AwaitsVersion || s.server == AwaitsAuthSel) then
      Some(AUTH_SEL)
    else if setup.V5? && s.client == AwaitsResponse && s.server == AwaitsRequest5 then
      Some(Request(setup))
    else if setup.V4? && s.client == AwaitsResponse && (s.server == AwaitsVersion || s.server == AwaitsRequest4) then
      Some(Request(setup))
    else None
  }

  function ToClient(setup: Setup, s: State): Option<seq<Byte>>
  {
    if setup.V5? && s.client == AwaitsAck && s.server == AwaitsRequest5 then Some(AUTH_ACK)
    else if s.client == AwaitsResponse && s.server == ServerDone then
      Some(if setup.V5? then RESPONSE5 else RESPONSE4)
    else None
  }

  predicate Finished(setup: Setup, s: State)
  {
    && s.client == ClientDone && s.server == ServerDone && s.target == Some(setup.Wanted())
    && s.up == s.down == s.clientBuf == s.serverBuf == []
  }

  /** Either nothing has been sent, or exactly one message is on its way, partly read, or both sides
      have finished with nothing left over. */
  predicate Inv(setup: Setup, s: State)
  {
    && setup.Valid()
    && (s == INIT
        || (ToServer(setup, s).Some? && s.serverBuf + s.up == ToServer(setup, s).value
            && s.down == s.clientBuf == [] && (s.server == AwaitsVersion ==> |s.serverBuf| <= 1))
        || (ToClient(setup, s).Some? && s.clientBuf + s.down == ToClient(setup, s).value
            && s.up == s.serverBuf == [] && (s.server == ServerDone ==> s.target == Some(setup.Wanted())))
        || Finished(setup, s))
  }

  /** A message that arrives with nothing behind it is recognized when all of it has been read. */
  lemma {:induction false} Hears<T>(d: Decoder<T>, message: seq<Byte>, value: T, seen: seq<Byte>, rest: seq<Byte>)
    requires Recognizes(d, message, value) && seen + rest == message
    ensures !d(seen).NeedMore? ==> d(seen) == Got(|seen|, value) && rest == []
    ensures rest == [] ==> !d(seen).NeedMore?
  {
    assert message + [] == message;
    RecognizedVerdict(d, message, value, [], seen, rest);
  }

  /** What the server makes of the message in transit: nothing until it is complete, then the right
      move, with no byte left. The version byte alone is enough for the first decision. */
  lemma {:induction false} ServerHears(setup: Setup, s: State)
    requires Inv(setup, s) && ToServer(setup, s).Some?
    ensures s.server == AwaitsVersion ==> (ServerMove(s.server, s.serverBuf) ==
      if s.serverBuf == [] then NeedMore else Got(0, Move(if setup.V5? then AwaitsAuthSel else AwaitsRequest4, [])))
    ensures s.server != AwaitsVersion ==> var v := ServerMove(s.server, s.serverBuf);
      && (s.up == [] ==> !v.NeedMore?)
      && (!v.NeedMore? ==> s.up == [] && v.Got? && v.n == |s.serverBuf|)
      && (!v.NeedMore? ==> v.value == match s.server
          case AwaitsAuthSel => Move(AwaitsRequest5, AUTH_ACK)
          case _ => Move(ServerDone, if setup.V5? then RESPONSE5 else RESPONSE4))
      && (!v.NeedMore? && s.server != AwaitsAuthSel ==> RequestedTarget(s.server, s.serverBuf) == Some(setup.Wanted()))
  {
    var message := ToServer(setup, s).value;
    if s.server == AwaitsVersion {
      assert s.serverBuf != [] ==> s.serverBuf[0] == message[0];
    } else if s.server == AwaitsAuthSel {
      AuthRoundTrip([METHOD_NO_AUTH], METHOD_NO_AUTH);
      Hears(DecodeAuthSel, message, [METHOD_NO_AUTH], s.serverBuf, s.up);
    } else if setup.V5? {
      Request5RoundTrip(CMD_CONNECT, setup.want);
      Hears(DecodeMessage5, message, (CMD_CONNECT, setup.want), s.serverBuf, s.up);
    } else {
      Request4RoundTrip(CMD_CONNECT, setup.ipv4, setup.port);
      Hears(DecodeRequest4, message, (CMD_CONNECT, setup.Wanted()), s.serverBuf, s.up);
    }
  }

  lemma {:induction false} ClientHears(setup: Setup, s: State)
    requires Inv(setup, s) && ToClient(setup, s).Some?
    ensures var v := ClientMove(setup, s.client, s.clientBuf);
      && (s.down == [] ==> !v.NeedMore?)
      && (!v.NeedMore? ==> s.down == [] && v.Got? && v.n == |s.clientBuf|)
      && (!v.NeedMore? && s.client == AwaitsAck ==> v.value == Move(AwaitsResponse, Request(setup)))
      && (!v.NeedMore? && s.client == AwaitsResponse ==> v.value == Move(ClientDone, []))
  {
    var message := ToClient(setup, s).value;
    if s.client == AwaitsAck {
      AuthRoundTrip([METHOD_NO_AUTH], METHOD_NO_AUTH);
      Hears(DecodeAuthAck, message, METHOD_NO_AUTH, s.clientBuf, s.down);
    } else {
      ResponsesRoundTrip(if setup.V5? then SOCKS5_REP_SUCCESS else SOCKS4_REP_SUCCESS);
      if setup.V5? {
        Hears(DecodeMessage5, message, (SOCKS5_REP_SUCCESS, Target(IPv4([0, 0, 0, 0]), 0)), s.clientBuf, s.down);
      } else {
        Hears(DecodeResponse4, message, SOCKS4_REP_SUCCESS, s.clientBuf, s.down);
      }
    }
  }

  lemma {:induction false} ReadKeepsInv(setup: Setup, s: State, step: Step)
    requires Inv(setup, s) && Enabled(setup, s, step) && (step.ServerRead? || step.ClientRead?)
    ensures Inv(setup, Next(setup, s, step))
  {
    if step.ServerRead? {
      assert s.up == s.up[..step.k] + s.up[step.k..];
      ConcatAssociative(s.serverBuf, s.up[..step.k], s.up[step.k..]);
    } else {
      assert s.down == s.down[..step.k] + s.down[step.k..];
      ConcatAssociative(s.clientBuf, s.down[..step.k], s.down[step.k..]);
    }
  }

  lemma {:induction false} ServerDecodeKeepsInv(setup: Setup, s: State)
    requires Inv(setup, s) && Enabled(setup, s, ServerDecode)
    ensures Inv(setup, Next(setup, s, ServerDecode))
  {
    if ToServer(setup, s).Some? {
      ServerHears(setup, s);
    }
  }

  lemma {:induction false} ClientDecodeKeepsInv(setup: Setup, s: State)
    requires Inv(setup, s) && Enabled(setup, s, ClientDecode)
    ensures Inv(setup, Next(setup, s, ClientDecode))
  {
    if ToClient(setup, s).Some? {
      ClientHears(setup, s);
    } else if ToServer(setup, s).Some? {
      assert s.clientBuf == [];
    }
  }

  /** Every step keeps the invariant. */
  lemma {:induction false} StepKeepsInv(setup: Setup, s: State, step: Step)
    requires Inv(setup, s) && Enabled(setup, s, step)
    ensures Inv(setup, Next(setup, s, step))
  {
    match step
    case Open => assert [] + Next(setup, s, step).up == Next(setup, s, step).up;
    case ClientRead(_) => ReadKeepsInv(setup, s, step);
    case ClientDecode => ClientDecodeKeepsInv(setup, s);
    case ServerRead(_) => ReadKeepsInv(setup, s, step);
    case ServerDecode => ServerDecodeKeepsInv(setup, s);
  }

  // ---------- no deadlock, termination ----------

  /** Until both have finished, somebody can move: there is no deadlock. */
  lemma {:induction false} Progress(setup: Setup, s: State) returns (step: Step)
    requires Inv(setup, s) && !Finished(setup, s)
    ensures Enabled(setup, s, step)
  {
    if s == INIT {
      step := Open;
    } else if ToServer(setup, s).Some? {
      ServerHears(setup, s);
      step := if ServerMove(s.server, s.serverBuf).NeedMore? then ServerRead(1) else ServerDecode;
    } else {
      ClientHears(setup, s);
      step := if ClientMove(setup, s.client, s.clientBuf).NeedMore? then ClientRead(1) else ClientDecode;
    }
  }

  /** An upper bound on the steps still to come: decisions not yet taken, bytes in flight and bytes
      not yet sent. */
  function Potential(setup: Setup, s: State): nat
  {
    |s.up| + |s.down|
    + (match s.client
       case ClientStart => 3 + |Request(setup)| + if setup.V5? then |AUTH_SEL| else 0
       case AwaitsAck => 2 + |Request(setup)|
       case AwaitsResponse => 1
       case _ => 0)
    + match s.server
      case AwaitsVersion => 3 + |AUTH_ACK| + |RESPONSE5|
      case AwaitsAuthSel => 2 + |AUTH_ACK| + |RESPONSE5|
      case AwaitsRequest5 => 1 + |RESPONSE5|
      case AwaitsRequest4 => 1 + |RESPONSE4|
      case _ => 0
  }

  lemma {:induction false} ClientDecodeDecreases(setup: Setup, s: State)
    requires Inv(setup, s) && Enabled(setup, s, ClientDecode)
    ensures Potential(setup, Next(setup, s, ClientDecode)) < Potential(setup, s)
  {
    ClientHears(setup, s);
  }

  lemma {:induction false} ServerDecodeDecreases(setup: Setup, s: State)
    requires Inv(setup, s) && Enabled(setup, s, ServerDecode)
    ensures Potential(setup, Next(setup, s, ServerDecode)) < Potential(setup, s)
  {
    ServerHears(setup, s);
  }

  lemma {:induction false} StepDecreases(setup: Setup, s: State, step: Step)
    requires Inv(setup, s) && Enabled(setup, s, step)
    ensures Potential(setup, Next(setup, s, step)) < Potential(setup, s)
  {
    match step
    case Open =>
    case ClientRead(k) =>
    case ClientDecode => ClientDecodeDecreases(setup, s);
    case ServerRead(k) =>
    case ServerDecode => ServerDecodeDecreases(setup, s);
  }

  ghost predicate IsRun(setup: Setup, states: seq<State>, steps: seq<Step>)
  {
    && |states| == |steps| + 1 && states[0] == INIT
    && forall i {:trigger steps[i]} :: 0 <= i < |steps| ==>
      Enabled(setup, states[i], steps[i]) && states[i + 1] == Next(setup, states[i], steps[i])
  }

  /** However the bytes are cut up and the two sides interleaved, a run only ever reaches states in
      which nobody has failed and a single message is in transit, and it is no longer than the
      potential of the initial state. (A prefix of a run is a run.) */
  lemma {:induction false} RunsAreShort(setup: Setup, states: seq<State>, steps: seq<Step>)
    requires setup.Valid() && IsRun(setup, states, steps)
    ensures Inv(setup, states[|steps|])
    ensures |steps| + Potential(setup, states[|steps|]) <= Potential(setup, INIT)
    decreases |steps|
  {
    if steps != [] {
      var k := |steps| - 1;
      assert steps[..k] + [steps[k]] == steps;
      RunsAreShort(setup, states[..k + 1], steps[..k]);
      RunStep(setup, states[k], steps[k], states[k + 1]);
    }
  }

  lemma {:induction false} RunStep(setup: Setup, s: State, step: Step, n: State)
    requires Inv(setup, s) && Enabled(setup, s, step) && n == Next(setup, s, step)
    ensures Inv(setup, n) && Potential(setup, n) < Potential(setup, s)
  {
    StepKeepsInv(setup, s, step);
    StepDecreases(setup, s, step);
  }

  lemma {:induction false} FinishedIsFinal(setup: Setup, s: State)
    requires Inv(setup, s)
    ensures (forall step :: !Enabled(setup, s, step)) <==> Finished(setup, s)
  {
    if !Finished(setup, s) {
      var step := Progress(setup, s);
    }
  }

  /** A run that cannot be continued has ended well: both sides have succeeded, the server's target
      is the client's, and no byte is left in flight or unread. */
  lemma {:induction false} HandshakeSucceeds(setup: Setup, states: seq<State>, steps: seq<Step>)
    requires setup.Valid() && IsRun(setup, states, steps)
    ensures (forall step :: !Enabled(setup, states[|steps|], step)) <==> Finished(setup, states[|steps|])
  {
    RunsAreShort(setup, states, steps);
    FinishedIsFinal(setup, states[|steps|]);
  }
}
