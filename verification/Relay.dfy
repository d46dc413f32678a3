/** The event loop of proto/relay/etcp.c: pairs of connection records, half-closes, and the
    ownership of sockets, records and epoll registrations. A socket stands for its descriptor. */
module Relay {

  type SocketId = nat
  type ConnId = nat

  /** etcp_relay_conn_t: data flows from `inSock` to `outSock`. */
  datatype Conn = Conn(inSock: SocketId, outSock: SocketId, pair: ConnId, nclosed: nat)

  /** Misuse of a socket or record. */
  datatype Fault =
    | ClosedTwice(s: SocketId)      // shut down for writing again
    | WrittenAfterClose(s: SocketId)
    | FreedWhileRegistered(s: SocketId)  // epoll still holds its descriptor
    | SocketUsedAfterFree(s: SocketId)
    | ConnUsedAfterFree(c: ConnId)

  datatype State = State(
    conns: map<ConnId, Conn>,        // records not yet released
    epoll: map<SocketId, ConnId>,    // registrations: descriptor to record
    sockets: map<SocketId, bool>,    // sockets not yet released; shut down for writing or not
    issued: set<nat>,                // identities ever used
    faults: seq<Fault>)

  const INIT: State := State(map[], map[], map[], {}, [])

  // ---------- primitive operations ----------

  function Blame(st: State, f: Fault): State
  {
    st.(faults := st.faults + [f])
  }

  /** tcp_socket_close */
  function CloseSocket(st: State, s: SocketId): (n: State)
    ensures |st.faults| <= |n.faults|
  {
    if s !in st.sockets then Blame(st, SocketUsedAfterFree(s))
    else if st.sockets[s] then Blame(st, ClosedTwice(s))
    else st.(sockets := st.sockets[s := true])
  }

  /** tcp_socket_free */
  function FreeSocket(st: State, s: SocketId): (n: State)
    ensures |st.faults| <= |n.faults|
  {
    if s !in st.sockets then Blame(st, SocketUsedAfterFree(s))
    else if s in st.epoll then Blame(st.(sockets := st.sockets - {s}), FreedWhileRegistered(s))
    else st.(sockets := st.sockets - {s})
  }

  /** tcp_socket_write */
  function WriteSocket(st: State, s: SocketId): (n: State)
    ensures |st.faults| <= |n.faults|
  {
    if s !in st.sockets then Blame(st, SocketUsedAfterFree(s))
    else if st.sockets[s] then Blame(st, WrittenAfterClose(s))
    else st
  }

  /** etcp_relay_conn_free */
  function FreeConn(st: State, c: ConnId): (n: State)
    ensures |st.faults| <= |n.faults|
  {
    if c !in st.conns then Blame(st, ConnUsedAfterFree(c)) else st.(conns := st.conns - {c})
  }

  function Deregister(st: State, s: SocketId): State
  {
    st.(epoll := st.epoll - {s})
  }

  // ---------- event handling ----------

  /** etcp_remove_conn */
  function RemoveConn(st: State, c: ConnId): (n: State)
    ensures |st.faults| <= |n.faults|
  {
    if c !in st.conns then Blame(st, ConnUsedAfterFree(c))
    else
      var conn := st.conns[c];
      var s1 := Deregister(Deregister(st, conn.inSock), conn.outSock);
      var s2 := if conn.nclosed == 0 then CloseSocket(CloseSocket(s1, conn.inSock), conn.outSock) else s1;
      var s3 := FreeSocket(FreeSocket(s2, conn.inSock), conn.outSock);
      FreeConn(FreeConn(s3, conn.pair), c)
  }

  /** nclosed++ on a record */
  function CountClose(st: State, c: ConnId): (n: State)
    ensures |st.faults| <= |n.faults|
  {
    if c !in st.conns then Blame(st, ConnUsedAfterFree(c))
    else st.(conns := st.conns[c := st.conns[c].(nclosed := st.conns[c].nclosed + 1)])
  }

  /** How a pipe loop stops: end-of-file, would-block, or a failed read or write. */
  datatype Stop = Eof | Again | Failed

  datatype Event =
    | Interrupted                                          // waiting for an event failed
    | Refused                                              // accept gave nothing
    | Rejected(newIn: SocketId)                            // handshake or outbound connect failed
    | Accepted(in_: SocketId, out: SocketId, c1: ConnId, c2: ConnId)
    | Pipe(c: ConnId, wrote: bool, stop: Stop)             // `wrote`: a write was attempted

  /** The event loop can see this event: new identities are new, and a pipe event is for a record
      that a registered descriptor points to. */
  predicate Enabled(st: State, e: Event)
  {
    match e
    case Interrupted => true
    case Refused => true
    case Rejected(s) => s !in st.issued
    case Accepted(i, o, c1, c2) => i != o && c1 != c2 && {i, o, c1, c2} !! st.issued && {i, o} !! {c1, c2}
    case Pipe(c, _, _) => c in st.epoll.Values
  }

  function Accept(st: State, i: SocketId, o: SocketId, c1: ConnId, c2: ConnId): State
  {
    st.(conns := st.conns[c1 := Conn(i, o, c2, 0)][c2 := Conn(o, i, c1, 0)],
        epoll := st.epoll[i := c1][o := c2],
        sockets := st.sockets[i := false][o := false],
        issued := st.issued + {i, o, c1, c2})
  }

  function EndOfFile(st: State, c: ConnId): (n: State)
    ensures |st.faults| <= |n.faults|
  {
    if c !in st.conns then Blame(st, ConnUsedAfterFree(c))
    else
      var conn := st.conns[c];
      var s := CountClose(CountClose(CloseSocket(st, conn.outSock), c), conn.pair);
      if c in s.conns && s.conns[c].nclosed == 2 then RemoveConn(s, c) else s
  }

  /** What etcp_handle does when a pipe loop has stopped */
  function AfterPipe(st: State, c: ConnId, stop: Stop): (n: State)
    ensures |st.faults| <= |n.faults|
  {
    match stop
    case Eof => EndOfFile(st, c)
    case Again => st
    case Failed => RemoveConn(st, c)
  }

  /** One turn of etcp_worker's loop: etcp_handle, unless waiting failed */
  function Handle(st: State, e: Event): (n: State)
    ensures |st.faults| <= |n.faults|
  {
    match e
    case Interrupted => st
    case Refused => st
    case Rejected(s) =>
      FreeSocket(CloseSocket(st.(sockets := st.sockets[s := false], issued := st.issued + {s}), s), s)
    case Accepted(i, o, c1, c2) => Accept(st, i, o, c1, c2)
    case Pipe(c, wrote, stop) =>
      if c !in st.conns then Blame(st, ConnUsedAfterFree(c))
      else AfterPipe(if wrote then WriteSocket(st, st.conns[c].outSock) else st, c, stop)
  }

  // ---------- the invariant ----------

  predicate Shut(st: State, s: SocketId)
  {
    s in st.sockets && st.sockets[s]
  }

  /** A record and its pair mirror each other, are registered, own their two sockets, and count
      the sockets shut down so far, at most one. */
  predicate ConnOk(st: State, c: ConnId)
    requires c in st.conns
  {
    var conn := st.conns[c];
    && conn.pair in st.conns && st.conns[conn.pair] == Conn(conn.outSock, conn.inSock, c, conn.nclosed)
    && conn.inSock != conn.outSock && conn.pair != c
    && conn.inSock in st.sockets
    && conn.inSock in st.epoll && st.epoll[conn.inSock] == c
    && conn.nclosed == (if Shut(st, conn.inSock) then 1 else 0) + (if Shut(st, conn.outSock) then 1 else 0) <= 1
    && c in st.issued
  }

  /** Nothing has been misused, every record is in order, every registration points to a record and
      every unreleased socket belongs to one. */
  predicate Inv(st: State)
  {
    && st.faults == []
    && (forall c <- st.conns :: ConnOk(st, c))
    && (forall s <- st.epoll :: st.epoll[s] in st.conns && st.conns[st.epoll[s]].inSock == s)
    && (forall s <- st.sockets :: s in st.epoll && s in st.issued)
  }

  /** A direction that has already reported end-of-file reports it again, or gives data to write. */
  predicate Repeats(st: State, e: Event)
  {
    && e.Pipe? && e.c in st.conns && Shut(st, st.conns[e.c].outSock)
    && (e.wrote || e.stop.Eof?)
  }

  lemma {:induction false} AcceptKeepsInv(st: State, i: SocketId, o: SocketId, c1: ConnId, c2: ConnId)
    requires Inv(st) && Enabled(st, Accepted(i, o, c1, c2))
    ensures Inv(Accept(st, i, o, c1, c2))
  {
    var n := Accept(st, i, o, c1, c2);
    forall c <- n.conns ensures ConnOk(n, c) {
      if c in st.conns {
        assert ConnOk(st, c) && ConnOk(st, st.conns[c].pair);
      }
    }
    forall s <- n.epoll ensures n.epoll[s] in n.conns && n.conns[n.epoll[s]].inSock == s {
      assert s in st.epoll ==> st.epoll[s] in st.conns && ConnOk(st, st.epoll[s]);
    }
  }

  /** The state without a pair of records, their sockets and their registrations. */
  function Forget(st: State, c: ConnId): State
    requires c in st.conns
  {
    var conn := st.conns[c];
    st.(conns := st.conns - {conn.pair, c},
        epoll := st.epoll - {conn.inSock, conn.outSock},
        sockets := st.sockets - {conn.inSock, conn.outSock})
  }

  /** Removing a record releases it, its pair, both sockets and both registrations, each exactly
      once, and nothing else; sockets nobody has shut down yet are shut down first. */
  lemma {:induction false} RemoveReleases(st: State, c: ConnId)
    requires c in st.conns && st.conns[c].pair in st.conns && st.conns[c].pair != c
    requires var conn := st.conns[c];
      && conn.inSock in st.sockets && conn.outSock in st.sockets && conn.inSock != conn.outSock
      && (conn.nclosed == 0 ==> !Shut(st, conn.inSock) && !Shut(st, conn.outSock))
    ensures RemoveConn(st, c) == Forget(st, c)
  {
    var conn := st.conns[c];
    var i, o := conn.inSock, conn.outSock;
    assert st.epoll - {i} - {o} == st.epoll - {i, o};
    assert st.sockets - {i} - {o} == st.sockets - {i, o};
    assert st.sockets[i := true][o := true] - {i} - {o} == st.sockets - {i, o};
    assert st.conns - {conn.pair} - {c} == st.conns - {conn.pair, c};
  }

  lemma {:induction false} ForgetKeepsInv(st: State, c: ConnId)
    requires Inv(st) && c in st.conns
    ensures Inv(Forget(st, c))
  {
    var conn := st.conns[c];
    assert ConnOk(st, c) && ConnOk(st, conn.pair);
    var n := Forget(st, c);
    forall d <- n.conns ensures ConnOk(n, d) {
      assert ConnOk(st, d) && ConnOk(st, st.conns[d].pair);
    }
  }

  lemma {:induction false} RemoveKeepsInv(st: State, c: ConnId)
    requires c in st.conns
    ensures Inv(st) ==> RemoveConn(st, c) == Forget(st, c) && Inv(Forget(st, c))
  {
    if Inv(st) {
      assert ConnOk(st, c);
      RemoveReleases(st, c);
      ForgetKeepsInv(st, c);
    }
  }

  /** One more close counted on a record and its pair. */
  function Counted(st: State, c: ConnId): State
    requires c in st.conns && st.conns[c].pair in st.conns
  {
    var conn := st.conns[c];
    var pair := st.conns[conn.pair];
    st.(conns := st.conns[c := conn.(nclosed := conn.nclosed + 1)][conn.pair := pair.(nclosed := pair.nclosed + 1)])
  }

  lemma {:induction false} CountsBoth(st: State, c: ConnId)
    requires c in st.conns && st.conns[c].pair in st.conns && st.conns[c].pair != c
    ensures CountClose(CountClose(st, c), st.conns[c].pair) == Counted(st, c)
  {
  }

  lemma {:induction false} ForgetCounted(st: State, c: ConnId)
    requires c in st.conns && st.conns[c].pair in st.conns && st.conns[c].pair != c
    ensures Forget(Counted(st, c), c) == Forget(st, c)
  {
    assert Forget(Counted(st, c), c).conns == Forget(st, c).conns;
  }

  /** The state after the first end-of-file of a pair: one socket shut down, counted on both
      records, everything still registered. */
  function HalfClosed(st: State, c: ConnId): State
    requires c in st.conns && st.conns[c].pair in st.conns
  {
    Counted(st.(sockets := st.sockets[st.conns[c].outSock := true]), c)
  }

  lemma {:induction false} FirstEofHalfCloses(st: State, c: ConnId)
    requires Inv(st) && c in st.conns && st.conns[c].nclosed == 0
    ensures ConnOk(st, c) && EndOfFile(st, c) == HalfClosed(st, c)
  {
    assert ConnOk(st, c);
    CountsBoth(CloseSocket(st, st.conns[c].outSock), c);
  }

  lemma {:induction false} HalfClosedKeepsInv(st: State, c: ConnId)
    requires Inv(st) && c in st.conns && st.conns[c].nclosed == 0
    ensures ConnOk(st, c) && Inv(HalfClosed(st, c))
  {
    var conn := st.conns[c];
    assert ConnOk(st, c) && ConnOk(st, conn.pair);
    var n := HalfClosed(st, c);
    forall d <- n.conns ensures ConnOk(n, d) {
      assert ConnOk(st, d) && ConnOk(st, st.conns[d].pair);
    }
  }

  lemma {:induction false} ForgetClosed(st: State, c: ConnId, s: SocketId)
    requires c in st.conns && s == st.conns[c].outSock
    ensures Forget(st.(sockets := st.sockets[s := true]), c) == Forget(st, c)
  {
    assert Forget(st.(sockets := st.sockets[s := true]), c).sockets == Forget(st, c).sockets;
  }

  /** The second end-of-file of a pair removes it, whatever has become of the socket it shuts down. */
  lemma {:induction false} SecondEofRemoves(st: State, c: ConnId)
    requires c in st.conns && ConnOk(st, c) && ConnOk(st, st.conns[c].pair) && st.conns[c].nclosed == 1
    ensures EndOfFile(st, c) == Forget(CloseSocket(st, st.conns[c].outSock), c)
  {
    var s := CloseSocket(st, st.conns[c].outSock);
    CountsBoth(s, c);
    RemoveReleases(Counted(s, c), c);
    ForgetCounted(s, c);
  }

  /** The second one removes the pair. */
  lemma {:induction false} SecondEofKeepsInv(st: State, c: ConnId)
    requires Inv(st) && c in st.conns && st.conns[c].nclosed == 1 && !Shut(st, st.conns[c].outSock)
    ensures EndOfFile(st, c) == Forget(st, c)
    ensures Inv(EndOfFile(st, c))
  {
    assert ConnOk(st, c) && ConnOk(st, st.conns[c].pair);
    SecondEofRemoves(st, c);
    ForgetClosed(st, c, st.conns[c].outSock);
    ForgetKeepsInv(st, c);
  }

  lemma {:induction false} EofKeepsInv(st: State, c: ConnId)
    requires Inv(st) && c in st.conns && !Shut(st, st.conns[c].outSock)
    ensures Inv(EndOfFile(st, c))
  {
    assert ConnOk(st, c);
    if st.conns[c].nclosed == 0 {
      FirstEofHalfCloses(st, c);
      HalfClosedKeepsInv(st, c);
    } else {
      SecondEofKeepsInv(st, c);
    }
  }

  /** A write attempt on a socket that is not shut down changes nothing here. */
  lemma {:induction false} WriteKeeps(st: State, c: ConnId)
    requires Inv(st) && c in st.conns && !Shut(st, st.conns[c].outSock)
    ensures WriteSocket(st, st.conns[c].outSock) == st
  {
    assert ConnOk(st, c) && ConnOk(st, st.conns[c].pair);
  }

  lemma {:induction false} StopKeepsInv(st: State, c: ConnId, stop: Stop)
    requires Inv(st) && c in st.conns && (stop.Eof? ==> !Shut(st, st.conns[c].outSock))
    ensures Inv(AfterPipe(st, c, stop))
  {
    match stop
    case Eof => EofKeepsInv(st, c);
    case Again =>
    case Failed => RemoveKeepsInv(st, c);
  }

  /** A pipe event that does not repeat an end-of-file is what its end makes of the state. */
  lemma {:induction false} PipeIsItsEnd(st: State, c: ConnId, wrote: bool, stop: Stop)
    requires Inv(st) && c in st.conns && !Repeats(st, Pipe(c, wrote, stop))
    ensures Handle(st, Pipe(c, wrote, stop)) == AfterPipe(st, c, stop)
  {
    if wrote {
      WriteKeeps(st, c);
    }
  }

  /** One that does is a misuse from its first step on. */
  lemma {:induction false} RepeatBlamed(st: State, c: ConnId, wrote: bool, stop: Stop)
    requires Inv(st) && c in st.conns && Repeats(st, Pipe(c, wrote, stop))
    ensures Handle(st, Pipe(c, wrote, stop)).faults != []
  {
    assert ConnOk(st, c) && ConnOk(st, st.conns[c].pair);
    if !wrote {
      SecondEofRemoves(st, c);
    }
  }

  lemma {:induction false} PipeSafe(st: State, c: ConnId, wrote: bool, stop: Stop)
    requires Inv(st) && Enabled(st, Pipe(c, wrote, stop))
    ensures Inv(Handle(st, Pipe(c, wrote, stop))) <==> !Repeats(st, Pipe(c, wrote, stop))
    ensures Repeats(st, Pipe(c, wrote, stop)) ==> Handle(st, Pipe(c, wrote, stop)).faults != []
  {
    if Repeats(st, Pipe(c, wrote, stop)) {
      RepeatBlamed(st, c, wrote, stop);
    } else {
      PipeIsItsEnd(st, c, wrote, stop);
      StopKeepsInv(st, c, stop);
    }
  }

  /** Every event keeps the invariant, and so misuses nothing, exactly when it does not repeat an
      end-of-file; one that does is a misuse. */
  lemma {:induction false} HandleSafe(st: State, e: Event)
    requires Inv(st) && Enabled(st, e)
    ensures Inv(Handle(st, e)) <==> !Repeats(st, e)
    ensures Repeats(st, e) ==> Handle(st, e).faults != []
  {
    match e
    case Interrupted =>
    case Refused =>
    case Rejected(s) =>
      assert (st.sockets[s := true]) - {s} == st.sockets;
    case Accepted(i, o, c1, c2) => AcceptKeepsInv(st, i, o, c1, c2);
    case Pipe(c, wrote, stop) => PipeSafe(st, c, wrote, stop);
  }

  // ---------- runs ----------

  ghost predicate IsRun(states: seq<State>, events: seq<Event>)
  {
    && |states| == |events| + 1 && states[0] == INIT
    && forall i {:trigger events[i]} :: 0 <= i < |events| ==>
      Enabled(states[i], events[i]) && states[i + 1] == Handle(states[i], events[i])
  }

  /** None of the first `n` events repeats an end-of-file. */
  ghost predicate NoRepeats(states: seq<State>, events: seq<Event>, n: nat)
    requires n <= |events| < |states|
  {
    forall i {:trigger events[i]} :: 0 <= i < n ==> !Repeats(states[i], events[i])
  }

  /** After `n` events everything is in order if none repeated an end-of-file; else something has
      been misused. */
  ghost predicate SafeAfter(states: seq<State>, events: seq<Event>, n: nat)
    requires n <= |events| < |states|
  {
    if NoRepeats(states, events, n) then Inv(states[n]) else states[n].faults != []
  }

  lemma {:induction false} StepSafe(states: seq<State>, events: seq<Event>, n: nat)
    requires IsRun(states, events) && n < |events| && SafeAfter(states, events, n)
    ensures SafeAfter(states, events, n + 1)
  {
    assert Enabled(states[n], events[n]) && states[n + 1] == Handle(states[n], events[n]);
    if NoRepeats(states, events, n) {
      HandleSafe(states[n], events[n]);
    }
  }

  /** Over all runs of the event loop, of any number of connections: as long as each direction
      reports end-of-file at most once and delivers nothing after it, linked records agree on
      `nclosed`, descriptors are deregistered before their sockets go, no event reaches a released
      record, nothing is released twice or left unowned, and no socket is shut down twice or
      written to after that. As soon as a direction does report twice, something is misused. */
  lemma {:induction false} RunSafe(states: seq<State>, events: seq<Event>, n: nat)
    requires IsRun(states, events) && n <= |events|
    ensures NoRepeats(states, events, n) ==> Inv(states[n])
    ensures !NoRepeats(states, events, n) ==> states[n].faults != []
    decreases n
  {
    if n == 0 {
      assert states[0] == INIT;
    } else {
      RunSafe(states, events, n - 1);
      StepSafe(states, events, n - 1);
    }
  }

  /** A direction reporting end-of-file again while the other one is still open: its socket is shut
      down twice, and the pair is released although the other direction has not ended. */
  lemma {:induction false} RepeatedEofTearsDown(st: State, c: ConnId)
    requires Inv(st) && c in st.conns && st.conns[c].nclosed == 1 && Shut(st, st.conns[c].outSock)
    ensures !Shut(st, st.conns[c].inSock)
    ensures Handle(st, Pipe(c, false, Eof)) ==
      Forget(st, c).(faults := [ClosedTwice(st.conns[c].outSock)])
  {
    assert ConnOk(st, c) && ConnOk(st, st.conns[c].pair);
    SecondEofRemoves(st, c);
  }

  lemma {:induction false} AcceptedPair(i: SocketId, o: SocketId, c1: ConnId, c2: ConnId) returns (st: State)
    requires Enabled(INIT, Accepted(i, o, c1, c2))
    ensures st == Handle(INIT, Accepted(i, o, c1, c2)) && Inv(st)
    ensures c1 in st.conns && st.conns[c1] == Conn(i, o, c2, 0) && Enabled(st, Pipe(c1, false, Eof))
  {
    st := Accept(INIT, i, o, c1, c2);
    AcceptKeepsInv(INIT, i, o, c1, c2);
    assert st.epoll[i] == c1;
  }

  lemma {:induction false} EofOnce(st: State, c: ConnId) returns (n: State)
    requires Inv(st) && c in st.conns && st.conns[c].nclosed == 0 && Enabled(st, Pipe(c, false, Eof))
    ensures n == Handle(st, Pipe(c, false, Eof)) && Inv(n)
    ensures c in n.conns && n.conns[c] == st.conns[c].(nclosed := 1) && Shut(n, st.conns[c].outSock)
    ensures Enabled(n, Pipe(c, false, Eof))
  {
    n := HalfClosed(st, c);
    assert ConnOk(st, c);
    FirstEofHalfCloses(st, c);
    HalfClosedKeepsInv(st, c);
    assert n.epoll == st.epoll;
  }

  lemma {:induction false} ThreeEvents(s1: State, s2: State, s3: State, e1: Event, e2: Event, e3: Event)
    requires Enabled(INIT, e1) && s1 == Handle(INIT, e1)
    requires Enabled(s1, e2) && s2 == Handle(s1, e2)
    requires Enabled(s2, e3) && s3 == Handle(s2, e3)
    ensures IsRun([INIT, s1, s2, s3], [e1, e2, e3])
  {
  }

  /** Three events from the start, for any identities: a pair is accepted, and one direction reports
      end-of-file twice. The first report leaves everything in order; the second shuts a socket down
      again and releases both sockets although the other direction never ended. */
  lemma {:induction false} RepeatedEofReachable(i: SocketId, o: SocketId, c1: ConnId, c2: ConnId)
    returns (states: seq<State>)
    requires Enabled(INIT, Accepted(i, o, c1, c2))
    ensures IsRun(states, [Accepted(i, o, c1, c2), Pipe(c1, false, Eof), Pipe(c1, false, Eof)])
    ensures Inv(states[2]) && i in states[2].sockets && !states[2].sockets[i]
    ensures states[3].faults == [ClosedTwice(o)] && i !in states[3].sockets && o !in states[3].sockets
  {
    var s1 := AcceptedPair(i, o, c1, c2);
    var s2 := EofOnce(s1, c1);
    RepeatedEofTearsDown(s2, c1);
    var s3 := Handle(s2, Pipe(c1, false, Eof));
    states := [INIT, s1, s2, s3];
    ThreeEvents(s1, s2, s3, Accepted(i, o, c1, c2), Pipe(c1, false, Eof), Pipe(c1, false, Eof));
  }

  // ---------- the event loop's own state ----------

  class Worker {
    var conns: map<ConnId, Conn>
    var epoll: map<SocketId, ConnId>
    var sockets: map<SocketId, bool>
    ghost var issued: set<nat>
    ghost var faults: seq<Fault>

    ghost function Value(): State
      reads this
    {
      State(conns, epoll, sockets, issued, faults)
    }

    constructor ()
      ensures Value() == INIT
    {
      conns, epoll, sockets, issued, faults := map[], map[], map[], {}, [];
    }

    method Close(s: SocketId)
      modifies this
      ensures Value() == CloseSocket(old(Value()), s)
    {
      if s !in sockets {
        faults := faults + [SocketUsedAfterFree(s)];
      } else if sockets[s] {
        faults := faults + [ClosedTwice(s)];
      } else {
        sockets := sockets[s := true];
      }
    }

    method Free(s: SocketId)
      modifies this
      ensures Value() == FreeSocket(old(Value()), s)
    {
      if s !in sockets {
        faults := faults + [SocketUsedAfterFree(s)];
        return;
      }
      if s in epoll {
        faults := faults + [FreedWhileRegistered(s)];
      }
      sockets := sockets - {s};
    }

    method Write(s: SocketId)
      modifies this
      ensures Value() == WriteSocket(old(Value()), s)
    {
      if s !in sockets {
        faults := faults + [SocketUsedAfterFree(s)];
      } else if sockets[s] {
        faults := faults + [WrittenAfterClose(s)];
      }
    }

    method Release(c: ConnId)
      modifies this
      ensures Value() == FreeConn(old(Value()), c)
    {
      if c !in conns {
        faults := faults + [ConnUsedAfterFree(c)];
      } else {
        conns := conns - {c};
      }
    }

    method Increment(c: ConnId)
      modifies this
      ensures Value() == CountClose(old(Value()), c)
    {
      if c !in conns {
        faults := faults + [ConnUsedAfterFree(c)];
      } else {
        conns := conns[c := conns[c].(nclosed := conns[c].nclosed + 1)];
      }
    }

    /** etcp_remove_conn */
    method Remove(c: ConnId)
      modifies this
      ensures Value() == RemoveConn(old(Value()), c)
      ensures Inv(old(Value())) && c in old(conns) ==> Value() == Forget(old(Value()), c) && Inv(Value())
    {
      if c !in conns {
        faults := faults + [ConnUsedAfterFree(c)];
        return;
      }
      RemoveKeepsInv(Value(), c);
      var conn := conns[c];
      epoll := epoll - {conn.inSock};
      epoll := epoll - {conn.outSock};
      if conn.nclosed == 0 {
        Close(conn.inSock);
        Close(conn.outSock);
      }
      Free(conn.inSock);
      Free(conn.outSock);
      Release(conn.pair);
      Release(c);
    }

    /** etcp_relay_conn_new twice, etcp_relay_conn_link, and the two registrations */
    method Link(i: SocketId, o: SocketId, c1: ConnId, c2: ConnId)
      requires Enabled(Value(), Accepted(i, o, c1, c2))
      modifies this
      ensures Value() == Accept(old(Value()), i, o, c1, c2)
      ensures Inv(old(Value())) ==> Inv(Value())
    {
      if Inv(Value()) {
        AcceptKeepsInv(Value(), i, o, c1, c2);
      }
      sockets := sockets[i := false][o := false];
      var conn1, conn2 := Conn(i, o, c2, 0), Conn(o, i, c1, 0);
      conns := conns[c1 := conn1];
      conns := conns[c2 := conn2];
      epoll := epoll[i := c1];
      epoll := epoll[o := c2];
      issued := issued + {i, o, c1, c2};
    }

    /** The read end of a pipe has closed. */
    method EndPipe(c: ConnId)
      requires c in conns
      modifies this
      ensures Value() == EndOfFile(old(Value()), c)
    {
      var conn := conns[c];
      Close(conn.outSock);
      Increment(c);
      Increment(conn.pair);
      if c in conns && conns[c].nclosed == 2 {
        Remove(c);
      }
    }

    /** The pipe branch of etcp_handle */
    method HandlePipe(c: ConnId, wrote: bool, stop: Stop)
      modifies this
      ensures Value() == Handle(old(Value()), Pipe(c, wrote, stop))
    {
      if c !in conns {
        faults := faults + [ConnUsedAfterFree(c)];
        return;
      }
      if wrote {
        Write(conns[c].outSock);
      }
      match stop
      case Eof => EndPipe(c);
      case Again =>
      case Failed => Remove(c);
    }

    /** etcp_handle, with the outcomes of the system calls in the event */
    method EtcpHandle(e: Event)
      requires Enabled(Value(), e)
      modifies this
      ensures Value() == Handle(old(Value()), e)
      ensures Inv(old(Value())) ==> (Inv(Value()) <==> !Repeats(old(Value()), e))
    {
      if Inv(Value()) {
        HandleSafe(Value(), e);
      }
      match e
      case Interrupted =>
      case Refused =>
      case Rejected(s) =>
        sockets, issued := sockets[s := false], issued + {s};
        Close(s);
        Free(s);
      case Accepted(i, o, c1, c2) =>
        Link(i, o, c1, c2);
      case Pipe(c, wrote, stop) =>
        HandlePipe(c, wrote, stop);
    }

    /** etcp_worker, for the outcomes of waiting until it is told to stop */
    method EtcpWorker(events: seq<Event>, ghost states: seq<State>)
      requires Value() == INIT && IsRun(states, events)
      modifies this
      ensures Value() == states[|events|]
      ensures NoRepeats(states, events, |events|) <==> Inv(Value())
      ensures !NoRepeats(states, events, |events|) <==> faults != []
    {
      for k := 0 to |events|
        invariant Value() == states[k] && SafeAfter(states, events, k)
      {
        StepSafe(states, events, k);
        if !events[k].Interrupted? {
          EtcpHandle(events[k]);
        }
      }
    }
  }
}
