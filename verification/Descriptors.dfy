/** A socket descriptor as seen through pub/fd.h: the incoming bytes arrive in fragments cut
    anywhere, with would-block outcomes between them, and end in end-of-file or an error. */
module Descriptors {
  import opened ByteStrings

  type Fragment = b: seq<Byte> | |b| > 0 witness [0]

  datatype Event =
    | Arrive(bytes: Fragment)  // bytes a read can take from
    | Again                    // EAGAIN
    | Broken                   // any other error; it persists

  /** The bytes that can still be read before end-of-file or an error. */
  function Incoming(events: seq<Event>): seq<Byte>
  {
    if events == [] || events[0].Broken? then []
    else if events[0].Again? then Incoming(events[1..])
    else events[0].bytes + Incoming(events[1..])
  }

  /** Some read will fail. */
  predicate Fails(events: seq<Event>)
  {
    events != [] && (events[0].Broken? || Fails(events[1..]))
  }

  /** The bytes that arrive before the next would-block outcome, error or end-of-file. */
  function Ready(events: seq<Event>): seq<Byte>
  {
    if events == [] || !events[0].Arrive? then [] else events[0].bytes + Ready(events[1..])
  }

  /** The next outcome that brings no bytes is an error. */
  predicate Breaks(events: seq<Event>)
  {
    events != [] && (events[0].Broken? || (events[0].Arrive? && Breaks(events[1..])))
  }

  /** What is left when whole events have been consumed. */
  predicate Suffix(events: seq<Event>, left: seq<Event>)
  {
    |left| <= |events| && left == events[|events| - |left|..]
  }

  /** What may be left after reads: a fragment may have been read in part. */
  predicate Left(events: seq<Event>, left: seq<Event>)
  {
    || Suffix(events, left)
    || (0 < |left| <= |events| && left[0].Arrive? && events[|events| - |left|].Arrive? &&
        left[1..] == events[|events| - |left| + 1..])
  }

  /** The last read met end-of-file or would have blocked, and nothing was read after that. */
  predicate Exhausted(events: seq<Event>, left: seq<Event>)
  {
    left == [] || (|left| < |events| && Suffix(events, left) && events[|events| - |left| - 1].Again?)
  }

  /** A fragment ends `m` bytes from here, or nothing has been read yet. */
  predicate Cut(events: seq<Event>, m: nat)
  {
    || m == 0
    || (events != [] && events[0].Again? && Cut(events[1..], m))
    || (events != [] && events[0].Arrive? && m >= |events[0].bytes| && Cut(events[1..], m - |events[0].bytes|))
  }

  lemma {:induction false} CutAtEnd(events: seq<Event>)
    ensures Cut(events, |Incoming(events)|)
    decreases |events|
  {
    if events != [] && !events[0].Broken? {
      CutAtEnd(events[1..]);
    }
  }

  /** What reading `k` bytes does to the places where fragments end. */
  ghost predicate Advanced(events: seq<Event>, k: nat, left: seq<Event>)
  {
    forall m: nat {:trigger Cut(left, m)} :: m > 0 ==> (Cut(left, m) <==> Cut(events, k + m))
  }

  ghost predicate NoCut(events: seq<Event>, from: nat, to: nat)
  {
    forall m: nat {:trigger Cut(events, m)} :: from < m < to ==> !Cut(events, m)
  }

  /** A read of at most `room` bytes that took `k` of them stops at the end of the first fragment or
      when there is no more room. */
  ghost predicate Stops(events: seq<Event>, left: seq<Event>, k: nat, room: nat)
  {
    (k == room || Cut(events, k)) && NoCut(events, 0, k) && Advanced(events, k, left)
  }

  lemma {:induction false} LeftLeft(a: seq<Event>, b: seq<Event>, c: seq<Event>)
    requires Left(a, b) && Left(b, c)
    ensures Left(a, c)
  {
    var i, j := |a| - |b|, |b| - |c|;
    if c != [] {
      if j > 0 {
        assert b[1..][j - 1..] == b[j..] && a[i + 1..][j - 1..] == a[i + j..];
      }
      assert b[j..][1..] == b[j + 1..] && a[i + j..][1..] == a[i + j + 1..];
      assert b[1..][j..] == b[j + 1..] && a[i + 1..][j..] == a[i + j + 1..];
    }
  }

  lemma {:induction false} LeftExhausted(a: seq<Event>, b: seq<Event>, c: seq<Event>)
    requires Left(a, b) && Exhausted(b, c)
    ensures Exhausted(a, c)
  {
    var i, j := |a| - |b|, |b| - |c|;
    if c != [] {
      assert b[1..][j - 1..] == b[j..] && a[i + 1..][j - 1..] == a[i + j..] == a[i..][j..];
      if j > 1 {
        assert b[1..][j - 2] == b[j - 1];
      }
    }
  }

  function Rank(events: seq<Event>): nat
  {
    |Incoming(events)| + |events|
  }

  /** The outcome of one `read` system call asking for at most `size` bytes: the events left
      and the return value, with -2 for would-block. */
  function ReadOnce(events: seq<Event>, size: nat): (r: (seq<Event>, seq<Byte>, int))
    requires size > 0
    ensures r.2 == |r.1| || (r.2 < 0 && r.1 == [])
    ensures r.1 + Incoming(r.0) == Incoming(events)
    ensures Fails(r.0) == Fails(events)
    ensures r.2 >= -1 ==> r.1 + Ready(r.0) == Ready(events)
    ensures r.2 <= 0 ==> Ready(events) == []
    ensures if r.2 > 0 then Breaks(r.0) == Breaks(events) else Breaks(events) <==> r.2 == -1
    ensures |r.1| <= size
    ensures r.2 == 0 <==> events == []
    ensures r.2 == -1 <==> events != [] && events[0].Broken?
    ensures r.2 == -2 <==> events != [] && events[0].Again?
    ensures r.2 == -2 || r.2 > 0 ==> Rank(r.0) < Rank(events)
    ensures r.2 >= -2
    ensures r.2 == 0 || r.2 == -1 ==> r.0 == events
    ensures Left(events, r.0)
  {
    if events == [] then
      (events, [], 0)
    else
      match events[0]
      case Broken => (events, [], -1)
      case Again => (events[1..], [], -2)
      case Arrive(bytes) =>
        if |bytes| <= size then
          (events[1..], bytes, |bytes|)
        else
          var rest := [Arrive(bytes[size..])] + events[1..];
          assert rest[1..] == events[1..];
          assert bytes == bytes[..size] + bytes[size..];
          (rest, bytes[..size], size)
  }

  lemma {:induction false} ReadOnceStops(events: seq<Event>, size: nat)
    requires size > 0
    ensures var r := ReadOnce(events, size);
      && (r.2 > 0 ==> Stops(events, r.0, r.2, size))
      && (r.2 == -2 ==> Advanced(events, 0, r.0))
  {
    var r := ReadOnce(events, size);
    if r.2 > 0 {
      var tail := events[1..];
      forall m: nat {:trigger Cut(r.0, m)} | m > 0 ensures Cut(r.0, m) <==> Cut(events, r.2 + m) {
        if r.2 < |events[0].bytes| {
          assert r.0[0].bytes == events[0].bytes[r.2..] && r.0[1..] == tail;
        }
      }
    }
  }

  lemma {:induction false} SkipThenStop(events: seq<Event>, mid: seq<Event>, left: seq<Event>, k: nat, room: nat)
    requires Advanced(events, 0, mid) && k > 0
    ensures Stops(mid, left, k, room) ==> Stops(events, left, k, room)
    ensures Advanced(mid, 0, left) ==> Advanced(events, 0, left)
  {
    forall m: nat {:trigger Cut(events, m)} | m > 0 ensures Cut(mid, m) <==> Cut(events, m) {
      assert Cut(mid, m) <==> Cut(events, 0 + m);
    }
  }

  /** The next write succeeds. */
  predicate NextOk(outcomes: seq<bool>)
  {
    outcomes != [] && outcomes[0]
  }

  /** What is left of the outcomes after `n` writes. */
  function After(outcomes: seq<bool>, n: nat): seq<bool>
  {
    if n <= |outcomes| then outcomes[n..] else []
  }

  lemma {:induction false} AfterNext(outcomes: seq<bool>, n: nat)
    requires n > 0
    ensures After(After(outcomes, 1), n - 1) == After(outcomes, n)
  {
  }

  /** How many writes succeed before one fails. */
  function Leading(outcomes: seq<bool>): (n: nat)
    ensures n <= |outcomes|
  {
    if NextOk(outcomes) then 1 + Leading(outcomes[1..]) else 0
  }

  /** What gets out of successive writes if nobody looks whether one fails. */
  function Written(pieces: seq<seq<Byte>>, outcomes: seq<bool>): seq<Byte>
  {
    if pieces == [] then []
    else (if NextOk(outcomes) then pieces[0] else []) + Written(pieces[1..], After(outcomes, 1))
  }

  class Fd {
    var events: seq<Event>  // what will happen on the reading side
    var sent: seq<Byte>     // everything written so far
    var outcomes: seq<bool> // which writes will succeed, then none; writes are never short
    var shut: bool          // the writing side has been shut down

    constructor (events: seq<Event>, outcomes: seq<bool>)
      ensures this.events == events && this.outcomes == outcomes
      ensures sent == [] && !shut
    {
      this.events, this.outcomes := events, outcomes;
      sent, shut := [], false;
    }

    /** fd_read: blocks, that is retries on would-block */
    method Read(size: nat) returns (n: int, data: seq<Byte>)
      requires size > 0
      modifies this`events
      ensures n == |data| || (n == -1 && data == [])
      ensures |data| <= size
      ensures data + Incoming(events) == Incoming(old(events))
      ensures Fails(events) == Fails(old(events))
      ensures n == 0 ==> events == [] && !Fails(old(events))
      ensures n == -1 ==> Fails(old(events)) && Incoming(events) == []
      ensures n > 0 ==> Rank(events) < Rank(old(events)) && Stops(old(events), events, n, size)
    {
      while true
        invariant Advanced(old(events), 0, events)
        invariant Incoming(events) == Incoming(old(events))
        invariant Fails(events) == Fails(old(events))
        invariant Rank(events) <= Rank(old(events))
        decreases Rank(events)
      {
        ghost var before := events;
        var r := ReadOnce(events, size);
        ReadOnceStops(events, size);
        events, data, n := r.0, r.1, r.2;
        SkipThenStop(old(events), before, events, if n > 0 then n else 1, size);
        if n != -2 {
          return;
        }
      }
    }

    /** fd_try_read: a single attempt */
    method TryRead(size: nat) returns (n: int, data: seq<Byte>)
      requires size > 0
      modifies this`events
      ensures n == |data| || (n < 0 && data == [])
      ensures -2 <= n && |data| <= size
      ensures data + Incoming(events) == Incoming(old(events)) && Fails(events) == Fails(old(events))
      ensures n >= -1 ==> data + Ready(events) == Ready(old(events))
      ensures n <= 0 ==> Ready(old(events)) == []
      ensures if n > 0 then Breaks(events) == Breaks(old(events)) else Breaks(old(events)) <==> n == -1
      ensures n == 0 ==> old(events) == [] == events
      ensures n == -1 ==> Fails(events)
      ensures n == -2 ==> Exhausted(old(events), events)
      ensures n > 0 ==> Rank(events) < Rank(old(events))
      ensures Left(old(events), events)
    {
      var r := ReadOnce(events, size);
      events, data, n := r.0, r.1, r.2;
    }

    /** fd_write */
    method Write(data: seq<Byte>) returns (n: int)
      modifies this`sent, this`outcomes
      ensures n == if NextOk(old(outcomes)) then |data| else -1
      ensures sent == old(sent) + (if NextOk(old(outcomes)) then data else []) && outcomes == After(old(outcomes), 1)
    {
      n := -1;
      if NextOk(outcomes) {
        n, sent := |data|, sent + data;
      } else {
        assert sent + [] == sent;
      }
      outcomes := if outcomes == [] then [] else outcomes[1..];
    }

    /** socket_shutdown_write */
    method ShutdownWrite()
      modifies this`shut
      ensures shut
    {
      shut := true;
    }
  }
}
