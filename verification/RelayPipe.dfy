/** The pipe loop of etcp_handle for a VMess source: edge-triggered draining. */
module RelayPipe {
  import opened ByteStrings
  import opened Descriptors
  import opened RBuffers
  import opened VBuffers
  import opened VmessSocket
  import opened VmessStream

  const DEFAULT_BUFFER := 8 * 1024

  /** The last of the events consumed was a would-block outcome, or there is no event left. */
  predicate Met(eaten: seq<Event>, left: seq<Event>)
  {
    left == [] || (eaten != [] && eaten[|eaten| - 1].Again?)
  }

  /** Nothing is left behind that no later readiness event would announce: no leftover, no complete
      frame in the raw buffer, and a descriptor whose last read met would-block or end-of-file. */
  ghost predicate Quiet(d: Decoder<seq<Byte>>, start: seq<Event>, r: Reader)
  {
    r.queue == Queue([], false) && d(r.raw).NeedMore? && Exhausted(start, r.events)
  }

  lemma {:induction false} MetExhausted(eaten: seq<Event>, left: seq<Event>)
    requires Met(eaten, left)
    ensures Exhausted(eaten + left, left)
  {
  }

  lemma {:induction false} MetLater(eaten: seq<Event>, more: seq<Event>, left: seq<Event>)
    requires Met(more, left)
    ensures Met(eaten + more, left)
  {
  }

  lemma {:induction false} EventsAssociative(a: seq<Event>, b: seq<Event>, c: seq<Event>)
    ensures (a + b) + c == a + (b + c)
  {
  }

  /** The outcomes behind the first failed write. */
  function AfterFailure(outcomes: seq<bool>): seq<bool>
  {
    After(outcomes, Leading(outcomes) + 1)
  }

  /** The read of the loop condition. `eaten` is what has been consumed of the events since `start`. */
  method ReadOn(src: Socket, d: Decoder<seq<Byte>>, ghost start: seq<Event>, ghost eaten: seq<Event>)
    returns (res: int, data: seq<Byte>, ghost eaten': seq<Event>)
    requires src.Valid() && Sane(d) && Stable(d) && start == eaten + src.fd.events
    modifies src.readBuf, src.readBuf.buf, src.rawBuf, src.rawBuf.buf, src.fd`events
    ensures src.Valid() && res >= -2 && |data| == (if res > 0 then res else 0)
    ensures src.rawBuf.buf == old(src.rawBuf.buf) || fresh(src.rawBuf.buf)
    ensures src.readBuf.buf == old(src.readBuf.buf) || fresh(src.readBuf.buf)
    ensures data + src.Reading().Undelivered(d) == old(src.Reading()).Undelivered(d)
    ensures src.Reading().Fate(d) == old(src.Reading()).Fate(d)
    ensures res != -1 ==> start == eaten' + src.fd.events
    ensures res == 0 ==> src.Reading().queue.eof
    ensures old(src.Reading()).queue.eof ==> res == 0 && src.Reading() == old(src.Reading())
    ensures res == -2 ==> Quiet(d, start, src.Reading())
  {
    ghost var before := src.fd.events;
    res, data := src.ReadWith(d, DEFAULT_BUFFER, false);
    eaten' := eaten;
    if res != -1 {
      eaten' := Eat(start, eaten, before, src.fd.events);
    }
  }

  /** The events consumed by one more read. */
  lemma {:induction false} Eat(start: seq<Event>, eaten: seq<Event>, before: seq<Event>, left: seq<Event>)
    returns (eaten': seq<Event>)
    requires start == eaten + before && Suffix(before, left)
    ensures start == eaten' + left && (Exhausted(before, left) ==> Exhausted(start, left))
  {
    var more := before[..|before| - |left|];
    assert before == more + left;
    EventsAssociative(eaten, more, left);
    eaten' := eaten + more;
    if Exhausted(before, left) {
      MetLater(eaten, more, left);
      MetExhausted(eaten', left);
    }
  }

  /** One turn of the pipe loop: a read, and a write of what it gave. The loop goes on if both did. */
  method Turn(src: Socket, d: Decoder<seq<Byte>>, dst: Fd, ghost start: seq<Event>, ghost eaten: seq<Event>)
    returns (res: int, goOn: bool, ghost eaten': seq<Event>)
    requires src.Valid() && src.fd != dst && Sane(d) && Stable(d) && start == eaten + src.fd.events
    modifies src.readBuf, src.readBuf.buf, src.rawBuf, src.rawBuf.buf, src.fd`events, dst`sent, dst`outcomes
    ensures src.Valid() && res >= -2 && (goOn ==> res > 0)
    ensures dst.outcomes == if res > 0 then After(old(dst.outcomes), 1) else old(dst.outcomes)
    ensures res > 0 ==> goOn == NextOk(old(dst.outcomes))
    ensures src.rawBuf.buf == old(src.rawBuf.buf) || fresh(src.rawBuf.buf)
    ensures src.readBuf.buf == old(src.readBuf.buf) || fresh(src.readBuf.buf)
    ensures goOn || res <= 0 ==>
      dst.sent + src.Reading().Undelivered(d) == old(dst.sent) + old(src.Reading()).Undelivered(d)
    ensures old(dst.sent) <= dst.sent
    ensures goOn ==> |src.Reading().Undelivered(d)| < |old(src.Reading()).Undelivered(d)|
    ensures src.Reading().Fate(d) == old(src.Reading()).Fate(d)
    ensures goOn ==> start == eaten' + src.fd.events
    ensures res == 0 ==> src.Reading().queue.eof && dst.sent == old(dst.sent) + old(src.Reading()).Undelivered(d)
    ensures old(src.Reading()).queue.eof ==> res == 0 && src.Reading() == old(src.Reading())
    ensures res == -2 ==> Quiet(d, start, src.Reading())
  {
    var data;
    res, data, eaten' := ReadOn(src, d, start, eaten);
    goOn := false;
    ConcatAssociative(dst.sent, data, src.Reading().Undelivered(d));
    if res > 0 {
      ghost var r := src.Reading();
      var n := dst.Write(data);
      assert src.Reading() == r;
      goOn := n > 0;
    } else {
      assert dst.sent + [] == dst.sent;
    }
  }

  /** Reads without blocking and writes on until a read gives nothing or a write fails. What was
      written is exactly what was decoded, in order, and stopping with -2 leaves nothing behind.
      Having returned 0 it returns 0 ever after and writes nothing, so a direction repeats its
      end-of-file whenever its descriptor is reported again. */
  method Pipe(src: Socket, d: Decoder<seq<Byte>>, dst: Fd) returns (res: int)
    requires src.Valid() && src.fd != dst && Sane(d) && Stable(d)
    modifies src.readBuf, src.readBuf.buf, src.rawBuf, src.rawBuf.buf, src.fd`events, dst`sent, dst`outcomes
    ensures src.Valid() && res >= -2
    ensures old(dst.sent) <= dst.sent
    ensures src.Reading().Fate(d) == old(src.Reading()).Fate(d)
    ensures res <= 0 ==>
      dst.sent + src.Reading().Undelivered(d) == old(dst.sent) + old(src.Reading()).Undelivered(d)
    ensures res > 0 ==> dst.outcomes == AfterFailure(old(dst.outcomes))
    ensures res == 0 ==> src.Reading().queue.eof && dst.sent == old(dst.sent) + old(src.Reading()).Undelivered(d)
    ensures old(src.Reading()).queue.eof ==>
      res == 0 && src.Reading() == old(src.Reading()) && dst.sent == old(dst.sent)
    ensures res == -2 ==> Quiet(d, old(src.fd.events), src.Reading())
  {
    ghost var start: seq<Event>, eaten: seq<Event> := src.fd.events, [];
    ghost var sent, fate, goal := dst.sent, src.Reading().Fate(d), dst.sent + src.Reading().Undelivered(d);
    while true
      invariant src.Valid() && start == eaten + src.fd.events
      invariant src.rawBuf.buf == old(src.rawBuf.buf) || fresh(src.rawBuf.buf)
      invariant src.readBuf.buf == old(src.readBuf.buf) || fresh(src.readBuf.buf)
      invariant sent <= dst.sent && dst.sent + src.Reading().Undelivered(d) == goal
      invariant src.Reading().Fate(d) == fate && AfterFailure(dst.outcomes) == AfterFailure(old(dst.outcomes))
      invariant old(src.Reading()).queue.eof ==> src.Reading() == old(src.Reading()) && dst.sent == sent
      decreases |src.Reading().Undelivered(d)|
    {
      var goOn;
      AfterNext(dst.outcomes, Leading(dst.outcomes) + 1);
      res, goOn, eaten := Turn(src, d, dst, start, eaten);
      if !goOn {
        return;
      }
    }
  }
}
