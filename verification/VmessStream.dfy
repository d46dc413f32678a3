/** What a VMess byte stream means: from the writes of one side, over the wire however it is
    fragmented, to the reads of the other side (proto/vmess/tcp.c). */
module VmessStream {
  import opened ByteStrings
  import opened Descriptors
  import opened RBuffers
  import opened VBuffers
  import opened VmessFrames

  // ---------- the meaning of wire bytes ----------

  /** How the frames in a stream of wire bytes end. */
  datatype Ending = Ended | Truncated | Corrupt

  /** The application bytes carried by the frames up to the first empty one, which ends the
      stream, or up to the first incomplete or rejected one. */
  ghost function Plain(d: Decoder<seq<Byte>>, wire: seq<Byte>): seq<Byte>
    requires Sane(d)
    decreases |wire|
  {
    match d(wire)
    case Got(n, payload) => if payload == [] then [] else payload + Plain(d, wire[n..])
    case _ => []
  }

  ghost function End(d: Decoder<seq<Byte>>, wire: seq<Byte>): Ending
    requires Sane(d)
    decreases |wire|
  {
    match d(wire)
    case Got(n, payload) => if payload == [] then Ended else End(d, wire[n..])
    case NeedMore => Truncated
    case Bad => Corrupt
  }

  /** More wire bytes only ever add to the meaning of a stream that was cut short. */
  lemma {:induction false} PlainExtends(d: Decoder<seq<Byte>>, wire: seq<Byte>, more: seq<Byte>)
    requires Sane(d) && Stable(d)
    ensures Plain(d, wire) <= Plain(d, wire + more)
    ensures !End(d, wire).Truncated? ==>
      Plain(d, wire + more) == Plain(d, wire) && End(d, wire + more) == End(d, wire)
    decreases |wire|
  {
    if d(wire).Got? {
      var n := d(wire).n;
      assert (wire + more)[n..] == wire[n..] + more;
      PlainExtends(d, wire[n..], more);
    }
  }

  /** The head frame of a stream contributes its payload. */
  lemma {:induction false} PlainFrame(d: Decoder<seq<Byte>>, frame: seq<Byte>, payload: seq<Byte>, rest: seq<Byte>)
    requires Sane(d) && Recognizes(d, frame, payload)
    ensures payload != [] ==> Plain(d, frame + rest) == payload + Plain(d, rest)
    ensures payload != [] ==> End(d, frame + rest) == End(d, rest)
    ensures payload == [] ==> Plain(d, frame + rest) == [] && End(d, frame + rest) == Ended
  {
    assert (frame + rest)[|frame|..] == rest;
  }

  // ---------- the writing side ----------

  /** The payloads of a list of socket writes. */
  function AllChunks(writes: seq<seq<Byte>>): seq<Payload>
  {
    if writes == [] then [] else Chunks(writes[0]) + AllChunks(writes[1..])
  }

  /** Frames for some payloads, then the end frame. */
  function SessionWire(enc: Encoder, payloads: seq<Payload>): seq<Byte>
  {
    Frames(enc, payloads) + END_FRAME
  }

  /** The bytes before the first empty part. */
  function Heard(parts: seq<seq<Byte>>): seq<Byte>
  {
    if parts == [] || parts[0] == [] then [] else parts[0] + Heard(parts[1..])
  }

  /** How many parts there are before the first empty one. */
  function HeardCount(parts: seq<seq<Byte>>): (n: nat)
    ensures n <= |parts|
  {
    if parts == [] || parts[0] == [] then 0 else 1 + HeardCount(parts[1..])
  }

  /** The frames of a session mean the payloads before the first empty one: that makes a frame without
      payload, which reads as the end of the stream. */
  lemma {:induction false} SessionPlain(enc: Encoder, d: Decoder<seq<Byte>>, payloads: seq<Payload>, rest: seq<Byte>)
    requires Matched(enc, d)
    ensures Plain(d, SessionWire(enc, payloads) + rest) == Heard(payloads)
    ensures End(d, SessionWire(enc, payloads) + rest) == Ended
    decreases |payloads|
  {
    if payloads == [] {
      assert [] + END_FRAME == END_FRAME;
      PlainFrame(d, END_FRAME, [], rest);
    } else {
      var head, tail := enc(payloads[0]), Frames(enc, payloads[1..]);
      ConcatAssociative(head, tail, END_FRAME);
      ConcatAssociative(head, tail + END_FRAME, rest);
      PlainFrame(d, head, payloads[0], tail + END_FRAME + rest);
      if payloads[0] != [] {
        SessionPlain(enc, d, payloads[1..], rest);
      }
    }
  }

  /** What is heard of the first parts is heard of all of them, and it is all that is heard exactly if
      the parts left out come behind the first empty one. */
  lemma {:induction false} HeardCut(parts: seq<seq<Byte>>, done: nat)
    requires done <= |parts|
    ensures Heard(parts[..done]) <= Heard(parts)
    ensures Heard(parts[..done]) == Heard(parts) <==> done >= HeardCount(parts)
    decreases |parts|
  {
    if parts != [] && parts[0] != [] && done > 0 {
      HeardCut(parts[1..], done - 1);
      assert parts[..done] == [parts[0]] + parts[1..][..done - 1];
      assert Heard(parts[..done]) == parts[0] + Heard(parts[1..][..done - 1]);
      assert Heard(parts)[|parts[0]|..] == Heard(parts[1..]);
      assert Heard(parts[..done])[|parts[0]|..] == Heard(parts[1..][..done - 1]);
    }
  }

  lemma {:induction false} HeardBehind(parts: seq<seq<Byte>>, more: seq<seq<Byte>>)
    requires forall i :: 0 <= i < |parts| ==> parts[i] != []
    ensures Heard(parts + more) == Concat(parts) + Heard(more)
    decreases |parts|
  {
    if parts == [] {
      assert parts + more == more;
      assert [] + Heard(more) == Heard(more);
    } else {
      assert (parts + more)[1..] == parts[1..] + more;
      HeardBehind(parts[1..], more);
      ConcatAssociative(parts[0], Concat(parts[1..]), Heard(more));
    }
  }

  /** Cutting writes into payloads changes neither what is written nor what is heard. */
  lemma {:induction false} ChunksHeard(writes: seq<seq<Byte>>)
    ensures Heard(AllChunks(writes)) == Heard(writes)
    ensures Concat(AllChunks(writes)) == Concat(writes)
    decreases |writes|
  {
    if writes != [] {
      ChunksHeard(writes[1..]);
      ChunksTile(writes[0]);
      ConcatAppend(Chunks(writes[0]), AllChunks(writes[1..]));
      if writes[0] != [] {
        HeardBehind(Chunks(writes[0]), AllChunks(writes[1..]));
      } else {
        assert ([[]] + AllChunks(writes[1..]))[0] == [];
      }
    }
  }

  /** After an empty write there are only empty ones. */
  ghost predicate QuietAfterEmpty(writes: seq<seq<Byte>>)
  {
    forall i, j :: 0 <= i < j < |writes| && writes[i] == [] ==> writes[j] == []
  }

  lemma {:induction false} QuietTail(first: seq<Byte>, rest: seq<seq<Byte>>)
    requires first != []
    ensures QuietAfterEmpty([first] + rest) <==> QuietAfterEmpty(rest)
  {
    var writes := [first] + rest;
    assert forall i :: 0 <= i < |rest| ==> rest[i] == writes[i + 1];
    assert forall i :: 1 <= i < |writes| ==> writes[i] == rest[i - 1];
  }

  lemma {:induction false} QuietFromStart(rest: seq<seq<Byte>>)
    ensures QuietAfterEmpty([[]] + rest) <==> Concat(rest) == []
  {
    var writes := [[]] + rest;
    ConcatEmpty(rest);
    assert writes[0] == [] && forall j :: 0 <= j < |rest| ==> rest[j] == writes[j + 1];
  }

  /** Every written byte is heard exactly when no empty write comes before a non-empty one. */
  lemma {:induction false} HeardAll(writes: seq<seq<Byte>>)
    ensures Heard(writes) <= Concat(writes)
    ensures Heard(writes) == Concat(writes) <==> QuietAfterEmpty(writes)
    decreases |writes|
  {
    if writes != [] {
      var first, rest := writes[0], writes[1..];
      assert writes == [first] + rest;
      if first == [] {
        QuietFromStart(rest);
      } else {
        HeardAll(rest);
        QuietTail(first, rest);
        assert Heard(writes)[|first|..] == Heard(rest) && Concat(writes)[|first|..] == Concat(rest);
      }
    }
  }

  lemma {:induction false} ConcatEmpty(parts: seq<seq<Byte>>)
    ensures Concat(parts) == [] <==> forall i :: 0 <= i < |parts| ==> parts[i] == []
    decreases |parts|
  {
    if parts != [] {
      ConcatEmpty(parts[1..]);
      assert forall i :: 1 <= i < |parts| ==> parts[i] == parts[1..][i - 1];
    }
  }

  // ---------- the reading side ----------

  /** What a socket read depends on: the leftover buffer, the undecoded bytes and what is still
      to arrive. */
  datatype Reader = Reader(queue: Queue, raw: seq<Byte>, events: seq<Event>) {

    /** End-of-file is only recorded once the leftover buffer is empty. */
    predicate Valid()
    {
      queue.eof ==> queue.bytes == []
    }

    function Stream(): seq<Byte>
    {
      raw + Incoming(events)
    }

    /** The application bytes not yet handed to the reader. */
    ghost function Undelivered(d: Decoder<seq<Byte>>): seq<Byte>
      requires Sane(d)
    {
      if queue.eof then [] else queue.bytes + Plain(d, Stream())
    }

    ghost function Fate(d: Decoder<seq<Byte>>): Ending
      requires Sane(d)
    {
      if queue.eof then Ended else End(d, Stream())
    }
  }

  /** What a non-blocking read makes of the bytes buffered and ready; an error met first counts as
      a bad frame. */
  ghost function NextVerdict(d: Decoder<seq<Byte>>, r: Reader): Decoded<seq<Byte>>
  {
    if Breaks(r.events) then Bad else d(r.raw + Ready(r.events))
  }

  /** How a read of at most `size` bytes reports a verdict. */
  predicate Reported(v: Decoded<seq<Byte>>, size: nat, ret: int, data: seq<Byte>)
  {
    match v
    case NeedMore => ret == -2
    case Bad => ret == -1
    case Got(_, payload) => ret == |data| && data == if |payload| > size then payload[..size] else payload
  }

  /** One socket read of at most `size` bytes: its return value, the bytes copied out, and the
      state it leaves. */
  ghost predicate ReadStep(d: Decoder<seq<Byte>>, r: Reader, size: nat, block: bool, ret: int, data: seq<Byte>,
      r': Reader)
    requires Sane(d)
  {
    && r'.Valid() && Fails(r'.events) == Fails(r.events) && r'.Fate(d) == r.Fate(d)
    && data + r'.Undelivered(d) == r.Undelivered(d)
    && |data| == (if ret > 0 then ret else 0) && |data| <= size
    && -2 <= ret
    && (ret == 0 ==> r'.queue.eof && r.Fate(d).Ended?)
    && (ret == -1 ==> Fails(r.events) || (r.Fate(d).Corrupt? && r.Undelivered(d) == []))
    && (ret == -2 ==> DrainedBy(d, r, block, r'))
    && (!block && ret != -1 ==> Suffix(r.events, r'.events))
    && (!block && r.queue == Queue([], false) ==> Reported(NextVerdict(d, r), size, ret, data))
    && (r.queue.eof ==> ret == 0 && r' == r)
  }

  /** A read that found nothing: no leftover, no complete frame buffered, and the descriptor taken
      in up to the next would-block, or to end-of-file if the read could block. */
  ghost predicate DrainedBy(d: Decoder<seq<Byte>>, r: Reader, block: bool, r': Reader)
    requires Sane(d)
  {
    && r'.queue == Queue([], false) && d(r'.raw).NeedMore?
    && (!block ==> r'.raw == r.raw + Ready(r.events) && Exhausted(r.events, r'.events))
    && (block ==> r.Fate(d).Truncated? && r.Undelivered(d) == [])
  }

  /** The bytes seen by a decoding attempt, and what they say about the stream. */
  lemma {:induction false} StreamVerdict(d: Decoder<seq<Byte>>, seen: seq<Byte>, rest: seq<Byte>)
    requires Sane(d) && Stable(d)
    ensures var v := d(seen);
      v.Got? && v.value == [] ==> Plain(d, seen + rest) == [] && End(d, seen + rest) == Ended
    ensures var v := d(seen);
      v.Got? && v.value != [] ==>
        && Plain(d, seen + rest) == v.value + Plain(d, seen[v.n..] + rest)
        && End(d, seen + rest) == End(d, seen[v.n..] + rest)
    ensures d(seen).Bad? ==> Plain(d, seen + rest) == [] && End(d, seen + rest) == Corrupt
    ensures d(seen).NeedMore? && rest == [] ==> Plain(d, seen + rest) == [] && End(d, seen + rest) == Truncated
  {
    var v := d(seen);
    if v.Got? {
      assert (seen + rest)[v.n..] == seen[v.n..] + rest;
    } else if v.NeedMore? && rest == [] {
      assert seen + rest == seen;
    }
  }

  // ---------- a socket read, layer by layer ----------

  predicate Judged(v: Decoded<seq<Byte>>, res: Outcome<seq<Byte>>)
  {
    match v
    case NeedMore => res == Incomplete
    case Bad => res == Error
    case Got(_, payload) => res == Success(payload)
  }

  /** What one read of the frame buffer says about the stream, with the leftover buffer empty. */
  ghost predicate FrameStep(d: Decoder<seq<Byte>>, r: Reader, block: bool, res: Outcome<seq<Byte>>, r': Reader)
    requires Sane(d)
  {
    && r.queue == Queue([], false) == r'.queue && Fails(r'.events) == Fails(r.events)
    && (!block && !res.Error? ==> Exhausted(r.events, r'.events))
    && (!block ==> Judged(NextVerdict(d, r), res))
    && match res {
      case Success(payload) =>
        if payload == [] then r.Undelivered(d) == [] && r.Fate(d) == Ended
        else r.Undelivered(d) == payload + r'.Undelivered(d) && r'.Fate(d) == r.Fate(d)
      case Error =>
        && r'.Stream() == r.Stream()
        && (Fails(r.events) || (r.Undelivered(d) == [] && r.Fate(d) == Corrupt))
      case Incomplete =>
        && r'.Stream() == r.Stream() && DrainedBy(d, r, block, r')
    }
  }

  lemma {:induction false} FrameStepHolds(d: Decoder<seq<Byte>>, r: Reader, block: bool, res: Outcome<seq<Byte>>,
      seen: seq<Byte>, r': Reader)
    requires Sane(d) && Stable(d)
    requires r.queue == Queue([], false) == r'.queue && Fails(r'.events) == Fails(r.events)
    requires seen + Incoming(r'.events) == r.Stream()
    requires res.Success? ==> d(seen).Got? && d(seen).value == res.value && r'.raw == seen[d(seen).n..]
    requires !res.Success? ==> r'.raw == seen
    requires res.Error? ==> d(seen).Bad? || Fails(r.events)
    requires res.Incomplete? ==> d(seen).NeedMore?
    requires res.Incomplete? && block ==> r'.events == []
    requires !block && Breaks(r.events) ==> res.Error?
    requires !block && !Breaks(r.events) ==>
      seen == r.raw + Ready(r.events) && Exhausted(r.events, r'.events) && (res.Error? ==> d(seen).Bad?)
    ensures FrameStep(d, r, block, res, r')
  {
    StreamVerdict(d, seen, Incoming(r'.events));
    NoLeftover(d, r);
    NoLeftover(d, r');
  }

  lemma {:induction false} NoLeftover(d: Decoder<seq<Byte>>, r: Reader)
    requires Sane(d) && r.queue == Queue([], false)
    ensures r.Undelivered(d) == Plain(d, r.Stream())
  {
    assert [] + Plain(d, r.Stream()) == Plain(d, r.Stream());
  }

  /** A read served from the leftover buffer. */
  lemma {:induction false} LeftoverStep(d: Decoder<seq<Byte>>, r: Reader, size: nat, block: bool)
    requires Sane(d) && !r.queue.eof && size > 0 && r.queue.bytes != []
    ensures var n := r.queue.Take(size);
      ReadStep(d, r, size, block, n, r.queue.bytes[..n], r.(queue := r.queue.AfterRead(size)))
  {
    var n := r.queue.Take(size);
    assert r.queue.bytes == r.queue.bytes[..n] + r.queue.bytes[n..];
    ConcatAssociative(r.queue.bytes[..n], r.queue.bytes[n..], Plain(d, r.Stream()));
  }

  /** A read after the end. */
  lemma {:induction false} EofStep(d: Decoder<seq<Byte>>, r: Reader, size: nat, block: bool)
    requires Sane(d) && r.Valid() && r.queue.eof
    ensures ReadStep(d, r, size, block, 0, [], r)
  {
    assert [] + r.Undelivered(d) == r.Undelivered(d);
  }

  /** A read served from a new frame: the part that does not fit is left over, and an empty frame
      closes the leftover buffer. */
  lemma {:induction false} FreshStep(d: Decoder<seq<Byte>>, r: Reader, size: nat, block: bool, payload: seq<Byte>,
      r1: Reader)
    requires Sane(d) && size > 0 && FrameStep(d, r, block, Success(payload), r1)
    ensures payload == [] ==> ReadStep(d, r, size, block, 0, [], r1.(queue := Queue([], true)))
    ensures payload != [] && |payload| <= size ==> ReadStep(d, r, size, block, |payload|, payload, r1)
    ensures |payload| > size ==>
      ReadStep(d, r, size, block, size, payload[..size], r1.(queue := Queue(payload[size..], false)))
  {
    NoLeftover(d, r1);
    if |payload| > size {
      assert payload == payload[..size] + payload[size..];
      ConcatAssociative(payload[..size], payload[size..], Plain(d, r1.Stream()));
    }
  }

  lemma {:induction false} FailedStep(d: Decoder<seq<Byte>>, r: Reader, size: nat, block: bool,
      res: Outcome<seq<Byte>>, r1: Reader)
    requires Sane(d) && FrameStep(d, r, block, res, r1) && !res.Success?
    ensures ReadStep(d, r, size, block, if res.Error? then -1 else -2, [], r1)
  {
    NoLeftover(d, r);
    NoLeftover(d, r1);
    assert [] + r1.Undelivered(d) == r1.Undelivered(d);
  }

  /** Waiting for a handshake header that `d` decodes: `seen` is what had been received when it
      could be judged, and on success the bytes behind the header stay buffered. */
  ghost predicate HeaderStep<T>(d: Decoder<T>, r: Reader, ok: bool, seen: seq<Byte>, r': Reader)
    requires Sane(d)
  {
    && r'.queue == r.queue && Fails(r'.events) == Fails(r.events)
    && seen + Incoming(r'.events) == r.Stream()
    && (ok ==> d(seen).Got? && r'.raw == seen[d(seen).n..])
    && (!ok ==> !d(seen).Got? && (d(seen).Bad? || Incoming(r'.events) == []))
  }

  /** A header at the start of what arrives, in any fragments, is always received, even if an error
      follows. */
  lemma {:induction false} HeaderReceived<T>(d: Decoder<T>, frame: seq<Byte>, value: T, tail: seq<Byte>, r: Reader,
      ok: bool, seen: seq<Byte>, r': Reader)
    requires Sane(d) && Recognizes(d, frame, value) && HeaderStep(d, r, ok, seen, r')
    requires r.Stream() == frame + tail
    ensures ok && d(seen).value == value && r'.Stream() == tail
  {
    RecognizedVerdict(d, frame, value, tail, seen, Incoming(r'.events));
  }

  // ---------- end to end ----------

  /** A read as the caller sees it. */
  datatype Call = Call(size: nat, block: bool, ret: int, data: seq<Byte>)

  /** Successive reads on one socket, with the states between them. */
  ghost predicate IsReading(d: Decoder<seq<Byte>>, states: seq<Reader>, calls: seq<Call>)
    requires Sane(d)
  {
    && |states| == |calls| + 1
    && forall i {:trigger calls[i]} :: 0 <= i < |calls| ==>
      ReadStep(d, states[i], calls[i].size, calls[i].block, calls[i].ret, calls[i].data, states[i + 1])
  }

  lemma {:induction false} ReadingExtends(d: Decoder<seq<Byte>>, states: seq<Reader>, calls: seq<Call>, c: Call,
      r: Reader)
    requires Sane(d) && IsReading(d, states, calls)
    requires ReadStep(d, states[|calls|], c.size, c.block, c.ret, c.data, r)
    ensures IsReading(d, states + [r], calls + [c])
  {
    forall i | 0 <= i < |calls| + 1 {
      ReadAt(d, states, calls, c, r, i);
    }
  }

  lemma {:induction false} ReadAt(d: Decoder<seq<Byte>>, states: seq<Reader>, calls: seq<Call>, c: Call, r: Reader,
      i: nat)
    requires Sane(d) && IsReading(d, states, calls) && i <= |calls|
    requires ReadStep(d, states[|calls|], c.size, c.block, c.ret, c.data, r)
    ensures var call := (calls + [c])[i];
      ReadStep(d, (states + [r])[i], call.size, call.block, call.ret, call.data, (states + [r])[i + 1])
  {
    if i < |calls| {
      assert ReadStep(d, states[i], calls[i].size, calls[i].block, calls[i].ret, calls[i].data, states[i + 1]);
    }
  }

  function Delivered(calls: seq<Call>): seq<Byte>
  {
    if calls == [] then [] else Delivered(calls[..|calls| - 1]) + calls[|calls| - 1].data
  }

  /** Reads neither lose, invent nor reorder bytes: what they delivered and what is undelivered
      always make up the meaning of the stream. */
  lemma {:induction false} ReadingConserves(d: Decoder<seq<Byte>>, states: seq<Reader>, calls: seq<Call>)
    requires Sane(d) && IsReading(d, states, calls)
    ensures Delivered(calls) + states[|calls|].Undelivered(d) == states[0].Undelivered(d)
    ensures states[|calls|].Fate(d) == states[0].Fate(d)
    ensures Fails(states[|calls|].events) == Fails(states[0].events)
    decreases |calls|
  {
    if calls == [] {
      assert [] + states[0].Undelivered(d) == states[0].Undelivered(d);
    } else {
      var k := |calls| - 1;
      ReadingConserves(d, states[..k + 1], calls[..k]);
      ConcatAssociative(Delivered(calls[..k]), calls[k].data, states[k + 1].Undelivered(d));
    }
  }

  /** A closed reader is left as it is. */
  predicate Kept(states: seq<Reader>, i: nat)
    requires i + 1 < |states|
  {
    states[i + 1].Valid() && (states[i].queue.eof ==> states[i + 1] == states[i])
  }

  lemma {:induction false} ReadingKeeps(d: Decoder<seq<Byte>>, states: seq<Reader>, calls: seq<Call>, i: nat)
    requires Sane(d) && IsReading(d, states, calls) && i < |calls|
    ensures Kept(states, i)
    ensures states[i].queue.eof ==> calls[i].ret == 0
  {
    var c := calls[i];
    assert ReadStep(d, states[i], c.size, c.block, c.ret, c.data, states[i + 1]);
  }

  lemma {:induction false} ReadingValid(d: Decoder<seq<Byte>>, states: seq<Reader>, calls: seq<Call>, j: nat)
    requires Sane(d) && IsReading(d, states, calls) && states[0].Valid() && j <= |calls|
    ensures states[j].Valid()
  {
    if j > 0 {
      ReadingKeeps(d, states, calls, j - 1);
      assert Kept(states, j - 1);
    }
  }

  lemma {:induction false} StaysClosed(states: seq<Reader>, j: nat, k: nat)
    requires j <= k < |states| && states[j].queue.eof
    requires forall i: nat {:trigger Kept(states, i)} :: j <= i < k ==> Kept(states, i)
    ensures states[k] == states[j]
    decreases k - j
  {
    if j < k {
      assert Kept(states, j);
      StaysClosed(states, j + 1, k);
    }
  }

  lemma {:induction false} ReadingStaysClosed(d: Decoder<seq<Byte>>, states: seq<Reader>, calls: seq<Call>, j: nat,
      k: nat)
    requires Sane(d) && IsReading(d, states, calls)
    requires j <= k <= |calls| && states[j].queue.eof
    ensures states[k] == states[j]
  {
    forall i: nat {:trigger Kept(states, i)} | j <= i < k {
      ReadingKeeps(d, states, calls, i);
    }
    StaysClosed(states, j, k);
  }

  lemma {:induction false} ReadingPrefix(d: Decoder<seq<Byte>>, states: seq<Reader>, calls: seq<Call>, k: nat)
    requires Sane(d) && IsReading(d, states, calls) && k <= |calls|
    ensures IsReading(d, states[..k + 1], calls[..k])
  {
  }

  lemma {:induction false} ClosedDelivered(d: Decoder<seq<Byte>>, states: seq<Reader>, calls: seq<Call>, j: nat)
    requires Sane(d) && IsReading(d, states, calls) && j <= |calls| && states[j].queue.eof
    ensures Delivered(calls[..j]) == states[0].Undelivered(d)
  {
    ReadingPrefix(d, states, calls, j);
    ReadingConserves(d, states[..j + 1], calls[..j]);
  }

  /** Reporting the end loses nothing, although a closed buffer is reported whatever it holds: once
      the leftover buffer is closed it is empty, everything has been delivered, and every later read
      returns 0 and changes nothing. */
  lemma {:induction false} ClosedForGood(d: Decoder<seq<Byte>>, states: seq<Reader>, calls: seq<Call>, j: nat, k: nat)
    requires Sane(d) && IsReading(d, states, calls) && states[0].Valid()
    requires j <= k < |calls| && states[j].queue.eof
    ensures states[j].queue.bytes == [] && Delivered(calls[..j]) == states[0].Undelivered(d)
    ensures calls[k].ret == 0 && states[k + 1] == states[j]
  {
    ReadingValid(d, states, calls, j);
    ClosedDelivered(d, states, calls, j);
    ReadingStaysClosed(d, states, calls, j, k);
    ReadingKeeps(d, states, calls, k);
    assert Kept(states, k);
  }

  /** A non-blocking read with no leftover, once everything has arrived: it reports would-block
      exactly on a stream cut short in the middle of a frame, which only a blocking read tells from
      one that goes on; it fails exactly on a corrupt frame, and returns 0 exactly at the end. */
  lemma {:induction false} ReadAtEnd(d: Decoder<seq<Byte>>, r: Reader, size: nat, ret: int, data: seq<Byte>, r': Reader)
    requires Sane(d) && r.queue == Queue([], false) && r.events == [] && size > 0
    requires ReadStep(d, r, size, false, ret, data, r')
    ensures Reported(d(r.raw), size, ret, data)
    ensures ret == -2 <==> r.Undelivered(d) == [] && r.Fate(d).Truncated?
    ensures ret == -1 <==> r.Undelivered(d) == [] && r.Fate(d).Corrupt?
    ensures ret == 0 <==> r.Undelivered(d) == [] && r.Fate(d).Ended?
  {
    assert r.raw + Ready(r.events) == r.raw == r.Stream();
    NoLeftover(d, r);
  }

  /** A fresh reader at the start of a session of which the last bytes may be lost. */
  lemma {:induction false} SessionStart(enc: Encoder, d: Decoder<seq<Byte>>, payloads: seq<Payload>, lost: seq<Byte>,
      r: Reader)
    requires Matched(enc, d) && r.queue == Queue([], false)
    requires r.Stream() + lost == SessionWire(enc, payloads)
    ensures r.Undelivered(d) <= Heard(payloads)
    ensures r.Fate(d) != Corrupt
    ensures r.Fate(d) == Ended ==> r.Undelivered(d) == Heard(payloads)
    ensures lost == [] ==> r.Fate(d) == Ended
  {
    var stream := r.Stream();
    SessionPlain(enc, d, payloads, []);
    assert SessionWire(enc, payloads) + [] == SessionWire(enc, payloads);
    PlainExtends(d, stream, lost);
    assert [] + Plain(d, stream) == Plain(d, stream);
    if lost == [] {
      assert stream + lost == stream;
    }
  }

  /** What a reader is owed of `writes` of which the first `done` frames were sent. What was read
      before a read returned 0 is what those frames say, and it is everything that was written
      exactly if only empty writes follow an empty one and no frame before it was lost. */
  ghost predicate Owed(writes: seq<seq<Byte>>, done: nat, read: seq<Byte>)
    requires done <= |AllChunks(writes)|
  {
    && read == Heard(AllChunks(writes)[..done])
    && (read == Concat(writes) <==> QuietAfterEmpty(writes) && done >= HeardCount(AllChunks(writes)))
  }

  lemma {:induction false} OwedHolds(writes: seq<seq<Byte>>, done: nat)
    requires done <= |AllChunks(writes)|
    ensures Heard(AllChunks(writes)[..done]) <= Concat(writes)
    ensures Owed(writes, done, Heard(AllChunks(writes)[..done]))
  {
    HeardAll(writes);
    ChunksHeard(writes);
    HeardCut(AllChunks(writes), done);
  }

  /** The end-to-end theorem. One side makes `writes` and closes. Some writes of frames fail, so that
      only the first `done` frames are sent, and then perhaps the end frame; the wire bytes, or as
      many of them as get through, reach the other side in any fragments, which it reads by any mix
      of blocking and non-blocking calls of any positive size. Then
      - what was read is always the start of what was written;
      - once a read returns 0, everything the frames before the first empty one say has been read,
        and that is everything that was written exactly if only empty writes follow an empty one and
        no frame before it was lost;
      - if all the bytes get through, no read fails and no blocking read gives up. */
  lemma {:induction false} EndToEnd(enc: Encoder, d: Decoder<seq<Byte>>, writes: seq<seq<Byte>>, done: nat,
      lost: seq<Byte>, states: seq<Reader>, calls: seq<Call>, k: nat)
    requires Matched(enc, d) && done <= |AllChunks(writes)|
    requires IsReading(d, states, calls) && k < |calls|
    requires states[0].queue == Queue([], false)
    requires states[0].Stream() + lost == SessionWire(enc, AllChunks(writes)[..done])
    ensures Delivered(calls) <= Concat(writes)
    ensures calls[k].ret == 0 ==> Owed(writes, done, Delivered(calls[..k]))
    ensures lost == [] && !Fails(states[0].events) ==> calls[k].ret >= 0 || (calls[k].ret == -2 && !calls[k].block)
  {
    SessionStart(enc, d, AllChunks(writes)[..done], lost, states[0]);
    OwedHolds(writes, done);
    ReadingConserves(d, states, calls);
    ReadUpTo(d, states, calls, k);
  }

  /** How many of the calls could block. */
  function BlockingCount(calls: seq<Call>): nat
  {
    if calls == [] then 0
    else BlockingCount(calls[..|calls| - 1]) + if calls[|calls| - 1].block then 1 else 0
  }

  lemma {:induction false} BlockingDelivers(calls: seq<Call>)
    requires forall i :: 0 <= i < |calls| ==> |calls[i].data| >= if calls[i].block then 1 else 0
    ensures |Delivered(calls)| >= BlockingCount(calls)
    decreases |calls|
  {
    if calls != [] {
      BlockingDelivers(calls[..|calls| - 1]);
    }
  }

  lemma {:induction false} DataSize(d: Decoder<seq<Byte>>, states: seq<Reader>, calls: seq<Call>, k: nat)
    requires Sane(d) && IsReading(d, states, calls) && k < |calls| && calls[k].ret > 0
    ensures |calls[k].data| == calls[k].ret
  {
    var c := calls[k];
    assert ReadStep(d, states[k], c.size, c.block, c.ret, c.data, states[k + 1]);
  }

  /** Some read returned 0. */
  predicate EndSeen(calls: seq<Call>)
  {
    exists k :: 0 <= k < |calls| && calls[k].ret == 0
  }

  /** Progress: if the end frame is sent and everything gets through, more blocking reads than there
      are bytes to be heard include one that reports the end. */
  lemma {:induction false} EndReached(enc: Encoder, d: Decoder<seq<Byte>>, writes: seq<seq<Byte>>, done: nat,
      states: seq<Reader>, calls: seq<Call>)
    requires Matched(enc, d) && done <= |AllChunks(writes)|
    requires IsReading(d, states, calls) && states[0].queue == Queue([], false)
    requires states[0].Stream() == SessionWire(enc, AllChunks(writes)[..done]) && !Fails(states[0].events)
    requires BlockingCount(calls) > |Heard(AllChunks(writes)[..done])|
    ensures EndSeen(calls)
  {
    assert states[0].Stream() + [] == states[0].Stream();
    if !EndSeen(calls) {
      forall k | 0 <= k < |calls| ensures |calls[k].data| >= if calls[k].block then 1 else 0 {
        EndToEnd(enc, d, writes, done, [], states, calls, k);
        if calls[k].block {
          DataSize(d, states, calls, k);
        }
      }
      BlockingDelivers(calls);
      SessionStart(enc, d, AllChunks(writes)[..done], [], states[0]);
      ReadingConserves(d, states, calls);
    }
  }

  /** What is known just before the call at `k`. */
  lemma {:induction false} ReadUpTo(d: Decoder<seq<Byte>>, states: seq<Reader>, calls: seq<Call>, k: nat)
    requires Sane(d) && IsReading(d, states, calls) && k < |calls|
    ensures calls[k].ret == 0 ==> Delivered(calls[..k]) == states[0].Undelivered(d)
    ensures states[k].Fate(d) == states[0].Fate(d)
    ensures calls[k].ret == 0 ==> states[0].Fate(d) == Ended
    ensures calls[k].ret == -1 ==> Fails(states[0].events) || states[0].Fate(d) == Corrupt
    ensures calls[k].ret == -2 && calls[k].block ==> states[0].Fate(d) == Truncated
  {
    ReadingConserves(d, states[..k + 1], calls[..k]);
    var c := calls[k];
    assert ReadStep(d, states[k], c.size, c.block, c.ret, c.data, states[k + 1]);
    if c.ret == 0 {
      assert c.data == [] && states[k].Undelivered(d) == [];
    }
  }
}
