/** Incremental decoding out of a growing read buffer: the decoder interface of proto/common.h
    and the rbuffer half of proto/buf.c. */
module RBuffers {
  import opened ByteStrings
  import opened Descriptors

  /** What a decoder makes of the bytes received so far: its result is 0, -1 or the positive
      size of the frame at their start. */
  datatype Decoded<+T> = NeedMore | Bad | Got(n: nat, value: T)

  type Decoder<T> = seq<Byte> -> Decoded<T>

  function Status<T>(d: Decoded<T>): int
  {
    match d
    case NeedMore => 0
    case Bad => -1
    case Got(n, _) => n
  }

  /** A frame is a non-empty prefix of the bytes it was found in. */
  ghost predicate Sane<T>(d: Decoder<T>)
  {
    d([]).NeedMore? && forall data :: d(data).Got? ==> 0 < d(data).n <= |data|
  }

  /** A verdict, once reached, is not changed by the bytes that follow. */
  ghost predicate Stable<T>(d: Decoder<T>)
  {
    forall data, more :: !d(data).NeedMore? ==> d(data + more) == d(data)
  }

  /** `frame` is decoded to `value` whatever follows it, and never before it is complete. */
  ghost predicate Recognizes<T>(d: Decoder<T>, frame: seq<Byte>, value: T)
  {
    && (forall k :: 0 <= k < |frame| ==> d(frame[..k]).NeedMore?)
    && (forall rest :: d(frame + rest) == Got(|frame|, value))
  }

  /** A stable decoder asks for more on every proper prefix of a frame it accepts. */
  lemma {:induction false} StableRecognizes<T>(d: Decoder<T>, frame: seq<Byte>, value: T)
    requires Sane(d) && Stable(d) && d(frame) == Got(|frame|, value)
    ensures Recognizes(d, frame, value)
  {
    forall k | 0 <= k < |frame| ensures d(frame[..k]).NeedMore? {
      assert frame[..k] + frame[k..] == frame;
    }
  }

  /** The values of the frames at the start of `data`, up to the first that is incomplete or
      rejected. */
  ghost function Values<T>(d: Decoder<T>, data: seq<Byte>): seq<T>
    requires Sane(d)
    decreases |data|
  {
    var v := d(data);
    if v.Got? then [v.value] + Values(d, data[v.n..]) else []
  }

  /** A verdict reached anywhere in a stream that starts with a recognised frame is that frame,
      and by the end of the stream it has been reached. */
  lemma {:induction false} RecognizedVerdict<T>(d: Decoder<T>, frame: seq<Byte>, value: T, tail: seq<Byte>,
      seen: seq<Byte>, rest: seq<Byte>)
    requires Recognizes(d, frame, value)
    requires seen + rest == frame + tail
    ensures !d(seen).NeedMore? ==> d(seen) == Got(|frame|, value) && frame <= seen && seen[|frame|..] + rest == tail
    ensures rest == [] ==> !d(seen).NeedMore?
  {
    if |seen| < |frame| {
      assert seen == (frame + tail)[..|seen|] == frame[..|seen|];
    } else {
      assert frame == (frame + tail)[..|frame|] == seen[..|frame|];
      assert seen == frame + seen[|frame|..];
      assert (seen + rest)[|frame|..] == seen[|frame|..] + rest;
      assert (frame + tail)[|frame|..] == tail;
    }
  }

  /** A frame is accepted as soon as it is there: no byte behind it is looked at. */
  ghost predicate Prompt<T>(d: Decoder<T>)
  {
    forall data :: d(data).Got? && d(data).n <= |data| ==> d(data[..d(data).n]) == d(data)
  }

  /** A stable decoder is prompt if it never asks for more on a whole frame. */
  lemma {:induction false} StablePrompt<T>(d: Decoder<T>)
    requires Sane(d) && Stable(d)
    requires forall data :: d(data).Got? && d(data).n <= |data| ==> !d(data[..d(data).n]).NeedMore?
    ensures Prompt(d)
  {
    forall data | d(data).Got? && d(data).n <= |data| ensures d(data[..d(data).n]) == d(data) {
      assert data == data[..d(data).n] + data[d(data).n..];
    }
  }

  lemma {:induction false} GrownBetween(size: nat, a: nat, b: nat)
    requires size > 0 && a <= b <= GrownTo(size, a)
    ensures GrownTo(size, b) == GrownTo(size, a)
    decreases a - size
  {
    if a > size {
      GrownBetween(2 * size, a, b);
    }
  }

  lemma {:induction false} GrownNext(size: nat, a: nat)
    requires size > 0
    ensures GrownTo(size, GrownTo(size, a) + 1) == 2 * GrownTo(size, a)
    decreases a - size
  {
    if a > size {
      GrownNext(2 * size, a);
    }
  }

  /** What a blocking read has taken in so far: it started with `before` bytes in a buffer of
      `size` bytes, holds `now` of `size'`, and held `held` before the last system call, which read
      up to the end of the first fragment or of the buffer. */
  ghost predicate Gathering(events: seq<Event>, left: seq<Event>, before: nat, now: nat, size: nat, size': nat,
      held: nat)
  {
    && 0 < size && before <= held <= now <= size' && Advanced(events, now - before, left)
    && (now == before ==> size' == size)
    && (now > before ==>
      && held < now && size' == GrownTo(size, held + 1)
      && (now == size' || Cut(events, now - before)) && NoCut(events, held - before, now - before))
  }

  /** Before its last system call a blocking read had nothing, or asked the decoder for more. */
  ghost predicate Asked<T>(d: Decoder<T>, seen: seq<Byte>, held: nat)
  {
    held <= |seen| && (held == |seen| || held == 0 || d(seen[..held]).NeedMore?)
  }

  /** What a blocking read that found a frame took in of the bytes that arrived. */
  ghost predicate Gathered<T>(d: Decoder<T>, events: seq<Event>, left: seq<Event>, before: nat, seen: seq<Byte>,
      size: nat, size': nat)
  {
    exists held: nat :: Gathering(events, left, before, |seen|, size, size', held) && Asked(d, seen, held)
  }

  lemma {:induction false} GatherOn(events: seq<Event>, mid: seq<Event>, left: seq<Event>, before: nat, now: nat,
      size: nat, size': nat, held: nat, k: nat)
    requires Gathering(events, mid, before, now, size, size', held) && k > 0
    requires var size'' := if now == size' then 2 * size' else size';
      now + k <= size'' && Stops(mid, left, k, size'' - now)
    ensures Gathering(events, left, before, now + k, size, if now == size' then 2 * size' else size', now)
  {
    GatheredSize(events, mid, before, now, size, size', held);
    forall m: nat {:trigger Cut(left, m)} | m > 0 ensures Cut(left, m) <==> Cut(events, now - before + k + m) {
      assert Cut(left, m) <==> Cut(mid, k + m);
      assert now - before + (k + m) == now - before + k + m;
    }
    forall m: nat {:trigger Cut(events, m)} | now - before < m < now - before + k ensures !Cut(events, m) {
      assert Cut(mid, m - (now - before)) <==> Cut(events, now - before + (m - (now - before)));
    }
    assert Cut(mid, k) <==> Cut(events, now - before + k);
  }

  lemma {:induction false} GatherStarts<T>(d: Decoder<T>, events: seq<Event>, seen: seq<Byte>, size: nat)
    requires 0 < size && |seen| <= size
    ensures Gathered(d, events, events, |seen|, seen, size, size)
  {
    assert Gathering(events, events, |seen|, |seen|, size, size, |seen|) && Asked(d, seen, |seen|);
  }

  lemma {:induction false} GatherAgain<T>(d: Decoder<T>, events: seq<Event>, mid: seq<Event>, left: seq<Event>,
      before: nat, seen: seq<Byte>, size: nat, size': nat, k: nat, seen': seq<Byte>)
    requires Gathered(d, events, mid, before, seen, size, size') && (seen == [] || d(seen).NeedMore?)
    requires k > 0 && seen <= seen' && |seen'| == |seen| + k
    requires var size'' := if |seen| == size' then 2 * size' else size';
      |seen'| <= size'' && Stops(mid, left, k, size'' - |seen|)
    ensures Gathered(d, events, left, before, seen', size, if |seen| == size' then 2 * size' else size')
  {
    var held: nat :| Gathering(events, mid, before, |seen|, size, size', held) && Asked(d, seen, held);
    GatherOn(events, mid, left, before, |seen|, size, size', held, k);
    assert seen'[..|seen|] == seen && Asked(d, seen', |seen|);
  }

  lemma {:induction false} GatheredSize(events: seq<Event>, mid: seq<Event>, before: nat, now: nat, size: nat,
      size': nat, held: nat)
    requires Gathering(events, mid, before, now, size, size', held)
    ensures GrownTo(size, now + 1) == if now == size' then 2 * size' else size'
  {
    if now > before {
      if now == size' {
        GrownNext(size, held + 1);
      } else {
        GrownBetween(size, held + 1, now + 1);
      }
    } else if now == size' {
      GrownNext(size, now);
    }
  }

  datatype Outcome<+T> = Success(value: T) | Error | Incomplete

  class RBuffer {
    var buf: array<Byte>
    var wIdx: nat
    var size: nat

    ghost predicate Valid()
      reads this
    {
      1 <= size == buf.Length && wIdx <= size
    }

    ghost function Contents(): seq<Byte>
      reads this, buf
      requires Valid()
    {
      buf[..wIdx]
    }

    /** rbuffer_new */
    constructor (init: nat)
      ensures Valid() && fresh(buf) && Contents() == [] && size == if init > 1 then init else 1
    {
      size := if init > 1 then init else 1;
      wIdx := 0;
      buf := new Byte[if init > 1 then init else 1];
    }

    /** _rbuffer_expand */
    method Expand()
      requires Valid()
      modifies this`size, this`buf
      ensures Valid() && fresh(buf) && size == 2 * old(size)
      ensures Contents() == old(Contents())
    {
      size := 2 * size;
      buf := new Byte[size](i reads this, buf => if 0 <= i < buf.Length then buf[i] else 0);
    }

    /** rbuffer_push */
    method Push(data: seq<Byte>)
      requires Valid()
      modifies this, buf
      ensures Valid() && (buf == old(buf) || fresh(buf))
      ensures Contents() == old(Contents()) + data
      ensures old(wIdx) + |data| < old(size) ==> size == old(size)
    {
      while wIdx + |data| >= size
        invariant old(wIdx) + |data| < old(size) ==> size == old(size)
        invariant Valid() && (buf == old(buf) || fresh(buf))
        invariant wIdx == old(wIdx) && Contents() == old(Contents())
        decreases wIdx + |data| - size
      {
        Expand();
      }
      Append(data);
    }

    /** The bytes a read stored at the write index. */
    method Append(data: seq<Byte>)
      requires Valid() && wIdx + |data| <= size
      modifies this`wIdx, buf
      ensures Valid() && Contents() == old(Contents()) + data
    {
      forall i | 0 <= i < |data| {
        buf[wIdx + i] := data[i];
      }
      wIdx := wIdx + |data|;
    }

    /** The memmove after a frame of `n` bytes has been decoded. */
    method Truncate(n: nat)
      requires Valid() && n <= wIdx
      modifies this`wIdx, buf
      ensures Valid() && Contents() == old(Contents())[n..]
    {
      wIdx := wIdx - n;
      forall i | 0 <= i < wIdx {
        buf[i] := buf[n + i];
      }
    }

    /** One pass of the read loops: make room, then read into it, blocking or not. */
    method Fill(fd: Fd, block: bool) returns (nRead: int)
      requires Valid()
      modifies this, buf, fd`events
      ensures Valid() && (buf == old(buf) || fresh(buf))
      ensures Contents() + Incoming(fd.events) == old(Contents()) + Incoming(old(fd.events))
      ensures Fails(fd.events) == Fails(old(fd.events))
      ensures !block && nRead >= -1 ==> Contents() + Ready(fd.events) == old(Contents()) + Ready(old(fd.events))
      ensures nRead <= 0 ==> Contents() == old(Contents())
      ensures nRead > 0 ==> |Contents()| > 0 && Rank(fd.events) < Rank(old(fd.events))
      ensures nRead == 0 ==> fd.events == []
      ensures nRead == -1 ==> Fails(fd.events) && (block ==> Incoming(fd.events) == [])
      ensures nRead <= 0 && !block ==> Ready(old(fd.events)) == []
      ensures !block ==>
        if nRead > 0 then Breaks(fd.events) == Breaks(old(fd.events)) else Breaks(old(fd.events)) <==> nRead == -1
      ensures !block ==> Left(old(fd.events), fd.events)
      ensures !block && (nRead == 0 || nRead == -2) ==> Exhausted(old(fd.events), fd.events)
      ensures nRead >= 0 ==> old(Contents()) <= Contents() && |Contents()| == |old(Contents())| + nRead
      ensures size == if old(wIdx == size) then 2 * old(size) else old(size)
      ensures block && nRead > 0 ==> Stops(old(fd.events), fd.events, nRead, size - old(wIdx))
      ensures block ==> nRead >= -1
      ensures nRead >= -2
    {
      if wIdx >= size {
        Expand();
      }
      ghost var held := Contents();
      var data;
      if block {
        nRead, data := fd.Read(size - wIdx);
      } else {
        nRead, data := fd.TryRead(size - wIdx);
      }
      Append(data);
      ConcatAssociative(held, data, Incoming(fd.events));
      ConcatAssociative(held, data, Ready(fd.events));
    }

    /** Fill for a blocking read that started with `before` bytes in a buffer of `room` bytes. */
    method Gather<T>(fd: Fd, d: Decoder<T>, ghost start: seq<Event>, ghost before: nat, ghost room: nat)
      returns (nRead: int)
      requires Valid() && Gathered(d, start, fd.events, before, Contents(), room, size)
      requires Contents() == [] || d(Contents()).NeedMore?
      modifies this, buf, fd`events
      ensures Valid() && (buf == old(buf) || fresh(buf))
      ensures Contents() + Incoming(fd.events) == old(Contents()) + Incoming(old(fd.events))
      ensures Fails(fd.events) == Fails(old(fd.events))
      ensures nRead >= -1 && (nRead <= 0 ==> Contents() == old(Contents()))
      ensures nRead > 0 ==> Rank(fd.events) < Rank(old(fd.events)) && old(Contents()) <= Contents()
      ensures nRead == 0 ==> fd.events == []
      ensures nRead == -1 ==> Fails(fd.events) && Incoming(fd.events) == []
      ensures nRead > 0 ==> Gathered(d, start, fd.events, before, Contents(), room, size)
    {
      ghost var events, seen, size' := fd.events, Contents(), size;
      nRead := Fill(fd, true);
      if nRead > 0 {
        GatherAgain(d, start, events, fd.events, before, seen, room, size', nRead, Contents());
      }
    }

    /** The end of both reads: what the decoder makes of the buffer, and the frame cut off. */
    method Decode<T>(d: Decoder<T>) returns (v: Decoded<T>)
      requires Valid() && Sane(d)
      modifies this`wIdx, buf
      ensures v == d(old(Contents()))
      ensures Valid() && Contents() == old(Contents())[if v.Got? then v.n else 0..]
    {
      v := d(buf[..wIdx]);
      if v.Got? {
        Truncate(v.n);
      }
    }

    /** rbuffer_read. `seen` is everything the buffer held or took in during the call. The
        descriptor is left alone when a verdict on the buffered bytes can already be given. */
    method Read<T>(fd: Fd, d: Decoder<T>) returns (r: Outcome<T>, ghost seen: seq<Byte>)
      requires Valid() && Sane(d)
      modifies this, buf, fd`events
      ensures Valid() && (buf == old(buf) || fresh(buf))
      ensures seen + Incoming(fd.events) == old(Contents()) + Incoming(old(fd.events))
      ensures Fails(fd.events) == Fails(old(fd.events))
      ensures r.Success? ==> d(seen).Got? && d(seen).value == r.value && Contents() == seen[d(seen).n..]
      ensures r.Incomplete? ==> d(seen).NeedMore? && Contents() == seen && fd.events == []
      ensures r.Error? ==> Contents() == seen && !d(seen).Got?
      ensures r.Error? ==> d(seen).Bad? || (Fails(fd.events) && Incoming(fd.events) == [])
      ensures !d(old(Contents())).NeedMore? ==> seen == old(Contents()) && fd.events == old(fd.events)
      ensures old(Contents()) <= seen
      ensures r.Success? ==> Gathered(d, old(fd.events), fd.events, |old(Contents())|, seen, old(size), size)
    {
      ghost var start, before, room := fd.events, Contents(), size;
      ghost var stream := before + Incoming(start);
      GatherStarts(d, start, before, room);
      seen := before;
      var shouldRead := false;
      while true
        invariant Valid() && (buf == old(buf) || fresh(buf))
        invariant seen == Contents() && seen + Incoming(fd.events) == stream
        invariant Fails(fd.events) == Fails(start)
        invariant shouldRead ==> d(seen).NeedMore?
        invariant !shouldRead || !d(before).NeedMore? ==> seen == before && fd.events == start
        invariant before <= seen && Gathered(d, start, fd.events, |before|, seen, room, size)
        decreases Rank(fd.events), !shouldRead
      {
        if shouldRead || wIdx == 0 {
          var nRead := Gather(fd, d, start, |before|, room);
          seen := Contents();
          if nRead == -1 {
            return Error, seen;
          }
          if nRead == 0 {
            return Incomplete, seen;
          }
        }
        var decoded := Decode(d);
        match decoded
        case NeedMore =>
          shouldRead := true;
        case Bad =>
          return Error, seen;
        case Got(n, value) =>
          return Success(value), seen;
      }
    }

    /** rbuffer_try_read: takes in exactly the bytes that are ready, up to a would-block outcome or
        end-of-file, then decodes once, unless an error comes first. */
    method TryRead<T>(fd: Fd, d: Decoder<T>) returns (r: Outcome<T>, ghost seen: seq<Byte>)
      requires Valid() && Sane(d)
      modifies this, buf, fd`events
      ensures Valid() && (buf == old(buf) || fresh(buf))
      ensures seen + Incoming(fd.events) == old(Contents()) + Incoming(old(fd.events))
      ensures Fails(fd.events) == Fails(old(fd.events))
      ensures r.Success? ==> d(seen).Got? && d(seen).value == r.value && Contents() == seen[d(seen).n..]
      ensures r.Incomplete? ==> d(seen).NeedMore? && Contents() == seen
      ensures r.Error? ==> Contents() == seen && (d(seen).Bad? || Fails(fd.events))
      ensures Breaks(old(fd.events)) ==> r.Error?
      ensures !Breaks(old(fd.events)) ==>
        && seen == old(Contents()) + Ready(old(fd.events)) && Exhausted(old(fd.events), fd.events)
        && (r.Error? ==> d(seen).Bad?)
    {
      ghost var stream := Contents() + Incoming(fd.events);
      ghost var ready := Contents() + Ready(fd.events);
      while true
        invariant Valid() && (buf == old(buf) || fresh(buf))
        invariant Contents() + Incoming(fd.events) == stream
        invariant Contents() + Ready(fd.events) == ready
        invariant Fails(fd.events) == Fails(old(fd.events))
        invariant Left(old(fd.events), fd.events) && Breaks(fd.events) == Breaks(old(fd.events))
        decreases Rank(fd.events)
      {
        ghost var before := fd.events;
        var nRead := Fill(fd, false);
        if nRead == -1 {
          return Error, Contents();
        }
        if nRead <= 0 {
          LeftExhausted(old(fd.events), before, fd.events);
          break;
        }
        LeftLeft(old(fd.events), before, fd.events);
      }
      seen := Contents();
      var decoded := Decode(d);
      match decoded
      case NeedMore =>
        r := Incomplete;
      case Bad =>
        r := Error;
      case Got(n, value) =>
        r := Success(value);
    }
  }

  /** What a verdict on the bytes seen so far says about the whole stream. */
  lemma {:induction false} VerdictOnStream<T>(d: Decoder<T>, seen: seq<Byte>, rest: seq<Byte>)
    requires Sane(d) && Stable(d)
    ensures d(seen).Got? ==>
      Values(d, seen + rest) == [d(seen).value] + Values(d, seen[d(seen).n..] + rest)
    ensures d(seen).Bad? || (d(seen).NeedMore? && rest == []) ==> Values(d, seen + rest) == []
  {
    var v := d(seen);
    if v.Got? {
      assert (seen + rest)[v.n..] == seen[v.n..] + rest;
    } else if v.NeedMore? && rest == [] {
      assert seen + rest == seen;
    }
  }

  /** The values a reader has still to get from what is buffered and what will arrive. */
  ghost function Undecoded<T>(rb: RBuffer, fd: Fd, d: Decoder<T>): seq<T>
    requires rb.Valid() && Sane(d)
    reads rb, rb.buf, fd
  {
    Values(d, rb.Contents() + Incoming(fd.events))
  }

  /** What a blocking read of a frame of `n` bytes takes in, from a buffer holding `before` bytes:
      nothing if the frame is there already, else up to the first end of a fragment or of the grown
      buffer at or behind the end of the frame. `rest` bytes behind the frame stay in the buffer. */
  ghost predicate Took(events: seq<Event>, left: seq<Event>, before: nat, n: nat, rest: nat, size: nat, size': nat)
  {
    if n <= before then
      left == events && before == n + rest && size' == size
    else
      && 0 < size && size' == GrownTo(size, n) && n + rest <= size'
      && Advanced(events, n + rest - before, left)
      && (n + rest == size' || Cut(events, n + rest - before))
      && NoCut(events, n - before - 1, n + rest - before)
  }

  /** Exactly when a read that has to wait for its frame leaves nothing behind it: a fragment ends
      with the frame, or the frame fills the buffer. */
  lemma {:induction false} TookNothingMore(events: seq<Event>, left: seq<Event>, before: nat, n: nat, rest: nat,
      size: nat, size': nat)
    requires Took(events, left, before, n, rest, size, size') && before < n
    ensures rest == 0 <==> Cut(events, n - before) || n == GrownTo(size, n)
  {
  }

  lemma {:induction false} PromptVerdict<T>(d: Decoder<T>, whole: seq<Byte>, part: seq<Byte>)
    requires Sane(d) && Stable(d) && Prompt(d) && d(whole).Got? && part <= whole && d(whole).n <= |part|
    ensures d(part) == d(whole)
  {
    var n := d(whole).n;
    assert part == whole[..n] + part[n..];
  }

  lemma {:induction false} GatheredTook<T>(d: Decoder<T>, events: seq<Event>, left: seq<Event>, before: seq<Byte>,
      seen: seq<Byte>, size: nat, size': nat)
    requires Sane(d) && Stable(d) && Prompt(d) && d(seen).Got? && before <= seen
    requires Gathered(d, events, left, |before|, seen, size, size')
    requires !d(before).NeedMore? ==> seen == before && left == events
    ensures Took(events, left, |before|, d(seen).n, |seen| - d(seen).n, size, size')
  {
    var n := d(seen).n;
    var held: nat :| Gathering(events, left, |before|, |seen|, size, size', held) && Asked(d, seen, held);
    if n <= |before| {
      PromptVerdict(d, seen, before);
    } else {
      if n <= held {
        PromptVerdict(d, seen, seen[..held]);
      }
      GrownBetween(size, held + 1, n);
    }
  }

  /** A blocking read whose decoder is stable: the outcome is what the decoder makes of the whole
      stream, however it was fragmented. */
  method ReadWhole<T>(rb: RBuffer, fd: Fd, d: Decoder<T>) returns (r: Outcome<T>)
    requires rb.Valid() && Sane(d) && Stable(d)
    modifies rb, rb.buf, fd`events
    ensures rb.Valid() && (rb.buf == old(rb.buf) || fresh(rb.buf))
    ensures Fails(fd.events) == Fails(old(fd.events))
    ensures var whole := old(rb.Contents() + Incoming(fd.events));
      && (r.Success? <==> d(whole).Got?)
      && (r.Success? ==> r.value == d(whole).value && rb.Contents() + Incoming(fd.events) == whole[d(whole).n..])
    ensures Prompt(d) && r.Success? ==>
      var v := d(old(rb.Contents() + Incoming(fd.events)));
      && v.Got?
      && Took(old(fd.events), fd.events, |old(rb.Contents())|, v.n, |rb.Contents()|, old(rb.size), rb.size)
  {
    ghost var whole, seen := rb.Contents() + Incoming(fd.events), [];
    ghost var before, start, size := rb.Contents(), fd.events, rb.size;
    r, seen := rb.Read(fd, d);
    WholeVerdict(d, whole, seen, Incoming(fd.events));
    if Prompt(d) && r.Success? {
      GatheredTook(d, start, fd.events, before, seen, size, rb.size);
    }
  }

  lemma {:induction false} WholeVerdict<T>(d: Decoder<T>, whole: seq<Byte>, seen: seq<Byte>, rest: seq<Byte>)
    requires Sane(d) && Stable(d) && whole == seen + rest
    ensures !d(seen).NeedMore? || rest == [] ==> d(whole) == d(seen)
    ensures d(seen).Got? ==> whole[d(seen).n..] == seen[d(seen).n..] + rest
  {
    assert rest == [] ==> whole == seen;
  }

  lemma {:induction false} Shift<T>(a: seq<T>, x: T, b: seq<T>)
    ensures a + ([x] + b) == (a + [x]) + b
  {
  }

  method ReadValue<T>(rb: RBuffer, fd: Fd, d: Decoder<T>, block: bool) returns (r: Outcome<T>)
    requires rb.Valid() && Sane(d) && Stable(d)
    modifies rb, rb.buf, fd`events
    ensures rb.Valid() && (rb.buf == old(rb.buf) || fresh(rb.buf))
    ensures Fails(fd.events) == Fails(old(fd.events))
    ensures r.Success? ==> old(Undecoded(rb, fd, d)) == [r.value] + Undecoded(rb, fd, d)
    ensures !r.Success? ==> old(Undecoded(rb, fd, d)) == Undecoded(rb, fd, d)
    ensures !r.Success? && !Fails(old(fd.events)) ==> !d(rb.Contents()).Got?
    ensures !r.Success? && !Fails(old(fd.events)) && block ==> Undecoded(rb, fd, d) == []
  {
    ghost var seen;
    if block {
      r, seen := rb.Read(fd, d);
    } else {
      r, seen := rb.TryRead(fd, d);
    }
    VerdictOnStream(d, seen, Incoming(fd.events));
  }

  /** However the stream is fragmented and whichever reads are blocking, a stable decoder gets
      the values of the unfragmented stream, in order, and no byte is lost: what is buffered or
      yet to arrive holds exactly the rest. A read that gives no frame leaves no complete frame
      buffered, and a blocking one gives none only when the whole stream holds no more. */
  method ReadValues<T>(rb: RBuffer, fd: Fd, d: Decoder<T>, modes: seq<bool>)
    returns (values: seq<T>, done: bool)
    requires rb.Valid() && Sane(d) && Stable(d)
    modifies rb, rb.buf, fd`events
    ensures rb.Valid()
    ensures values + Undecoded(rb, fd, d) == old(Undecoded(rb, fd, d))
    ensures done ==> |values| == |modes|
    ensures !done ==> |values| < |modes|
    ensures !done && !Fails(old(fd.events)) ==> !d(rb.Contents()).Got?
    ensures !done && !Fails(old(fd.events)) && modes[|values|] ==> values == old(Undecoded(rb, fd, d))
  {
    values := [];
    ghost var total := Undecoded(rb, fd, d);
    while |values| < |modes|
      invariant |values| <= |modes|
      invariant rb.Valid() && (rb.buf == old(rb.buf) || fresh(rb.buf))
      invariant Fails(fd.events) == Fails(old(fd.events))
      invariant values + Undecoded(rb, fd, d) == total
    {
      var r := ReadValue(rb, fd, d, modes[|values|]);
      if !r.Success? {
        return values, false;
      }
      Shift(values, r.value, Undecoded(rb, fd, d));
      values := values + [r.value];
    }
    done := true;
  }
}
