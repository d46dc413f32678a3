/** vmess_serial_t of proto/vmess/vmess.c: application bytes go in, wire chunks come out. */
module VmessWriter {
  import opened ByteStrings
  import opened Cfb
  import opened Checksum
  import opened Descriptors
  import opened Options
  import opened VmessFrames

  /** The chunks of some data are its first one and then those of the rest. */
  lemma {:induction false} FirstChunk(data: seq<Byte>, k: nat)
    requires k == if MAX_PAYLOAD > |data| then |data| else MAX_PAYLOAD
    ensures Chunks(data)[0] == data[..k]
    ensures Chunks(data)[1..] == if k == |data| then [] else Chunks(data[k..])
  {
    assert k == |data| ==> data[..k] == data;
  }

  /** The same for a part of a buffer: `data` is the first chunk of `pending`, `rest` are the others. */
  lemma {:induction false} NextChunk(buf: seq<Byte>, ofs: nat, len: nat, k: nat, pending: seq<Payload>, data: Payload)
    returns (rest: seq<Payload>)
    requires ofs <= len <= |buf| && k == if MAX_PAYLOAD > len - ofs then len - ofs else MAX_PAYLOAD
    requires pending == Chunks(buf[ofs..len]) && data == buf[ofs..ofs + k]
    ensures pending != [] && pending[0] == data && pending[1..] == rest
    ensures rest == if ofs + k == len then [] else Chunks(buf[ofs + k..len])
  {
    FirstChunk(buf[ofs..len], k);
    SliceOfSlice(buf, ofs, len, k);
    rest := pending[1..];
  }

  class VmessSerial {
    const cr: Crypto
    const auth: Auth
    var header: Option<seq<Byte>>
    var buf: array?<Byte>
    var bufLen: nat
    var bufOfs: nat

    ghost predicate Valid()
      reads this
    {
      && (header.Some? ==> header.value != [])
      && if buf == null then bufLen == bufOfs == 0
      else bufLen == buf.Length && (bufOfs < bufLen || bufLen == 0 == bufOfs)
    }

    /** The payloads still to be framed; a null buffer makes no frame, an empty one makes one. */
    ghost function Pending(): seq<Payload>
      requires Valid()
      reads this, buf
    {
      if buf == null then [] else Chunks(buf[bufOfs..bufLen])
    }

    /** What the digest loop will still emit, piece by piece: the header, then the frames. */
    ghost function Pieces(): seq<seq<Byte>>
      requires Valid()
      reads this, buf
    {
      (if header.Some? then [header.value] else []) + Framed(FrameEncoder(cr, auth), Pending())
    }

    /** The payloads to be framed once `data` has been written: those of what is left and `data`
        together. Reallocating a buffer to size zero frees it. */
    ghost function With(data: seq<Byte>): seq<Payload>
      requires Valid()
      reads this, buf
    {
      if buf == null then Chunks(data)
      else if bufLen + |data| > 0 then Chunks(buf[bufOfs..bufLen] + data)
      else []
    }

    /** vmess_serial_new */
    constructor (cr: Crypto, auth: Auth)
      ensures Valid() && header.None? && buf == null
      ensures this.cr == cr && this.auth == auth
    {
      this.cr, this.auth := cr, auth;
      header, buf, bufLen, bufOfs := None, null, 0, 0;
    }

    /** vmess_serial_write */
    method Write(data: seq<Byte>)
      requires Valid()
      modifies this`buf, this`bufLen
      ensures Valid() && (buf == null || fresh(buf))
      ensures Pending() == old(With(data))
    {
      if buf == null {
        buf := new Byte[|data|](i requires 0 <= i < |data| => data[i]);
        assert buf[..] == data;
      } else if bufLen + |data| > 0 {
        var joined := buf[..] + data;
        buf := new Byte[|joined|](i requires 0 <= i < |joined| => joined[i]);
        assert buf[..] == joined;
        assert joined[bufOfs..] == old(buf[bufOfs..bufLen]) + data;
      } else {
        buf := null;
      }
      bufLen := bufLen + |data|;
      assert buf != null ==> buf[bufOfs..bufLen] == old(if buf == null then [] else buf[bufOfs..bufLen]) + data;
    }

    /** The frame vmess_serial_digest builds around one chunk of data. */
    method Seal(data: Payload) returns (trunk: seq<Byte>)
      ensures trunk == EncodeFrame(cr, auth, data)
    {
      var checksum := CryptoFnv1a(data);
      trunk := Be16(|data| + 4) + Encrypt(cr, auth.key, auth.iv, Be32(checksum) + data);
    }

    /** The data part of vmess_serial_digest: the next frame, and the buffer freed after the last. */
    method DigestData() returns (trunk: seq<Byte>)
      requires Valid() && buf != null
      modifies this`buf, this`bufLen, this`bufOfs
      ensures Valid() && (buf == null || buf == old(buf))
      ensures old(Pending()) != [] && Pending() == old(Pending())[1..]
      ensures trunk == EncodeFrame(cr, auth, old(Pending())[0])
    {
      ghost var all, pending := buf[..], Pending();
      var remainSize := bufLen - bufOfs;
      var trunkSize := if MAX_PAYLOAD > remainSize then remainSize else MAX_PAYLOAD;
      var data := buf[bufOfs..bufOfs + trunkSize];
      ghost var rest := NextChunk(all, bufOfs, bufLen, trunkSize, pending, data);
      trunk := Seal(data);
      bufOfs := bufOfs + trunkSize;
      if bufOfs == bufLen {
        buf, bufLen, bufOfs := null, 0, 0;
      }
      assert Pending() == rest;
    }

    /** vmess_serial_digest: the header if there is one, else the next frame, else nothing. */
    method Digest() returns (trunk: Option<seq<Byte>>)
      requires Valid()
      modifies this`header, this`buf, this`bufLen, this`bufOfs
      ensures Valid() && header.None? && (buf == null || buf == old(buf))
      ensures trunk.None? ==> old(Pieces()) == [] && buf == null
      ensures trunk.Some? ==> trunk.value != [] && old(Pieces()) == [trunk.value] + Pieces()
    {
      ghost var pending := Pending();
      if header.Some? {
        trunk, header := header, None;
        assert Pending() == pending;
      } else if buf == null {
        trunk := None;
      } else {
        var frame := DigestData();
        trunk := Some(frame);
      }
    }
  }

  /** One turn of a digest loop: the size of the piece written, -1 if that failed, 0 if there is
      none left. A piece that could not be written is gone. */
  method Pump(ser: VmessSerial, fd: Fd) returns (n: int)
    requires ser.Valid()
    modifies ser`header, ser`buf, ser`bufLen, ser`bufOfs, fd`sent, fd`outcomes
    ensures ser.Valid() && ser.header.None? && (ser.buf == null || ser.buf == old(ser.buf))
    ensures n == 0 <==> old(ser.Pieces()) == []
    ensures n == 0 ==>
      ser.buf == null && ser.Pieces() == [] && fd.sent == old(fd.sent) && fd.outcomes == old(fd.outcomes)
    ensures n != 0 ==> ser.Pieces() == old(ser.Pieces())[1..] && fd.outcomes == After(old(fd.outcomes), 1)
    ensures n > 0 ==> NextOk(old(fd.outcomes))
    ensures n > 0 ==> n == |old(ser.Pieces())[0]| && fd.sent == old(fd.sent) + old(ser.Pieces())[0]
    ensures n < 0 ==> n == -1 && !NextOk(old(fd.outcomes)) && fd.sent == old(fd.sent)
  {
    var trunk := ser.Digest();
    if trunk.None? {
      return 0;
    }
    n := fd.Write(trunk.value);
    assert fd.sent + [] == fd.sent;
  }

  /** The state the flush loop leaves: whether every piece was written, the bytes sent, the outcomes
      of later writes, the pieces not emitted, and the size of the last piece written. */
  datatype Flushed = Flushed(ok: bool, sent: seq<Byte>, outcomes: seq<bool>, rest: seq<seq<Byte>>, lastSize: nat)

  /** The flush loop over `pieces`. */
  function FlushAll(pieces: seq<seq<Byte>>, sent: seq<Byte>, outcomes: seq<bool>, lastSize: nat): Flushed
  {
    if pieces == [] then Flushed(true, sent, outcomes, [], lastSize)
    else if NextOk(outcomes) then FlushAll(pieces[1..], sent + pieces[0], After(outcomes, 1), |pieces[0]|)
    else Flushed(false, sent, After(outcomes, 1), pieces[1..], lastSize)
  }

  function Min(m: nat, n: nat): nat
  {
    if m < n then m else n
  }

  /** It sends the pieces in order until a write fails. */
  lemma {:induction false} FlushAllSends(pieces: seq<seq<Byte>>, sent: seq<Byte>, outcomes: seq<bool>, lastSize: nat)
    ensures var f := FlushAll(pieces, sent, outcomes, lastSize);
      var done := Min(|pieces|, Leading(outcomes));
      && f.ok == (done == |pieces|) && f.sent == sent + Concat(pieces[..done])
      && f.outcomes == After(outcomes, if f.ok then done else done + 1)
    decreases |pieces|
  {
    if pieces == [] || !NextOk(outcomes) {
      assert sent + [] == sent;
    } else {
      var done, tail, later := Min(|pieces|, Leading(outcomes)), pieces[1..], After(outcomes, 1);
      FlushAllSends(tail, sent + pieces[0], later, |pieces[0]|);
      assert done - 1 == Min(|tail|, Leading(later));
      assert pieces[..done] == [pieces[0]] + tail[..done - 1];
      ConcatAssociative(sent, pieces[0], Concat(tail[..done - 1]));
      AfterNext(outcomes, done);
      AfterNext(outcomes, done + 1);
    }
  }

  /** The piece that fails is lost, and those behind it are kept. */
  lemma {:induction false} FlushAllKeeps(pieces: seq<seq<Byte>>, sent: seq<Byte>, outcomes: seq<bool>, lastSize: nat)
    ensures var f := FlushAll(pieces, sent, outcomes, lastSize);
      var done := Min(|pieces|, Leading(outcomes));
      && f.rest == (if done == |pieces| then [] else pieces[done + 1..])
      && f.lastSize == if done == 0 then lastSize else |pieces[done - 1]|
    decreases |pieces|
  {
    if pieces != [] && NextOk(outcomes) {
      var done, tail, later := Min(|pieces|, Leading(outcomes)), pieces[1..], After(outcomes, 1);
      FlushAllKeeps(tail, sent + pieces[0], later, |pieces[0]|);
      assert done - 1 == Min(|tail|, Leading(later));
      if done < |pieces| {
        assert tail[done..] == pieces[done + 1..];
      }
    }
  }

  /** What a socket write of `size` bytes leaves when `chunks` have to be framed: the frames are sent
      in order until a write fails. If all are, `n` is the size of the last one; else it is -1, and
      the frames behind the lost one are the `rest` that the serializer keeps. */
  ghost predicate Wrote(enc: Encoder, chunks: seq<Payload>, size: nat, n: int, sent: seq<Byte>, outcomes: seq<bool>,
      sent': seq<Byte>, outcomes': seq<bool>, rest: seq<seq<Byte>>)
  {
    var done := Min(|chunks|, Leading(outcomes));
    && (n == -1 <==> done < |chunks|)
    && sent' == sent + Frames(enc, chunks[..done]) && outcomes' == After(outcomes, if n == -1 then done + 1 else done)
    && rest == (if n == -1 then Framed(enc, chunks[done + 1..]) else [])
    && (n != -1 ==> n == if done == 0 then size else |enc(chunks[done - 1])|)
  }

  /** The flush loop over frames. */
  lemma {:induction false} FlushFrames(enc: Encoder, chunks: seq<Payload>, size: nat, sent: seq<Byte>,
      outcomes: seq<bool>)
    ensures var f := FlushAll(Framed(enc, chunks), sent, outcomes, size);
      Wrote(enc, chunks, size, if f.ok then f.lastSize else -1, sent, outcomes, f.sent, f.outcomes, f.rest)
  {
    var pieces, done := Framed(enc, chunks), Min(|chunks|, Leading(outcomes));
    FlushAllSends(pieces, sent, outcomes, size);
    FlushAllKeeps(pieces, sent, outcomes, size);
    FramesConcat(enc, chunks[..done]);
    assert pieces[..done] == Framed(enc, chunks[..done]);
    if done < |chunks| {
      assert pieces[done + 1..] == Framed(enc, chunks[done + 1..]);
    }
  }

  /** The flush loop of _vmess_tcp_socket_write: every piece goes to the descriptor, until a write
      fails. `lastSize` is `size` until a piece has been written. */
  method Flush(ser: VmessSerial, fd: Fd, size: nat) returns (ok: bool, lastSize: nat)
    requires ser.Valid()
    modifies ser`header, ser`buf, ser`bufLen, ser`bufOfs, fd`sent, fd`outcomes
    ensures ser.Valid() && ser.header.None? && (ser.buf == null || ser.buf == old(ser.buf))
    ensures Flushed(ok, fd.sent, fd.outcomes, ser.Pieces(), lastSize) ==
      FlushAll(old(ser.Pieces()), old(fd.sent), old(fd.outcomes), size)
    ensures ok ==> ser.buf == null
  {
    lastSize := size;
    ghost var rest := ser.Pieces();
    ghost var goal := FlushAll(rest, fd.sent, fd.outcomes, size);
    while true
      invariant ser.Valid() && (ser.buf == null || ser.buf == old(ser.buf)) && rest == ser.Pieces()
      invariant FlushAll(rest, fd.sent, fd.outcomes, lastSize) == goal
      decreases |rest|
    {
      var n := Pump(ser, fd);
      if n <= 0 {
        return n == 0, lastSize;
      }
      rest, lastSize := rest[1..], n;
    }
  }

  /** The loop of the handshake, which does not look whether a write fails. */
  method FlushBlindly(ser: VmessSerial, fd: Fd)
    requires ser.Valid()
    modifies ser`header, ser`buf, ser`bufLen, ser`bufOfs, fd`sent, fd`outcomes
    ensures ser.Valid() && ser.header.None? && ser.buf == null
    ensures fd.sent == old(fd.sent) + Written(old(ser.Pieces()), old(fd.outcomes))
    ensures fd.outcomes == After(old(fd.outcomes), |old(ser.Pieces())|)
  {
    ghost var rest, sent := ser.Pieces(), fd.sent;
    ghost var goal, end := sent + Written(rest, fd.outcomes), After(fd.outcomes, |rest|);
    while true
      invariant ser.Valid() && rest == ser.Pieces() && sent == fd.sent
      invariant sent + Written(rest, fd.outcomes) == goal && After(fd.outcomes, |rest|) == end
      decreases |rest|
    {
      ghost var piece := if rest != [] && NextOk(fd.outcomes) then rest[0] else [];
      ghost var later := if rest != [] then Written(rest[1..], After(fd.outcomes, 1)) else [];
      ConcatAssociative(sent, piece, later);
      assert sent + [] == sent;
      if rest != [] {
        AfterNext(fd.outcomes, |rest|);
      }
      var n := Pump(ser, fd);
      if n == 0 {
        return;
      }
      rest, sent := rest[1..], fd.sent;
    }
  }
}
