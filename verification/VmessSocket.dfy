/** The VMess socket of proto/vmess/tcp.c: reads, writes, close and handshake over a descriptor. */
module VmessSocket {
  import opened ByteStrings
  import opened Cfb
  import opened Descriptors
  import opened Options
  import opened RBuffers
  import opened Targets
  import opened VBuffers
  import opened VmessFrames
  import opened VmessHeader
  import opened VmessStream
  import opened VmessWriter

  const TCP_DEFAULT_BUF := 4096

  class Socket {
    const cr: Crypto
    const userId: Block
    const fd: Fd
    const readBuf: VBuffer
    const rawBuf: RBuffer
    var auth: Auth
    var vser: VmessSerial?
    var target: Option<Target>

    ghost predicate Valid()
      reads this, readBuf, rawBuf, vser
    {
      && readBuf.Valid() && rawBuf.Valid() && readBuf.buf != rawBuf.buf
      && (readBuf.eof ==> readBuf.wIdx == 0)
      && (vser != null ==>
        vser.Valid() && vser.header.None? && vser.cr == cr && vser.buf != readBuf.buf && vser.buf != rawBuf.buf)
    }

    /** The part of the state that reads work on. */
    ghost function Reading(): (r: Reader)
      requires Valid()
      reads this, readBuf, rawBuf, vser, readBuf.buf, rawBuf.buf, fd
      ensures r.Valid()
    {
      Reader(readBuf.Value(), rawBuf.Contents(), fd.events)
    }

    /** The frame decoder of this connection. */
    function Decoding(): Decoder<seq<Byte>>
      reads this
    {
      DataDecoder(cr, auth)
    }

    /** _vmess_tcp_socket_new_fd, with the state vmess_tcp_socket_auth gives a client */
    constructor (cr: Crypto, userId: Block, fd: Fd, genTime: U64)
      ensures Valid() && vser == null && target == None
      ensures this.cr == cr && this.userId == userId && this.fd == fd
      ensures auth == AuthInit(cr, userId, genTime)
      ensures Reading() == Reader(Queue([], false), [], fd.events)
      ensures fresh(readBuf) && fresh(rawBuf) && fresh(readBuf.buf) && fresh(rawBuf.buf)
    {
      this.cr, this.userId, this.fd := cr, userId, fd;
      auth := AuthInit(cr, userId, genTime);
      vser, target := null, None;
      var queue := new VBuffer(TCP_DEFAULT_BUF);
      var raw := new RBuffer(TCP_DEFAULT_BUF);
      readBuf, rawBuf := queue, raw;
    }

    /** The rbuffer read inside a socket read, blocking or not. */
    method ReadFrame(d: Decoder<seq<Byte>>, block: bool) returns (res: Outcome<seq<Byte>>)
      requires Valid() && readBuf.Value() == Queue([], false) && Sane(d) && Stable(d)
      modifies rawBuf, rawBuf.buf, fd`events
      ensures Valid() && (rawBuf.buf == old(rawBuf.buf) || fresh(rawBuf.buf))
      ensures FrameStep(d, old(Reading()), block, res, Reading())
    {
      ghost var r, seen := Reading(), [];
      if block {
        res, seen := rawBuf.Read(fd, d);
      } else {
        res, seen := rawBuf.TryRead(fd, d);
      }
      FrameStepHolds(d, r, block, res, seen, Reading());
    }

    /** A new frame: hand out what fits and keep the rest, or note the end of the stream. */
    method Serve(trunk: seq<Byte>, size: nat) returns (ret: int, data: seq<Byte>)
      requires Valid() && readBuf.Value() == Queue([], false)
      modifies readBuf, readBuf.buf
      ensures Valid() && (readBuf.buf == old(readBuf.buf) || fresh(readBuf.buf))
      ensures data == (if |trunk| > size then trunk[..size] else trunk) && ret == |data|
      ensures Reading() == old(Reading()).(queue := Queue(if |trunk| > size then trunk[size..] else [], trunk == []))
    {
      if trunk == [] {
        readBuf.Close();
        return 0, [];
      } else if |trunk| > size {
        readBuf.Write(trunk[size..]);
        assert [] + trunk[size..] == trunk[size..];
        return size, trunk[..size];
      } else {
        return |trunk|, trunk;
      }
    }

    /** _vmess_tcp_socket_read_c, for the decoder of this connection */
    method ReadWith(d: Decoder<seq<Byte>>, size: nat, block: bool) returns (ret: int, data: seq<Byte>)
      requires Valid() && size > 0 && Sane(d) && Stable(d)
      modifies readBuf, readBuf.buf, rawBuf, rawBuf.buf, fd`events
      ensures Valid()
      ensures rawBuf.buf == old(rawBuf.buf) || fresh(rawBuf.buf)
      ensures readBuf.buf == old(readBuf.buf) || fresh(readBuf.buf)
      ensures ReadStep(d, old(Reading()), size, block, ret, data, Reading())
    {
      ghost var r := Reading();
      ret, data := readBuf.TryRead(size);
      if ret == -1 {
        EofStep(d, r, size, block);
        return 0, [];
      }
      if ret > 0 {
        LeftoverStep(d, r, size, block);
        return;
      }
      assert Reading() == r;
      var res := ReadFrame(d, block);
      ghost var r1 := Reading();
      match res
      case Success(trunk) =>
        FreshStep(d, r, size, block, trunk, r1);
        ret, data := Serve(trunk, size);
        return;
      case Error =>
        FailedStep(d, r, size, block, res, r1);
        return -1, [];
      case Incomplete =>
        FailedStep(d, r, size, block, res, r1);
        return -2, [];
    }

    /** _vmess_tcp_socket_read and _vmess_tcp_socket_try_read */
    method Read(size: nat, block: bool) returns (ret: int, data: seq<Byte>)
      requires Valid() && size > 0
      modifies readBuf, readBuf.buf, rawBuf, rawBuf.buf, fd`events
      ensures Valid()
      ensures rawBuf.buf == old(rawBuf.buf) || fresh(rawBuf.buf)
      ensures readBuf.buf == old(readBuf.buf) || fresh(readBuf.buf)
      ensures Sane(Decoding()) && ReadStep(Decoding(), old(Reading()), size, block, ret, data, Reading())
    {
      DataDecoderStable(cr, auth);
      ret, data := ReadWith(Decoding(), size, block);
    }

    /** _vmess_tcp_socket_write: frames what an earlier failed write left and the new data, and
        sends the frames until a write fails. The return value is -1 if one fails, else the size of
        the last frame. */
    method Write(data: seq<Byte>) returns (n: int)
      requires Valid() && vser != null
      modifies vser, fd`sent, fd`outcomes
      ensures Valid() && (n != -1 ==> vser.buf == null)
      ensures Wrote(FrameEncoder(cr, vser.auth), old(vser.With(data)), |data|, n, old(fd.sent), old(fd.outcomes),
        fd.sent, fd.outcomes, vser.Pieces())
    {
      ghost var chunks, enc, sent, outcomes := vser.With(data), FrameEncoder(cr, vser.auth), fd.sent, fd.outcomes;
      vser.Write(data);
      assert vser.Pieces() == Framed(enc, chunks);
      FlushFrames(enc, chunks, |data|, sent, outcomes);
      var ok, lastSize := Flush(vser, fd, |data|);
      n := if ok then lastSize else -1;
    }

    /** _vmess_tcp_socket_close */
    method Close()
      modifies fd`sent, fd`outcomes, fd`shut
      ensures fd.shut && fd.sent == old(fd.sent) + if NextOk(old(fd.outcomes)) then END_FRAME else []
    {
      var _ := fd.Write(END_FRAME);
      fd.ShutdownWrite();
    }

    /** Sends a handshake header, not minding failed writes. */
    method SendHeader(header: seq<Byte>) returns (ser: VmessSerial)
      requires Valid() && header != []
      modifies fd`sent, fd`outcomes
      ensures fresh(ser) && ser.Valid() && ser.cr == cr && ser.auth == auth && ser.buf == null && ser.header.None?
      ensures Valid() && Reading() == old(Reading())
      ensures fd.sent == old(fd.sent) + (if NextOk(old(fd.outcomes)) then header else [])
      ensures fd.outcomes == After(old(fd.outcomes), 1)
    {
      ser := new VmessSerial(cr, auth);
      ser.header := Some(header);
      assert ser.Pieces() == [header] && header + [] == header;
      FlushBlindly(ser, fd);
    }

    /** Waits for the header `d` decodes; `seen` is what was received before it could be judged. */
    method AwaitHeader<T>(d: Decoder<T>) returns (res: Outcome<T>, ghost seen: seq<Byte>)
      requires Valid() && Sane(d)
      modifies rawBuf, rawBuf.buf, fd`events
      ensures Valid() && (rawBuf.buf == old(rawBuf.buf) || fresh(rawBuf.buf))
      ensures HeaderStep(d, old(Reading()), res.Success?, seen, Reading())
      ensures res.Success? ==> d(seen).value == res.value
    {
      res, seen := rawBuf.Read(fd, d);
    }

    /** The connection is set up: the serialiser is ready and shares the socket's keys. */
    ghost predicate Connected()
      requires Valid()
      reads this, readBuf, rawBuf, vser
      reads if vser == null then {} else {vser.buf}
    {
      vser != null && vser.auth == auth && vser.buf == null && vser.header.None?
    }

    /** Sends `header`, then waits for the answer. */
    method Greet<T>(d: Decoder<T>, header: seq<Byte>) returns (ok: bool, ghost seen: seq<Byte>)
      requires Valid() && Sane(d) && header != []
      modifies this`vser, rawBuf, rawBuf.buf, fd`events, fd`sent, fd`outcomes
      ensures Valid() && (rawBuf.buf == old(rawBuf.buf) || fresh(rawBuf.buf))
      ensures fd.sent == old(fd.sent) + (if NextOk(old(fd.outcomes)) then header else [])
      ensures fd.outcomes == After(old(fd.outcomes), 1)
      ensures HeaderStep(d, old(Reading()), ok, seen, Reading()) && (ok ==> Connected() && fresh(vser))
    {
      var ser := SendHeader(header);
      assert Reading() == old(Reading());
      var res;
      res, seen := AwaitHeader(d);
      ok := res.Success?;
      if ok {
        vser := ser;
      }
    }

    /** The client half of _vmess_tcp_socket_handshake_c, for a response decoder. */
    method ClientHandshake(d: Decoder<Byte>, want: Target, pad: Padding) returns (ok: bool, ghost seen: seq<Byte>)
      requires Valid() && Sane(d)
      modifies this`vser, rawBuf, rawBuf.buf, fd`events, fd`sent, fd`outcomes
      ensures Valid() && (rawBuf.buf == old(rawBuf.buf) || fresh(rawBuf.buf))
      ensures var header := EncodeRequest(cr, userId, auth, Request(want, 1, 0, 1, 1), pad);
        fd.sent == old(fd.sent) + if NextOk(old(fd.outcomes)) then header else []
      ensures fd.outcomes == After(old(fd.outcomes), 1)
      ensures HeaderStep(d, old(Reading()), ok, seen, Reading()) && (ok ==> Connected() && fresh(vser))
    {
      var header := VmessSerialRequest(cr, userId, auth, Request(want, 1, 0, 1, 1), pad);
      ok, seen := Greet(d, header);
    }

    /** Takes over the state the client sent, and answers. */
    method Answer(theirs: Auth, want: Target, header: seq<Byte>)
      requires Valid() && header != []
      modifies this, fd`sent, fd`outcomes
      ensures Valid() && Reading() == old(Reading())
      ensures auth == theirs && target == Some(want) && Connected() && fresh(vser)
      ensures fd.sent == old(fd.sent) + (if NextOk(old(fd.outcomes)) then header else [])
      ensures fd.outcomes == After(old(fd.outcomes), 1)
    {
      auth := theirs;
      var ser := SendHeader(header);
      vser, target := ser, Some(want);
    }

    /** The server half of _vmess_tcp_socket_handshake_c, for a request decoder. */
    method ServerHandshake(d: Decoder<(Auth, Request)>) returns (ok: bool, ghost seen: seq<Byte>)
      requires Valid() && Sane(d)
      modifies this, rawBuf, rawBuf.buf, fd`events, fd`sent, fd`outcomes
      ensures Valid() && (rawBuf.buf == old(rawBuf.buf) || fresh(rawBuf.buf))
      ensures HeaderStep(d, old(Reading()), ok, seen, Reading()) && (ok ==> Connected() && fresh(vser))
      ensures ok ==> auth == d(seen).value.0 && target == Some(d(seen).value.1.target)
      ensures ok ==>
        fd.sent == old(fd.sent) + if NextOk(old(fd.outcomes)) then EncodeResponse(cr, auth, 1) else []
      ensures ok ==> fd.outcomes == After(old(fd.outcomes), 1)
      ensures !ok ==> fd.sent == old(fd.sent) && fd.outcomes == old(fd.outcomes)
    {
      var res;
      res, seen := AwaitHeader(d);
      if res.Error? || res.Incomplete? {
        return false, seen;
      }
      var header := VmessSerialResponse(cr, res.value.0, 1);
      Answer(res.value.0, res.value.1.target, header);
      ok := true;
    }
  }
}
