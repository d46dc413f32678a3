/** The shared byte queue of proto/buf.c (vbuffer_t): its operations one at a time. How threads
    interleave them under the lock is the subject of module VBufferMonitor. */
module VBuffers {
  import opened ByteStrings

  /** The abstract value of a vbuffer. */
  datatype Queue = Queue(bytes: seq<Byte>, eof: bool) {

    /** How many bytes a read asking for `size` takes. */
    function Take(size: nat): nat
    {
      if size > |bytes| then |bytes| else size
    }

    function AfterRead(size: nat): Queue
    {
      this.(bytes := bytes[Take(size)..])
    }

    function AfterWrite(data: seq<Byte>): Queue
    {
      if eof then this else this.(bytes := bytes + data)
    }

    /** vbuffer_read has to sleep. */
    predicate Blocks()
    {
      bytes == [] && !eof
    }
  }

  class VBuffer {
    var buf: array<Byte>
    var wIdx: nat
    var size: nat
    var eof: bool

    ghost predicate Valid()
      reads this
    {
      1 <= size == buf.Length && wIdx <= size
    }

    ghost function Value(): Queue
      requires Valid()
      reads this, buf
    {
      Queue(buf[..wIdx], eof)
    }

    /** vbuffer_new */
    constructor (init: nat)
      ensures Valid() && fresh(buf) && Value() == Queue([], false)
    {
      size := if init > 1 then init else 1;
      wIdx, eof := 0, false;
      buf := new Byte[if init > 1 then init else 1];
    }

    /** The copy out and the memmove shared by both reads. */
    method TakeOut(bufSize: nat) returns (data: seq<Byte>)
      requires Valid()
      modifies this`wIdx, buf
      ensures Valid() && Value() == old(Value()).AfterRead(bufSize)
      ensures data == old(Value()).bytes[..old(Value()).Take(bufSize)]
    {
      var nRead := if bufSize > wIdx then wIdx else bufSize;
      data := buf[..nRead];
      wIdx := wIdx - nRead;
      forall i | 0 <= i < wIdx {
        buf[i] := buf[nRead + i];
      }
    }

    /** vbuffer_try_read: -1 once closed, even if bytes are left */
    method TryRead(bufSize: nat) returns (n: int, data: seq<Byte>)
      requires Valid()
      modifies this`wIdx, buf
      ensures Valid()
      ensures old(eof) ==> n == -1 && data == [] && Value() == old(Value())
      ensures !old(eof) ==> n == |data| && Value() == old(Value()).AfterRead(bufSize)
      ensures !old(eof) ==> n == old(Value()).Take(bufSize) && data == old(Value()).bytes[..n]
    {
      if eof {
        return -1, [];
      }
      data := TakeOut(bufSize);
      n := |data|;
    }

    /** vbuffer_read from the moment it holds the lock; `asleep` when it has to wait for data,
        `drains` when it wakes those who wait for the queue to drain */
    method Read(bufSize: nat) returns (asleep: bool, drains: bool, data: seq<Byte>)
      requires Valid()
      modifies this`wIdx, buf
      ensures Valid() && asleep == old(Value()).Blocks()
      ensures Value() == old(Value()).AfterRead(bufSize)
      ensures data == old(Value()).bytes[..old(Value()).Take(bufSize)]
      ensures drains <==> old(Value()).bytes != [] && Value().bytes == []
    {
      if wIdx == 0 && !eof {
        return true, false, [];
      }
      if wIdx == 0 && eof {
        return false, false, [];
      }
      data := TakeOut(bufSize);
      asleep, drains := false, wIdx == 0;
    }

    /** vbuffer_write: ignored once closed */
    method Write(data: seq<Byte>)
      requires Valid()
      modifies this, buf
      ensures Valid() && (buf == old(buf) || fresh(buf))
      ensures Value() == old(Value()).AfterWrite(data)
    {
      if eof {
        return;
      }
      while wIdx + |data| > size
        invariant Valid() && (buf == old(buf) || fresh(buf))
        invariant wIdx == old(wIdx) && Value() == old(Value())
        decreases wIdx + |data| - size
      {
        Extend();
      }
      forall i | 0 <= i < |data| {
        buf[wIdx + i] := data[i];
      }
      wIdx := wIdx + |data|;
    }

    /** _vbuffer_extend */
    method Extend()
      requires Valid()
      modifies this`size, this`buf
      ensures Valid() && fresh(buf) && size == 2 * old(size) && Value() == old(Value())
    {
      size := 2 * size;
      buf := new Byte[size](i reads this, buf => if 0 <= i < buf.Length then buf[i] else 0);
    }

    /** vbuffer_close */
    method Close()
      requires Valid()
      modifies this`eof
      ensures Valid() && Value() == old(Value()).(eof := true)
    {
      eof := true;
    }

    /** The second critical section of vbuffer_drain */
    method Clear()
      requires Valid()
      modifies this`wIdx
      ensures Valid() && Value() == old(Value()).(bytes := [])
    {
      wIdx := 0;
    }
  }
}
