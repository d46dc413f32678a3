/** The growable byte buffer of pub/serial.c, with its write and read cursors. */
module Serials {
  import opened ByteStrings

  const SERIAL_INIT_BUF := 8

  class Serial {
    var cap: nat
    var size: nat
    var buf: array<Byte>
    var rIdx: nat
    var wIdx: nat

    ghost predicate Valid()
      reads this
    {
      wIdx <= size <= cap == buf.Length && rIdx <= size
    }

    /** The bytes appended so far by the write functions. */
    ghost function Written(): seq<Byte>
      reads this, buf
      requires Valid()
    {
      buf[..wIdx]
    }

    /** serial_init on existing bytes */
    constructor Init(data: seq<Byte>)
      ensures Valid() && fresh(buf)
      ensures size == |data| && wIdx == rIdx == 0
      ensures buf[..] == data
    {
      cap, size, rIdx, wIdx := |data|, |data|, 0, 0;
      buf := new Byte[|data|](i requires 0 <= i < |data| => data[i]);
    }

    /** serial_ensure: double the capacity until `extra` more bytes fit */
    method Ensure(extra: nat)
      requires Valid()
      modifies this`cap, this`buf
      ensures Valid() && size + extra <= cap
      ensures cap == GrownTo(if old(cap) != 0 then old(cap) else SERIAL_INIT_BUF, size + extra)
      ensures buf == old(buf) || fresh(buf)
      ensures buf[..size] == old(buf[..size])
    {
      var final := if cap != 0 then cap else SERIAL_INIT_BUF;
      while size + extra > final
        invariant final >= cap && final > 0
        invariant GrownTo(final, size + extra) == GrownTo(if cap != 0 then cap else SERIAL_INIT_BUF, size + extra)
        decreases size + extra - final
      {
        final := 2 * final;
      }
      if final != cap {
        var grown := new Byte[final](i reads this, buf => if 0 <= i < buf.Length then buf[i] else 0);
        buf, cap := grown, final;
      }
    }

    /** The copy behind the write cursor. */
    method Append(data: seq<Byte>)
      requires Valid() && wIdx + |data| <= size + |data| <= cap
      modifies this`size, this`wIdx, buf
      ensures Valid() && size == old(size) + |data| && wIdx == old(wIdx) + |data|
      ensures Written() == old(Written()) + data
    {
      forall i | 0 <= i < |data| {
        buf[wIdx + i] := data[i];
      }
      size, wIdx := size + |data|, wIdx + |data|;
    }

    /** serial_write; serial_write_u8, _u16, _u32 and _u64 are this on one, two, four and
        eight bytes */
    method Write(data: seq<Byte>)
      requires Valid()
      modifies this, buf
      ensures Valid() && rIdx == old(rIdx)
      ensures buf == old(buf) || fresh(buf)
      ensures Written() == old(Written()) + data
      ensures size == old(size) + |data|
    {
      ghost var all, written := buf[..size], Written();
      Ensure(|data|);
      assert Written() == all[..wIdx] == written;
      Append(data);
    }

    /** serial_read: all of the next `n` bytes, or nothing if fewer are left */
    method Read(n: nat) returns (ok: bool, data: seq<Byte>)
      requires Valid()
      modifies this`rIdx
      ensures Valid()
      ensures ok == (n <= size - old(rIdx))
      ensures ok ==> rIdx == old(rIdx) + n && data == buf[old(rIdx)..rIdx]
      ensures !ok ==> rIdx == old(rIdx) && data == []
    {
      var remain := size - rIdx;
      if remain < n {
        return false, [];
      }
      data := buf[rIdx..rIdx + n];
      rIdx := rIdx + n;
      ok := true;
    }
  }
}
