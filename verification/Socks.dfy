/** The SOCKS message codecs of proto/socks/socks4.c and proto/socks/socks5.c; version 5 follows
    sections 3 to 6 of RFC 1928. */
module Socks {
  import opened ByteStrings
  import opened RBuffers
  import opened Serials
  import opened Targets

  const SOCKS5_VERSION: Byte := 5
  const SOCKS4_VERSION: Byte := 4
  const METHOD_NO_AUTH: Byte := 0
  const CMD_CONNECT: Byte := 1
  const SOCKS5_REP_SUCCESS: Byte := 0
  const SOCKS4_REP_SUCCESS: Byte := 90

  const SOCKS5_ADDR_IPV4: Byte := 1
  const SOCKS5_ADDR_DOMAIN: Byte := 3
  const SOCKS5_ADDR_IPV6: Byte := 4

  // ---------- version 5: encoders ----------

  type Methods = m: seq<Byte> | |m| <= 0xff

  function EncodeAuthSel(methods: Methods): seq<Byte>
  {
    [SOCKS5_VERSION, |methods|] + methods
  }

  function EncodeAuthAck(m: Byte): seq<Byte>
  {
    [SOCKS5_VERSION, m]
  }

  function EncodeAddress5(addr: Address): seq<Byte>
  {
    match addr
    case IPv4(ipv4) => [SOCKS5_ADDR_IPV4] + ipv4
    case Domain(name) => [SOCKS5_ADDR_DOMAIN, |name| % 0x100] + Kept(name)
    case IPv6(ipv6) => [SOCKS5_ADDR_IPV6] + ipv6
  }

  function EncodeRequest5(cmd: Byte, target: Target): seq<Byte>
  {
    [SOCKS5_VERSION, cmd, 0] + (EncodeAddress5(target.addr) + Be16(target.port))
  }

  /** The reply always carries the address 0.0.0.0 and port 0. */
  function EncodeResponse5(rep: Byte): seq<Byte>
  {
    [SOCKS5_VERSION, rep, 0, SOCKS5_ADDR_IPV4, 0, 0, 0, 0, 0, 0]
  }

  /** socks5_encode_auth_sel */
  method Socks5EncodeAuthSel(supported: Methods) returns (message: seq<Byte>)
    ensures message == EncodeAuthSel(supported)
  {
    var res := new Byte[|supported| + 2](_ => 0);
    res[0] := SOCKS5_VERSION;
    res[1] := |supported|;
    forall i | 0 <= i < |supported| {
      res[2 + i] := supported[i];
    }
    message := res[..];
  }

  method WriteAddress5(ser: Serial, addr: Address)
    requires ser.Valid()
    modifies ser, ser.buf
    ensures ser.Valid() && (ser.buf == old(ser.buf) || fresh(ser.buf))
    ensures ser.Written() == old(ser.Written()) + EncodeAddress5(addr)
  {
    ghost var start := ser.Written();
    match addr {
      case IPv4(ipv4) =>
        ser.Write([SOCKS5_ADDR_IPV4]);
        ser.Write(ipv4);
        ConcatAssociative(start, [SOCKS5_ADDR_IPV4], ipv4);
      case Domain(name) =>
        var domainLen := |name| % 0x100;
        ser.Write([SOCKS5_ADDR_DOMAIN]);
        ser.Write([domainLen]);
        assert ser.Written() == start + [SOCKS5_ADDR_DOMAIN, domainLen];
        ser.Write(name[..domainLen]);
        ConcatAssociative(start, [SOCKS5_ADDR_DOMAIN, domainLen], Kept(name));
      case IPv6(ipv6) =>
        ser.Write([SOCKS5_ADDR_IPV6]);
        ser.Write(ipv6);
        ConcatAssociative(start, [SOCKS5_ADDR_IPV6], ipv6);
    }
  }

  /** socks5_encode_request */
  method Socks5EncodeRequest(cmd: Byte, target: Target) returns (message: seq<Byte>)
    ensures message == EncodeRequest5(cmd, target)
  {
    var ser := new Serial.Init([]);
    ser.Write([SOCKS5_VERSION]);
    ser.Write([cmd]);
    ser.Write([0]);
    ghost var start := [SOCKS5_VERSION, cmd, 0];
    assert ser.Written() == start;
    WriteAddress5(ser, target.addr);
    ser.Write(Be16(target.port));
    ConcatAssociative(start, EncodeAddress5(target.addr), Be16(target.port));
    message := ser.buf[..ser.wIdx];
  }

  // ---------- version 5: decoders ----------

  function DecodeAuthSel(data: seq<Byte>): Decoded<seq<Byte>>
  {
    if |data| < 2 then NeedMore
    else if data[0] != SOCKS5_VERSION || data[1] == 0 then Bad
    else if |data| - 2 < data[1] then NeedMore
    else Got(2 + data[1] as int, data[2..2 + data[1] as int])
  }

  function DecodeAuthAck(data: seq<Byte>): Decoded<Byte>
  {
    if |data| < 2 then NeedMore else if data[0] != SOCKS5_VERSION then Bad else Got(2, data[1])
  }

  /** A request or a reply: version, command or reply code, reserved byte, address, port. A wrong
      version is noticed at the first byte, a wrong address type at the fourth. */
  function DecodeMessage5(data: seq<Byte>): Decoded<(Byte, Target)>
  {
    if |data| < 1 then NeedMore
    else if data[0] != SOCKS5_VERSION then Bad
    else if |data| < 4 then NeedMore
    else
      match data[3]
      case 1 =>
        if |data| < 10 then NeedMore
        else Got(10, (data[1], Target(IPv4(data[4..8]), FromBe16(data[8..10]))))
      case 3 =>
        if |data| < 5 || |data| < 7 + data[4] as int then NeedMore
        else
          var end := 5 + data[4] as int;
          Got(end + 2, (data[1], Target(Domain(CStr(data[5..end])), FromBe16(data[end..end + 2]))))
      case 4 =>
        if |data| < 22 then NeedMore
        else Got(22, (data[1], Target(IPv6(data[4..20]), FromBe16(data[20..22]))))
      case _ => Bad
  }

  /** Reads `n` address bytes and the port behind them, if they are there. */
  method ReadAddressAndPort(ser: Serial, n: nat) returns (ok: bool, addr: seq<Byte>, port: nat)
    requires ser.Valid()
    modifies ser`rIdx
    ensures ser.Valid() && port < 0x1_0000
    ensures var at := old(ser.rIdx);
      && ok == (at + n + 2 <= ser.size)
      && (ok ==> ser.rIdx == at + n + 2 && addr == ser.buf[at..at + n] && port == FromBe16(ser.buf[at + n..at + n + 2]))
  {
    port := 0;
    ok, addr := ser.Read(n);
    if !ok { return; }
    var raw;
    ok, raw := ser.Read(2);
    if !ok { return; }
    port := FromBe16(raw);
  }

  /** socks5_decode_request and, keeping only the code, socks5_decode_response */
  method Socks5DecodeMessage(data: seq<Byte>) returns (n: int, code: Byte, target: Target)
    ensures n == Status(DecodeMessage5(data))
    ensures n > 0 ==> (code, target) == DecodeMessage5(data).value
  {
    code, target := 0, Target(Domain([]), 0);
    var ser := new Serial.Init(data);
    assert ser.buf[..] == data;
    var ok, raw, port;
    ok, raw := ser.Read(1);
    if !ok { return 0, code, target; }
    if raw[0] != SOCKS5_VERSION { return -1, code, target; }
    ok, raw := ser.Read(3);  // code, reserved, address type
    if !ok { return 0, code, target; }
    code := raw[0];
    var addrType := raw[2];
    assert code == data[1] && addrType == data[3];
    if addrType == SOCKS5_ADDR_IPV4 {
      ok, raw, port := ReadAddressAndPort(ser, 4);
      if !ok { return 0, code, target; }
      target := Target(IPv4(raw), port);
    } else if addrType == SOCKS5_ADDR_DOMAIN {
      ok, raw := ser.Read(1);
      if !ok { return 0, code, target; }
      ok, raw, port := ReadAddressAndPort(ser, raw[0]);
      if !ok { return 0, code, target; }
      target := Target(Domain(CStr(raw)), port);
    } else if addrType == SOCKS5_ADDR_IPV6 {
      ok, raw, port := ReadAddressAndPort(ser, 16);
      if !ok { return 0, code, target; }
      target := Target(IPv6(raw), port);
    } else {
      return -1, code, target;
    }
    n := ser.rIdx;
  }

  // ---------- version 4 ----------

  function EncodeRequest4(cmd: Byte, ipv4: Ipv4, port: U16): seq<Byte>
  {
    [SOCKS4_VERSION, cmd] + (Be16(port) + (ipv4 + [0]))
  }

  function EncodeResponse4(rep: Byte): seq<Byte>
  {
    [0, rep, 0, 0, 0, 0, 0, 0]
  }

  /** The first NUL at or after `i`, or the length if there is none. */
  function FindNul(data: seq<Byte>, i: nat): (k: nat)
    requires i <= |data|
    ensures i <= k <= |data|
    ensures k < |data| ==> data[k] == 0
    ensures forall j :: i <= j < k ==> data[j] != 0
    decreases |data| - i
  {
    if i == |data| || data[i] == 0 then i else FindNul(data, i + 1)
  }

  /** The user id between address and NUL is skipped. */
  function DecodeRequest4(data: seq<Byte>): Decoded<(Byte, Target)>
  {
    if |data| < 9 then NeedMore
    else if data[0] != SOCKS4_VERSION then Bad
    else
      var k := FindNul(data, 8);
      if k == |data| then NeedMore
      else Got(k + 1, (data[1], Target(IPv4(data[4..8]), FromBe16(data[2..4]))))
  }

  function DecodeResponse4(data: seq<Byte>): Decoded<Byte>
  {
    if |data| < 8 then NeedMore else if data[0] != 0 then Bad else Got(8, data[1])
  }

  /** socks4_decode_request */
  method Socks4DecodeRequest(data: seq<Byte>) returns (n: int, cmd: Byte, target: Target)
    ensures n == Status(DecodeRequest4(data))
    ensures n > 0 ==> (cmd, target) == DecodeRequest4(data).value
  {
    cmd, target := 0, Target(Domain([]), 0);
    if |data| < 9 {
      return 0, cmd, target;
    }
    if data[0] != SOCKS4_VERSION {
      return -1, cmd, target;
    }
    cmd := data[1];
    target := Target(IPv4(data[4..8]), FromBe16(data[2..4]));
    var i := 8;
    while i < |data|
      invariant 8 <= i <= |data| && FindNul(data, i) == FindNul(data, 8)
    {
      if data[i] == 0 {
        return i + 1, cmd, target;
      }
      i := i + 1;
    }
    n := 0;
  }

  // ---------- the decoders under fragmentation ----------

  lemma {:induction false} AuthDecodersStable()
    ensures Sane(DecodeAuthSel) && Stable(DecodeAuthSel)
    ensures Sane(DecodeAuthAck) && Stable(DecodeAuthAck)
  {
    forall data: seq<Byte>, more: seq<Byte> | !DecodeAuthSel(data).NeedMore?
      ensures DecodeAuthSel(data + more) == DecodeAuthSel(data)
    {
      if DecodeAuthSel(data).Got? {
        var end := 2 + data[1] as int;
        assert (data + more)[2..end] == data[2..end];
      }
    }
  }

  /** A slice of a string lies in every extension of it. */
  lemma {:induction false} SliceExtends(data: seq<Byte>, more: seq<Byte>, from: nat, to: nat)
    requires from <= to <= |data|
    ensures (data + more)[from..to] == data[from..to]
  {
  }

  /** A message with an address of `n` bytes from offset `at` on: more bytes change nothing. */
  lemma {:induction false} AddressExtends(data: seq<Byte>, more: seq<Byte>, at: nat, n: nat)
    requires at + n + 2 <= |data|
    ensures (data + more)[at..at + n] == data[at..at + n]
    ensures (data + more)[at + n..at + n + 2] == data[at + n..at + n + 2]
  {
    SliceExtends(data, more, at, at + n);
    SliceExtends(data, more, at + n, at + n + 2);
  }

  lemma {:induction false} Message5Extends(data: seq<Byte>, more: seq<Byte>)
    requires !DecodeMessage5(data).NeedMore?
    ensures DecodeMessage5(data + more) == DecodeMessage5(data)
  {
    if DecodeMessage5(data).Got? {
      if data[3] == SOCKS5_ADDR_IPV4 {
        AddressExtends(data, more, 4, 4);
      } else if data[3] == SOCKS5_ADDR_DOMAIN {
        AddressExtends(data, more, 5, data[4]);
      } else {
        AddressExtends(data, more, 4, 16);
      }
    }
  }

  lemma {:induction false} Message5Stable()
    ensures Sane(DecodeMessage5) && Stable(DecodeMessage5)
  {
    forall data: seq<Byte>, more: seq<Byte> | !DecodeMessage5(data).NeedMore? {
      Message5Extends(data, more);
    }
  }

  lemma {:induction false} FindNulStable(data: seq<Byte>, more: seq<Byte>, i: nat)
    requires i <= |data| && FindNul(data, i) < |data|
    ensures FindNul(data + more, i) == FindNul(data, i)
    decreases |data| - i
  {
    if data[i] != 0 {
      FindNulStable(data, more, i + 1);
    }
  }

  lemma {:induction false} Version4Stable()
    ensures Sane(DecodeRequest4) && Stable(DecodeRequest4)
    ensures Sane(DecodeResponse4) && Stable(DecodeResponse4)
  {
    forall data: seq<Byte>, more: seq<Byte> | !DecodeRequest4(data).NeedMore?
      ensures DecodeRequest4(data + more) == DecodeRequest4(data)
    {
      if DecodeRequest4(data).Got? {
        FindNulStable(data, more, 8);
        assert (data + more)[4..8] == data[4..8] && (data + more)[2..4] == data[2..4];
      }
    }
  }

  // ---------- no decoder looks behind its frame ----------

  lemma {:induction false} AuthDecodersPrompt()
    ensures Prompt(DecodeAuthSel) && Prompt(DecodeAuthAck)
  {
    AuthDecodersStable();
    StablePrompt(DecodeAuthSel);
    StablePrompt(DecodeAuthAck);
  }

  lemma {:induction false} Message5Prompt()
    ensures Prompt(DecodeMessage5)
  {
    Message5Stable();
    forall data | DecodeMessage5(data).Got? && DecodeMessage5(data).n <= |data|
      ensures !DecodeMessage5(data[..DecodeMessage5(data).n]).NeedMore?
    {
      Message5Whole(data);
    }
    StablePrompt(DecodeMessage5);
  }

  lemma {:induction false} Message5Whole(data: seq<Byte>)
    requires DecodeMessage5(data).Got? && DecodeMessage5(data).n <= |data|
    ensures !DecodeMessage5(data[..DecodeMessage5(data).n]).NeedMore?
  {
    var frame := data[..DecodeMessage5(data).n];
    assert |frame| >= 7 && frame[0] == data[0] && frame[3] == data[3] && frame[4] == data[4];
  }

  lemma {:induction false} Version4Prompt()
    ensures Prompt(DecodeRequest4) && Prompt(DecodeResponse4)
  {
    Version4Stable();
    StablePrompt(DecodeResponse4);
    forall data | DecodeRequest4(data).Got? && DecodeRequest4(data).n <= |data|
      ensures !DecodeRequest4(data[..DecodeRequest4(data).n]).NeedMore?
    {
      var frame := data[..DecodeRequest4(data).n];
      assert frame[|frame| - 1] == 0 && FindNul(frame, 8) < |frame|;
    }
    StablePrompt(DecodeRequest4);
  }

  // ---------- round trips ----------

  lemma {:induction false} AuthRoundTrip(methods: Methods, m: Byte)
    ensures methods != [] ==> Recognizes(DecodeAuthSel, EncodeAuthSel(methods), methods)
    ensures methods == [] ==> DecodeAuthSel(EncodeAuthSel(methods)) == Bad
    ensures Recognizes(DecodeAuthAck, EncodeAuthAck(m), m)
  {
    AuthDecodersStable();
    if methods != [] {
      assert EncodeAuthSel(methods)[2..2 + |methods|] == methods;
      StableRecognizes(DecodeAuthSel, EncodeAuthSel(methods), methods);
    }
    StableRecognizes(DecodeAuthAck, EncodeAuthAck(m), m);
  }

  lemma {:induction false} MessageParts(cmd: Byte, target: Target)
    ensures var wire, coded := EncodeRequest5(cmd, target), EncodeAddress5(target.addr);
      && wire[3..3 + |coded|] == coded && wire[3 + |coded|..] == Be16(target.port)
      && |wire| == 5 + |coded| && wire[0] == SOCKS5_VERSION && wire[1] == cmd
      && FromBe16(wire[3 + |coded|..3 + |coded| + 2]) == target.port
  {
    var wire, end := EncodeRequest5(cmd, target), 3 + |EncodeAddress5(target.addr)|;
    Be16RoundTrip(target.port, []);
    assert wire[end..end + 2] == Be16(target.port) + [];
  }

  /** What a request decodes to: the address with its name cut to the length the encoder wrote. */
  lemma {:induction false} Request5Decodes(cmd: Byte, target: Target)
    ensures var kept := if target.addr.Domain? then Domain(Kept(target.addr.name)) else target.addr;
      var wire := EncodeRequest5(cmd, target);
      DecodeMessage5(wire) == Got(|wire|, (cmd, Target(kept, target.port)))
  {
    var wire, coded := EncodeRequest5(cmd, target), EncodeAddress5(target.addr);
    MessageParts(cmd, target);
    assert wire[3] == wire[3..3 + |coded|][0];
    match target.addr
    case IPv4(ipv4) => assert wire[4..8] == wire[3..3 + |coded|][1..] == ipv4;
    case IPv6(ipv6) => assert wire[4..20] == wire[3..3 + |coded|][1..] == ipv6;
    case Domain(name) =>
      assert wire[4] == wire[3..3 + |coded|][1];
      assert wire[5..3 + |coded|] == wire[3..3 + |coded|][2..] == Kept(name);
      CStrWhole(Kept(name));
  }

  /** A request is read back through any fragmentation exactly when a domain name fits its length
      byte; a longer one is cut to its length modulo 256. */
  lemma {:induction false} Request5RoundTrip(cmd: Byte, target: Target)
    ensures Recognizes(DecodeMessage5, EncodeRequest5(cmd, target), (cmd, target)) <==>
      (target.addr.Domain? ==> |target.addr.name| <= 0xff)
  {
    var wire := EncodeRequest5(cmd, target);
    Request5Decodes(cmd, target);
    if target.addr.Domain? {
      KeptWhole(target.addr.name);
    }
    if DecodeMessage5(wire) == Got(|wire|, (cmd, target)) {
      Message5Stable();
      StableRecognizes(DecodeMessage5, wire, (cmd, target));
    } else {
      assert wire + [] == wire;
    }
  }

  lemma {:induction false} ResponsesRoundTrip(rep: Byte)
    ensures Recognizes(DecodeMessage5, EncodeResponse5(rep), (rep, Target(IPv4([0, 0, 0, 0]), 0)))
    ensures Recognizes(DecodeResponse4, EncodeResponse4(rep), rep)
  {
    Message5Stable();
    assert EncodeResponse5(rep)[4..8] == [0, 0, 0, 0] && EncodeResponse5(rep)[8..10] == [0, 0];
    StableRecognizes(DecodeMessage5, EncodeResponse5(rep), (rep, Target(IPv4([0, 0, 0, 0]), 0)));
    Version4Stable();
    StableRecognizes(DecodeResponse4, EncodeResponse4(rep), rep);
  }

  lemma {:induction false} Request4RoundTrip(cmd: Byte, ipv4: Ipv4, port: U16)
    ensures Recognizes(DecodeRequest4, EncodeRequest4(cmd, ipv4, port), (cmd, Target(IPv4(ipv4), port)))
  {
    var wire := EncodeRequest4(cmd, ipv4, port);
    Version4Stable();
    Be16RoundTrip(port, []);
    assert Be16(port) + [] == Be16(port);
    assert wire[2..4] == Be16(port) && wire[4..8] == ipv4 && wire[8] == 0;
    assert FindNul(wire, 8) == 8;
    StableRecognizes(DecodeRequest4, wire, (cmd, Target(IPv4(ipv4), port)));
  }
}
