/** The VMess request and response headers: the encoders of proto/vmess/request.c and
    proto/vmess/response.c and the decoders of proto/vmess/decoding.c. */
module VmessHeader {
  import opened ByteStrings
  import opened Cfb
  import opened Checksum
  import opened RBuffers
  import opened Serials
  import opened Targets
  import opened VmessFrames

  type Bits2 = n: int | 0 <= n < 4
  type Bits4 = n: int | 0 <= n < 16

  datatype Request = Request(target: Target, vers: Bits2, crypt: Bits4, cmd: Bits2, opt: Byte)

  const ADDR_TYPE_IPV4: Byte := 1
  const ADDR_TYPE_DOMAIN: Byte := 2
  const ADDR_TYPE_IPV6: Byte := 3

  /** VMESS_P_MAX: the longest padding the encoder may choose, itself included. */
  const P_MAX := 16

  type Padding = p: seq<Byte> | |p| <= P_MAX

  /** Seconds since the epoch, as time() returns them. */
  type Clock = t: int | 0 <= t < 0x8000_0000_0000_0000

  const TIME_DELTA := 30

  // ---------- the validation code ----------

  /** vmess_gen_validation_code */
  function ValidationCode(cr: Crypto, userId: Block, time: U64): Block
  {
    cr.hmacMd5(userId, Be64(time))
  }

  /** The first time from `t` to `last` whose validation code is `code`. */
  function FirstMatch(cr: Crypto, userId: Block, code: Block, t: U64, last: U64): (found: int)
    requires last < 0xffff_ffff_ffff_ffff
    ensures found == -1 || t <= found <= last
    decreases last - t
  {
    if t > last then -1
    else if ValidationCode(cr, userId, t) == code then t
    else FirstMatch(cr, userId, code, t + 1, last)
  }

  /** The window wraps below the epoch, and is then searched in vain. */
  function WindowStart(now: Clock): (t: U64)
    ensures now >= TIME_DELTA ==> t == now - TIME_DELTA
    ensures now < TIME_DELTA ==> t > now + TIME_DELTA
  {
    (now - TIME_DELTA) % 0x1_0000_0000_0000_0000
  }

  function Lookup(cr: Crypto, userId: Block, code: Block, now: Clock): int
  {
    FirstMatch(cr, userId, code, WindowStart(now), now + TIME_DELTA)
  }

  /** _vmess_lookup_timestamp, with the clock as a parameter */
  method VmessLookupTimestamp(cr: Crypto, userId: Block, code: Block, now: Clock) returns (found: int)
    ensures found == Lookup(cr, userId, code, now)
  {
    var last: U64 := now + TIME_DELTA;
    var t: U64 := WindowStart(now);
    while t <= last
      invariant FirstMatch(cr, userId, code, t, last) == Lookup(cr, userId, code, now)
      decreases last - t
    {
      var test := ValidationCode(cr, userId, t);
      if test == code {
        return t;
      }
      t := t + 1;
    }
    return -1;
  }

  /** No earlier second of the window has the validation code of `genTime`. */
  ghost predicate NoCollision(cr: Crypto, userId: Block, genTime: U64, now: Clock)
  {
    forall t: U64 :: now - TIME_DELTA <= t < genTime ==>
      ValidationCode(cr, userId, t) != ValidationCode(cr, userId, genTime)
  }

  lemma {:induction false} FirstMatchIs(cr: Crypto, userId: Block, code: Block, t: U64, last: U64, found: int)
    requires last < 0xffff_ffff_ffff_ffff
    ensures FirstMatch(cr, userId, code, t, last) == found && found != -1 <==>
      && t <= found <= last && ValidationCode(cr, userId, found) == code
      && (forall e: U64 :: t <= e < found ==> ValidationCode(cr, userId, e) != code)
    decreases last - t
  {
    if t <= last && ValidationCode(cr, userId, t) != code {
      FirstMatchIs(cr, userId, code, t + 1, last, found);
    }
  }

  /** The lookup recovers the generation time exactly when the clocks differ by at most the
      allowed delta and no earlier second of the window collides; a clock less than the delta
      after the epoch never finds anything. */
  lemma {:induction false} LookupExact(cr: Crypto, userId: Block, genTime: U64, now: Clock)
    ensures Lookup(cr, userId, ValidationCode(cr, userId, genTime), now) == genTime <==>
      TIME_DELTA <= now && now - TIME_DELTA <= genTime <= now + TIME_DELTA && NoCollision(cr, userId, genTime, now)
  {
    var code := ValidationCode(cr, userId, genTime);
    if now >= TIME_DELTA {
      FirstMatchIs(cr, userId, code, now - TIME_DELTA, now + TIME_DELTA, genTime);
    }
  }

  // ---------- the request encoder ----------

  function EncodeAddress(addr: Address): seq<Byte>
  {
    match addr
    case IPv4(ipv4) => [ADDR_TYPE_IPV4] + ipv4
    case Domain(name) => [ADDR_TYPE_DOMAIN, |name| % 0x100] + Kept(name)
    case IPv6(ipv6) => [ADDR_TYPE_IPV6] + ipv6
  }

  /** The fields before the address. */
  function Prelude(auth: Auth, req: Request, p: nat): (s: seq<Byte>)
    ensures |s| == 40
  {
    [req.vers] + auth.iv + auth.key
    + [auth.nonce, req.opt, (p * 16 + req.crypt) % 0x100, 0, req.cmd] + Be16(req.target.port)
  }

  /** Everything the header checksum covers. */
  function Fields(auth: Auth, req: Request, pad: Padding): seq<Byte>
  {
    Prelude(auth, req, |pad|) + (EncodeAddress(req.target.addr) + pad)
  }

  /** The request header before encryption. */
  function PlainHeader(auth: Auth, req: Request, pad: Padding): seq<Byte>
  {
    var fields := Fields(auth, req, pad);
    fields + Be32(Fnv(fields))
  }

  /** The validation code, then the header encrypted. */
  function Seal(cr: Crypto, userId: Block, auth: Auth, plain: seq<Byte>): seq<Byte>
  {
    ValidationCode(cr, userId, auth.genTime) + Encrypt(cr, auth.key, auth.iv, plain)
  }

  /** The request header on the wire. */
  function EncodeRequest(cr: Crypto, userId: Block, auth: Auth, req: Request, pad: Padding): (wire: seq<Byte>)
    ensures |wire| > 16
  {
    Seal(cr, userId, auth, PlainHeader(auth, req, pad))
  }

  method WriteKeys(ser: Serial, auth: Auth, vers: Byte)
    requires ser.Valid() && ser.wIdx == ser.size
    modifies ser, ser.buf
    ensures ser.Valid() && ser.wIdx == ser.size && (ser.buf == old(ser.buf) || fresh(ser.buf))
    ensures ser.Written() == old(ser.Written()) + ([vers] + auth.iv + auth.key)
  {
    ghost var start := ser.Written();
    ser.Write([vers]);
    ser.Write(auth.iv);
    ConcatAssociative(start, [vers], auth.iv);
    ser.Write(auth.key);
    ConcatAssociative(start, [vers] + auth.iv, auth.key);
  }

  /** Nonce, options, padding length and cipher in one byte, a reserved byte, command. */
  method WriteFlags(ser: Serial, nonce: Byte, req: Request, p: nat)
    requires ser.Valid() && ser.wIdx == ser.size
    modifies ser, ser.buf
    ensures ser.Valid() && ser.wIdx == ser.size && (ser.buf == old(ser.buf) || fresh(ser.buf))
    ensures ser.Written() == old(ser.Written()) + [nonce, req.opt, (p * 16 + req.crypt) % 0x100, 0, req.cmd]
  {
    ghost var start := ser.Written();
    ser.Write([nonce]);
    ser.Write([req.opt]);
    ser.Write([(p * 16 + req.crypt) % 0x100]);
    assert ser.Written() == start + [nonce, req.opt, (p * 16 + req.crypt) % 0x100];
    ser.Write([0]);
    ser.Write([req.cmd]);
  }

  /** The header bytes up to the port. */
  method WritePrelude(ser: Serial, auth: Auth, req: Request, p: nat)
    requires ser.Valid() && ser.wIdx == ser.size
    modifies ser, ser.buf
    ensures ser.Valid() && ser.wIdx == ser.size && (ser.buf == old(ser.buf) || fresh(ser.buf))
    ensures ser.Written() == old(ser.Written()) + Prelude(auth, req, p)
  {
    var port := Be16(req.target.port);
    ghost var start := ser.Written();
    WriteKeys(ser, auth, req.vers);
    WriteFlags(ser, auth.nonce, req, p);
    ser.Write(port);
    ghost var keys := [req.vers] + auth.iv + auth.key;
    ghost var flags := [auth.nonce, req.opt, (p * 16 + req.crypt) % 0x100, 0, req.cmd];
    ConcatAssociative(start, keys, flags);
    ConcatAssociative(start, keys + flags, port);
  }

  method WriteAddress(ser: Serial, addr: Address)
    requires ser.Valid() && ser.wIdx == ser.size
    modifies ser, ser.buf
    ensures ser.Valid() && ser.wIdx == ser.size && (ser.buf == old(ser.buf) || fresh(ser.buf))
    ensures ser.Written() == old(ser.Written()) + EncodeAddress(addr)
  {
    ghost var start := ser.Written();
    match addr {
      case IPv4(ipv4) =>
        ser.Write([ADDR_TYPE_IPV4]);
        ser.Write(ipv4);
        ConcatAssociative(start, [ADDR_TYPE_IPV4], ipv4);
      case Domain(name) =>
        var domainLen := |name| % 0x100;
        ser.Write([ADDR_TYPE_DOMAIN]);
        ser.Write([domainLen]);
        assert ser.Written() == start + [ADDR_TYPE_DOMAIN, domainLen];
        ser.Write(name[..domainLen]);
        ConcatAssociative(start, [ADDR_TYPE_DOMAIN, domainLen], Kept(name));
      case IPv6(ipv6) =>
        ser.Write([ADDR_TYPE_IPV6]);
        ser.Write(ipv6);
        ConcatAssociative(start, [ADDR_TYPE_IPV6], ipv6);
    }
  }

  method WritePadding(ser: Serial, pad: Padding)
    requires ser.Valid() && ser.wIdx == ser.size
    modifies ser, ser.buf
    ensures ser.Valid() && ser.wIdx == ser.size && (ser.buf == old(ser.buf) || fresh(ser.buf))
    ensures ser.Written() == old(ser.Written()) + pad
  {
    ghost var start := ser.Written();
    var i := 0;
    while i < |pad|
      invariant 0 <= i <= |pad| && ser.Valid() && ser.wIdx == ser.size
      invariant ser.buf == old(ser.buf) || fresh(ser.buf)
      invariant ser.Written() == start + pad[..i]
    {
      ser.Write([pad[i]]);
      i := i + 1;
    }
  }

  /** The end of the encoder: checksum appended, then everything behind the validation code
      encrypted in place. */
  method SealHeader(ser: Serial, cr: Crypto, auth: Auth, ghost code: Block, ghost fields: seq<Byte>)
    returns (header: seq<Byte>)
    requires ser.Valid() && ser.wIdx == ser.size && ser.Written() == code + fields
    modifies ser, ser.buf
    ensures header == code + Encrypt(cr, auth.key, auth.iv, fields + Be32(Fnv(fields)))
  {
    assert ser.buf[16..ser.size] == ser.Written()[16..] == fields;
    var checksum := CryptoFnv1a(ser.buf[16..ser.size]);
    ser.Write(Be32(checksum));
    ghost var plain := fields + Be32(checksum);
    ConcatAssociative(code, fields, Be32(checksum));
    assert ser.Written() == code + plain;
    assert ser.buf[16..ser.size] == ser.Written()[16..] == plain;
    var encCmd := Encrypt(cr, auth.key, auth.iv, ser.buf[16..ser.size]);
    forall j | 0 <= j < |encCmd| {
      ser.buf[16 + j] := encCmd[j];
    }
    assert ser.buf[..16] == code && ser.buf[16..ser.size] == encCmd;
    header := ser.buf[..ser.size];
  }

  /** vmess_serial_request, with the random padding as a parameter */
  method VmessSerialRequest(cr: Crypto, userId: Block, auth: Auth, req: Request, pad: Padding)
    returns (header: seq<Byte>)
    requires req.opt == 1
    ensures header == EncodeRequest(cr, userId, auth, req, pad)
  {
    var ser := new Serial.Init([]);
    var code := ValidationCode(cr, userId, auth.genTime);
    ser.Write(code);
    assert ser.Written() == code;
    WritePrelude(ser, auth, req, |pad|);
    WriteAddress(ser, req.target.addr);
    WritePadding(ser, pad);
    ghost var prelude, address := Prelude(auth, req, |pad|), EncodeAddress(req.target.addr);
    ConcatAssociative(code + prelude, address, pad);
    ConcatAssociative(code, prelude, address + pad);
    header := SealHeader(ser, cr, auth, code, Fields(auth, req, pad));
  }

  // ---------- the request decoder ----------

  /** The decrypted header fields the decoder keeps. */
  datatype Header = Header(nonce: Byte, req: Request)

  /** Where the address ends, for a header of which at least the address type is there. */
  function AddressEnd(plain: seq<Byte>): Decoded<Address>
    requires |plain| >= 41
    ensures AddressEnd(plain).Got? ==> 41 <= AddressEnd(plain).n <= |plain|
  {
    match plain[40]
    case 1 => if |plain| < 45 then NeedMore else Got(45, IPv4(plain[41..45]))
    case 2 =>
      if |plain| < 42 || |plain| < 42 + plain[41] as int then NeedMore
      else Got(42 + plain[41] as int, Domain(CStr(plain[42..42 + plain[41] as int])))
    case 3 => if |plain| < 57 then NeedMore else Got(57, IPv6(plain[41..57]))
    case _ => Bad
  }

  function DecodeHeader(plain: seq<Byte>): Decoded<Header>
  {
    if |plain| < 41 then
      NeedMore
    else
      match AddressEnd(plain)
      case NeedMore => NeedMore
      case Bad => Bad
      case Got(n, addr) =>
        var end := n + plain[35] / 16;
        if |plain| < end + 4 then
          NeedMore
        else if plain[end..end + 4] != Be32(Fnv(plain[..end])) then
          Bad
        else
          Got(end + 4, HeaderOf(plain, addr))
  }

  /** The fields around the address. */
  function HeaderOf(plain: seq<Byte>, addr: Address): Header
    requires |plain| >= 41
  {
    var target := Target(addr, FromBe16(plain[38..40]));
    Header(plain[33], Request(target, plain[0] % 4, plain[35] % 16, plain[37] % 4, plain[34]))
  }

  /** A validation code, then an encrypted header that `d` decodes. */
  function DecodeSealed(cr: Crypto, userId: Block, now: Clock, d: Decoder<Header>, data: seq<Byte>)
    : Decoded<(Auth, Request)>
  {
    if |data| < 16 then
      NeedMore
    else
      var genTime := Lookup(cr, userId, data[..16], now);
      if genTime == -1 then
        Bad
      else
        var auth := AuthInit(cr, userId, genTime);
        Opened(auth, d(Decrypt(cr, auth.key, auth.iv, data[16..])))
  }

  function Opened(auth: Auth, v: Decoded<Header>): Decoded<(Auth, Request)>
  {
    match v
    case NeedMore => NeedMore
    case Bad => Bad
    case Got(n, header) => Got(n + 16, (auth.(nonce := header.nonce), header.req))
  }

  function DecodeRequest(cr: Crypto, userId: Block, now: Clock, data: seq<Byte>): Decoded<(Auth, Request)>
  {
    DecodeSealed(cr, userId, now, DecodeHeader, data)
  }

  /** The decoder's verdict is unchanged by more bytes, for headers in the clear. */
  lemma {:induction false} DecodeHeaderStable()
    ensures Sane(DecodeHeader) && Stable(DecodeHeader)
  {
    forall plain: seq<Byte>, more: seq<Byte> | !DecodeHeader(plain).NeedMore?
      ensures DecodeHeader(plain + more) == DecodeHeader(plain)
    {
      AddressEndStable(plain, more);
      if AddressEnd(plain).Got? {
        var end := AddressEnd(plain).n + plain[35] / 16;
        assert (plain + more)[end..end + 4] == plain[end..end + 4];
        assert (plain + more)[..end] == plain[..end];
        assert (plain + more)[38..40] == plain[38..40];
      }
    }
  }

  lemma {:induction false} AddressEndStable(plain: seq<Byte>, more: seq<Byte>)
    requires |plain| >= 41
    ensures !AddressEnd(plain).NeedMore? ==> AddressEnd(plain + more) == AddressEnd(plain)
  {
    assert |plain| >= 45 ==> (plain + more)[41..45] == plain[41..45];
    assert |plain| >= 57 ==> (plain + more)[41..57] == plain[41..57];
    if |plain| >= 42 {
      var end := 42 + plain[41] as int;
      assert |plain| >= end ==> (plain + more)[42..end] == plain[42..end];
    }
  }

  /** What survives of an address: its name cut to the length the encoder wrote. */
  function KeptAddress(addr: Address): Address
  {
    if addr.Domain? then Domain(Kept(addr.name)) else addr
  }

  lemma {:induction false} AddressRoundTrip(prelude: seq<Byte>, addr: Address, rest: seq<Byte>)
    requires |prelude| == 40
    ensures AddressEnd(prelude + (EncodeAddress(addr) + rest)) == Got(40 + |EncodeAddress(addr)|, KeptAddress(addr))
  {
    var coded := EncodeAddress(addr);
    var plain := prelude + (coded + rest);
    var end := 40 + |coded|;
    assert plain[40..end] == coded;
    assert plain[40] == coded[0] && (addr.Domain? ==> plain[41] == coded[1]);
    match addr
    case IPv4(ipv4) => assert plain[41..45] == coded[1..] == ipv4;
    case Domain(name) =>
      assert plain[42..end] == coded[2..] == Kept(name);
      CStrWhole(Kept(name));
    case IPv6(ipv6) => assert plain[41..57] == coded[1..] == ipv6;
  }

  /** The header read back when at most 15 bytes of padding were written. */
  function Survives(auth: Auth, req: Request): Header
  {
    Header(auth.nonce, req.(target := req.target.(addr := KeptAddress(req.target.addr))))
  }

  lemma {:induction false} PreludeFields(auth: Auth, req: Request, p: nat, rest: seq<Byte>)
    requires p <= P_MAX
    ensures var plain := Prelude(auth, req, p) + rest;
      |plain| >= 41 ==>
        && plain[35] == (p * 16 + req.crypt) % 0x100
        && HeaderOf(plain, KeptAddress(req.target.addr)) == Survives(auth, req)
  {
    PaddingByte(p, req.crypt);
    var keys := [req.vers] + auth.iv + auth.key;
    var flags := [auth.nonce, req.opt, (p * 16 + req.crypt) % 0x100, 0, req.cmd];
    var plain := Prelude(auth, req, p) + rest;
    assert Prelude(auth, req, p) == keys + flags + Be16(req.target.port);
    assert plain[33..38] == flags;
    assert plain[33] == plain[33..38][0] && plain[34] == plain[33..38][1] && plain[35] == plain[33..38][2];
    assert plain[37] == plain[33..38][4];
    assert plain[38..40] == Be16(req.target.port);
    Be16RoundTrip(req.target.port, []);
    assert Be16(req.target.port) + [] == Be16(req.target.port);
  }

  lemma {:induction false} PlainLayout(auth: Auth, req: Request, pad: Padding)
    ensures var plain, fields := PlainHeader(auth, req, pad), Fields(auth, req, pad);
      && |fields| == 40 + |EncodeAddress(req.target.addr)| + |pad|
      && |plain| == |fields| + 4
      && plain[..|fields|] == fields && plain[|fields|..] == Be32(Fnv(fields))
      && AddressEnd(plain) == Got(40 + |EncodeAddress(req.target.addr)|, KeptAddress(req.target.addr))
      && plain[35] == (|pad| * 16 + req.crypt) % 0x100
      && HeaderOf(plain, KeptAddress(req.target.addr)) == Survives(auth, req)
  {
    var prelude, address := Prelude(auth, req, |pad|), EncodeAddress(req.target.addr);
    var sum := Be32(Fnv(Fields(auth, req, pad)));
    ConcatAssociative(prelude, address + pad, sum);
    ConcatAssociative(address, pad, sum);
    AddressRoundTrip(prelude, req.target.addr, pad + sum);
    PreludeFields(auth, req, |pad|, address + (pad + sum));
    assert PlainHeader(auth, req, pad) == prelude + (address + (pad + sum));
  }

  /** Decoding an unencrypted header: with at most 15 bytes of padding it gives the fields and the
      exact length, with 16 it never gives the right length. */
  lemma {:induction false} PlainHeaderDecodes(auth: Auth, req: Request, pad: Padding)
    ensures var plain := PlainHeader(auth, req, pad);
      if |pad| <= 15 then DecodeHeader(plain) == Got(|plain|, Survives(auth, req))
      else !DecodeHeader(plain).NeedMore? && (DecodeHeader(plain).Got? ==> DecodeHeader(plain).n < |plain|)
  {
    var plain := PlainHeader(auth, req, pad);
    PlainLayout(auth, req, pad);
    PaddingByte(|pad|, req.crypt);
    var end := AddressEnd(plain).n + plain[35] / 16;
    assert end == |plain| - 4 - if |pad| <= 15 then 0 else 16;
    if |pad| <= 15 {
      ChecksumLast(plain, Fields(auth, req, pad));
    }
  }

  lemma {:induction false} ChecksumLast(plain: seq<Byte>, fields: seq<Byte>)
    requires plain == fields + Be32(Fnv(fields))
    ensures var end := |plain| - 4; end >= 0 && plain[end..end + 4] == Be32(Fnv(plain[..end]))
  {
    assert plain[..|plain| - 4] == fields;
  }

  /** The padding length shares its byte with the cipher and has four bits there. */
  lemma {:induction false} PaddingByte(p: nat, crypt: Bits4)
    requires p <= P_MAX
    ensures var b := (p * 16 + crypt) % 0x100; b % 16 == crypt && b / 16 == if p <= 15 then p else 0
  {
  }

  // ---------- the encrypted header ----------

  /** The connection state both sides share once the server has the client's nonce. */
  predicate SharedAuth(cr: Crypto, userId: Block, auth: Auth)
  {
    auth == AuthInit(cr, userId, auth.genTime).(nonce := auth.nonce)
  }

  lemma {:induction false} SealedVerdict(cr: Crypto, userId: Block, now: Clock, auth: Auth, d: Decoder<Header>,
      plain: seq<Byte>, rest: seq<Byte>)
    requires Stable(d) && !d(plain).NeedMore?
    requires SharedAuth(cr, userId, auth)
    requires Lookup(cr, userId, ValidationCode(cr, userId, auth.genTime), now) == auth.genTime
    ensures DecodeSealed(cr, userId, now, d, Seal(cr, userId, auth, plain) + rest) == Opened(auth, d(plain))
  {
    var cipher := Encrypt(cr, auth.key, auth.iv, plain);
    var data := Seal(cr, userId, auth, plain) + rest;
    assert data[..16] == ValidationCode(cr, userId, auth.genTime);
    assert data[16..] == cipher + rest && (cipher + rest)[..|plain|] == cipher;
    DecryptPrefix(cr, auth.key, auth.iv, cipher + rest, |plain|);
    DecryptEncrypt(cr, auth.key, auth.iv, plain);
    var all := Decrypt(cr, auth.key, auth.iv, cipher + rest);
    assert all == plain + all[|plain|..];
  }

  lemma {:induction false} SealedPrefix(cr: Crypto, userId: Block, now: Clock, auth: Auth, d: Decoder<Header>,
      plain: seq<Byte>, k: nat)
    requires forall j :: 0 <= j < |plain| ==> d(plain[..j]).NeedMore?
    requires SharedAuth(cr, userId, auth)
    requires Lookup(cr, userId, ValidationCode(cr, userId, auth.genTime), now) == auth.genTime
    requires k < |Seal(cr, userId, auth, plain)|
    ensures DecodeSealed(cr, userId, now, d, Seal(cr, userId, auth, plain)[..k]).NeedMore?
  {
    if k >= 16 {
      var cipher := Encrypt(cr, auth.key, auth.iv, plain);
      var data := Seal(cr, userId, auth, plain)[..k];
      assert data[..16] == ValidationCode(cr, userId, auth.genTime) && data[16..] == cipher[..k - 16];
      DecryptPrefix(cr, auth.key, auth.iv, cipher, k - 16);
      DecryptEncrypt(cr, auth.key, auth.iv, plain);
    }
  }

  lemma {:induction false} StableUnderCipher<T>(cr: Crypto, key: Block, iv: Block, d: Decoder<T>,
      cipher: seq<Byte>, more: seq<Byte>)
    requires Stable(d)
    ensures var v := d(Decrypt(cr, key, iv, cipher));
      !v.NeedMore? ==> d(Decrypt(cr, key, iv, cipher + more)) == v
  {
    assert (cipher + more)[..|cipher|] == cipher;
    DecryptPrefix(cr, key, iv, cipher + more, |cipher|);
    var all := Decrypt(cr, key, iv, cipher + more);
    assert all == Decrypt(cr, key, iv, cipher) + all[|cipher|..];
  }

  lemma {:induction false} SealedStable(cr: Crypto, userId: Block, now: Clock, d: Decoder<Header>, data: seq<Byte>,
      more: seq<Byte>)
    requires Stable(d)
    ensures var v := DecodeSealed(cr, userId, now, d, data);
      !v.NeedMore? ==> DecodeSealed(cr, userId, now, d, data + more) == v
  {
    if |data| >= 16 {
      assert (data + more)[..16] == data[..16];
      var genTime := Lookup(cr, userId, data[..16], now);
      if genTime != -1 {
        var auth := AuthInit(cr, userId, genTime);
        assert (data + more)[16..] == data[16..] + more;
        StableUnderCipher(cr, auth.key, auth.iv, d, data[16..], more);
      }
    }
  }

  lemma {:induction false} SealedSane(cr: Crypto, userId: Block, now: Clock, d: Decoder<Header>, data: seq<Byte>)
    requires Sane(d)
    ensures var v := DecodeSealed(cr, userId, now, d, data); v.Got? ==> 0 < v.n <= |data|
  {
  }

  /** The header is read back, with its exact length and whatever bytes follow, exactly when at
      most 15 bytes of padding were chosen and a domain name fits its length byte. */
  lemma {:induction false} RequestRoundTrip(cr: Crypto, userId: Block, now: Clock, auth: Auth, req: Request,
      pad: Padding, rest: seq<Byte>)
    requires SharedAuth(cr, userId, auth)
    requires Lookup(cr, userId, ValidationCode(cr, userId, auth.genTime), now) == auth.genTime
    ensures var wire := EncodeRequest(cr, userId, auth, req, pad);
      DecodeRequest(cr, userId, now, wire + rest) == Got(|wire|, (auth, req)) <==>
      |pad| <= 15 && (req.target.addr.Domain? ==> |req.target.addr.name| <= 0xff)
  {
    var plain := PlainHeader(auth, req, pad);
    PlainHeaderDecodes(auth, req, pad);
    DecodeHeaderStable();
    SealedVerdict(cr, userId, now, auth, DecodeHeader, plain, rest);
    if req.target.addr.Domain? {
      KeptWhole(req.target.addr.name);
    }
  }

  /** The server's decoder: the clock may move between attempts, which see ever more bytes. */
  function RequestDecoder(cr: Crypto, userId: Block, clock: nat -> Clock): Decoder<(Auth, Request)>
  {
    data => DecodeRequest(cr, userId, clock(|data|), data)
  }

  /** Whenever it is read, the server's clock is close enough to the client's and no other second
      of the window collides with the generation time. */
  ghost predicate ClockAgrees(cr: Crypto, userId: Block, genTime: U64, clock: nat -> Clock)
  {
    forall n :: clock(n) >= TIME_DELTA && clock(n) - TIME_DELTA <= genTime <= clock(n) + TIME_DELTA
      && NoCollision(cr, userId, genTime, clock(n))
  }

  lemma {:induction false} RequestDecoderSane(cr: Crypto, userId: Block, clock: nat -> Clock)
    ensures Sane(RequestDecoder(cr, userId, clock))
  {
    DecodeHeaderStable();
    var d := RequestDecoder(cr, userId, clock);
    assert d([]) == DecodeRequest(cr, userId, clock(0), []);
    forall data | d(data).Got? ensures 0 < d(data).n <= |data| {
      SealedSane(cr, userId, clock(|data|), DecodeHeader, data);
    }
  }

  /** At a fixed clock the request decoder is stable too. */
  lemma {:induction false} RequestDecoderStable(cr: Crypto, userId: Block, now: Clock)
    ensures Stable(RequestDecoder(cr, userId, n => now))
  {
    DecodeHeaderStable();
    var d := RequestDecoder(cr, userId, n => now);
    forall data, more | !d(data).NeedMore? ensures d(data + more) == d(data) {
      assert d(data) == DecodeRequest(cr, userId, now, data);
      assert d(data + more) == DecodeRequest(cr, userId, now, data + more);
      SealedStable(cr, userId, now, DecodeHeader, data, more);
    }
  }

  /** Through any fragmentation, with the clock moving inside the window, the server gets the
      client's request and connection state, and never decides before the header is complete. */
  lemma {:induction false} RequestRecognized(cr: Crypto, userId: Block, clock: nat -> Clock, auth: Auth,
      req: Request, pad: Padding)
    requires SharedAuth(cr, userId, auth) && ClockAgrees(cr, userId, auth.genTime, clock)
    requires |pad| <= 15 && (req.target.addr.Domain? ==> |req.target.addr.name| <= 0xff)
    ensures Recognizes(RequestDecoder(cr, userId, clock), EncodeRequest(cr, userId, auth, req, pad), (auth, req))
  {
    var wire := EncodeRequest(cr, userId, auth, req, pad);
    var d := RequestDecoder(cr, userId, clock);
    forall rest ensures d(wire + rest) == Got(|wire|, (auth, req)) {
      LookupExact(cr, userId, auth.genTime, clock(|wire + rest|));
      RequestRoundTrip(cr, userId, clock(|wire + rest|), auth, req, pad, rest);
    }
    var plain := PlainHeader(auth, req, pad);
    PlainHeaderDecodes(auth, req, pad);
    DecodeHeaderStable();
    StableRecognizes(DecodeHeader, plain, Survives(auth, req));
    forall k | 0 <= k < |wire| ensures d(wire[..k]).NeedMore? {
      LookupExact(cr, userId, auth.genTime, clock(k));
      SealedPrefix(cr, userId, clock(k), auth, DecodeHeader, plain, k);
    }
  }

  /** The address part of vmess_decode_request, read behind the address type. */
  method ReadAddress(ser: Serial, addrType: Byte, ghost plain: seq<Byte>) returns (n: int, addr: Address)
    requires ser.Valid() && ser.buf[..] == plain && ser.size == |plain|
    requires ser.rIdx == 41 && addrType == plain[40]
    modifies ser`rIdx
    ensures ser.Valid()
    ensures AddressEnd(plain).NeedMore? ==> n == 0
    ensures AddressEnd(plain).Bad? ==> n == -1
    ensures AddressEnd(plain).Got? ==> n == ser.rIdx && AddressEnd(plain) == Got(n, addr)
  {
    var ok, raw;
    addr := Domain([]);
    if addrType == ADDR_TYPE_IPV4 {
      ok, raw := ser.Read(4);
      if !ok {
        return 0, addr;
      }
      addr := IPv4(raw);
    } else if addrType == ADDR_TYPE_DOMAIN {
      ok, raw := ser.Read(1);
      if !ok {
        return 0, addr;
      }
      ok, raw := ser.Read(raw[0]);
      if !ok {
        return 0, addr;
      }
      addr := Domain(CStr(raw));
    } else if addrType == ADDR_TYPE_IPV6 {
      ok, raw := ser.Read(16);
      if !ok {
        return 0, addr;
      }
      addr := IPv6(raw);
    } else {
      return -1, addr;
    }
    n := ser.rIdx;
  }

  /** The fields up to the address type. The five one-byte fields are read in one go: running out
      of bytes has the same outcome at each of them. */
  method ReadPrelude(ser: Serial, ghost plain: seq<Byte>)
    returns (ok: bool, vers: Byte, flags: seq<Byte>, port: seq<Byte>, addrType: Byte)
    requires ser.Valid() && ser.buf[..] == plain && ser.size == |plain| && ser.rIdx == 0
    modifies ser`rIdx
    ensures ser.Valid() && ok == (|plain| >= 41)
    ensures ok ==> ser.rIdx == 41 && vers == plain[0] && flags == plain[33..38]
    ensures ok ==> port == plain[38..40] && addrType == plain[40]
  {
    var raw;
    vers, flags, port, addrType := 0, [], [], 0;
    ok, raw := ser.Read(1);
    if !ok { return; }
    vers := raw[0];
    ok, raw := ser.Read(16);  // the client's iv, not checked
    if !ok { return; }
    ok, raw := ser.Read(16);  // the client's key, not checked
    if !ok { return; }
    ok, flags := ser.Read(5);  // nonce, options, padding and cipher, reserved, command
    if !ok { return; }
    ok, port := ser.Read(2);
    if !ok { return; }
    ok, raw := ser.Read(1);
    if !ok { return; }
    addrType := raw[0];
  }

  /** vmess_decode_request on the decrypted header. */
  method ReadHeader(plain: seq<Byte>) returns (n: int, header: Header)
    ensures n == Status(DecodeHeader(plain))
    ensures n > 0 ==> header == DecodeHeader(plain).value
  {
    header := Header(0, Request(Target(Domain([]), 0), 0, 0, 0, 0));
    var ser := new Serial.Init(plain);
    var ok, vers, flags, port, addrType := ReadPrelude(ser, plain);
    if !ok { return 0, header; }
    var end, addr := ReadAddress(ser, addrType, plain);
    if end <= 0 { return end, header; }
    var resv, checksum;
    ok, resv := ser.Read(flags[2] / 16);
    if !ok { return 0, header; }
    var covered := ser.rIdx;
    ok, checksum := ser.Read(4);
    if !ok { return 0, header; }
    assert checksum == plain[covered..covered + 4];
    var expected := CryptoFnv1a(plain[..covered]);
    if checksum != Be32(expected) { return -1, header; }
    n := ser.rIdx;
    header := Header(flags[0],
      Request(Target(addr, FromBe16(port)), vers % 4, flags[2] % 16, flags[4] % 4, flags[1]));
    assert header == HeaderOf(plain, addr);
  }

  /** vmess_decode_request, with the clock as a parameter */
  method VmessDecodeRequest(cr: Crypto, userId: Block, now: Clock, data: seq<Byte>)
    returns (n: int, auth: Auth, req: Request)
    ensures n == Status(DecodeRequest(cr, userId, now, data))
    ensures n > 0 ==> (auth, req) == DecodeRequest(cr, userId, now, data).value
  {
    auth := AuthInit(cr, userId, 0);
    req := Request(Target(Domain([]), 0), 0, 0, 0, 0);
    var ser := new Serial.Init(data);
    var ok, code := ser.Read(16);
    if !ok {
      return 0, auth, req;
    }
    var genTime := VmessLookupTimestamp(cr, userId, code, now);
    if genTime == -1 {
      return -1, auth, req;
    }
    auth := AuthInit(cr, userId, genTime);
    var plain := Decrypt(cr, auth.key, auth.iv, data[16..]);
    var header;
    n, header := ReadHeader(plain);
    if n <= 0 {
      return n, auth, req;
    }
    return n + 16, auth.(nonce := header.nonce), header.req;
  }

  // ---------- the response ----------

  /** The nonce proves that the server could read the request. */
  function EncodeResponse(cr: Crypto, auth: Auth, opt: Byte): seq<Byte>
  {
    Encrypt(cr, auth.key, auth.iv, [auth.nonce, opt, 0, 0])
  }

  function DecodeResponse(cr: Crypto, auth: Auth, data: seq<Byte>): Decoded<Byte>
  {
    if |data| < 4 then
      NeedMore
    else
      var header := Decrypt(cr, auth.key, auth.iv, data[..4]);
      if header[0] != auth.nonce || header[2] != 0 || header[3] != 0 then Bad else Got(4, header[1])
  }

  function ResponseDecoder(cr: Crypto, auth: Auth): Decoder<Byte>
  {
    data => DecodeResponse(cr, auth, data)
  }

  lemma {:induction false} ResponseDecoderStable(cr: Crypto, auth: Auth)
    ensures Sane(ResponseDecoder(cr, auth)) && Stable(ResponseDecoder(cr, auth))
  {
    forall data: seq<Byte>, more: seq<Byte> | |data| >= 4 ensures (data + more)[..4] == data[..4] {
    }
  }

  /** vmess_serial_response */
  method VmessSerialResponse(cr: Crypto, auth: Auth, opt: Byte) returns (header: seq<Byte>)
    requires opt == 1
    ensures header == EncodeResponse(cr, auth, opt)
  {
    var plain := new Byte[4](_ => 0);
    plain[0] := auth.nonce;
    plain[1] := opt;
    assert plain[..] == [auth.nonce, opt, 0, 0];
    header := Encrypt(cr, auth.key, auth.iv, plain[..]);
  }

  /** vmess_decode_response */
  method VmessDecodeResponse(cr: Crypto, auth: Auth, data: seq<Byte>) returns (n: int, opt: Byte)
    ensures n == Status(DecodeResponse(cr, auth, data))
    ensures n > 0 ==> opt == DecodeResponse(cr, auth, data).value
  {
    if |data| < 4 {
      return 0, 0;
    }
    var header := Decrypt(cr, auth.key, auth.iv, data[..4]);
    if header[0] != auth.nonce {
      return -1, 0;
    }
    if header[2] != 0 || header[3] != 0 {
      return -1, 0;
    }
    return 4, header[1];
  }

  /** A response made with the same key and iv is accepted exactly when the nonces agree. */
  lemma {:induction false} ResponseRoundTrip(cr: Crypto, server: Auth, client: Auth, opt: Byte)
    requires server.key == client.key && server.iv == client.iv
    ensures server.nonce == client.nonce ==>
      Recognizes(ResponseDecoder(cr, client), EncodeResponse(cr, server, opt), opt)
    ensures server.nonce != client.nonce ==>
      forall rest :: DecodeResponse(cr, client, EncodeResponse(cr, server, opt) + rest) == Bad
  {
    var wire, d := EncodeResponse(cr, server, opt), ResponseDecoder(cr, client);
    DecryptEncrypt(cr, server.key, server.iv, [server.nonce, opt, 0, 0]);
    assert wire[..4] == wire;
    if server.nonce == client.nonce {
      ResponseDecoderStable(cr, client);
      StableRecognizes(d, wire, opt);
    } else {
      forall rest ensures DecodeResponse(cr, client, wire + rest) == Bad {
        assert (wire + rest)[..4] == wire;
      }
    }
  }
}
