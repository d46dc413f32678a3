/** The data part of a VMess stream: keys, the frame writer of proto/vmess/vmess.c and the frame
    decoder of proto/vmess/decoding.c. */
module VmessFrames {
  import opened ByteStrings
  import opened Cfb
  import opened Checksum
  import opened RBuffers
  import opened Serials

  // ---------- configuration and authentication ----------

  const VMESS_MAGIC_NO: Block :=
    [0xc4, 0x86, 0x19, 0xfe, 0x8f, 0x02, 0x49, 0xe0, 0xb9, 0xe9, 0xed, 0xf7, 0x63, 0xe1, 0x7e, 0x21]

  /** What one connection knows about its peer (vmess_auth_t). */
  datatype Auth = Auth(key: Block, iv: Block, genTime: U64, nonce: Byte)

  /** vmess_gen_key */
  function GenKey(cr: Crypto, userId: Block): Block
  {
    cr.md5(userId + VMESS_MAGIC_NO)
  }

  /** vmess_gen_iv */
  function GenIv(cr: Crypto, time: U64): Block
  {
    cr.md5(Be64(time) + Be64(time) + Be64(time) + Be64(time))
  }

  /** vmess_auth_init */
  function AuthInit(cr: Crypto, userId: Block, genTime: U64): Auth
  {
    Auth(GenKey(cr, userId), GenIv(cr, genTime), genTime, 0)
  }

  // ---------- frames ----------

  /** AES_128_CFB_TRUNK: the most application bytes one frame carries. */
  const MAX_PAYLOAD := 0xffff - 1 - 4

  type Payload = p: seq<Byte> | |p| <= MAX_PAYLOAD

  /** One frame: the length of the rest, then the encrypted checksum and payload. */
  function EncodeFrame(cr: Crypto, auth: Auth, payload: Payload): (frame: seq<Byte>)
    ensures |frame| == |payload| + 6 && FromBe16(frame) == |frame| - 2 >= 4
  {
    Be16(|payload| + 4) + Encrypt(cr, auth.key, auth.iv, Be32(Fnv(payload)) + payload)
  }

  /** vmess_serial_end */
  const END_FRAME: seq<Byte> := [0, 0]

  /** The frames for `data`: full ones, then one with the remainder. Even empty data makes a
      frame. */
  function Chunks(data: seq<Byte>): (chunks: seq<Payload>)
    decreases |data|
  {
    if |data| <= MAX_PAYLOAD then [data] else [data[..MAX_PAYLOAD]] + Chunks(data[MAX_PAYLOAD..])
  }

  type Encoder = Payload -> seq<Byte>

  function FrameEncoder(cr: Crypto, auth: Auth): Encoder
  {
    payload => EncodeFrame(cr, auth, payload)
  }

  function Frames(enc: Encoder, payloads: seq<Payload>): seq<Byte>
  {
    if payloads == [] then [] else enc(payloads[0]) + Frames(enc, payloads[1..])
  }

  function Framed(enc: Encoder, payloads: seq<Payload>): (frames: seq<seq<Byte>>)
    ensures |frames| == |payloads|
  {
    seq(|payloads|, i requires 0 <= i < |payloads| => enc(payloads[i]))
  }

  lemma {:induction false} FramesConcat(enc: Encoder, payloads: seq<Payload>)
    ensures Frames(enc, payloads) == Concat(Framed(enc, payloads))
    decreases |payloads|
  {
    if payloads != [] {
      FramesConcat(enc, payloads[1..]);
      assert Framed(enc, payloads)[1..] == Framed(enc, payloads[1..]);
    }
  }

  /** Framing arithmetic: the payloads join up to the data, all but the last are full, the last is
      empty only for empty data, and so there are ceil(n / 65530) of them for n > 0 bytes. */
  lemma {:induction false} ChunksTile(data: seq<Byte>)
    ensures Concat(Chunks(data)) == data
    ensures data != [] ==> |Chunks(data)| == (|data| + MAX_PAYLOAD - 1) / MAX_PAYLOAD
    ensures data != [] ==> forall i :: 0 <= i < |Chunks(data)| ==> Chunks(data)[i] != []
    ensures data == [] ==> Chunks(data) == [[]]
    ensures forall i :: 0 <= i < |Chunks(data)| - 1 ==> |Chunks(data)[i]| == MAX_PAYLOAD
    decreases |data|
  {
    if |data| > MAX_PAYLOAD {
      ChunksTile(data[MAX_PAYLOAD..]);
      assert Chunks(data)[1..] == Chunks(data[MAX_PAYLOAD..]);
      assert data[..MAX_PAYLOAD] + data[MAX_PAYLOAD..] == data;
    } else {
      assert Chunks(data)[1..] == [];
    }
  }

  lemma {:induction false} LastChunk(data: seq<Byte>)
    ensures var k := |Chunks(data)|;
      && k > 0 && |data| == MAX_PAYLOAD * (k - 1) + |Chunks(data)[k - 1]|
      && (|Chunks(data)[k - 1]| == 0 <==> data == [])
    decreases |data|
  {
    if |data| > MAX_PAYLOAD {
      var rest := Chunks(data[MAX_PAYLOAD..]);
      LastChunk(data[MAX_PAYLOAD..]);
      assert Chunks(data) == [data[..MAX_PAYLOAD]] + rest;
    }
  }

  /** A multiple of the payload size. */
  lemma {:induction false} FullChunks(k: nat, n: nat)
    requires n == MAX_PAYLOAD * k
    ensures n % MAX_PAYLOAD == 0
  {
  }

  /** When the size of the last frame, which a socket write returns, is by chance the size of the data
      written, with `left` still to be sent from an earlier write: never if nothing is left. */
  lemma {:induction false} LastSizeExact(left: seq<Byte>, data: seq<Byte>)
    ensures var chunks := Chunks(left + data);
      6 + |chunks[|chunks| - 1]| == |data| <==> (|left| + 6) % MAX_PAYLOAD == 0 && 6 < |data| <= MAX_PAYLOAD + 6
    ensures left == [] ==> 6 + |Chunks(data)[|Chunks(data)| - 1]| != |data|
  {
    assert [] + data == data;
    LastChunk(left + data);
    var chunks := Chunks(left + data);
    var k, last: nat := |chunks| - 1, |chunks[|chunks| - 1]|;
    assert |left| + |data| == MAX_PAYLOAD * k + last;
    if 6 + last == |data| {
      FullChunks(k, |left| + 6);
    } else if (|left| + 6) % MAX_PAYLOAD == 0 && 6 < |data| <= MAX_PAYLOAD + 6 {
      SameRemainder(k, last, (|left| + 6) / MAX_PAYLOAD, |data| - 6);
    }
  }

  /** A number has one way of being cut into full chunks and a last one that is not empty. */
  lemma {:induction false} SameRemainder(k: nat, m: nat, j: nat, n: nat)
    requires 0 < m <= MAX_PAYLOAD && 0 < n <= MAX_PAYLOAD && MAX_PAYLOAD * k + m == MAX_PAYLOAD * j + n
    ensures m == n
  {
  }

  // ---------- the data decoder ----------

  function DecodeFrame(cr: Crypto, auth: Auth, data: seq<Byte>): Decoded<seq<Byte>>
  {
    if |data| < 2 then
      NeedMore
    else
      var dataLen := FromBe16(data);
      if dataLen == 0 then
        Got(2, [])
      else if dataLen < 4 then
        Bad
      else if |data| < 2 + dataLen then
        NeedMore
      else
        var plain := Decrypt(cr, auth.key, auth.iv, data[2..2 + dataLen]);
        if plain[..4] == Be32(Fnv(plain[4..])) then Got(2 + dataLen, plain[4..]) else Bad
  }

  /** vmess_decode_data */
  method VmessDecodeData(cr: Crypto, auth: Auth, data: seq<Byte>) returns (n: int, trunk: seq<Byte>)
    ensures n == Status(DecodeFrame(cr, auth, data))
    ensures n > 0 ==> trunk == DecodeFrame(cr, auth, data).value
  {
    trunk := [];
    var ser := new Serial.Init(data);
    var ok, raw := ser.Read(2);
    if !ok {
      return 0, [];
    }
    var dataLen := FromBe16(raw);
    assert dataLen == FromBe16(data);
    if dataLen == 0 {
      return ser.rIdx, [];
    }
    if dataLen < 4 {
      return -1, [];
    }
    var dataBuf;
    ok, dataBuf := ser.Read(dataLen);
    if !ok {
      return 0, [];
    }
    assert dataBuf == data[2..2 + dataLen];
    var plain := Decrypt(cr, auth.key, auth.iv, dataBuf);
    var checksum := CryptoFnv1a(plain[4..]);
    if plain[..4] != Be32(checksum) {
      return -1, [];
    }
    return ser.rIdx, plain[4..];
  }

  function DataDecoder(cr: Crypto, auth: Auth): Decoder<seq<Byte>>
  {
    data => DecodeFrame(cr, auth, data)
  }

  lemma {:induction false} DataDecoderStable(cr: Crypto, auth: Auth)
    ensures Sane(DataDecoder(cr, auth)) && Stable(DataDecoder(cr, auth))
  {
    var d := DataDecoder(cr, auth);
    forall data, more | !d(data).NeedMore? ensures d(data + more) == d(data) {
      assert FromBe16(data + more) == FromBe16(data);
      var len := FromBe16(data);
      if |data| >= 2 + len {
        assert (data + more)[2..2 + len] == data[2..2 + len];
      }
    }
  }

  /** A frame made for `payload` but carrying `carried` decodes exactly when the checksums agree. */
  lemma {:induction false} FrameDecodes(cr: Crypto, auth: Auth, payload: Payload, carried: Payload)
    requires |carried| == |payload|
    ensures var body := Encrypt(cr, auth.key, auth.iv, Be32(Fnv(payload)) + carried);
      var frame := Be16(|payload| + 4) + body;
      DecodeFrame(cr, auth, frame)
      == if Fnv(payload) == Fnv(carried) then Got(|frame|, carried) else Bad
  {
    var plain := Be32(Fnv(payload)) + carried;
    var body := Encrypt(cr, auth.key, auth.iv, plain);
    var frame := Be16(|payload| + 4) + body;
    Be16RoundTrip(|payload| + 4, body);
    assert frame[2..2 + |plain|] == body;
    DecryptEncrypt(cr, auth.key, auth.iv, plain);
    assert plain[..4] == Be32(Fnv(payload)) && plain[4..] == carried;
    Be32Injective(Fnv(payload), Fnv(carried));
  }

  /** The decoder gives back the payload of a frame, whatever follows, and asks for more on every
      proper prefix of it. */
  lemma {:induction false} FrameRecognized(cr: Crypto, auth: Auth, payload: Payload)
    ensures Recognizes(DataDecoder(cr, auth), EncodeFrame(cr, auth, payload), payload)
  {
    DataDecoderStable(cr, auth);
    FrameDecodes(cr, auth, payload, payload);
    StableRecognizes(DataDecoder(cr, auth), EncodeFrame(cr, auth, payload), payload);
  }

  lemma {:induction false} EndFrameRecognized(cr: Crypto, auth: Auth)
    ensures Recognizes(DataDecoder(cr, auth), END_FRAME, [])
  {
    DataDecoderStable(cr, auth);
    StableRecognizes(DataDecoder(cr, auth), END_FRAME, []);
  }

  /** The decoder reads what the encoder writes, and the end frame as an empty payload. */
  ghost predicate Matched(enc: Encoder, d: Decoder<seq<Byte>>)
  {
    && Sane(d) && Stable(d)
    && (forall payload: Payload :: Recognizes(d, enc(payload), payload))
    && Recognizes(d, END_FRAME, [])
  }

  lemma {:induction false} FramesMatched(cr: Crypto, auth: Auth)
    ensures Matched(FrameEncoder(cr, auth), DataDecoder(cr, auth))
  {
    DataDecoderStable(cr, auth);
    EndFrameRecognized(cr, auth);
    forall payload: Payload ensures Recognizes(DataDecoder(cr, auth), FrameEncoder(cr, auth)(payload), payload) {
      FrameRecognized(cr, auth, payload);
    }
  }

  /** A frame whose decrypted payload was changed in exactly one byte is rejected. */
  lemma {:induction false} OneByteChangeRejected(cr: Crypto, auth: Auth, payload: Payload, carried: Payload, i: nat)
    requires DifferOnlyAt(payload, carried, i)
    ensures var body := Encrypt(cr, auth.key, auth.iv, Be32(Fnv(payload)) + carried);
      DecodeFrame(cr, auth, Be16(|payload| + 4) + body) == Bad
  {
    OneByteChangeDetected(payload, carried, i);
    FrameDecodes(cr, auth, payload, carried);
  }
}
