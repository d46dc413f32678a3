# A verified model of the relay's protocols and of its configuration language

These Dafny modules model the code that carries, frames, encrypts and relays bytes (`proto/`, `pub/serial.c`,
`crypto/`) and the TOML front end (`toml/`), and prove what that code is for. Values of the program are datatypes
and sequences; its objects (buffers, serializers, sockets, token lists, hash tables, the table generator, a relay
worker) are classes whose methods follow the C code and are proved against specification functions. The system-wide
results are lemmas about those functions, over every input, every run or every reachable state.

`dafny verify dfyconfig.toml` checks the whole project.

## What is modelled

* **The VMess byte stream.** `VmessFrames` and `VmessWriter` cut application bytes into encrypted, checksummed frames;
  `Descriptors` and `RBuffers` bring wire bytes in through any fragmentation and reassemble frames with an incremental
  decoder; `VBuffers` keeps what a read left over; `VmessSocket` puts these layers together and `VmessStream` proves
  that their composition is the identity. `VmessHeader` is the handshake in front of it, and `VmessSession` runs whole
  connections between two sockets. `Cfb`, `Checksum` and `ByteStrings` are the layers below: the block cipher, MD5 and
  HMAC are arbitrary functions (the fields of `Crypto`), CFB (section 6.3 of NIST SP 800-38A) is defined over them, and
  the checksum is computed bit by bit.
* **The condition-variable queue.** `VBuffers` has its operations, `VBufferMonitor` every interleaving of them.
* **SOCKS 4 and 5** (sections 3 to 6 of RFC 1928). `Socks` has the codecs, `SocksHandshake` client and server against
  each other as a state machine, `SocksSocket` the handshake code of either side and what it loses.
* **The epoll relay.** `Relay` has the life of sockets, records and registrations over whole runs of the event loop,
  `RelayPipe` the edge-triggered pipe loop on a VMess source.
* **The TOML front end.** `TomlLexer` (automaton and its table), `TomlTokens` (what tokens look like; keywords and
  comments), `TomlParser` (ordered-choice engine and its soundness), `TomlGrammar` (the rules), `TomlRules` (how each
  rule reads a token list), `TomlLayout` (every way of writing the same entries), `TomlComplete` (ordered choice loses
  nothing), `TomlPrinter` (the dump functions), `TomlRoundTrip` and `TomlDumpExact` (printing then parsing),
  `TomlTable` (the hash table), `TomlPaths` and `TomlGenerator` (nested hash tables), `TomlLoad` (from text to tables
  and back out by key).

A descriptor is a list of events: fragments cut anywhere, would-block outcomes, and an end that is end-of-file or an
error. `Crypto`, the clock, random padding and the outcomes of accept, handshake and connect are parameters. A decoder
is a function from the bytes so far to "need more", "bad" or "got a value from the first n bytes"; four conditions on
decoders carry the stream proofs: `Sane` (it takes at least one byte and no more than there are), `Stable` (more bytes
do not change a verdict), `Prompt` (it looks at no byte behind its frame) and `Recognizes` (it accepts a given frame
whatever follows, and asks for more on every proper prefix of it).

## Where the code departs from its intent

The model does what the code does. Where that breaks a law one would expect, the exact condition under which the law
holds is proved.

* Up to 16 bytes of padding may be drawn (`proto/vmess/request.c:32`), but the length has four bits on the wire
  (`proto/vmess/request.c:57`): `RequestRoundTrip` holds if and only if at most 15 were drawn and a domain name has at
  most 255 bytes.
* The search for a header's timestamp wraps below the epoch and then finds nothing, and finds an earlier time on a
  collision of validation codes: `LookupExact`.
* An empty write makes a frame without payload, which reads as end of stream (`proto/vmess/tcp.c:40`): `HeardAll` and
  `EndToEnd` say what is heard then.
* `vbuffer_try_read` reports a closed buffer even if bytes are left (`proto/buf.c:199`), and never signals that it
  drained one: `RunWakesUp` says exactly which runs leave a waiter asleep. VMess reads are safe because a leftover
  buffer is only closed when it is empty and everything has been delivered (`ClosedForGood`).
* `_vmess_tcp_socket_write` returns the size of the last frame, not a byte count (`proto/vmess/tcp.c:96`). That is six
  more than the last chunk (`VmessSocket.Socket.Write`). It is the size of the data only by chance: `LastSizeExact`
  has the condition, which never holds if nothing is left from an earlier write. A write that fails loses the frame
  that failed and keeps those behind it for the next write.
* A close sends the end frame although a frame before it was lost, and nothing on the wire tells. A read that returns 0
  then means that everything was read if and only if no frame that would have been heard was lost: `EndToEnd`.
* A non-blocking read at the end of a truncated stream reports would-block (`proto/buf.c:53-64`): `ReadAtEnd` says
  exactly when it does, when it fails and when it reports the end.
* The relay counts end-of-file events, not directions: if one direction reports end-of-file twice, a socket is shut
  down twice and the pair is torn down early. `HandleSafe` and `RunSafe` are equivalences for this reason, and
  `RepeatedEofReachable` shows such a run. A VMess source that has reported its end reports it again whenever its
  descriptor is (`RelayPipe.Pipe`).
* The SOCKS server does not notice a failed read of the version byte (`proto/socks/tcp.c:104`); whatever it takes for
  one, the handshake is refused (`VersionAlone`). Nor does it notice that an answer could not be written: the handshake
  then succeeds all the same (`SocksSocket.Socket.ServerHandshake`).
* Bytes that arrive behind a SOCKS handshake are dropped with its buffer (`proto/socks/tcp.c:80-83`). There are none
  exactly if the last message ends a fragment or fills the buffer: `Lossless` is the condition in terms of what
  arrives, and `RepliesLossless` says that a client of the usual replies loses nothing exactly if a fragment ends with
  them.
* The checksum adds the prime where FNV-1a multiplies (`crypto/hash.c:38`); it still detects every one-byte change.
* A hash table never counts its entries (`toml/table.c:94-109`), so it never grows and the ninth distinct key meets the
  assertion: `HashTable.HashTableInsert`, `FillNew` with `InsertAllExact`, and the bound in `PutAllExact`. Loading a
  text aborts then, where any other error gives a null pointer: `TomlLoad`.
* Any prefix of `true` or `false` is a keyword (`toml/toml.c:90-92`): `KeywordExact`.
* After a lexer error `toml_lexer` dereferences a null list (`toml/toml.c:230`); the model stops with an error there,
  which is what `toml/toml.c:498` expects.
* A string from single quotes may contain an unescaped double quote, and then its dump does not parse back
  (`SingleQuoted`, `UnreadableParsed`); a missing key dumps as a placeholder. `DumpExact` has the exact condition.

## Model

| member | source | states |
|---|---|---|
| ByteStrings.XorInjective | crypto/hash.c:38 | Exclusive or, defined bit by bit, is injective in either operand |
| ByteStrings.MaskInverse | crypto/aes.c:40-60 | Masking with the same key stream twice gives the data back |
| ByteStrings.Be16RoundTrip | pub/type.h:28-50 | Decoding an encoded 16-bit number gives it back, whatever follows |
| ByteStrings.FromBe16RoundTrip | pub/type.h:28-50 | Encoding the number that two bytes are read as gives the bytes back |
| ByteStrings.Be32Injective | pub/type.h:28-40 | Different checksums have different big-endian bytes |
| Cfb.DecryptEncrypt | crypto/aes.c:62-80 | Decryption inverts encryption at every length, for any block function, key and iv |
| Cfb.EncryptDecrypt | crypto/aes.c:62-80 | Encryption inverts decryption, so the cipher is a bijection at every length |
| Cfb.DecryptPrefix | proto/vmess/decoding.c:182-183 | Decrypting a prefix gives the prefix of the decryption |
| Checksum.CryptoFnv1a | crypto/hash.c:32-41 | The loop computes the fold of the checksum step over the bytes, in 32 bits, adding the prime |
| Checksum.StepBijective | crypto/hash.c:38 | For a fixed byte a step is a bijection of the 32-bit state |
| Checksum.StepInjectiveInByte | crypto/hash.c:38 | For a fixed state a step is injective in the byte |
| Checksum.OneByteChangeDetected | crypto/hash.c:32-41 | Payloads of equal length that differ in exactly one byte never share a checksum |
| Serials.Serial.Init | pub/serial.c:9-23 | A serial on existing bytes holds them, unread |
| Serials.Serial.Ensure | pub/serial.c:43-57 | The capacity is doubled as often as needed for the extra bytes to fit, and the contents stay |
| Serials.Serial.Write | pub/serial.c:59-97 | The bytes are appended and nothing else changes |
| Serials.Serial.Read | pub/serial.c:99-111 | The next n bytes are all taken, or none if fewer are left |
| Descriptors.ReadOnce | pub/fd.h:26-43 | One read takes a non-empty start of the next fragment, or tells would-block, error and end-of-file apart, and loses nothing |
| Descriptors.ReadOnceStops | pub/fd.h:26-43 | A read takes bytes of one fragment only: it stops at the end of the fragment or at the size asked for, and leaves the later fragments where they are |
| Descriptors.Fd.Read | pub/fd.h:15-21 | A blocking read returns the next bytes, or 0 or -1 only at end-of-file or an error |
| Descriptors.Fd.Write | pub/fd.h:45-51 | A write passes everything on or fails and passes nothing on, whatever earlier writes did |
| RBuffers.RBuffer.Expand | proto/buf.c:23-28 | The buffer doubles and keeps its contents |
| RBuffers.RBuffer.Push | proto/buf.c:30-39 | The bytes are appended |
| RBuffers.RBuffer.Fill | proto/buf.c:91-113 | One pass of a read loop moves bytes from the descriptor to the end of the buffer and loses none |
| RBuffers.RBuffer.Decode | proto/buf.c:115-135 | The outcome is the decoder's verdict on the buffer, and an accepted frame is cut off, nothing more |
| RBuffers.RBuffer.Read | proto/buf.c:82-137 | A blocking read ends with the decoder's verdict on what was received or at the end of the stream, leaves the descriptor alone if a frame is buffered already, and keeps every byte behind the frame |
| RBuffers.RBuffer.TryRead | proto/buf.c:41-80 | A non-blocking read takes in exactly the bytes that are ready, leaves the descriptor at a would-block outcome or end-of-file, and decodes once; it fails exactly on a bad frame or if an error comes first |
| RBuffers.StableRecognizes | proto/buf.c:115-135 | A stable decoder that accepts a frame asks for more on every proper prefix of it |
| RBuffers.RecognizedVerdict | proto/buf.c:82-137 | A verdict on a stream that starts with a recognized frame is that frame, and it comes no later than the end of the stream |
| RBuffers.VerdictOnStream | proto/buf.c:82-137 | A verdict reached on a part of a stream is the verdict on the whole stream |
| RBuffers.ReadWhole | proto/buf.c:82-137 | Fragmentation independence: a blocking read gives a value exactly when the whole stream starts with a frame, that frame's value, and leaves exactly what follows it |
| RBuffers.GatheredTook | proto/buf.c:82-137 | What a blocking read takes in: nothing if the frame is there, else up to the first end of a fragment or of the doubled buffer at or behind the end of the frame |
| RBuffers.TookNothingMore | proto/buf.c:82-137 | A read that has to wait for its frame leaves nothing behind it in the buffer exactly when a fragment ends with the frame or the frame fills the doubled buffer |
| RBuffers.ReadValues | proto/buf.c:41-137 | Any mix of blocking and non-blocking reads yields, in order, the values of decoding the stream as a whole; a read gives none only when no whole frame is there |
| VBuffers.VBuffer.constructor | proto/buf.c:148-165 | A new queue is empty and open |
| VBuffers.VBuffer.TryRead | proto/buf.c:192-215 | Takes the first bytes out, 0 if there are none, -1 once closed even if bytes are left |
| VBuffers.VBuffer.Read | proto/buf.c:217-247 | Sleeps exactly while empty and open, then takes the first bytes out, and signals those who wait for it to drain exactly when it takes the last bytes |
| VBuffers.VBuffer.Write | proto/buf.c:256-276 | Appends, or is ignored once closed |
| VBuffers.VBuffer.Extend | proto/buf.c:249-254 | The buffer doubles and keeps its contents |
| VBuffers.VBuffer.Close | proto/buf.c:278-289 | Closes and keeps the bytes |
| VBuffers.VBuffer.Clear | proto/buf.c:184-189 | Drops the bytes |
| VBufferMonitor.RunConserves | proto/buf.c:167-289 | Over every interleaving the bytes delivered, drained and buffered are those accepted, in order |
| VBufferMonitor.WakeupStep | proto/buf.c:167-289 | A step keeps the wake-up guarantee exactly when it is not a try-read that empties the queue under a waiter |
| VBufferMonitor.RunWakesUp | proto/buf.c:167-289 | In a run a sleeping reader always means empty and open, and a sleeping drain-waiter not empty, exactly when no try-read strands a waiter |
| VBufferMonitor.TryReadStrandsWaiter | proto/buf.c:192-215 | There is a run in which a try-read leaves a waiter asleep on an empty queue |
| VmessFrames.EncodeFrame | proto/vmess/vmess.c:150-170 | A frame is two length bytes and as many more bytes as they say, at least four and six more than the payload in all |
| VmessFrames.ChunksTile | proto/vmess/vmess.c:112-195 | The payloads of n > 0 bytes are ceil(n / 65530), all full but the last, non-empty, and make up the bytes |
| VmessFrames.LastSizeExact | proto/vmess/tcp.c:96 | The size of the last frame, which a write returns, is the size of the data exactly if what was left is 6 short of whole payloads and the data has 7 to 65536 bytes; never if nothing was left |
| VmessFrames.VmessDecodeData | proto/vmess/decoding.c:44-124 | The decoder follows the specification: need more, end of stream, corrupt, or a payload and the frame's length |
| VmessFrames.DataDecoderStable | proto/vmess/decoding.c:44-124 | More bytes never change a verdict of the data decoder |
| VmessFrames.FrameRecognized | proto/vmess/decoding.c:44-124 | An encoded frame is accepted with its payload whatever follows, and every proper prefix asks for more |
| VmessFrames.EndFrameRecognized | proto/vmess/vmess.c:219-224 | The end frame is accepted as a frame without payload |
| VmessFrames.FramesMatched | proto/vmess/vmess.c:150-224 | Encoder and decoder of a connection satisfy the hypotheses of the end-to-end theorem |
| VmessFrames.FrameDecodes | proto/vmess/decoding.c:95-123 | A frame made for one payload but carrying another is accepted exactly when their checksums agree |
| VmessFrames.OneByteChangeRejected | proto/vmess/decoding.c:100-111 | A frame whose decrypted payload was changed in exactly one byte is rejected |
| VmessWriter.VmessSerial.constructor | proto/vmess/vmess.c:81-89 | A new serializer has no header and nothing to digest |
| VmessWriter.VmessSerial.Write | proto/vmess/vmess.c:91-98 | The payloads pending are those of what was left and the new bytes together; a buffer reallocated to size zero is gone |
| VmessWriter.VmessSerial.Seal | proto/vmess/vmess.c:151-170 | The bytes built in place are the frame of the chunk |
| VmessWriter.VmessSerial.DigestData | proto/vmess/vmess.c:129-194 | One call hands out the frame of the next payload and leaves the others pending; the buffer is released after the last |
| VmessWriter.VmessSerial.Digest | proto/vmess/vmess.c:112-195 | Pieces come out one a call, in order: the header first, then the frames, then nothing |
| VmessWriter.Pump | proto/vmess/tcp.c:96-103 | One turn of the flush loop moves one piece from the serializer to the descriptor and returns its size, or fails and loses the piece |
| VmessWriter.Flush | proto/vmess/tcp.c:95-103 | The flush loop of a write ends and leaves what the specification says: what is sent, the pieces kept, the size returned |
| VmessWriter.FlushAllSends | proto/vmess/tcp.c:95-103 | The pieces are sent in order until a write fails |
| VmessWriter.FlushAllKeeps | proto/vmess/tcp.c:95-103 | The piece that fails is lost and those behind it are kept; the last size is that of the last piece sent |
| VmessWriter.FlushBlindly | proto/vmess/tcp.c:227-230 | The loop of the handshake tries every piece; exactly those whose writes succeed are sent |
| VmessHeader.VmessLookupTimestamp | proto/vmess/decoding.c:9-29 | The search loop finds the first time in the wrapped window with the validation code, else reports none |
| VmessHeader.LookupExact | proto/vmess/decoding.c:9-29 | The generation time is found exactly when the clock is past the window's half width, the skew within it, and no earlier time in the window collides |
| VmessHeader.VmessSerialRequest | proto/vmess/request.c:16-104 | The header built step by step is the specified wire header for the target, padding and state |
| VmessHeader.WriteAddress | proto/vmess/request.c:64-80 | Appends the address, a domain name cut to its length modulo 256 |
| VmessHeader.WritePadding | proto/vmess/request.c:82-84 | Appends the padding bytes |
| VmessHeader.SealHeader | proto/vmess/request.c:86-98 | Appends the checksum and encrypts all but the validation code in place |
| VmessHeader.VmessDecodeRequest | proto/vmess/decoding.c:126-265 | The decoder follows the specification at the given clock, on every input |
| VmessHeader.ReadAddress | proto/vmess/decoding.c:208-236 | Reads the address behind its type, tells need-more from bad |
| VmessHeader.RequestRoundTrip | proto/vmess/request.c:16-104 | Decoding the encoded header followed by anything gives its exact length and the original fields and nonce, if and only if the padding has at most 15 bytes and a domain name at most 255 |
| VmessHeader.RequestDecoderStable | proto/vmess/decoding.c:126-265 | At a fixed clock more bytes never change a verdict of the request decoder |
| VmessHeader.RequestDecoderSane | proto/vmess/decoding.c:126-265 | Under any clock an accepted header has at least one byte and is there in full |
| VmessHeader.RequestRecognized | proto/vmess/decoding.c:126-265 | As long as the clock stays in the window, the header is accepted whatever follows and every proper prefix asks for more |
| VmessHeader.PaddingByte | proto/vmess/request.c:57 | The shared byte gives padding length and cipher back exactly when the length has four bits |
| VmessHeader.VmessSerialResponse | proto/vmess/response.c:16-37 | The response header is the encrypted nonce, option and two zero bytes |
| VmessHeader.VmessDecodeResponse | proto/vmess/decoding.c:267-298 | The decoder follows the specification |
| VmessHeader.ResponseDecoderStable | proto/vmess/decoding.c:267-298 | More bytes never change a verdict of the response decoder |
| VmessHeader.ResponseRoundTrip | proto/vmess/decoding.c:267-298 | A response under the same key and iv is accepted when the nonces agree and rejected, whatever follows, when they do not |
| VmessStream.PlainExtends | proto/vmess/tcp.c:13-73 | More wire bytes only ever add to what a cut-off stream means |
| VmessStream.SessionPlain | proto/vmess/tcp.c:37-168 | The frames of payloads and an end frame mean the payloads before the first empty one, whatever follows, and end |
| VmessStream.ChunksHeard | proto/vmess/tcp.c:87-108 | Cutting writes into payloads changes neither what is written nor what is heard |
| VmessStream.HeardCut | proto/vmess/tcp.c:37-58 | What is heard of the first payloads is the start of what is heard of all, and all of it exactly if those left out come behind the first empty one |
| VmessStream.HeardAll | proto/vmess/tcp.c:40-44 | Everything written is heard exactly when only empty writes follow an empty one |
| VmessStream.ClosedForGood | proto/vmess/tcp.c:20-25 | Once the leftover buffer is closed it is empty, everything has been delivered, and every later read returns 0 and changes nothing, so reporting the end loses nothing |
| VmessStream.ReadAtEnd | proto/buf.c:53-64 | Once everything has arrived and nothing is left over, a non-blocking read reports would-block exactly on a stream cut short in the middle of a frame, fails exactly on a corrupt one and returns 0 exactly at the end |
| VmessStream.FreshStep | proto/vmess/tcp.c:37-58 | A read served from a new frame hands out its start and keeps the rest |
| VmessStream.ReadingConserves | proto/vmess/tcp.c:13-73 | Over any reads, what was delivered and what is undelivered make up the meaning of the stream |
| VmessStream.EndToEnd | proto/vmess/tcp.c:13-168 | For any writes of which the first frames are sent, then perhaps the end frame, any fragmentation and loss of the tail, and any reads: what is read is a prefix of what was written; at the end it is what the frames sent say, and all that was written exactly when only empty writes follow an empty one and no frame before it was lost; and without loss on the way no read fails and no blocking read gives up |
| VmessStream.EndReached | proto/vmess/tcp.c:13-73 | Progress: if everything sent arrives, more blocking reads than there are bytes to hear include one that returns 0 |
| VmessStream.HeaderReceived | proto/vmess/tcp.c:182-197 | A recognized header at the start of a stream is received in any fragments and the rest of the stream is left, also if an error follows |
| VmessSocket.Socket.constructor | proto/vmess/tcp.c:335-365 | A new socket has empty buffers, no serializer and the state derived from the generation time |
| VmessSocket.Socket.ReadFrame | proto/vmess/tcp.c:28-34 | The frame read inside a socket read, blocking or not, as a step of the reader |
| VmessSocket.Socket.Serve | proto/vmess/tcp.c:37-58 | What fits is handed out, the rest is kept, an empty frame closes |
| VmessSocket.Socket.ReadWith | proto/vmess/tcp.c:13-73 | A socket read is a step of the reader of the end-to-end theorem, for any stable decoder |
| VmessSocket.Socket.Read | proto/vmess/tcp.c:75-85 | The same for the decoder of the connection, blocking and non-blocking |
| VmessSocket.Socket.Write | proto/vmess/tcp.c:87-108 | From any state of the serializer: the frames of what was left and the new data are sent in order until a write fails; the call fails exactly when one does, and else returns the size of the last frame; after a failure the frames behind the lost one are kept |
| VmessSocket.Socket.Close | proto/vmess/tcp.c:152-168 | A close sends the end frame and shuts the descriptor down for writing |
| VmessSocket.Socket.ClientHandshake | proto/vmess/tcp.c:213-254 | The client sends its request header, not minding a failed write, and waits for the response, in any fragments |
| VmessSocket.Socket.ServerHandshake | proto/vmess/tcp.c:180-212 | The server waits for a request, takes over its state and target and answers, not minding a failed write; nothing is sent on failure |
| VmessSession.HandshakeAgrees | proto/vmess/tcp.c:170-254 | With the same user, a clock in the window without collision and at most 15 bytes of padding, under any fragmentation both sides finish with equal state, the server has the client's target, and what is left is exactly the start of the data |
| VmessSession.WriteAll | proto/vmess/tcp.c:87-108 | Successive writes, until one fails, send the frames of all of them in order up to the one that fails |
| VmessSession.WriteAndClose | proto/vmess/tcp.c:87-168 | Writes until one fails, and a close, send the frames up to the one that failed and then the end frame, unless that write fails too |
| VmessSession.ReadAll | proto/vmess/tcp.c:75-85 | Any series of reads on the modelled socket is a reading the end-to-end theorem is about |
| VmessSession.ReadFlow | proto/vmess/tcp.c:75-85 | The reading side on a connected socket, whatever its buffer holds already: what is read is a prefix of what was written, at the end it is what the frames sent say, and if the end frame got out and everything arrives, no read goes wrong and enough blocking ones reach the end |
| VmessSession.Exchange | proto/vmess/tcp.c:75-168 | Two connected sockets, in both directions at once, with failing writes and a network that delays, cuts up and loses the tail: each sends exactly its frames up to the first failure and the end frame, and each reads what the other is owed to have written |
| VmessSession.Connect | proto/vmess/tcp.c:170-254 | The two handshake methods on two sockets succeed on each other's headers, under any fragmentation and a moving clock, send those headers, and leave both with the same keys, the target and exactly the data |
| VmessSession.Session | proto/vmess/tcp.c:75-254 | From two new sockets to the last read: the handshakes succeed, the server learns the target, and each side reads what the other is owed to have written, also where data arrives together with a header; and each sends its header and then what it writes |
| Targets.CStr | proto/common.c:33-38 | A name is copied up to its first NUL |
| Targets.KeptWhole | proto/socks/socks5.c:57-62 | A name survives the one-byte length exactly when it has at most 255 bytes |
| Socks.Socks5EncodeAuthSel | proto/socks/socks5.c:8-21 | The method selection on the wire |
| Socks.Socks5EncodeRequest | proto/socks/socks5.c:37-77 | The request on the wire, a name cut to its length modulo 256 |
| Socks.Socks5DecodeMessage | proto/socks/socks5.c:153-318 | The request and response decoders follow the specification |
| Socks.Socks4DecodeRequest | proto/socks/socks4.c:43-76 | The scan for the terminating NUL finds the first one and the frame ends behind it |
| Socks.AuthDecodersStable | proto/socks/socks5.c:100-151 | More bytes never change a verdict of the method decoders |
| Socks.Message5Stable | proto/socks/socks5.c:153-318 | Nor of the version 5 request and response decoders |
| Socks.Version4Stable | proto/socks/socks4.c:43-93 | Nor of the version 4 decoders |
| Socks.Message5Prompt | proto/socks/socks5.c:153-318 | The version 5 message decoders look at no byte behind the message |
| Socks.Version4Prompt | proto/socks/socks4.c:43-93 | Nor do the version 4 decoders |
| Socks.AuthRoundTrip | proto/socks/socks5.c:8-35 | Method selection and answer are accepted whatever follows, and proper prefixes ask for more |
| Socks.Request5RoundTrip | proto/socks/socks5.c:37-233 | The same for a version 5 request, if and only if a domain name has at most 255 bytes |
| Socks.ResponsesRoundTrip | proto/socks/socks5.c:79-98 | The same for the responses of either version |
| Socks.Request4RoundTrip | proto/socks/socks4.c:6-76 | The same for a version 4 request, with its IPv4 target |
| SocksHandshake.StepKeepsInv | proto/socks/tcp.c:101-216 | Every step of client, server and network keeps the handshake invariant |
| SocksHandshake.Progress | proto/socks/tcp.c:101-216 | Until both have finished somebody can move: no deadlock |
| SocksHandshake.RunsAreShort | proto/socks/tcp.c:101-216 | Every run is bounded by the potential of the initial state |
| SocksHandshake.HandshakeSucceeds | proto/socks/tcp.c:101-216 | A run of version 5 can go no further exactly when both have finished successfully with the same target and no byte is in flight or unread |
| SocksSocket.Socket.ServerHandshake | proto/socks/tcp.c:101-183 | Whatever arrives, fails or cannot be written, the server half ends as specified, depending on the bytes that arrive and not on their fragments: result, recorded target, the answers as far as writes succeed, and the bytes behind the handshake, of which those buffered are dropped, none exactly if the handshake was lossless |
| SocksSocket.Socket.ClientHandshake | proto/socks/tcp.c:184-253 | The same for the client half |
| SocksSocket.HalvesFit | proto/socks/tcp.c:101-253 | Each half answers the other: client and server succeed on each other's bytes, read exactly those, and the server records the client's target, for either version |
| SocksSocket.SocksDecodersValid | proto/socks/socks5.c:100-318 | The SOCKS decoders meet the conditions under which the handshake is proved |
| SocksSocket.TwoMessages | proto/socks/tcp.c:80-83 | Two messages read through one buffer leave nothing behind them exactly if a fragment ends with the second, or it fills the grown buffer, or both together fill it at once with no fragment ending in between |
| SocksSocket.RepliesLossless | proto/socks/tcp.c:184-253 | A client of the usual replies drops nothing exactly if a fragment ends with them; a peer that sends nothing behind its messages loses nothing |
| SocksSocket.VersionAlone | proto/socks/tcp.c:101-109 | A version byte without the rest of its message is refused, whatever it is, so an unnoticed failed read does no harm |
| Relay.RemoveReleases | proto/relay/etcp.c:63-79 | Removing a pair deregisters both descriptors, then releases both sockets and both records once, and nothing else; releasing a registered socket would be a misuse |
| Relay.AcceptKeepsInv | proto/relay/etcp.c:95-155 | A new pair keeps the invariant |
| Relay.FirstEofHalfCloses | proto/relay/etcp.c:171-188 | The first end-of-file shuts down the other socket and counts on both records |
| Relay.SecondEofKeepsInv | proto/relay/etcp.c:181-183 | The second, of the other direction, removes the pair |
| Relay.HandleSafe | proto/relay/etcp.c:81-198 | Handling an event keeps the invariant (equal counts on linked records, registrations only to live records, no misuse) exactly when no direction that has reported end-of-file reports it again or attempts a write, and else something is misused |
| Relay.RunSafe | proto/relay/etcp.c:200-222 | Over whole runs nothing is released twice or while still registered, used after release, shut down twice or written to after that, if no direction repeats its end-of-file; else something is |
| Relay.RepeatedEofTearsDown | proto/relay/etcp.c:171-188 | What a repeated end-of-file does: a second shutdown and an early release |
| Relay.RepeatedEofReachable | proto/relay/etcp.c:171-188 | A run in which one direction reports end-of-file twice: in order after the first report, a second shutdown and an early release of both sockets after the second |
| Relay.Worker.Remove | proto/relay/etcp.c:63-79 | Removing a pair from the worker's fields releases exactly that pair and keeps the invariant |
| Relay.Worker.Link | proto/relay/etcp.c:133-154 | Two linked, registered records keep the invariant of the worker |
| Relay.Worker.EtcpHandle | proto/relay/etcp.c:81-198 | Handling an event keeps the worker's invariant exactly when the event does not repeat an end-of-file |
| Relay.Worker.EtcpWorker | proto/relay/etcp.c:200-222 | The event loop, until it is told to stop: the invariant holds at the end, and nothing has been misused, exactly when no event repeated an end-of-file |
| RelayPipe.Pipe | proto/relay/etcp.c:164-169 | The pipe loop passes on the decoded bytes in order; when it stops for would-block no leftover and no whole frame is buffered and the last system call met would-block or end-of-file; having returned 0 it returns 0 ever after and writes nothing |
| TomlLexer.TableMeans | toml/toml.c:105-212 | The transition table, searched in order, is the automaton of the token shapes |
| TomlLexer.FindEntry | toml/lexer.c:95-130 | The search loop over a row finds the automaton's action |
| TomlLexer.TokenList.Push | toml/lexer.c:60-70 | A token is appended, the array doubled when full |
| TomlLexer.ScanStep | toml/lexer.c:95-152 | One turn of the loop is one step of the automaton, and falls in the order of characters left and rank |
| TomlLexer.Lexer | toml/lexer.c:81-155 | The lexer loop ends and returns the tokens of the automaton's run, or its error |
| TomlTokens.ActionKeepsShape | toml/toml.c:105-212 | Every action keeps the shape of the current lexeme and ends a token only in its right shape |
| TomlTokens.LexTiles | toml/lexer.c:95-152 | The tokens are non-empty, well shaped (a string has matching quotes and at least two characters) and tile the source; only an unfinished comment or a string cut behind a backslash is dropped |
| TomlTokens.KeywordExact | toml/toml.c:81-100 | A word becomes a keyword exactly when it is a prefix of one |
| TomlTokens.FindKeyword | toml/toml.c:89-96 | The loop over the keyword table |
| TomlTokens.TomlKeyword | toml/toml.c:81-100 | Keywords are marked in place and nothing else changes |
| TomlTokens.TomlTokenizer | toml/toml.c:214-238 | Lexing, keywords and comment removal |
| TomlParser.Parse | toml/parser.h:145-192 | A rule ends, by tokens left and rule rank; it matches tokens that are there, and none only if it may |
| TomlParser.MatchRule | toml/parser.h:91-143 | The loop over the symbols matches what the specification matches, with its children in order |
| TomlParser.DeriveSymbols | toml/parser.h:91-143 | What a symbol sequence matches has derivations whose leaves are those tokens and whose meanings are the children |
| TomlParser.Derive | toml/parser.h:145-192 | A rule's match has a derivation from that rule, with the matched slice as leaves and the node as meaning |
| TomlParser.ParseAllSound | toml/toml.c:469-483 | Parsing succeeds only with a derivation of the whole token list, whose meaning it returns |
| TomlGrammar.TomlWellFormed | toml/toml.c:282-467 | No rule of the grammar is left-recursive, and only nullable rules match nothing |
| TomlGrammar.CopyDigits | toml/toml.c:319-328 | The copying loop drops the underscores |
| TomlRules.ReadValue | toml/toml.c:337-349 | Each value token parses to its value, tagged by its type |
| TomlRules.ReadSetting | toml/toml.c:389-397 | A key, an equals sign and a value parse to a setting, blanks or not |
| TomlRules.ReadHeader | toml/toml.c:399-406 | A bracketed key parses to a table header, which the alternative for settings does not take |
| TomlLayout.KeyReads | toml/toml.c:366-387 | A dotted key of bare or quoted words, with blanks around the dots, parses to its parts |
| TomlLayout.LineReads | toml/toml.c:389-415 | Each way of writing a line parses to that line |
| TomlLayout.LayoutParses | toml/toml.c:389-483 | Every way of writing a list of entries (blanks, bare or quoted words, line breaks, semicolons) parses to exactly those entries |
| TomlComplete.LinesComplete | toml/toml.c:431-467 | Derived lines and trailing line breaks are read by the ordered choices, which back out of a separator with no line behind it |
| TomlComplete.ParseAllComplete | toml/toml.c:282-483 | A token list with a derivation is parsed, to what the derivation means |
| TomlComplete.ParseAllExact | toml/toml.c:469-483 | The parser accepts exactly the token lists the grammar derives, and all derivations of a list mean what it returns, although they may differ in blanks and line breaks |
| TomlPrinter.LexQuoted | toml/ast.c:93-101 | A quoted string lexes as one token whatever follows |
| TomlPrinter.LexDump | toml/ast.c:226-247 | The printed text lexes as the tokens it was printed from |
| TomlRoundTrip.IntegerRoundTrip | toml/ast.c:52-60 | A printed integer reads back as itself exactly when it fits 64 bits |
| TomlRoundTrip.ParseTokens | toml/toml.c:389-483 | The tokens of a printed tree are one layout of its entries, so they parse to that tree |
| TomlRoundTrip.DumpRoundTrip | toml/ast.c:177-247 | Lexing and parsing the dump of a readable tree gives the tree back |
| TomlDumpExact.TreeKeeps | toml/toml.c:282-467 | What a derivation means has the strings of its tokens, in order |
| TomlDumpExact.ParseKeepsStrings | toml/toml.c:469-483 | The parser neither drops, invents nor reorders strings, and an entry without a key has no value |
| TomlDumpExact.LexUnquotable | toml/ast.c:93-101 | A string with an unescaped quote or a dangling backslash is never read back, whatever follows |
| TomlDumpExact.DumpExact | toml/ast.c:177-247 | Printing and parsing gives a tree back if and only if its keys are there and no string has an unescaped double quote or ends behind a backslash |
| TomlDumpExact.SingleQuoted | toml/toml.c:173-187 | A value in single quotes is read as it stands, and the tree survives printing and parsing exactly if the string could stand in double quotes as well |
| TomlDumpExact.UnreadableParsed | toml/ast.c:93-101 | A text that parses to a tree whose dump does not parse back to it |
| TomlTable.HashTableHash | toml/table.c:8-15 | The hash loop, in 64 bits and over signed characters |
| TomlTable.FindMeans | toml/table.c:70-92 | Under the invariant a search ends at the key's slot, else at a free one, and fails exactly when the key is absent and no slot is free |
| TomlTable.StoreKeepsInv | toml/table.c:103-109 | Storing keeps keys unique and every slot between a key's home and its position in use |
| TomlTable.StoreUpdatesModel | toml/table.c:103-109 | Storing updates the abstract map at the key and nowhere else |
| TomlTable.LookupMeans | toml/table.c:118-123 | Lookup agrees with the abstract map |
| TomlTable.HashTable.constructor | toml/table.c:17-30 | A new table is empty, with eight slots and size zero |
| TomlTable.HashTable.HashTableFind | toml/table.c:70-92 | The two probe loops find the first slot, cyclically from home, that is free or has the key |
| TomlTable.HashTable.HashTableExpand | toml/table.c:48-68 | Rehashing into twice as many slots keeps the map |
| TomlTable.HashTable.HashTableInsert | toml/table.c:94-109 | Inserts unless the key is new and the table full, where the assertion fails; the size never grows, so a new table never expands |
| TomlTable.HashTable.HashTableLookup | toml/table.c:118-123 | The value of the key in the map, if any |
| TomlTable.FillNew | toml/table.c:17-116 | Inserting a list of entries into a new table leaves the map, and the failed assertion if any, that the fold over maps has for eight slots |
| TomlTable.InsertEntries | toml/table.c:94-116 | The same for any table that does not grow |
| TomlTable.InsertAllExact | toml/table.c:94-116 | A run of insertions meets the assertion exactly when it has more distinct keys than slots, and else has the keys there were and those inserted |
| TomlTable.InsertAllMeans | toml/table.c:94-116 | A run of insertions that does not meet the assertion leaves every key with its last value |
| TomlPaths.PutFromMeans | toml/ast.c:278-313 | An entry clashes, finds a table full, or adds exactly its path and the tables above it |
| TomlPaths.BoundMeans | toml/ast.c:267-315 | The paths defined are those at or above an entry |
| TomlPaths.ValuesMean | toml/ast.c:306-309 | A path has a value exactly when an entry gives it that value |
| TomlPaths.PutAllExact | toml/ast.c:249-318 | Generation succeeds if and only if no entry redefines a path or runs through a value and no table gets more entries than slots; then it defines just what the entries say |
| TomlPaths.PutAllFull | toml/ast.c:249-318 | Generation meets the assertion exactly when some entry fits those before it, which can all be put, but makes a table exceed its slots |
| TomlPaths.PrefixFreeExact | toml/ast.c:278-304 | With value entries only, entries are compatible exactly when no path is a prefix of another |
| TomlPaths.OrderIrrelevant | toml/ast.c:249-318 | With value entries only, success and result do not depend on their order |
| TomlGenerator.BindValue | toml/ast.c:306-309 | A value stored in one table changes the map of paths at one path only |
| TomlGenerator.BindTable | toml/ast.c:284-288 | So does a new table, and the tables stay a tree |
| TomlGenerator.Generator.Insert | toml/ast.c:306-313 | An insertion of a new key into a hash table of the tree succeeds exactly when its path has fewer children than the table has slots, and binds one path; the other tables stay as they are |
| TomlGenerator.Generator.Find | toml/ast.c:280-296 | A lookup in a hash table of the tree finds exactly what is bound one step below its path |
| TomlGenerator.Generator.Descend | toml/ast.c:278-296 | The loop over the parts of a key, looking up and making hash tables and stopping at a value |
| TomlGenerator.Generator.PutEntry | toml/ast.c:278-314 | One entry on the hash tables has the outcome specified on paths |
| TomlGenerator.Generator.Generate | toml/ast.c:249-318 | The whole loop on hash tables, with its current table, has the outcome specified on the entries' full paths |
| TomlGenerator.Generator.TomlLookup | toml/toml.c:575-608 | The walk through the hash tables finds an object exactly when its path is defined, and a value exactly when the path has it |
| TomlLoad.QueryRoundTrip | toml/toml.c:557-576 | A key is found under its own printed form |
| TomlLoad.LexAndParse | toml/toml.c:496-507 | The two passes give the specified tree, whose entries meet the generator's assertion |
| TomlLoad.TomlLoad | toml/toml.c:485-534 | Loading succeeds exactly when the text lexes and parses and its entries can be loaded, and the values are then exactly those of the entries; it aborts exactly when an entry finds a table full, and returns null on every other error |
| TomlLoad.TomlLookup | toml/toml.c:536-609 | A query finds exactly what is defined at the path it stands for |

## Left out

- Descriptors.Fd.Write: a write is complete or fails; short writes are not modelled, and the code does not retry them.
- VmessSession.WriteAll: the caller stops writing after a failure, as the relays do; VmessSocket.Socket.Write has what a later write would send.
- VmessHeader.VmessDecodeRequest: the clock is a parameter that may differ at each attempt; bytes behind the header are decrypted but not looked at, as in the code.
- RelayPipe.Pipe: speaks of the state after a pipe call; bytes buffered before a connection is registered with epoll are not covered.
- SocksHandshake.HandshakeSucceeds: no application data is sent before both sides have finished, because the code drops such bytes.
- TomlTable.Home: the code masks with the capacity less one, the model takes the remainder; they agree because the capacity starts at 8 and only doubles.
- TomlLoad.TomlLoad: error texts and positions are not modelled.
- Sockets, epoll, fcntl, getaddrinfo, shutdown and close appear only through the events and calls named above.
- The block cipher, MD5 and HMAC are uninterpreted; their strength is not a subject.
- `VMESS_CRYPT_NONE` frames (`proto/vmess/vmess.c:172-180`): there is no matching decoder.
- malloc failure, leaks and pointer unions: objects are garbage-collected, unions are datatypes.
- The thread-per-connection relay, inbound and outbound factories, `app/`, target resolution and the dokodemo and native protocols are plumbing.
- TOML floats are lexed but have no value rule; error texts, hexdump and printing for debugging.
- `atoll` is taken to saturate, and `realloc` to size zero to free, as the GNU C library does.
