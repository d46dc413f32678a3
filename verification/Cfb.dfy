/** The cipher of crypto/aes.c: 128-bit cipher feedback (section 6.3 of NIST SP 800-38A) over
    an arbitrary block function, with the last segment cut short as OpenSSL does.
    MD5 and HMAC-MD5 are arbitrary functions as well. */
module Cfb {
  import opened ByteStrings

  /** The primitives taken from OpenSSL. Nothing is assumed about them. */
  datatype Crypto = Crypto(
    block: (Block, Block) -> Block,
    md5: seq<Byte> -> Block,
    hmacMd5: (Block, seq<Byte>) -> Block)

  function Encrypt(cr: Crypto, key: Block, iv: Block, plain: seq<Byte>): (cipher: seq<Byte>)
    ensures |cipher| == |plain|
    decreases |plain|
  {
    var pad := cr.block(key, iv);
    if |plain| <= 16 then
      Mask(plain, pad)
    else
      var head := Mask(plain[..16], pad);
      head + Encrypt(cr, key, head, plain[16..])
  }

  function Decrypt(cr: Crypto, key: Block, iv: Block, cipher: seq<Byte>): (plain: seq<Byte>)
    ensures |plain| == |cipher|
    decreases |cipher|
  {
    var pad := cr.block(key, iv);
    if |cipher| <= 16 then
      Mask(cipher, pad)
    else
      Mask(cipher[..16], pad) + Decrypt(cr, key, cipher[..16], cipher[16..])
  }

  /** Decryption undoes encryption, at every length. */
  lemma {:induction false} DecryptEncrypt(cr: Crypto, key: Block, iv: Block, plain: seq<Byte>)
    ensures Decrypt(cr, key, iv, Encrypt(cr, key, iv, plain)) == plain
    decreases |plain|
  {
    var pad := cr.block(key, iv);
    if |plain| <= 16 {
      MaskInverse(plain, pad);
    } else {
      var head := Mask(plain[..16], pad);
      var tail := Encrypt(cr, key, head, plain[16..]);
      assert (head + tail)[..16] == head && (head + tail)[16..] == tail;
      MaskInverse(plain[..16], pad);
      DecryptEncrypt(cr, key, head, plain[16..]);
      assert plain[..16] + plain[16..] == plain;
    }
  }

  /** Encryption undoes decryption, so for a fixed key and iv the cipher is a bijection. */
  lemma {:induction false} EncryptDecrypt(cr: Crypto, key: Block, iv: Block, cipher: seq<Byte>)
    ensures Encrypt(cr, key, iv, Decrypt(cr, key, iv, cipher)) == cipher
    decreases |cipher|
  {
    var pad := cr.block(key, iv);
    if |cipher| <= 16 {
      MaskInverse(cipher, pad);
    } else {
      var head := Mask(cipher[..16], pad);
      var tail := Decrypt(cr, key, cipher[..16], cipher[16..]);
      assert (head + tail)[..16] == head && (head + tail)[16..] == tail;
      MaskInverse(cipher[..16], pad);
      EncryptDecrypt(cr, key, cipher[..16], cipher[16..]);
      assert cipher[..16] + cipher[16..] == cipher;
    }
  }

  /** Decrypting the first `k` bytes gives the first `k` bytes of the decryption. */
  lemma {:induction false} DecryptPrefix(cr: Crypto, key: Block, iv: Block, cipher: seq<Byte>, k: nat)
    requires k <= |cipher|
    ensures Decrypt(cr, key, iv, cipher[..k]) == Decrypt(cr, key, iv, cipher)[..k]
    decreases |cipher|
  {
    var pad := cr.block(key, iv);
    if k <= 16 {
      if |cipher| > 16 {
        assert Mask(cipher[..k], pad) == Mask(cipher[..16], pad)[..k];
      }
    } else {
      assert cipher[..k][..16] == cipher[..16];
      assert cipher[..k][16..] == cipher[16..][..k - 16];
      DecryptPrefix(cr, key, cipher[..16], cipher[16..], k - 16);
    }
  }
}
