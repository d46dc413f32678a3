/** Bytes, byte strings and the fixed-width big-endian encodings of pub/type.h. */
module ByteStrings {

  type Byte = b: int | 0 <= b < 256

  /** A 128-bit value (data128_t): keys, initialisation vectors, validation codes. */
  type Block = b: seq<Byte> | |b| == 16 witness seq(16, _ => 0)

  // ---------- exclusive or ----------

  /** Exclusive or of the `n` low bits of `a` and `b`. */
  function XorBits(a: nat, b: nat, n: nat): nat
  {
    if n == 0 then 0 else (if a % 2 == b % 2 then 0 else 1) + 2 * XorBits(a / 2, b / 2, n - 1)
  }

  function Pow2(n: nat): nat
  {
    if n == 0 then 1 else 2 * Pow2(n - 1)
  }

  lemma {:induction false} XorBitsInverse(a: nat, b: nat, n: nat)
    requires a < Pow2(n)
    ensures XorBits(a, b, n) < Pow2(n)
    ensures XorBits(XorBits(a, b, n), b, n) == a
  {
    if n > 0 {
      XorBitsInverse(a / 2, b / 2, n - 1);
      var x := XorBits(a, b, n);
      assert x / 2 == XorBits(a / 2, b / 2, n - 1);
      assert x % 2 == if a % 2 == b % 2 then 0 else 1;
    }
  }

  function Xor(a: Byte, b: Byte): Byte
  {
    assert Pow2(8) == 256 by { assert Pow2(4) == 16; }
    XorBitsInverse(a, b, 8);
    XorBits(a, b, 8)
  }

  lemma {:induction false} XorInverse(a: Byte, b: Byte)
    ensures Xor(Xor(a, b), b) == a
  {
    assert Pow2(8) == 256 by { assert Pow2(4) == 16; }
    XorBitsInverse(a, b, 8);
  }

  lemma {:induction false} XorBitsCommutes(a: nat, b: nat, n: nat)
    ensures XorBits(a, b, n) == XorBits(b, a, n)
  {
    if n > 0 {
      XorBitsCommutes(a / 2, b / 2, n - 1);
    }
  }

  /** Exclusive or with a fixed byte is injective in either operand. */
  lemma {:induction false} XorInjective(a: Byte, b: Byte, c: Byte)
    ensures Xor(a, c) == Xor(b, c) ==> a == b
    ensures Xor(c, a) == Xor(c, b) ==> a == b
  {
    XorInverse(a, c);
    XorInverse(b, c);
    XorBitsCommutes(a, c, 8);
    XorBitsCommutes(b, c, 8);
  }

  /** Positionwise exclusive or of `data` with the start of `stream`. */
  function Mask(data: seq<Byte>, stream: seq<Byte>): (r: seq<Byte>)
    requires |data| <= |stream|
    ensures |r| == |data|
  {
    seq(|data|, i requires 0 <= i < |data| => Xor(data[i], stream[i]))
  }

  lemma {:induction false} MaskInverse(data: seq<Byte>, stream: seq<Byte>)
    requires |data| <= |stream|
    ensures Mask(Mask(data, stream), stream) == data
  {
    forall i | 0 <= i < |data| ensures Mask(Mask(data, stream), stream)[i] == data[i] {
      XorInverse(data[i], stream[i]);
    }
  }

  // ---------- fixed-width integers ----------

  type U16 = n: int | 0 <= n < 0x1_0000
  type U32 = n: int | 0 <= n < 0x1_0000_0000
  type U64 = n: int | 0 <= n < 0x1_0000_0000_0000_0000

  function Be16(n: U16): (r: seq<Byte>)
    ensures |r| == 2
  {
    [n / 0x100, n % 0x100]
  }

  function Be32(n: U32): (r: seq<Byte>)
    ensures |r| == 4
  {
    Be16(n / 0x1_0000) + Be16(n % 0x1_0000)
  }

  function Be64(n: U64): (r: seq<Byte>)
    ensures |r| == 8
  {
    Be32(n / 0x1_0000_0000) + Be32(n % 0x1_0000_0000)
  }

  /** Reads two bytes as the big-endian number they encode (from_be16). */
  function FromBe16(b: seq<Byte>): (n: nat)
    requires |b| >= 2
    ensures n < 0x1_0000
  {
    var high: nat := b[0];
    high * 0x100 + b[1]
  }

  lemma {:induction false} Be16RoundTrip(n: U16, rest: seq<Byte>)
    ensures FromBe16(Be16(n) + rest) == n
  {
  }

  /** And back: two bytes are the encoding of the number they are read as. */
  lemma {:induction false} FromBe16RoundTrip(b: seq<Byte>)
    requires |b| >= 2
    ensures Be16(FromBe16(b)) == b[..2]
  {
    var high: nat, low: nat := b[0], b[1];
    assert (high * 0x100 + low) / 0x100 == high && (high * 0x100 + low) % 0x100 == low;
  }

  lemma {:induction false} Be32Injective(m: U32, n: U32)
    ensures Be32(m) == Be32(n) ==> m == n
  {
    if Be32(m) == Be32(n) {
      assert Be32(m)[..2] == Be16(m / 0x1_0000) && Be32(m)[2..] == Be16(m % 0x1_0000);
      assert Be32(n)[..2] == Be16(n / 0x1_0000) && Be32(n)[2..] == Be16(n % 0x1_0000);
      Be16RoundTrip(m / 0x1_0000, []);
      Be16RoundTrip(n / 0x1_0000, []);
      Be16RoundTrip(m % 0x1_0000, []);
      Be16RoundTrip(n % 0x1_0000, []);
    }
  }

  // ---------- growing buffers ----------

  /** The size of a buffer once `n` bytes fit: doubled as often as needed. */
  function GrownTo(size: nat, n: nat): (grown: nat)
    requires size > 0
    ensures grown >= n && grown >= size
    decreases n - size
  {
    if n <= size then size else GrownTo(2 * size, n)
  }

  // ---------- byte strings ----------

  lemma {:induction false} ConcatAssociative(a: seq<Byte>, b: seq<Byte>, c: seq<Byte>)
    ensures (a + b) + c == a + (b + c)
  {
  }

  lemma {:induction false} SliceOfSlice(s: seq<Byte>, from: nat, to: nat, k: nat)
    requires from <= from + k <= to <= |s|
    ensures s[from..to][..k] == s[from..from + k]
    ensures s[from..to][k..] == s[from + k..to]
  {
  }

  function Concat(parts: seq<seq<Byte>>): seq<Byte>
  {
    if parts == [] then [] else parts[0] + Concat(parts[1..])
  }

  lemma {:induction false} ConcatAppend(a: seq<seq<Byte>>, b: seq<seq<Byte>>)
    ensures Concat(a + b) == Concat(a) + Concat(b)
  {
    if a == [] {
      assert a + b == b;
    } else {
      assert (a + b)[1..] == a[1..] + b;
      ConcatAppend(a[1..], b);
    }
  }
}
