/** The frame and header checksum of crypto/hash.c. It is FNV-1a in name only: the prime is
    added where FNV-1a multiplies by it, and the model follows the code. */
module Checksum {
  import opened ByteStrings

  const FNV_OFFSET: U32 := 0x811c9dc5
  const FNV_PRIME: U32 := 0x01000193

  /** Exclusive or of a byte into the low byte of the state. */
  function MixIn(hash: U32, b: Byte): U32
  {
    hash / 0x100 * 0x100 + Xor(hash % 0x100, b)
  }

  lemma {:induction false} MixInInverse(hash: U32, b: Byte)
    ensures MixIn(MixIn(hash, b), b) == hash
  {
    var x := Xor(hash % 0x100, b);
    var mixed := MixIn(hash, b);
    assert mixed / 0x100 == hash / 0x100 && mixed % 0x100 == x;
    XorInverse(hash % 0x100, b);
  }

  function AddPrime(hash: U32): U32
  {
    (hash + FNV_PRIME) % 0x1_0000_0000
  }

  function SubtractPrime(hash: U32): U32
  {
    (hash - FNV_PRIME) % 0x1_0000_0000
  }

  lemma {:induction false} AddPrimeBijective(hash: U32)
    ensures SubtractPrime(AddPrime(hash)) == hash == AddPrime(SubtractPrime(hash))
  {
  }

  function Step(hash: U32, b: Byte): U32
  {
    AddPrime(MixIn(hash, b))
  }

  function FnvFrom(hash: U32, data: seq<Byte>): U32
    decreases |data|
  {
    if data == [] then hash else FnvFrom(Step(hash, data[0]), data[1..])
  }

  function Fnv(data: seq<Byte>): U32
  {
    FnvFrom(FNV_OFFSET, data)
  }

  /** crypto_fnv1a */
  method CryptoFnv1a(data: seq<Byte>) returns (hash: U32)
    ensures hash == Fnv(data)
  {
    hash := FNV_OFFSET;
    var i := 0;
    while i < |data|
      invariant 0 <= i <= |data|
      invariant FnvFrom(hash, data[i..]) == Fnv(data)
    {
      assert data[i..][0] == data[i] && data[i..][1..] == data[i + 1..];
      hash := Step(hash, data[i]);
      i := i + 1;
    }
    assert data[i..] == [];
  }

  /** The state before a step, recovered from the state after it. */
  function StepBack(hash: U32, b: Byte): U32
  {
    MixIn(SubtractPrime(hash), b)
  }

  /** For a fixed byte a step is a bijection of the 32-bit state, with StepBack its inverse. */
  lemma {:induction false} StepBijective(hash: U32, b: Byte)
    ensures StepBack(Step(hash, b), b) == hash
    ensures Step(StepBack(hash, b), b) == hash
  {
    AddPrimeBijective(MixIn(hash, b));
    AddPrimeBijective(hash);
    MixInInverse(hash, b);
    MixInInverse(SubtractPrime(hash), b);
  }

  lemma {:induction false} MixInInjectiveInByte(hash: U32, b: Byte, c: Byte)
    requires MixIn(hash, b) == MixIn(hash, c)
    ensures b == c
  {
    XorInjective(b, c, hash % 0x100);
  }

  /** For a fixed state a step is injective in the byte. */
  lemma {:induction false} StepInjectiveInByte(hash: U32, b: Byte, c: Byte)
    requires Step(hash, b) == Step(hash, c)
    ensures b == c
  {
    AddPrimeBijective(MixIn(hash, b));
    AddPrimeBijective(MixIn(hash, c));
    MixInInjectiveInByte(hash, b, c);
  }

  lemma {:induction false} FnvFromInjective(h: U32, k: U32, data: seq<Byte>)
    requires FnvFrom(h, data) == FnvFrom(k, data)
    ensures h == k
    decreases |data|
  {
    if data != [] {
      FnvFromInjective(Step(h, data[0]), Step(k, data[0]), data[1..]);
      StepBijective(h, data[0]);
      StepBijective(k, data[0]);
    }
  }

  lemma {:induction false} FnvFromAppend(h: U32, a: seq<Byte>, b: seq<Byte>)
    ensures FnvFrom(h, a + b) == FnvFrom(FnvFrom(h, a), b)
    decreases |a|
  {
    if a == [] {
      assert a + b == b;
    } else {
      assert (a + b)[0] == a[0] && (a + b)[1..] == a[1..] + b;
      FnvFromAppend(Step(h, a[0]), a[1..], b);
    }
  }

  /** The two strings have the same length and differ at position `i` only. */
  ghost predicate DifferOnlyAt(a: seq<Byte>, b: seq<Byte>, i: nat)
  {
    |a| == |b| && i < |a| && a[i] != b[i] && forall j :: 0 <= j < |a| && j != i ==> a[j] == b[j]
  }

  /** A one-byte change always changes the checksum. */
  lemma {:induction false} OneByteChangeDetected(a: seq<Byte>, b: seq<Byte>, i: nat)
    requires DifferOnlyAt(a, b, i)
    ensures Fnv(a) != Fnv(b)
  {
    var head, tail := a[..i], a[i + 1..];
    assert a == head + ([a[i]] + tail) && b == head + ([b[i]] + tail);
    var h := FnvFrom(FNV_OFFSET, head);
    FnvFromAppend(FNV_OFFSET, head, [a[i]] + tail);
    FnvFromAppend(FNV_OFFSET, head, [b[i]] + tail);
    if Fnv(a) == Fnv(b) {
      FnvFromInjective(Step(h, a[i]), Step(h, b[i]), tail);
      StepInjectiveInByte(h, a[i], b[i]);
    }
  }
}
