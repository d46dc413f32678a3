/** Proxy targets (target_id_t of proto/common.h). */
module Targets {
  import opened ByteStrings

  /** A C string: no byte of it is NUL. */
  type CString = s: seq<Byte> | forall i :: 0 <= i < |s| ==> s[i] != 0 witness []

  type Ipv4 = b: seq<Byte> | |b| == 4 witness [0, 0, 0, 0]

  datatype Address = IPv4(ipv4: Ipv4) | Domain(name: CString) | IPv6(ipv6: Block)

  datatype Target = Target(addr: Address, port: U16)

  /** The C string at the start of a buffer: target_id_new_domain copies up to the first NUL. */
  function CStr(bytes: seq<Byte>): (s: CString)
    ensures s <= bytes
    ensures s == bytes || bytes[|s|] == 0
  {
    if bytes == [] || bytes[0] == 0 then [] else [bytes[0]] + CStr(bytes[1..])
  }

  /** A string without NUL is copied whole. */
  lemma {:induction false} CStrWhole(s: CString)
    ensures CStr(s) == s
  {
  }

  /** The part of a name whose length fits one byte: the encoders keep strlen modulo 256. */
  function Kept(name: CString): CString
  {
    name[..|name| % 0x100]
  }

  lemma {:induction false} KeptWhole(name: CString)
    ensures Kept(name) == name <==> |name| <= 0xff
  {
    if |name| <= 0xff {
      assert name[..|name|] == name;
    }
  }
}
