/** Octets, fixed-width integers and the two byte orders the controller moves between.

    The wire is big-endian; the hosts the controller is built for are little-endian, so a C
    integer stored through a struct pointer lands low octet first, and `htons` and its
    relatives swap octets.  Both facts are modelled explicitly because one call site
    depends on them (see `Learning.ArpOpOnWire`). */
module Bytes {

  type byte = x: int | 0 <= x < 0x100
  type u16 = x: int | 0 <= x < 0x1_0000
  type u32 = x: int | 0 <= x < 0x1_0000_0000
  type u64 = x: int | 0 <= x < 0x1_0000_0000_0000_0000
  type Mac = s: seq<byte> | |s| == 6 witness [0, 0, 0, 0, 0, 0]

  // ----- Reading: a buffer is zero beyond the octets received into it -----

  function At(s: seq<byte>, i: nat): byte {
    if i < |s| then s[i] else 0
  }

  function Be16(s: seq<byte>, i: nat): u16 {
    At(s, i) * 0x100 + At(s, i + 1)
  }

  function Be32(s: seq<byte>, i: nat): u32 {
    Be16(s, i) * 0x1_0000 + Be16(s, i + 2)
  }

  function Be64(s: seq<byte>, i: nat): u64 {
    Be32(s, i) * 0x1_0000_0000 + Be32(s, i + 4)
  }

  function MacAt(s: seq<byte>, i: nat): Mac {
    [At(s, i), At(s, i + 1), At(s, i + 2), At(s, i + 3), At(s, i + 4), At(s, i + 5)]
  }

  /** What a pointer `k` octets into the buffer sees. */
  function From(s: seq<byte>, k: nat): (r: seq<byte>)
    ensures forall i: nat :: At(r, i) == At(s, k + i)
  {
    if k <= |s| then s[k..] else []
  }

  // ----- Writing: octet k of the big-endian form -----

  function Be16Byte(v: u16, k: nat): byte {
    if k == 0 then v / 0x100 else v % 0x100
  }

  function Be32Byte(v: u32, k: nat): byte {
    if k < 2 then Be16Byte(v / 0x1_0000, k) else Be16Byte(v % 0x1_0000, k - 2)
  }

  function Be64Byte(v: u64, k: nat): byte {
    if k < 4 then Be32Byte(v / 0x1_0000_0000, k) else Be32Byte(v % 0x1_0000_0000, k - 4)
  }

  lemma ReadBack16(s: seq<byte>, i: nat, v: u16)
    requires forall j: nat :: i <= j < i + 2 ==> At(s, j) == Be16Byte(v, j - i)
    ensures Be16(s, i) == v
  {
  }

  lemma ReadBack32(s: seq<byte>, i: nat, v: u32)
    requires forall j: nat :: i <= j < i + 4 ==> At(s, j) == Be32Byte(v, j - i)
    ensures Be32(s, i) == v
  {
    ReadBack16(s, i, v / 0x1_0000);
    ReadBack16(s, i + 2, v % 0x1_0000);
  }

  lemma ReadBack64(s: seq<byte>, i: nat, v: u64)
    requires forall j: nat :: i <= j < i + 8 ==> At(s, j) == Be64Byte(v, j - i)
    ensures Be64(s, i) == v
  {
    ReadBack32(s, i, v / 0x1_0000_0000);
    ReadBack32(s, i + 4, v % 0x1_0000_0000);
  }

  // ----- Byte order of the host -----

  /** `htons` and `ntohs` on a little-endian host. */
  function Htons(v: u16): (r: u16) {
    v % 0x100 * 0x100 + v / 0x100
  }

  function Htonl(v: u32): u32 {
    Htons(v % 0x1_0000) * 0x1_0000 + Htons(v / 0x1_0000)
  }

  function Htobe64(v: u64): u64 {
    Htonl(v % 0x1_0000_0000) * 0x1_0000_0000 + Htonl(v / 0x1_0000_0000)
  }

  lemma SwapTwice16(v: u16)
    ensures Htons(Htons(v)) == v
  {
    var hi, lo := v / 0x100, v % 0x100;
    assert Htons(v) == lo * 0x100 + hi;
    assert Htons(v) / 0x100 == lo && Htons(v) % 0x100 == hi;
  }

  lemma SwapTwice32(v: u32)
    ensures Htonl(Htonl(v)) == v
  {
    SwapTwice16(v / 0x1_0000);
    SwapTwice16(v % 0x1_0000);
    assert Htonl(v) / 0x1_0000 == Htons(v % 0x1_0000);
    assert Htonl(v) % 0x1_0000 == Htons(v / 0x1_0000);
  }

  lemma SwapTwice64(v: u64)
    ensures Htobe64(Htobe64(v)) == v
  {
    SwapTwice32(v / 0x1_0000_0000);
    SwapTwice32(v % 0x1_0000_0000);
    assert Htobe64(v) / 0x1_0000_0000 == Htonl(v % 0x1_0000_0000);
    assert Htobe64(v) % 0x1_0000_0000 == Htonl(v / 0x1_0000_0000);
  }

  lemma SwapZero16(z: u16)
    requires z == 0
    ensures Htons(z) == 0
  {
  }

  lemma SwapZero32(z: u32)
    requires z == 0
    ensures Htonl(z) == 0
  {
    var lo: u16, hi: u16 := z % 0x1_0000, z / 0x1_0000;
    SwapZero16(lo);
    SwapZero16(hi);
  }

  lemma SwapZero64(z: u64)
    requires z == 0
    ensures Htobe64(z) == 0
  {
    var lo: u32, hi: u32 := z % 0x1_0000_0000, z / 0x1_0000_0000;
    SwapZero32(lo);
    SwapZero32(hi);
  }

  // ----- Stores through a struct pointer: low octet first -----

  method Store8(buf: array<byte>, i: nat, v: byte)
    requires i < buf.Length
    modifies buf
    ensures forall j :: 0 <= j < buf.Length ==> buf[j] == if j == i then v else old(buf[j])
  {
    buf[i] := v;
  }

  method Store16(buf: array<byte>, i: nat, v: u16)
    requires i + 2 <= buf.Length
    modifies buf
    ensures forall j :: 0 <= j < buf.Length ==>
      buf[j] == if i <= j < i + 2 then Be16Byte(Htons(v), j - i) else old(buf[j])
  {
    buf[i] := v % 0x100;
    buf[i + 1] := v / 0x100;
  }

  method Store32(buf: array<byte>, i: nat, v: u32)
    requires i + 4 <= buf.Length
    modifies buf
    ensures forall j :: 0 <= j < buf.Length ==>
      buf[j] == if i <= j < i + 4 then Be32Byte(Htonl(v), j - i) else old(buf[j])
  {
    Store16(buf, i, v % 0x1_0000);
    Store16(buf, i + 2, v / 0x1_0000);
    assert Htonl(v) / 0x1_0000 == Htons(v % 0x1_0000);
    assert Htonl(v) % 0x1_0000 == Htons(v / 0x1_0000);
  }

  method Store64(buf: array<byte>, i: nat, v: u64)
    requires i + 8 <= buf.Length
    modifies buf
    ensures forall j :: 0 <= j < buf.Length ==>
      buf[j] == if i <= j < i + 8 then Be64Byte(Htobe64(v), j - i) else old(buf[j])
  {
    Store32(buf, i, v % 0x1_0000_0000);
    Store32(buf, i + 4, v / 0x1_0000_0000);
    assert Htobe64(v) / 0x1_0000_0000 == Htonl(v % 0x1_0000_0000);
    assert Htobe64(v) % 0x1_0000_0000 == Htonl(v / 0x1_0000_0000);
  }

  method StoreMac(buf: array<byte>, i: nat, mac: Mac)
    requires i + 6 <= buf.Length
    modifies buf
    ensures forall j :: 0 <= j < buf.Length ==>
      buf[j] == if i <= j < i + 6 then mac[j - i] else old(buf[j])
  {
    for k := 0 to 6
      invariant forall j :: 0 <= j < buf.Length ==>
        buf[j] == if i <= j < i + k then mac[j - i] else old(buf[j])
    {
      buf[i + k] := mac[k];
    }
  }

  method Clear(buf: array<byte>)
    modifies buf
    ensures forall j :: 0 <= j < buf.Length ==> buf[j] == 0
  {
    for k := 0 to buf.Length
      invariant forall j :: 0 <= j < k ==> buf[j] == 0
    {
      buf[k] := 0;
    }
  }
}
