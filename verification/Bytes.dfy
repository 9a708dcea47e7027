// Bytes, their bits most significant first, and XOR checksums.
module Bytes {

  type byte = bv8

  // A byte as its value, where only arithmetic is done on it.
  type octet = v: int | 0 <= v < 0x100

  // The single-bit mask the source walks with `mask >>= 1`, starting at 0x80.
  function Mask(k: nat): byte
    requires k < 8
  {
    match k
    case 0 => 0x80
    case 1 => 0x40
    case 2 => 0x20
    case 3 => 0x10
    case 4 => 0x08
    case 5 => 0x04
    case 6 => 0x02
    case 7 => 0x01
  }

  lemma FirstMask()
    ensures Mask(0) == 0x80 && Mask(0) != 0
  {
  }

  lemma NextMask(k: nat)
    requires k < 8
    ensures Mask(k) >> 1 == if k < 7 then Mask(k + 1) else 0
    ensures Mask(k) != 0
  {
  }

  predicate Tested(b: byte, mask: byte)
  {
    b & mask != 0
  }

  predicate Bit(b: byte, k: nat)
    requires k < 8
  {
    Tested(b, Mask(k))
  }

  // The bits of a byte string in transmission order.
  function BitsOf(s: seq<byte>): (bits: seq<bool>)
    ensures |bits| == 8 * |s|
    ensures forall i :: 0 <= i < |bits| ==> bits[i] == Bit(s[i / 8], i % 8)
  {
    seq(8 * |s|, (i: int) requires 0 <= i < 8 * |s| => Bit(s[i / 8], i % 8))
  }

  lemma BitsOfMore(s: seq<byte>, b: byte)
    ensures BitsOf(s + [b]) == BitsOf(s) + BitsOf([b])
  {
    hide Bit;
  }

  lemma ByteExt(a: byte, b: byte)
    requires forall k: nat :: k < 8 ==> Bit(a, k) == Bit(b, k)
    ensures a == b
  {
    assert Bit(a, 0) == Bit(b, 0) && Bit(a, 1) == Bit(b, 1) && Bit(a, 2) == Bit(b, 2) && Bit(a, 3) == Bit(b, 3);
    assert Bit(a, 4) == Bit(b, 4) && Bit(a, 5) == Bit(b, 5) && Bit(a, 6) == Bit(b, 6) && Bit(a, 7) == Bit(b, 7);
  }

  // The bits determine the bytes.
  lemma BitsOfInjective(s: seq<byte>, t: seq<byte>)
    requires BitsOf(s) == BitsOf(t)
    ensures s == t
  {
    assert 8 * |s| == 8 * |t|;
    forall i | 0 <= i < |s|
      ensures s[i] == t[i]
    {
      forall k: nat | k < 8
        ensures Bit(s[i], k) == Bit(t[i], k)
      {
        assert (8 * i + k) / 8 == i && (8 * i + k) % 8 == k;
        assert BitsOf(s)[8 * i + k] == BitsOf(t)[8 * i + k];
      }
      ByteExt(s[i], t[i]);
    }
  }

  // memcpy into a buffer
  function Overwrite(s: seq<byte>, at: nat, data: seq<byte>): (r: seq<byte>)
    requires at + |data| <= |s|
    ensures |r| == |s|
    ensures forall i :: 0 <= i < |s| ==> r[i] == if at <= i < at + |data| then data[i - at] else s[i]
  {
    s[..at] + data + s[at + |data|..]
  }

  // XOR of all the bytes, the checksum of several of the protocols.
  function XorAll(s: seq<byte>): byte
  {
    if s == [] then 0 else XorAll(s[..|s| - 1]) ^ s[|s| - 1]
  }

  lemma {:induction false} XorAllAppend(s: seq<byte>, t: seq<byte>)
    ensures XorAll(s + t) == XorAll(s) ^ XorAll(t)
  {
    if t == [] {
      assert s + t == s;
    } else {
      var front := t[..|t| - 1];
      assert (s + t)[..|s + t| - 1] == s + front;
      XorAllAppend(s, front);
    }
  }

  lemma XorAllPair(a: byte, b: byte)
    ensures XorAll([a, b]) == a ^ b
  {
    var one := [a];
    assert one[..0] == [] && [a, b][..1] == one;
    assert XorAll(one) == (0 as byte) ^ a == a;
  }
}
