// The confirm value and short-term key of LE legacy pairing (main/bluetooth/smp.c),
// against their definitions in the Bluetooth Core Specification, Vol 3 Part H, sections 2.2.3 and 2.2.4.
module SmpCrypto {
  import opened Bytes

  type Block = b: seq<byte> | |b| == 16 witness [0, 0, 0, 0, 0, 0, 0, 0, 0, 0, 0, 0, 0, 0, 0, 0]
  type Half = b: seq<byte> | |b| == 8 witness [0, 0, 0, 0, 0, 0, 0, 0]
  type Pairing = b: seq<byte> | |b| == 7 witness [0, 0, 0, 0, 0, 0, 0]
  type Address = b: seq<byte> | |b| == 6 witness [0, 0, 0, 0, 0, 0]

  datatype LeAddr = LeAddr(kind: byte, val: Address)

  // The security function e: AES-128, key and plaintext in transmission order.
  type Cipher = (Block, Block) -> Block

  const TK0: Block := [0, 0, 0, 0, 0, 0, 0, 0, 0, 0, 0, 0, 0, 0, 0, 0]

  function XorBlock(p: Block, q: Block): (r: Block)
    ensures forall i :: 0 <= i < 16 ==> r[i] == p[i] ^ q[i]
  {
    seq(16, (i: int) requires 0 <= i < 16 => p[i] ^ q[i])
  }

  // xor_128 walks three pointers; the result may be written over either operand.
  method Xor128(p: array<byte>, q: array<byte>, r: array<byte>)
    requires p.Length == q.Length == r.Length == 16
    modifies r
    ensures r[..] == XorBlock(old(p[..]), old(q[..]))
  {
    var len := 16;
    var i := 0;
    while len > 0
      invariant i == 16 - len && 0 <= len <= 16
      invariant forall k :: 0 <= k < i ==> r[k] == old(p[k]) ^ old(q[k])
      invariant forall k :: i <= k < 16 ==> p[k] == old(p[k]) && q[k] == old(q[k])
    {
      r[i] := p[i] ^ q[i];
      i := i + 1;
      len := len - 1;
    }
  }

  // The plaintexts the source builds in its buffers.
  function Part1(r: Block, preq: Pairing, pres: Pairing, ia: LeAddr, ra: LeAddr): Block
  {
    XorBlock(r, [ia.kind, ra.kind] + preq + pres)
  }

  function Part2(half: Block, ia: LeAddr, ra: LeAddr): Block
  {
    XorBlock(half, ra.val + ia.val + [0, 0, 0, 0])
  }

  function KeyText(r1: Block, r2: Block): Block
  {
    r2[..8] + r1[..8]
  }

  function C1(e: Cipher, k: Block, r: Block, preq: Pairing, pres: Pairing, ia: LeAddr, ra: LeAddr): Block
  {
    e(k, Part2(e(k, Part1(r, preq, pres, ia, ra)), ia, ra))
  }

  function S1(e: Cipher, k: Block, r1: Block, r2: Block): Block
  {
    e(k, KeyText(r1, r2))
  }

  // The specification writes every value most significant octet first.
  function Rev(s: seq<byte>): (r: seq<byte>)
    ensures |r| == |s|
    ensures forall i :: 0 <= i < |s| ==> r[i] == s[|s| - 1 - i]
  {
    seq(|s|, (i: int) requires 0 <= i < |s| => s[|s| - 1 - i])
  }

  function RevBlock(b: Block): Block
  {
    Rev(b)
  }

  function SpecCipher(e: Cipher): Cipher
  {
    (k: Block, p: Block) => RevBlock(e(RevBlock(k), RevBlock(p)))
  }

  // c1(k, r, preq, pres, iat, rat, ia, ra) = e(k, e(k, r XOR p1) XOR p2)
  // with p1 = pres || preq || rat || iat and p2 = padding || ia || ra.
  function SpecC1(e: Cipher, k: Block, r: Block, preq: Pairing, pres: Pairing,
                  iat: byte, rat: byte, ia: Address, ra: Address): Block
  {
    var p1: Block := pres + preq + [rat] + [iat];
    var p2: Block := [0, 0, 0, 0] + ia + ra;
    e(k, XorBlock(e(k, XorBlock(r, p1)), p2))
  }

  // s1(k, r1, r2) = e(k, r1' || r2'), the least significant halves of r1 and r2.
  function SpecS1(e: Cipher, k: Block, r1: Block, r2: Block): Block
  {
    e(k, r1[8..] + r2[8..])
  }

  lemma RevRev(s: seq<byte>)
    ensures Rev(Rev(s)) == s
  {
  }

  lemma RevXor(p: Block, q: Block)
    ensures Rev(XorBlock(p, q)) == XorBlock(Rev(p), Rev(q))
  {
  }

  lemma CipherRev(e: Cipher, k: Block, p: Block)
    ensures SpecCipher(e)(Rev(k), Rev(p)) == Rev(e(k, p))
  {
    RevRev(k);
    RevRev(p);
    assert SpecCipher(e)(RevBlock(k), RevBlock(p)) == RevBlock(e(RevBlock(RevBlock(k)), RevBlock(RevBlock(p))));
  }

  lemma C1MeetsSpec(e: Cipher, k: Block, r: Block, preq: Pairing, pres: Pairing, ia: LeAddr, ra: LeAddr)
    ensures SpecC1(SpecCipher(e), Rev(k), Rev(r), Rev(preq), Rev(pres), ia.kind, ra.kind, Rev(ia.val), Rev(ra.val))
         == Rev(C1(e, k, r, preq, pres, ia, ra))
  {
    var p1: Block := [ia.kind, ra.kind] + preq + pres;
    var p2: Block := ra.val + ia.val + [0, 0, 0, 0];
    assert Rev(p1) == Rev(pres) + Rev(preq) + [ra.kind] + [ia.kind];
    assert Rev(p2) == [0, 0, 0, 0] + Rev(ia.val) + Rev(ra.val);
    var inner := e(k, XorBlock(r, p1));
    RevXor(r, p1);
    CipherRev(e, k, XorBlock(r, p1));
    RevXor(inner, p2);
    CipherRev(e, k, XorBlock(inner, p2));
  }

  lemma S1MeetsSpec(e: Cipher, k: Block, r1: Block, r2: Block)
    ensures SpecS1(SpecCipher(e), Rev(k), Rev(r1), Rev(r2)) == Rev(S1(e, k, r1, r2))
  {
    assert Rev(r1)[8..] + Rev(r2)[8..] == Rev(KeyText(r1, r2));
    CipherRev(e, k, KeyText(r1, r2));
  }
}
