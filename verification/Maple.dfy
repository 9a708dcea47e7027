// Maple bus frames: bits on two lines, the running XOR that closes a frame, and the repair of a
// frame whose first bits were missed (main/wired/maple.c:75, 199-394).
module Maple {
  import opened Bytes

  // Shifts ---------------------------------------------------------------------------

  // a << s, one place at a time
  function ShiftUp(a: byte, s: nat): byte
    requires s <= 8
  {
    if s == 0 then a else ShiftUp(a, s - 1) << 1
  }

  // a >> s
  function ShiftDown(a: byte, s: nat): byte
    requires s <= 8
  {
    if s == 0 then a else ShiftDown(a, s - 1) >> 1
  }

  lemma ShiftUpIs(a: byte, s: nat)
    requires s <= 8
    ensures ShiftUp(a, s) == a << s
  {
    if s > 0 {
      ShiftUpIs(a, s - 1);
    }
    match s
    case 0 =>
    case 1 => assert a << 1 == (a << 0) << 1;
    case 2 => assert a << 2 == (a << 1) << 1;
    case 3 => assert a << 3 == (a << 2) << 1;
    case 4 => assert a << 4 == (a << 3) << 1;
    case 5 => assert a << 5 == (a << 4) << 1;
    case 6 => assert a << 6 == (a << 5) << 1;
    case 7 => assert a << 7 == (a << 6) << 1;
    case 8 => assert a << 8 == (a << 7) << 1;
  }

  lemma ShiftDownIs(a: byte, s: nat)
    requires s <= 8
    ensures ShiftDown(a, s) == a >> s
  {
    if s > 0 {
      ShiftDownIs(a, s - 1);
    }
    match s
    case 0 =>
    case 1 => assert a >> 1 == (a >> 0) >> 1;
    case 2 => assert a >> 2 == (a >> 1) >> 1;
    case 3 => assert a >> 3 == (a >> 2) >> 1;
    case 4 => assert a >> 4 == (a >> 3) >> 1;
    case 5 => assert a >> 5 == (a >> 4) >> 1;
    case 6 => assert a >> 6 == (a >> 5) >> 1;
    case 7 => assert a >> 7 == (a >> 6) >> 1;
    case 8 => assert a >> 8 == (a >> 7) >> 1;
  }

  lemma Shifted(a: byte, k: nat)
    requires k < 8
    ensures Bit(a << 1, k) == (k < 7 && Bit(a, k + 1))
    ensures Bit(a >> 1, k) == (k > 0 && Bit(a, k - 1))
  {
  }

  lemma {:induction false} ShiftUpBits(a: byte, s: nat, k: nat)
    requires s <= 8 && k < 8
    ensures Bit(ShiftUp(a, s), k) == (k + s < 8 && Bit(a, k + s))
  {
    if s > 0 {
      hide Bit;
      Shifted(ShiftUp(a, s - 1), k);
      if k + 1 < 8 {
        ShiftUpBits(a, s - 1, k + 1);
      }
    }
  }

  lemma {:induction false} ShiftDownBits(a: byte, s: nat, k: nat)
    requires s <= 8 && k < 8
    ensures Bit(ShiftDown(a, s), k) == (k >= s && Bit(a, k - s))
  {
    if s > 0 {
      hide Bit;
      Shifted(ShiftDown(a, s - 1), k);
      if k >= 1 {
        ShiftDownBits(a, s - 1, k - 1);
      }
    }
  }

  function Or(a: byte, b: byte): byte { a | b }

  lemma OrBits(a: byte, b: byte, k: nat)
    requires k < 8
    ensures Bit(Or(a, b), k) == (Bit(a, k) || Bit(b, k))
  {
  }

  // Repair ---------------------------------------------------------------------------

  // maple_fix_byte
  function FixByte(s: nat, a: byte, b: byte): byte
    requires s <= 8
  {
    if s != 0 then (a << s) | (b >> (8 - s)) else b
  }

  // The same expression with its shifts taken one place at a time.
  lemma FixByteShifts(s: nat, a: byte, b: byte)
    requires 1 <= s <= 8
    ensures FixByte(s, a, b) == Or(ShiftUp(a, s), ShiftDown(b, 8 - s))
  {
    hide *;
    ShiftsAre(s, a, b);
    FixByteOr(s, a, b);
  }

  function Shl(a: byte, s: nat): byte
    requires s <= 8
  {
    a << s
  }

  function Shr(a: byte, s: nat): byte
    requires s <= 8
  {
    a >> s
  }

  lemma ShiftsAre(s: nat, a: byte, b: byte)
    requires 1 <= s <= 8
    ensures ShiftUp(a, s) == Shl(a, s) && ShiftDown(b, 8 - s) == Shr(b, 8 - s)
  {
    hide ShiftUp, ShiftDown;
    ShiftUpIs(a, s);
    ShiftDownIs(b, 8 - s);
  }

  lemma FixByteOr(s: nat, a: byte, b: byte)
    requires 1 <= s <= 8
    ensures FixByte(s, a, b) == Or(Shl(a, s), Shr(b, 8 - s))
  {
  }

  // The repaired byte: the low 8 - s bits of the first byte, then the high s bits of the second.
  lemma FixByteBits(s: nat, a: byte, b: byte, k: nat)
    requires 1 <= s <= 8 && k < 8
    ensures Bit(FixByte(s, a, b), k) == if k < 8 - s then Bit(a, s + k) else Bit(b, k - (8 - s))
  {
    hide Bit, FixByte, ShiftUp, ShiftDown, Or;
    FixByteShifts(s, a, b);
    OrBits(ShiftUp(a, s), ShiftDown(b, 8 - s), k);
    ShiftUpBits(a, s, k);
    ShiftDownBits(b, 8 - s, k);
  }

  // A whole byte is not shifted at all.
  lemma FixByteWhole(a: byte, b: byte)
    ensures FixByte(8, a, b) == b
  {
    forall k: nat | k < 8
      ensures Bit(FixByte(8, a, b), k) == Bit(b, k)
    {
      FixByteBits(8, a, b, k);
    }
    ByteExt(FixByte(8, a, b), b);
  }

  // `r` is what the buffer holds when the first `lost` bits of `f` were missed; the bits past
  // those received are left over from before.
  predicate ReceivedWithout(f: seq<byte>, r: seq<byte>, lost: nat)
  {
    && lost <= 8 * |f| && 8 * |f| - lost <= 8 * |r|
    && BitsOf(r)[..8 * |f| - lost] == BitsOf(f)[lost..]
  }

  lemma ReceivedBit(f: seq<byte>, r: seq<byte>, lost: nat, n: nat)
    requires ReceivedWithout(f, r, lost) && lost <= n < 8 * |f|
    ensures Bit(f[n / 8], n % 8) == Bit(r[(n - lost) / 8], (n - lost) % 8)
  {
    hide Bit;
    assert BitsOf(f)[lost..][n - lost] == BitsOf(r)[..8 * |f| - lost][n - lost];
  }

  lemma Place(i: nat, k: nat, lost: nat)
    requires 1 <= i && k < 8 && lost <= 8
    ensures (8 * i + k) / 8 == i && (8 * i + k) % 8 == k
    ensures k < lost ==> (8 * i + k - lost) / 8 == i - 1 && (8 * i + k - lost) % 8 == k + 8 - lost
    ensures k >= lost ==> (8 * i + k - lost) / 8 == i && (8 * i + k - lost) % 8 == k - lost
  {
  }

  // Up to seven missed bits: adjacent bytes give back every byte but the first.
  lemma RepairRestores(f: seq<byte>, r: seq<byte>, lost: nat, i: nat)
    requires 1 <= lost <= 7 && |r| == |f| && ReceivedWithout(f, r, lost) && 1 <= i < |f|
    ensures FixByte(8 - lost, r[i - 1], r[i]) == f[i]
  {
    hide Bit, FixByte, ReceivedWithout;
    forall k: nat | k < 8
      ensures Bit(FixByte(8 - lost, r[i - 1], r[i]), k) == Bit(f[i], k)
    {
      RepairedBit(f, r, lost, i, k);
    }
    ByteExt(FixByte(8 - lost, r[i - 1], r[i]), f[i]);
  }

  lemma RepairedBit(f: seq<byte>, r: seq<byte>, lost: nat, i: nat, k: nat)
    requires 1 <= lost <= 7 && |r| == |f| && ReceivedWithout(f, r, lost) && 1 <= i < |f| && k < 8
    ensures Bit(FixByte(8 - lost, r[i - 1], r[i]), k) == Bit(f[i], k)
  {
    hide Bit, FixByte, ReceivedWithout;
    FixByteBits(8 - lost, r[i - 1], r[i], k);
    ReceivedBit(f, r, lost, 8 * i + k);
    Place(i, k, lost);
  }

  // Eight missed bits: the bytes are whole but one place early, and the repair takes the wrong one.
  lemma RepairOfWholeByte(f: seq<byte>, r: seq<byte>, i: nat)
    requires |r| >= |f| - 1 && 8 <= 8 * |f| && ReceivedWithout(f, r, 8) && 1 <= i < |f| - 1
    ensures r[i - 1] == f[i] && r[i] == f[i + 1]
    ensures FixByte(8, r[i - 1], r[i]) == f[i] <==> f[i + 1] == f[i]
  {
    FixByteWhole(r[i - 1], r[i]);
    Whole(f, r, 8, i - 1);
    Whole(f, r, 8, i);
  }

  lemma WholePlace(i: nat, k: nat, lost: nat)
    requires k < 8 && (lost == 0 || lost == 8)
    ensures (8 * i + lost + k) / 8 == i + lost / 8 && (8 * i + lost + k) % 8 == k
    ensures (8 * i + k) / 8 == i && (8 * i + k) % 8 == k
  {
  }

  // With nothing or a whole byte missed, the received bytes are bytes of the frame.
  lemma Whole(f: seq<byte>, r: seq<byte>, lost: nat, i: nat)
    requires ReceivedWithout(f, r, lost) && (lost == 0 || lost == 8) && i + lost / 8 < |f|
    ensures i < |r| && r[i] == f[i + lost / 8]
  {
    assert i < |r|;
    hide Bit, ReceivedWithout;
    forall k: nat | k < 8
      ensures Bit(r[i], k) == Bit(f[i + lost / 8], k)
    {
      WholeBit(f, r, lost, i, k);
    }
    ByteExt(r[i], f[i + lost / 8]);
  }

  lemma WholeBit(f: seq<byte>, r: seq<byte>, lost: nat, i: nat, k: nat)
    requires ReceivedWithout(f, r, lost) && (lost == 0 || lost == 8) && i < |r| && i + lost / 8 < |f| && k < 8
    ensures Bit(r[i], k) == Bit(f[i + lost / 8], k)
  {
    hide Bit, ReceivedWithout;
    ReceivedBit(f, r, lost, 8 * i + lost + k);
    WholePlace(i, k, lost);
  }

  // Headers --------------------------------------------------------------------------

  function Value(b: byte): int { b as int }

  lemma ValueIsByte(a: byte, b: byte)
    ensures 0 <= Value(a) < 0x100 && (Value(a) == Value(b) ==> a == b)
  {
  }

  // A frame: length in words, two addresses, command, data, checksum.
  predicate FrameShaped(f: seq<byte>)
  {
    |f| >= 5 && |f| == 4 * Value(f[0]) + 5
  }

  datatype Header = Header(cmd: byte, src: byte, dst: byte, badFrame: nat)

  // The header fields as maple_rx takes them from the buffer; bitCnt counts the bit of the end pattern too.
  function ReadHeader(r: seq<byte>, bitCnt: nat): Header
    requires |r| >= 4 && bitCnt >= 1
  {
    var badFrame := (bitCnt - 1) % 8;
    var len := ((bitCnt - 1) / 32 - 1) % 0x100;
    if badFrame != 0 then
      Header(FixByte(badFrame, r[2], r[3]), FixByte(badFrame, r[1], r[2]), FixByte(badFrame, r[0], r[1]), badFrame)
    else if Value(r[0]) != len then Header(r[2], r[1], r[0], 8)
    else Header(r[3], r[2], r[1], badFrame)
  }

  // Up to seven bits missed, or none.
  lemma HeaderRecovered(f: seq<byte>, r: seq<byte>, lost: nat)
    requires FrameShaped(f) && lost <= 7 && |r| == |f| && ReceivedWithout(f, r, lost)
    ensures ReadHeader(r, 8 * |f| - lost + 1) == Header(f[3], f[2], f[1], if lost == 0 then 0 else 8 - lost)
  {
    hide FixByte, Value, ReceivedWithout;
    ValueIsByte(f[0], f[0]);
    if lost == 0 {
      Whole(f, r, 0, 0);
      Whole(f, r, 0, 1);
      Whole(f, r, 0, 2);
      Whole(f, r, 0, 3);
    } else {
      assert (8 * |f| - lost) % 8 == 8 - lost;
      RepairRestores(f, r, lost, 1);
      RepairRestores(f, r, lost, 2);
      RepairRestores(f, r, lost, 3);
    }
  }

  // The fields of a block write: function code, block, phase and the 128 bytes for the card.
  datatype BlockWrite = BlockWrite(func: seq<byte>, block: byte, phase: byte, payload: seq<byte>)

  function ReadBlockWrite(r: seq<byte>, badFrame: nat): BlockWrite
    requires |r| >= 141 && badFrame <= 8
  {
    BlockWrite(
      [FixByte(badFrame, r[3], r[4]), FixByte(badFrame, r[4], r[5]),
       FixByte(badFrame, r[5], r[6]), FixByte(badFrame, r[6], r[7])],
      FixByte(badFrame, r[7], r[8]), FixByte(badFrame, r[9], r[10]), ReadPayload(r, badFrame))
  }

  function ReadPayload(r: seq<byte>, badFrame: nat): (p: seq<byte>)
    requires |r| >= 141 && badFrame <= 8
    ensures |p| == 128
    ensures forall i :: 0 <= i < 128 ==>
              p[i] == if badFrame != 0 then FixByte(badFrame, r[i + 11], r[i + 12]) else r[i + 12]
  {
    if badFrame != 0 then seq(128, (i: int) requires 0 <= i < 128 => FixByte(badFrame, r[i + 11], r[i + 12]))
    else r[12..140]
  }

  lemma BlockWriteRecovered(f: seq<byte>, r: seq<byte>, lost: nat)
    requires |f| == 141 && lost <= 7 && |r| == |f| && ReceivedWithout(f, r, lost)
    ensures ReadBlockWrite(r, if lost == 0 then 0 else 8 - lost) == BlockWrite(f[4..8], f[8], f[10], f[12..140])
  {
    hide FixByte, ReceivedWithout, ReadPayload;
    PayloadRecovered(f, r, lost);
    Restored(f, r, lost, 4);
    Restored(f, r, lost, 5);
    Restored(f, r, lost, 6);
    Restored(f, r, lost, 7);
    Restored(f, r, lost, 8);
    Restored(f, r, lost, 10);
    assert f[4..8] == [f[4], f[5], f[6], f[7]];
  }

  lemma PayloadRecovered(f: seq<byte>, r: seq<byte>, lost: nat)
    requires |f| == 141 && lost <= 7 && |r| == |f| && ReceivedWithout(f, r, lost)
    ensures ReadPayload(r, if lost == 0 then 0 else 8 - lost) == f[12..140]
  {
    hide FixByte, ReceivedWithout;
    var p := ReadPayload(r, if lost == 0 then 0 else 8 - lost);
    forall i | 0 <= i < 128
      ensures p[i] == f[12..140][i]
    {
      Restored(f, r, lost, i + 12);
    }
  }

  lemma Restored(f: seq<byte>, r: seq<byte>, lost: nat, i: nat)
    requires lost <= 7 && |r| == |f| && ReceivedWithout(f, r, lost) && 1 <= i < |f|
    ensures FixByte(if lost == 0 then 0 else 8 - lost, r[i - 1], r[i]) == f[i]
    ensures lost == 0 ==> r[i] == f[i]
  {
    if lost == 0 {
      Whole(f, r, 0, i);
    } else {
      RepairRestores(f, r, lost, i);
    }
  }

  // A whole byte missed shows only in the length, so it goes unnoticed when the first address equals it.
  lemma WholeByteNoticed(f: seq<byte>, r: seq<byte>)
    requires FrameShaped(f) && |r| == |f| && ReceivedWithout(f, r, 8)
    ensures ReadHeader(r, 8 * |f| - 8 + 1).badFrame == 8 <==> f[1] != f[0]
    ensures f[1] != f[0] ==> ReadHeader(r, 8 * |f| - 8 + 1) == Header(f[3], f[2], f[1], 8)
    ensures f[1] == f[0] ==> ReadHeader(r, 8 * |f| - 8 + 1) == Header(f[4], f[3], f[2], 0)
  {
    hide FixByte, Value, ReceivedWithout;
    ValueIsByte(f[0], f[1]);
    Whole(f, r, 8, 0);
    Whole(f, r, 8, 1);
    Whole(f, r, 8, 2);
    Whole(f, r, 8, 3);
    assert 8 * |f| - 8 == 32 * Value(f[0]) + 32;
  }

  // The bus --------------------------------------------------------------------------

  // maple_tx: the last byte of the buffer is summed up while the rest goes out, and goes out last.
  method Transmit(data: array<byte>, len: nat) returns (wire: seq<bool>, crcRet: byte)
    requires 1 <= len <= data.Length
    modifies data
    ensures wire == BitsOf(old(data[..len - 1]) + [XorAll(old(data[..len - 1]))])
    ensures crcRet == XorAll(old(data[..len - 1]))
    ensures data[..len - 1] == old(data[..len - 1]) && data[len..] == old(data[len..])
  {
    hide Bit, BitsOf, XorAll;
    ghost var f := data[..len - 1];
    var crc := len - 1;
    data[crc] := 0x00;
    wire := [];
    crcRet := 0;
    Sums([], 0);
    NoBits();
    for i := 0 to crc
      invariant forall k :: 0 <= k < data.Length && k != crc ==> data[k] == old(data[k])
      invariant data[crc] == XorAll(f[..i]) && wire == BitsOf(f[..i])
    {
      wire, crcRet := TransmitByte(data, i, crc, wire);
      BitsOfMore(f[..i], data[i]);
      Sums(f[..i], data[i]);
      assert f[..i + 1] == f[..i] + [data[i]];
    }
    assert f[..crc] == f;
    BitsOfMore(f, data[crc]);
    wire, crcRet := TransmitByte(data, crc, crc, wire);
  }

  // A turn of the outer loop.
  method TransmitByte(data: array<byte>, i: nat, crc: nat, sent: seq<bool>) returns (wire: seq<bool>, crcRet: byte)
    requires i <= crc < data.Length
    modifies data
    ensures wire == sent + BitsOf([old(data[i])]) && crcRet == old(data[crc])
    ensures data[..] == old(data[..])[crc := old(data[crc]) ^ old(data[i])]
  {
    var bits := ByteBits(data[i]);
    wire := sent + bits;
    crcRet := data[crc];
    data[crc] := data[crc] ^ data[i];
  }

  lemma NoBits()
    ensures BitsOf([]) == []
  {
  }

  // The eight bits of a byte, two to a turn of the loop, one on each line.
  method ByteBits(b: byte) returns (bits: seq<bool>)
    ensures bits == BitsOf([b])
  {
    hide Tested, Mask, Bit, BitsOf;
    bits := [];
    assert |BitsOf([b])| == 8;
    var mask: byte := 0x80;
    FirstMask();
    ghost var k: nat := 0;
    while mask != 0
      invariant k <= 8 && k % 2 == 0 && mask == (if k < 8 then Mask(k) else 0) && (mask == 0 <==> k == 8)
      invariant bits == BitsOf([b])[..k]
      decreases 8 - k
    {
      NextMask(k);
      NextBit(b, k);
      bits := bits + [Tested(b, mask)];
      mask := mask >> 1;
      NextMask(k + 1);
      NextBit(b, k + 1);
      bits := bits + [Tested(b, mask)];
      mask := mask >> 1;
      k := k + 2;
      if k < 8 {
        NextMask(k);
      }
    }
  }

  lemma NextBit(b: byte, k: nat)
    requires k < 8
    ensures BitsOf([b])[..k + 1] == BitsOf([b])[..k] + [Tested(b, Mask(k))]
  {
    hide Tested, Mask;
  }

  // One bit of a buffer byte.
  function SetBit(b: byte, mask: byte, v: bool): byte
  {
    if v then b | mask else b & !mask
  }

  lemma SetBitBits(b: byte, k: nat, v: bool, j: nat)
    requires k < 8 && j < 8
    ensures Bit(SetBit(b, Mask(k), v), j) == if j == k then v else Bit(b, j)
  {
  }

  // The n-th bit of a buffer.
  function WithBit(s: seq<byte>, n: nat, v: bool): (r: seq<byte>)
    requires n < 8 * |s|
    ensures |r| == |s|
  {
    s[n / 8 := SetBit(s[n / 8], Mask(n % 8), v)]
  }

  lemma WithBitBits(s: seq<byte>, n: nat, v: bool)
    requires n < 8 * |s|
    ensures BitsOf(WithBit(s, n, v)) == BitsOf(s)[n := v]
  {
    hide Bit, SetBit, Mask;
    forall m | 0 <= m < 8 * |s|
      ensures BitsOf(WithBit(s, n, v))[m] == BitsOf(s)[n := v][m]
    {
      if m / 8 == n / 8 {
        SetBitBits(s[n / 8], n % 8, v, m % 8);
      }
    }
  }

  lemma OneMoreBit(w: seq<bool>, old_: seq<bool>, n: nat)
    requires n < |w| <= |old_|
    ensures (w[..n] + old_[n..])[n := w[n]] == w[..n + 1] + old_[n + 1..]
  {
  }

  // maple_rx up to the end of the frame: the bits the lines gave, the last of them from the end pattern.
  // The loop takes two bits a turn and leaves between them, so their number is odd.
  method Receive(w: seq<bool>, data: array<byte>) returns (bitCnt: nat, crc: byte)
    requires |w| % 2 == 1 && |w| <= 8 * data.Length
    modifies data
    ensures bitCnt == |w| && BitsOf(data[..]) == w + old(BitsOf(data[..]))[|w|..]
    ensures crc == Saved(data[..|w| / 8])
  {
    hide Bit, BitsOf, XorAll, Saved, Filled, Plus;
    ghost var was := BitsOf(data[..]);
    FilledEnds(data[..], w, was);
    var wcrc: byte := 0;
    var i: nat := 0;
    bitCnt := 0;
    crc := 0;
    Sums([], 0);
    while true
      invariant bitCnt == 8 * i < |w| && Filled(data[..], w, was, bitCnt)
      invariant wcrc == XorAll(data[..i]) && crc == Saved(data[..i])
      decreases |w| - bitCnt
    {
      ghost var front := data[..i];
      var ended;
      ended, bitCnt := TakeByte(w, data, i, bitCnt, was);
      if ended {
        FilledEnds(data[..], w, was);
        return;
      }
      crc := wcrc;
      Sums(front, data[i]);
      assert data[..i + 1] == front + [data[i]];
      wcrc := Plus(wcrc, data[i]);
      i := i + 1;
    }
  }

  // A buffer whose first n bits have come from the line.
  ghost predicate Filled(s: seq<byte>, w: seq<bool>, was: seq<bool>, n: nat)
  {
    n <= |w| <= |was| && BitsOf(s) == w[..n] + was[n..]
  }

  lemma FilledEnds(s: seq<byte>, w: seq<bool>, was: seq<bool>)
    requires |w| <= |was|
    ensures BitsOf(s) == was ==> Filled(s, w, was, 0)
    ensures Filled(s, w, was, |w|) ==> BitsOf(s) == w + was[|w|..]
  {
    assert w[..0] + was[0..] == was && w[..|w|] == w;
  }

  // The sum of all whole bytes but the last: what maple_rx keeps in crc.
  function Saved(s: seq<byte>): byte
  {
    if s == [] then 0 else XorAll(s[..|s| - 1])
  }

  function Plus(sum: byte, b: byte): byte { sum ^ b }

  lemma Sums(s: seq<byte>, b: byte)
    ensures XorAll([]) == Saved([]) == 0
    ensures XorAll(s + [b]) == Plus(XorAll(s), b) && Saved(s + [b]) == XorAll(s)
  {
    assert (s + [b])[..|s|] == s;
  }

  // The inner loop: up to eight bits, two a turn.
  method TakeByte(w: seq<bool>, data: array<byte>, i: nat, from: nat, ghost was: seq<bool>)
    returns (ended: bool, bitCnt: nat)
    requires |w| % 2 == 1 && |w| <= 8 * data.Length == |was| && from == 8 * i < |w|
    requires Filled(data[..], w, was, from)
    modifies data
    ensures data[..i] == old(data[..i]) && Filled(data[..], w, was, bitCnt)
    ensures if ended then from < bitCnt == |w| < from + 8 else from + 8 == bitCnt < |w|
  {
    hide Bit, Mask, BitsOf;
    bitCnt := from;
    var mask: byte := 0x80;
    FirstMask();
    ghost var k: nat := 0;
    ghost var front := data[..i];
    while mask != 0
      invariant k <= 8 && k % 2 == 0 && mask == (if k < 8 then Mask(k) else 0) && (mask == 0 <==> k == 8)
      invariant bitCnt == from + k < |w| && BitsOf(data[..]) == w[..bitCnt] + was[bitCnt..]
      invariant data[..i] == front
      decreases 8 - k
    {
      TakeBit(data, i, mask, w[bitCnt], k);
      OneMoreBit(w, was, bitCnt);
      NextMask(k);
      mask := mask >> 1;
      bitCnt := bitCnt + 1;
      if bitCnt == |w| {
        return true, bitCnt;
      }
      TakeBit(data, i, mask, w[bitCnt], k + 1);
      OneMoreBit(w, was, bitCnt);
      NextMask(k + 1);
      mask := mask >> 1;
      bitCnt := bitCnt + 1;
      k := k + 2;
      if k < 8 {
        NextMask(k);
      }
    }
    ended := false;
  }

  method TakeBit(data: array<byte>, i: nat, mask: byte, v: bool, ghost k: nat)
    requires i < data.Length && k < 8 && mask == Mask(k)
    modifies data
    ensures BitsOf(data[..]) == old(BitsOf(data[..]))[8 * i + k := v]
    ensures data[..i] == old(data[..i])
  {
    hide Bit, Mask, BitsOf, SetBit;
    WithBitBits(data[..], 8 * i + k, v);
    assert (8 * i + k) / 8 == i && (8 * i + k) % 8 == k;
    data[i] := SetBit(data[i], mask, v);
    assert data[..] == WithBit(old(data[..]), 8 * i + k, v);
  }

  // The buffer after a frame whose first bits were missed.
  lemma MissedBits(f: seq<byte>, w: seq<bool>, r: seq<byte>, was: seq<bool>, lost: nat, end: bool)
    requires lost <= 8 * |f| && w == BitsOf(f)[lost..] + [end] && |f| < |r| &&
             |was| == 8 * |r| && BitsOf(r) == w + was[|w|..]
    ensures ReceivedWithout(f, r[..|f|], lost)
  {
    hide Bit;
    assert BitsOf(r[..|f|]) == BitsOf(r)[..8 * |f|];
    assert BitsOf(r[..|f|])[..8 * |f| - lost] == BitsOf(f)[lost..];
  }

  // An intact frame: what the receiver has summed up by the last byte is the last byte.
  lemma ChecksumAgrees(p: seq<byte>, w: seq<bool>, r: seq<byte>, was: seq<bool>, end: bool)
    requires w == BitsOf(p + [XorAll(p)]) + [end] && |p| + 1 < |r| && |was| == 8 * |r| && BitsOf(r) == w + was[|w|..]
    ensures r[..|p| + 1] == p + [XorAll(p)] && |w| / 8 == |p| + 1
    ensures Saved(r[..|w| / 8]) == r[|p|] == XorAll(p)
  {
    var f := p + [XorAll(p)];
    FrameLength(f, w, end);
    hide Bit, XorAll, BitsOf, Saved;
    FrontBits(f, w, r, was, end);
    BitsOfInjective(r[..|f|], f);
    Sums(p, XorAll(p));
    assert r[|p|] == r[..|f|][|p|];
  }

  lemma FrameLength(f: seq<byte>, w: seq<bool>, end: bool)
    requires w == BitsOf(f) + [end]
    ensures |w| / 8 == |f|
  {
    assert |w| == 8 * |f| + 1;
  }

  lemma FrontBits(f: seq<byte>, w: seq<bool>, r: seq<byte>, was: seq<bool>, end: bool)
    requires w == BitsOf(f) + [end] && |f| < |r| && |was| == 8 * |r| && BitsOf(r) == w + was[|w|..]
    ensures BitsOf(r[..|f|]) == BitsOf(f)
  {
    hide Bit;
    assert BitsOf(r[..|f|]) == BitsOf(r)[..8 * |f|];
  }
}
