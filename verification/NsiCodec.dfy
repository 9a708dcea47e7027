// Bytes to and from the pulse items of the N64 controller line (main/wired/nsi.c).
module NsiCodec {
  import opened Bytes
  import opened NsiCrc

  const BIT_ZERO: bv32 := 0x80020006
  const BIT_ONE: bv32 := 0x80060002
  const BIT_ONE_MASK: bv32 := 0x7FFC0000
  const STOP_BIT_2US: bv32 := 0x80000004

  function Pulse(bit: bool): bv32
  {
    if bit then BIT_ONE else BIT_ZERO
  }

  function Pulses(bits: seq<bool>): (items: seq<bv32>)
    ensures |items| == |bits|
  {
    seq(|bits|, (i: int) requires 0 <= i < |bits| => Pulse(bits[i]))
  }

  // The receiver's reading of one item.
  predicate Level(item: bv32)
  {
    item & BIT_ONE_MASK != 0
  }

  function Levels(items: seq<bv32>): (bits: seq<bool>)
    ensures |bits| == |items|
  {
    seq(|items|, (i: int) requires 0 <= i < |items| => Level(items[i]))
  }

  // An item in time: the line is low, then high, in ticks of half a microsecond. A bit takes eight of them; a zero is
  // low for six, a one for two.
  lemma PulseShape(bit: bool)
    ensures var item := Pulse(bit);
            var low, high := item & 0x7FFF, (item >> 16) & 0x7FFF;
            && item & 0x8000 == 0 && item & 0x8000_0000 != 0
            && low == (if bit then 2 else 6) && low + high == 8
  {
  }

  // What was sent as a bit is received as that bit.
  lemma PulseLevel(bit: bool)
    ensures Level(Pulse(bit)) == bit
  {
    assert BIT_ONE & BIT_ONE_MASK == 0x00040000;
    assert BIT_ZERO & BIT_ONE_MASK == 0;
  }

  lemma LevelsOfPulses(bits: seq<bool>)
    ensures Levels(Pulses(bits)) == bits
  {
    forall i | 0 <= i < |bits|
      ensures Levels(Pulses(bits))[i] == bits[i]
    {
      PulseLevel(bits[i]);
    }
  }

  // The checksum both directions accumulate over the first n bits.
  function RunningCrc(bits: seq<bool>, n: nat): byte
    requires n <= |bits| && n <= 256
  {
    Xor(0xFF, TableSum(bits, n))
  }

  // What a run that starts at 0xFF and inverts the result puts on the wire.
  function SentCrc(bits: seq<bool>): byte
    requires |bits| <= 256
  {
    Xor(RunningCrc(bits, |bits|), 0xFF)
  }

  // For the 32-byte payloads of the pak commands it is the CRC-8 of the payload.
  lemma SentCrcIsRemainder(bits: seq<bool>)
    requires |bits| == 256
    ensures SentCrc(bits) == Remainder(bits)
  {
    TableSumIsRemainder(bits);
    assert SentCrc(bits) == Xor(Xor(0xFF, TableSum(bits, 256)), 0xFF);
    Reinvert(TableSum(bits, 256));
  }

  lemma Reinvert(s: byte)
    ensures Xor(Xor(0xFF, s), 0xFF) == s
  {
  }

  method BytesToItemsCrc(items: array<bv32>, start: nat, data: seq<byte>, stopBit: bv32)
    returns (item: nat, crc: byte)
    requires |data| <= 32 && start + 8 * |data| < items.Length
    modifies items
    ensures item == start + 8 * |data|
    ensures items[start..item] == Pulses(BitsOf(data)) && items[item] == stopBit
    ensures items[..start] == old(items[..start]) && items[item + 1..] == old(items[item + 1..])
    ensures crc == RunningCrc(BitsOf(data), 8 * |data|)
  {
    hide Table, Xor, Pulses, RunningCrc;
    ghost var bits := BitsOf(data);
    var entry := 0;
    item := start;
    crc := 0xFF;
    CrcStart(bits);
    assert Pulses(bits)[..0] == [];
    for d := 0 to |data|
      invariant entry == 8 * d && item == start + entry
      invariant items[start..item] == Pulses(bits)[..entry]
      invariant forall i :: 0 <= i < items.Length && !(start <= i < item) ==> items[i] == old(items[i])
      invariant crc == RunningCrc(bits, entry)
    {
      ByteBits(data, d);
      crc := ByteToItems(items, start, data[d], d, crc, bits);
      entry := entry + 8;
      item := item + 8;
    }
    items[item] := stopBit;
    assert Pulses(bits)[..entry] == Pulses(bits);
  }

  lemma ByteBits(data: seq<byte>, d: nat)
    requires d < |data|
    ensures BitsOf(data)[8 * d..8 * d + 8] == BitsOf([data[d]])
  {
    hide Bit;
  }

  lemma CrcStart(bits: seq<bool>)
    ensures RunningCrc(bits, 0) == 0xFF
  {
    XorZero(0xFF);
  }

  // The inner loop: the eight items of a byte.
  method ByteToItems(items: array<bv32>, start: nat, b: byte, d: nat, before: byte, ghost bits: seq<bool>)
    returns (crc: byte)
    requires 8 * (d + 1) <= |bits| <= 256 && start + 8 * (d + 1) <= items.Length
    requires bits[8 * d..8 * d + 8] == BitsOf([b]) && before == RunningCrc(bits, 8 * d)
    requires items[start..start + 8 * d] == Pulses(bits)[..8 * d]
    modifies items
    ensures items[start..start + 8 * d + 8] == Pulses(bits)[..8 * d + 8] && crc == RunningCrc(bits, 8 * d + 8)
    ensures forall i :: 0 <= i < items.Length && !(start <= i < start + 8 * d + 8) ==> items[i] == old(items[i])
  {
    hide Table, Xor, Mask, Tested, Pulses, RunningCrc, BitsOf;
    var mask: byte := 0x80;
    FirstMask();
    crc := before;
    var entry := 8 * d;
    ghost var k := 0;
    while mask != 0
      invariant k <= 8 && mask == (if k < 8 then Mask(k) else 0) && (mask == 0 <==> k == 8) && entry == 8 * d + k
      invariant items[start..start + entry] == Pulses(bits)[..entry]
      invariant forall i :: 0 <= i < items.Length && !(start <= i < start + entry) ==> items[i] == old(items[i])
      invariant crc == RunningCrc(bits, entry)
      decreases 8 - k
    {
      BitAt(b, bits, d, k);
      CrcNext(bits, entry);
      NextMask(k);
      ghost var done := items[start..start + entry];
      if Tested(b, mask) {
        crc := Xor(crc, Table(entry));
        items[start + entry] := BIT_ONE;
      } else {
        items[start + entry] := BIT_ZERO;
      }
      PulsesNext(bits, entry);
      assert items[start..start + entry + 1] == done + [items[start + entry]];
      entry := entry + 1;
      mask := mask >> 1;
      k := k + 1;
      if k < 8 {
        NextMask(k);
      }
    }
  }

  lemma PulsesNext(bits: seq<bool>, n: nat)
    requires n < |bits|
    ensures Pulses(bits)[..n + 1] == Pulses(bits)[..n] + [Pulse(bits[n])]
  {
  }

  lemma BitAt(b: byte, bits: seq<bool>, d: nat, k: nat)
    requires k < 8 && 8 * d + 8 <= |bits| && bits[8 * d..8 * d + 8] == BitsOf([b])
    ensures bits[8 * d + k] == Tested(b, Mask(k))
  {
    hide Tested, Mask;
    assert bits[8 * d + k] == bits[8 * d..8 * d + 8][k];
  }

  lemma CrcNext(bits: seq<bool>, n: nat)
    requires n < |bits| && n < 256
    ensures RunningCrc(bits, n + 1) == if bits[n] then Xor(RunningCrc(bits, n), Table(n)) else RunningCrc(bits, n)
  {
    hide Table, Xor;
    XorAssoc(0xFF, TableSum(bits, n), if bits[n] then Table(n) else 0);
    XorZero(RunningCrc(bits, n));
  }

  function ShiftedBit(b: byte, bit: bool): byte
  {
    if bit then (b << 1) + 1 else b << 1
  }

  // The byte a receiver holds after shifting bits in from the right.
  function ShiftedIn(b: byte, bits: seq<bool>): byte
  {
    if bits == [] then b
    else
      ShiftedBit(ShiftedIn(b, bits[..|bits| - 1]), bits[|bits| - 1])
  }

  lemma {:induction false} ShiftedInBits(b: byte, bits: seq<bool>)
    requires |bits| <= 8
    ensures forall j: nat :: j < |bits| ==> Bit(ShiftedIn(b, bits), 8 - |bits| + j) == bits[j]
  {
    if bits != [] {
      hide Bit, ShiftedBit;
      var front := bits[..|bits| - 1];
      ShiftedInBits(b, front);
      ShiftBit(ShiftedIn(b, front), bits[|bits| - 1]);
      forall j: nat | j < |bits|
        ensures Bit(ShiftedIn(b, bits), 8 - |bits| + j) == bits[j]
      {
        if j < |bits| - 1 {
          assert Bit(ShiftedIn(b, front), 8 - |front| + j) == front[j];
        }
      }
    }
  }

  lemma ShiftBit(b: byte, bit: bool)
    ensures var s := ShiftedBit(b, bit);
            Bit(s, 7) == bit && forall j: nat :: j < 7 ==> Bit(s, j) == Bit(b, j + 1)
  {
    LastShifted(b, bit);
    forall j: nat | j < 7
      ensures Bit(ShiftedBit(b, bit), j) == Bit(b, j + 1)
    {
      OtherShifted(b, bit, j);
    }
  }

  lemma LastShifted(b: byte, bit: bool)
    ensures Bit(ShiftedBit(b, bit), 7) == bit
  {
  }

  lemma OtherShifted(b: byte, bit: bool, j: nat)
    requires j < 7
    ensures Bit(ShiftedBit(b, bit), j) == Bit(b, j + 1)
  {
  }

  // Bytes are shifted in from the right, so whatever the buffer held is gone after eight items.
  method ItemsToBytes(items: array<bv32>, start: nat, data: array<byte>, offset: nat, len: nat) returns (item: nat)
    requires start % 8 == 0 && start + 8 * len <= items.Length
    requires offset + len <= data.Length
    modifies data
    ensures item == start + 8 * len
    ensures BitsOf(data[offset..offset + len]) == Levels(items[start..item])
    ensures data[..offset] == old(data[..offset]) && data[offset + len..] == old(data[offset + len..])
  {
    hide BitsOf, Levels, Frame;
    item := start;
    ghost var wire, before := items[..], data[..];
    FrameStarts(before, offset, wire, start);
    for d := 0 to len
      invariant item == start + 8 * d && item % 8 == 0
      invariant Frame(before, data[..], offset, d) && BitsOf(data[..][offset..offset + d]) == Levels(wire[start..item])
    {
      ghost var was := data[..];
      item := ItemsToByte(items, item, data, offset + d);
      FrameGrows(before, was, data[..], offset, d);
      OneMoreByte(was, data[..], offset, d, wire, start);
    }
    FrameEnds(before, data[..], offset, len);
    assert data[..][offset..offset + len] == data[offset..offset + len];
  }

  // Only the d bytes from the offset on may have changed.
  predicate Frame(before: seq<byte>, now: seq<byte>, offset: nat, d: nat)
  {
    && offset + d <= |before| == |now|
    && forall i :: 0 <= i < |now| && !(offset <= i < offset + d) ==> now[i] == before[i]
  }

  lemma FrameStarts(before: seq<byte>, offset: nat, wire: seq<bv32>, start: nat)
    requires offset <= |before| && start <= |wire|
    ensures Frame(before, before, offset, 0) && BitsOf(before[offset..offset + 0]) == Levels(wire[start..start])
  {
  }

  lemma FrameGrows(before: seq<byte>, was: seq<byte>, now: seq<byte>, offset: nat, d: nat)
    requires Frame(before, was, offset, d) && offset + d < |was| == |now| && now == was[offset + d := now[offset + d]]
    ensures Frame(before, now, offset, d + 1)
  {
  }

  lemma FrameEnds(before: seq<byte>, now: seq<byte>, offset: nat, d: nat)
    requires Frame(before, now, offset, d)
    ensures now[..offset] == before[..offset] && now[offset + d..] == before[offset + d..]
  {
  }

  lemma OneMoreByte(was: seq<byte>, data: seq<byte>, offset: nat, d: nat, items: seq<bv32>, start: nat)
    requires offset + d < |data| && |was| == |data| && data == was[offset + d := data[offset + d]]
    requires start + 8 * d + 8 <= |items|
    requires BitsOf(was[offset..offset + d]) == Levels(items[start..start + 8 * d])
    requires BitsOf([data[offset + d]]) == Levels(items[start + 8 * d..start + 8 * d + 8])
    ensures BitsOf(data[offset..offset + d + 1]) == Levels(items[start..start + 8 * d + 8])
  {
    hide BitsOf, Levels;
    assert data[offset..offset + d + 1] == was[offset..offset + d] + [data[offset + d]];
    BitsOfMore(was[offset..offset + d], data[offset + d]);
    LevelsMore(items, start, start + 8 * d + 8);
  }

  lemma NoLevels()
    ensures BitsOf([]) == Levels([])
  {
  }

  lemma LevelsMore(s: seq<bv32>, from: nat, to: nat)
    requires from + 8 <= to <= |s|
    ensures Levels(s[from..to]) == Levels(s[from..to - 8]) + Levels(s[to - 8..to])
  {
    hide Level;
  }

  // The inner loop: eight items shifted into one byte.
  method ItemsToByte(items: array<bv32>, from: nat, data: array<byte>, at: nat) returns (item: nat)
    requires from % 8 == 0 && from + 8 <= items.Length && at < data.Length
    modifies data
    ensures item == from + 8 && BitsOf([data[at]]) == Levels(items[from..from + 8])
    ensures data[..] == old(data[..])[at := data[at]]
  {
    hide Bit, ShiftedBit, ShiftedIn, Level, BitsOf;
    ghost var bits := Levels(items[from..from + 8]);
    ghost var stale := data[at];
    item := from;
    var more := true;
    ghost var k := 0;
    assert bits[0..0] == [];
    ShiftedInNone(stale);
    while more
      invariant k <= 8 && item == from + k && (more <==> k < 8)
      invariant data[at] == ShiftedIn(stale, bits[0..k])
      invariant forall i :: 0 <= i < data.Length && i != at ==> data[i] == old(data[i])
      decreases 8 - k
    {
      ShiftedInNext(stale, bits, 0, k);
      data[at] := ShiftedBit(data[at], Level(items[item]));
      item := item + 1;
      k := k + 1;
      more := item % 8 != 0;
    }
    ShiftedInByte(stale, bits, 0);
    assert bits[0..8] == bits;
  }

  lemma ShiftedInNone(b: byte)
    ensures ShiftedIn(b, []) == b
  {
  }

  lemma ShiftedInNext(b: byte, bits: seq<bool>, at: nat, k: nat)
    requires at + k < |bits|
    ensures ShiftedIn(b, bits[at..at + k + 1]) == ShiftedBit(ShiftedIn(b, bits[at..at + k]), bits[at + k])
  {
    assert bits[at..at + k + 1][..k] == bits[at..at + k];
  }

  lemma ShiftedInByte(b: byte, bits: seq<bool>, at: nat)
    requires at + 8 <= |bits|
    ensures BitsOf([ShiftedIn(b, bits[at..at + 8])]) == bits[at..at + 8]
  {
    hide Bit, ShiftedIn;
    ShiftedInBits(b, bits[at..at + 8]);
    var window := bits[at..at + 8];
    var s := ShiftedIn(b, window);
    forall t: nat | t < 8
      ensures BitsOf([s])[t] == window[t]
    {
      assert Bit(s, 8 - |window| + t) == window[t];
    }
  }

  // Despite its name it stores no byte: it only accumulates the checksum of the items.
  method ItemsCrc(items: array<bv32>, start: nat, len: nat) returns (item: nat, crc: byte)
    requires start % 8 == 0 && start + 8 * len <= items.Length && len <= 32
    ensures item == start + 8 * len
    ensures crc == RunningCrc(Levels(items[start..item]), 8 * len)
  {
    hide Table, Xor, Level, RunningCrc;
    ghost var bits := Levels(items[start..start + 8 * len]);
    item := start;
    crc := 0xFF;
    var entry := 0;
    CrcStart(bits);
    while item < start + 8 * len
      invariant entry <= 8 * len && item == start + entry && entry % 8 == 0
      invariant crc == RunningCrc(bits, entry)
      decreases 8 * len - entry
    {
      item, crc := ByteCrc(items, start, item, crc, bits);
      entry := entry + 8;
    }
  }

  // The inner loop: the checksum of eight items.
  method ByteCrc(items: array<bv32>, start: nat, from: nat, before: byte, ghost bits: seq<bool>)
    returns (item: nat, crc: byte)
    requires start <= from && (from - start) % 8 == 0 && start % 8 == 0 && from - start + 8 <= |bits| <= 256
    requires start + |bits| <= items.Length && bits == Levels(items[start..start + |bits|])
    requires before == RunningCrc(bits, from - start)
    ensures item == from + 8 && crc == RunningCrc(bits, from - start + 8)
  {
    hide Table, Xor, Level, RunningCrc;
    item := from;
    crc := before;
    var entry := from - start;
    var more := true;
    while more
      invariant from <= item <= from + 8 && item == start + entry && (more <==> item < from + 8)
      invariant crc == RunningCrc(bits, entry)
      decreases from + 8 - item
    {
      CrcNext(bits, entry);
      if Level(items[item]) {
        crc := Xor(crc, Table(entry));
      }
      entry := entry + 1;
      item := item + 1;
      more := item % 8 != 0;
    }
  }

  // The decoder's checksum of the received items is the encoder's checksum of the decoded bytes.
  lemma DecoderAgreesWithEncoder(items: seq<bv32>, data: seq<byte>)
    requires |items| <= 256 && Levels(items) == BitsOf(data)
    ensures RunningCrc(Levels(items), |items|) == RunningCrc(BitsOf(data), 8 * |data|)
  {
    assert |Levels(items)| == |items|;
  }

  // The check byte the receiver of a block answers with.
  function Ack(items: seq<bv32>): byte
    requires |items| == 256
  {
    Xor(RunningCrc(Levels(items), 256), 0xFF)
  }

  // It is the CRC-8 of the bytes decoded from the items, whatever those items are.
  lemma AckIsRemainder(items: seq<bv32>, received: seq<byte>)
    requires |items| == 256 && BitsOf(received) == Levels(items)
    ensures Ack(items) == Remainder(BitsOf(received))
  {
    hide RunningCrc, Xor, Remainder;
    DecoderAgreesWithEncoder(items, received);
    SentCrcIsRemainder(BitsOf(received));
  }

  // The sender of a block learns from it whether the bits inside one window of eight arrived ...
  lemma AckOfWindow(sent: seq<byte>, items: seq<bv32>, pre: seq<bool>, v: seq<bool>, w: seq<bool>, post: seq<bool>)
    requires |sent| == 32 && |items| == 256 && |v| == |w| <= 8
    requires BitsOf(sent) == pre + v + post && Levels(items) == pre + w + post
    ensures Ack(items) == Remainder(BitsOf(sent)) <==> v == w
  {
    hide RunningCrc, Xor, Remainder;
    SentCrcIsRemainder(Levels(items));
    if v != w {
      BurstDetected(pre, v, w, post);
    }
  }

  // ... and of two flipped bits unless they are 127 or 254 places apart.
  lemma AckOfTwoFlips(sent: seq<byte>, items: seq<bv32>, i: nat, j: nat)
    requires |sent| == 32 && |items| == 256 && i < j < 256
    requires Levels(items) == BitsOf(sent)[i := !BitsOf(sent)[i]][j := !BitsOf(sent)[j]]
    ensures Ack(items) == Remainder(BitsOf(sent)) <==> (j - i) % 127 == 0
  {
    hide *;
    SentCrcIsRemainder(Levels(items));
    TableSumIsRemainder(Levels(items));
    TableSumIsRemainder(BitsOf(sent));
    TwoBitErrors(BitsOf(sent), i, j);
    AckIsSentCrc(items);
  }

  lemma AckIsSentCrc(items: seq<bv32>)
    requires |items| == 256
    ensures Ack(items) == SentCrc(Levels(items))
  {
  }

  // Sending and receiving give back the bytes, and no other bytes give the same items.
  lemma WireRoundTrip(sent: seq<byte>, received: seq<byte>)
    ensures BitsOf(received) == Levels(Pulses(BitsOf(sent))) <==> received == sent
  {
    LevelsOfPulses(BitsOf(sent));
    if BitsOf(received) == BitsOf(sent) {
      BitsOfInjective(received, sent);
    }
  }
}
