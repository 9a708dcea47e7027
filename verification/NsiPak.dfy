// The N64 controller pak: commands 0x02 (read) and 0x03 (write) of the pad, from the items on the
// line to the memory card and back (main/wired/nsi.c:308-380).
module NsiPak {
  import opened Bytes
  import opened NsiCrc
  import opened NsiCodec
  import M = MemoryCard

  const CHANNEL_ITEMS: nat := 64
  const CHANNELS: nat := 8
  const PAK_SIZE: nat := 0x8000
  const BLOCK: nat := 32
  const BUFFER: nat := 128

  datatype Accessory = NoAccessory | Mem | Rumble | Both

  // The address a command names: five low bits are not part of it.
  function PakAddress(hi: byte, lo: byte): nat
  {
    256 * (hi as nat) + (lo & 0xE0) as nat
  }

  lemma PakAddressAligned(hi: byte, lo: byte)
    ensures PakAddress(hi, lo) % BLOCK == 0
  {
    var m := lo & 0xE0;
    assert m == 0 || m == 0x20 || m == 0x40 || m == 0x60 || m == 0x80 || m == 0xA0 || m == 0xC0 || m == 0xE0;
  }

  // Where that is on the card.
  function CardAddress(channel: nat, banksel: nat, addr: nat): nat
  {
    addr + ((channel + banksel) % 4) * PAK_SIZE
  }

  predicate OnPak(addr: nat)
  {
    addr < PAK_SIZE && addr % BLOCK == 0
  }

  lemma OnPakInBlock(channel: nat, banksel: nat, addr: nat)
    requires OnPak(addr)
    ensures M.InBlock(CardAddress(channel, banksel, addr), BLOCK)
  {
  }

  function Fill(b: byte): (s: seq<byte>)
    ensures |s| == BLOCK
  {
    seq(BLOCK, _ => b)
  }

  // What a read returns.
  function Payload(card: M.Card, channel: nat, banksel: nat, acc: Accessory, rumbleOn: bool, hi: byte, lo: byte)
    : (s: seq<byte>)
    ensures |s| == BLOCK
  {
    if hi == 0x80 && lo == 0x01 then Fill(if acc == Rumble && rumbleOn then 0x80 else 0)
    else if acc == Rumble then Fill(0)
    else
      var addr := PakAddress(hi, lo);
      PakAddressAligned(hi, lo);
      if addr < PAK_SIZE then
        OnPakInBlock(channel, banksel, addr);
        M.ReadBlocks(card.ram, CardAddress(channel, banksel, addr), BLOCK)
      else Fill(0)
  }

  // What a write does to the card.
  function WrittenCard(card: M.Card, channel: nat, banksel: nat, acc: Accessory, hi: byte, lo: byte, data: seq<byte>)
    : M.Card
    requires |data| == BLOCK
  {
    var addr := PakAddress(hi, lo);
    PakAddressAligned(hi, lo);
    if acc == Mem && addr < PAK_SIZE then
      OnPakInBlock(channel, banksel, addr);
      M.WriteCard(card, CardAddress(channel, banksel, addr), data)
    else card
  }

  // A block read back after a write: the data if it is the same block of the pak, what was there otherwise.
  lemma ReadAfterWrite(card: M.Card, channel: nat, banksel: nat, rumbleOn: bool,
                       hi: byte, lo: byte, data: seq<byte>, hi2: byte, lo2: byte)
    requires |data| == BLOCK && PakAddress(hi, lo) < PAK_SIZE && PakAddress(hi2, lo2) < PAK_SIZE
    ensures Payload(WrittenCard(card, channel, banksel, Mem, hi, lo, data), channel, banksel, Mem, rumbleOn, hi2, lo2)
         == if PakAddress(hi, lo) == PakAddress(hi2, lo2) then data
            else Payload(card, channel, banksel, Mem, rumbleOn, hi2, lo2)
  {
    var x, y := CardAddress(channel, banksel, PakAddress(hi, lo)), CardAddress(channel, banksel, PakAddress(hi2, lo2));
    var after := WrittenCard(card, channel, banksel, Mem, hi, lo, data);
    assert x == y <==> PakAddress(hi, lo) == PakAddress(hi2, lo2);
    hide PakAddress, Payload, WrittenCard, CardAddress, M.ReadBlocks, M.WriteCard, M.InBlock;
    PayloadOnPak(card, channel, banksel, rumbleOn, hi2, lo2);
    PayloadOnPak(after, channel, banksel, rumbleOn, hi2, lo2);
    WrittenOnPak(card, channel, banksel, hi, lo, data);
    ReadWrite(card, x, y, data);
  }

  lemma WrittenOnPak(card: M.Card, channel: nat, banksel: nat, hi: byte, lo: byte, data: seq<byte>)
    requires |data| == BLOCK && PakAddress(hi, lo) < PAK_SIZE
    ensures var x := CardAddress(channel, banksel, PakAddress(hi, lo));
            && x % BLOCK == 0 && M.InBlock(x, BLOCK)
            && WrittenCard(card, channel, banksel, Mem, hi, lo, data) == M.WriteCard(card, x, data)
  {
    PakAddressAligned(hi, lo);
    OnPakInBlock(channel, banksel, PakAddress(hi, lo));
    hide PakAddress, M.WriteCard;
  }

  lemma PayloadOnPak(card: M.Card, channel: nat, banksel: nat, rumbleOn: bool, hi: byte, lo: byte)
    requires PakAddress(hi, lo) < PAK_SIZE
    ensures M.InBlock(CardAddress(channel, banksel, PakAddress(hi, lo)), BLOCK)
    ensures CardAddress(channel, banksel, PakAddress(hi, lo)) % BLOCK == 0
    ensures Payload(card, channel, banksel, Mem, rumbleOn, hi, lo)
         == M.ReadBlocks(card.ram, CardAddress(channel, banksel, PakAddress(hi, lo)), BLOCK)
  {
    HighByte(hi, lo);
    PakAddressAligned(hi, lo);
    OnPakInBlock(channel, banksel, PakAddress(hi, lo));
    hide PakAddress, M.ReadBlocks;
  }

  // Addresses on the pak do not meet the accessory ID at 0x8001.
  lemma HighByte(hi: byte, lo: byte)
    requires PakAddress(hi, lo) < PAK_SIZE
    ensures hi != 0x80
  {
  }

  lemma ReadWrite(card: M.Card, x: nat, y: nat, data: seq<byte>)
    requires |data| == BLOCK && M.InBlock(x, BLOCK) && M.InBlock(y, BLOCK) && x % BLOCK == 0 && y % BLOCK == 0
    ensures M.ReadBlocks(M.WriteCard(card, x, data).ram, y, BLOCK)
         == if x == y then data else M.ReadBlocks(card.ram, y, BLOCK)
  {
    hide M.WriteBlocks, M.WriteCard, M.ReadBlocks, M.Flat, Overwrite;
    M.RamWritten(card, x, data);
    M.WriteRefinesFlat(card.ram, x, data);
    M.ReadRefinesFlat(M.WriteBlocks(card.ram, x, data), y, BLOCK);
    M.ReadRefinesFlat(card.ram, y, BLOCK);
    FlatReadWrite(M.Flat(card.ram), x, y, data);
  }

  lemma FlatReadWrite(s: seq<byte>, x: nat, y: nat, data: seq<byte>)
    requires |data| == BLOCK && x % BLOCK == 0 && y % BLOCK == 0 && x + BLOCK <= |s| && y + BLOCK <= |s|
    ensures Overwrite(s, x, data)[y..y + BLOCK] == if x == y then data else s[y..y + BLOCK]
  {
    assert x == y || x + BLOCK <= y || y + BLOCK <= x;
  }

  // Which pak ------------------------------------------------------------------------

  // On the flat card: the pak of the channel, counted from the bank selected, and in it the 32-byte block.
  function PakByte(channel: nat, banksel: nat, hi: nat, lo: nat): (x: nat)
    ensures hi < 128 && lo < 256 ==> x + 32 <= 131072
  {
    (channel + banksel) % 4 * 32768 + 256 * hi + 32 * (lo / 32)
  }

  function HighThree(lo: byte): byte { lo & 0xE0 }

  lemma HighThreeIs(lo: byte)
    ensures HighThree(lo) <= lo && lo - HighThree(lo) <= 0x1F
  {
  }

  lemma HighThreeAligned(lo: byte)
    ensures HighThree(lo) as nat % 32 == 0
  {
    var m := HighThree(lo);
    assert m == 0 || m == 0x20 || m == 0x40 || m == 0x60 || m == 0x80 || m == 0xA0 || m == 0xC0 || m == 0xE0;
  }

  lemma Difference(a: byte, b: byte)
    requires b <= a && a - b <= 0x1F
    ensures 0 <= a as nat - b as nat <= 31
  {
  }

  lemma LowBits(lo: byte)
    ensures (lo & 0xE0) as nat == 32 * (lo as nat / 32)
  {
    HighThreeIs(lo);
    HighThreeAligned(lo);
    Difference(lo, HighThree(lo));
    assert (lo & 0xE0) == HighThree(lo);
    hide HighThree;
  }

  lemma PakByteIs(channel: nat, banksel: nat, hi: byte, lo: byte)
    ensures PakAddress(hi, lo) < PAK_SIZE <==> hi < 128
    ensures CardAddress(channel, banksel, PakAddress(hi, lo)) == PakByte(channel, banksel, hi as nat, lo as nat)
  {
    LowBits(lo);
  }

  // Exactly the block at x of the flat card becomes the data.
  predicate WrittenAt(before: seq<byte>, after: seq<byte>, x: nat, data: seq<byte>)
  {
    && x + |data| <= |before| == |after| && after[x..x + |data|] == data
    && after[..x] == before[..x] && after[x + |data|..] == before[x + |data|..]
  }

  predicate IsBlock(flat: seq<byte>, x: nat, block: seq<byte>)
  {
    x + 32 <= |flat| && block == flat[x..x + 32]
  }

  lemma PayloadIsBlock(card: M.Card, channel: nat, banksel: nat, acc: Accessory, rumbleOn: bool, hi: byte, lo: byte)
    ensures var r := Payload(card, channel, banksel, acc, rumbleOn, hi, lo);
            if acc != Rumble && hi < 128 then
              IsBlock(M.Flat(card.ram), PakByte(channel, banksel, hi as nat, lo as nat), r)
            else
              forall k :: 0 <= k < 32 ==> r[k] == if acc == Rumble && rumbleOn && hi == 128 && lo == 1 then 0x80 else 0
  {
    PakByteIs(channel, banksel, hi, lo);
    PakAddressAligned(hi, lo);
    if acc != Rumble && hi < 128 {
      OnPakInBlock(channel, banksel, PakAddress(hi, lo));
      M.ReadRefinesFlat(card.ram, CardAddress(channel, banksel, PakAddress(hi, lo)), BLOCK);
    }
    hide PakAddress, CardAddress, M.ReadBlocks, M.Flat, PakByte;
  }

  lemma WritesBlock(card: M.Card, channel: nat, banksel: nat, acc: Accessory, hi: byte, lo: byte, data: seq<byte>)
    requires |data| == 32
    ensures var before, after := M.Flat(card.ram), M.Flat(WrittenCard(card, channel, banksel, acc, hi, lo, data).ram);
            if acc == Mem && hi < 128 then
              WrittenAt(before, after, PakByte(channel, banksel, hi as nat, lo as nat), data)
            else after == before
  {
    PakByteIs(channel, banksel, hi, lo);
    PakAddressAligned(hi, lo);
    if acc == Mem && hi < 128 {
      var x := CardAddress(channel, banksel, PakAddress(hi, lo));
      OnPakInBlock(channel, banksel, PakAddress(hi, lo));
      M.RamWritten(card, x, data);
      M.WriteRefinesFlat(card.ram, x, data);
      Overwritten(M.Flat(card.ram), x, data);
    }
    hide PakAddress, CardAddress, M.WriteCard, M.WriteBlocks, M.Flat, PakByte, Overwrite;
  }

  // What a controller reads: its block of the flat card unless the address is past the pak or a rumble pak is in;
  // there 0x80 is the answer to the accessory's ID while it is on, and zero everything else.
  lemma ReadsItsPak(card: M.Card, channel: nat, banksel: nat, acc: Accessory, rumbleOn: bool, hi: byte, lo: byte)
    ensures var r := Payload(card, channel, banksel, acc, rumbleOn, hi, lo);
            if acc != Rumble && hi < 128 then
              IsBlock(M.Flat(card.ram), (channel + banksel) % 4 * 32768 + 256 * hi as nat + 32 * (lo as nat / 32), r)
            else
              forall k :: 0 <= k < 32 ==> r[k] == if acc == Rumble && rumbleOn && hi == 128 && lo == 1 then 0x80 else 0
  {
    PayloadIsBlock(card, channel, banksel, acc, rumbleOn, hi, lo);
    hide Payload, M.Flat, IsBlock;
  }

  // What it writes: exactly that block, and only as a memory pak.
  lemma WritesItsPak(card: M.Card, channel: nat, banksel: nat, acc: Accessory, hi: byte, lo: byte, data: seq<byte>)
    requires |data| == 32
    ensures var before, after := M.Flat(card.ram), M.Flat(WrittenCard(card, channel, banksel, acc, hi, lo, data).ram);
            if acc == Mem && hi < 128 then
              WrittenAt(before, after, (channel + banksel) % 4 * 32768 + 256 * hi as nat + 32 * (lo as nat / 32), data)
            else after == before
  {
    WritesBlock(card, channel, banksel, acc, hi, lo, data);
    hide WrittenCard, M.Flat, WrittenAt;
  }

  lemma Overwritten(s: seq<byte>, x: nat, data: seq<byte>)
    requires x + |data| <= |s|
    ensures var r := Overwrite(s, x, data);
            r[x..x + |data|] == data && r[..x] == s[..x] && r[x + |data|..] == s[x + |data|..]
  {
  }

  // Two controllers: with one bank selection no write of one shows in any read of the other.
  lemma PaksAreApart(card: M.Card, c: nat, d: nat, banksel: nat, acc: Accessory, hi: byte, lo: byte, data: seq<byte>,
                     acc2: Accessory, rumbleOn: bool, hi2: byte, lo2: byte)
    requires |data| == 32 && c < 4 && d < 4 && c != d
    ensures Payload(WrittenCard(card, c, banksel, acc, hi, lo, data), d, banksel, acc2, rumbleOn, hi2, lo2)
         == Payload(card, d, banksel, acc2, rumbleOn, hi2, lo2)
  {
    var after := WrittenCard(card, c, banksel, acc, hi, lo, data);
    WritesBlock(card, c, banksel, acc, hi, lo, data);
    PayloadIsBlock(card, d, banksel, acc2, rumbleOn, hi2, lo2);
    PayloadIsBlock(after, d, banksel, acc2, rumbleOn, hi2, lo2);
    if acc == Mem && hi < 128 && acc2 != Rumble && hi2 < 128 {
      var x, y := PakByte(c, banksel, hi as nat, lo as nat), PakByte(d, banksel, hi2 as nat, lo2 as nat);
      BlocksApart(c, d, banksel, hi as nat, lo as nat, hi2 as nat, lo2 as nat);
      SliceApart(M.Flat(card.ram), M.Flat(after.ram), x, y, data);
    }
    hide Payload, WrittenCard, M.Flat, PakByte, WrittenAt;
  }

  lemma BlocksApart(c: nat, d: nat, banksel: nat, hi: nat, lo: nat, hi2: nat, lo2: nat)
    requires c < 4 && d < 4 && c != d && hi < 128 && lo < 256 && hi2 < 128 && lo2 < 256
    ensures var x, y := PakByte(c, banksel, hi, lo), PakByte(d, banksel, hi2, lo2); x + 32 <= y || y + 32 <= x
  {
    assert (c + banksel) % 4 != (d + banksel) % 4;
  }

  lemma SliceApart(s: seq<byte>, t: seq<byte>, x: nat, y: nat, data: seq<byte>)
    requires |data| == 32 && WrittenAt(s, t, x, data) && y + 32 <= |s| && (x + 32 <= y || y + 32 <= x)
    ensures t[y..y + 32] == s[y..y + 32]
  {
    forall k | y <= k < y + 32
      ensures t[k] == s[k]
    {
      if k < x {
        assert t[..x][k] == s[..x][k];
      } else {
        assert t[x + 32..][k - x - 32] == s[x + 32..][k - x - 32];
      }
    }
  }

  // The next bank of a controller is the bank of the next controller.
  lemma NextBank(card: M.Card, channel: nat, banksel: nat, acc: Accessory, rumbleOn: bool, hi: byte, lo: byte)
    ensures Payload(card, channel, banksel + 1, acc, rumbleOn, hi, lo)
         == Payload(card, (channel + 1) % 4, banksel, acc, rumbleOn, hi, lo)
  {
    PayloadIsBlock(card, channel, banksel + 1, acc, rumbleOn, hi, lo);
    PayloadIsBlock(card, (channel + 1) % 4, banksel, acc, rumbleOn, hi, lo);
    SamePak(channel, banksel, hi as nat, lo as nat);
    hide Payload, M.Flat, PakByte;
  }

  lemma SamePak(channel: nat, banksel: nat, hi: nat, lo: nat)
    ensures PakByte(channel, banksel + 1, hi, lo) == PakByte((channel + 1) % 4, banksel, hi, lo)
  {
    assert (channel + banksel + 1) % 4 == ((channel + 1) % 4 + banksel) % 4;
  }

  // The bits of an answer: the payload, its CRC-8, and the stop item.
  predicate Answered(items: seq<bv32>, base: nat, payload: seq<byte>)
    requires |payload| == BLOCK && base + 265 <= |items|
  {
    && items[base..base + 264] == Pulses(BitsOf(payload + [Remainder(BitsOf(payload))]))
    && items[base + 264] == STOP_BIT_2US
  }

  predicate Acknowledged(items: seq<bv32>, base: nat, data: seq<byte>)
    requires |data| == BLOCK && base + 9 <= |items|
  {
    && items[base..base + 8] == Pulses(BitsOf([Remainder(BitsOf(data))]))
    && items[base + 8] == STOP_BIT_2US
  }

  lemma PulsesJoin(a: seq<byte>, b: seq<byte>)
    ensures Pulses(BitsOf(a)) + Pulses(BitsOf(b)) == Pulses(BitsOf(a + b))
  {
    hide Bit, Pulse;
  }

  class Pak {
    const items: array<bv32>
    const buf: array<byte>
    const store: M.Store
    var acc: Accessory
    var rumbleOn: bool
    var lastRumble: byte
    const channel: nat

    ghost predicate Valid()
    {
      && items.Length == CHANNELS * CHANNEL_ITEMS && buf.Length == BUFFER && store.Shaped() && channel < 4
    }

    constructor (s: M.Store, ch: nat)
      requires s.Shaped() && ch < 4
      ensures Valid() && store == s && channel == ch && acc == NoAccessory && !rumbleOn
      ensures fresh(items) && fresh(buf)
    {
      items := new bv32[CHANNELS * CHANNEL_ITEMS](_ => 0);
      buf := new byte[BUFFER](_ => 0);
      store := s;
      acc := NoAccessory;
      rumbleOn := false;
      lastRumble := 0;
      channel := ch;
    }

    // The bytes of the request after the command byte.
    ghost function Request(from: nat, len: nat): seq<bool>
      requires Valid() && channel * CHANNEL_ITEMS + 8 + 8 * (from + len) <= items.Length
      reads items
    {
      Levels(items[channel * CHANNEL_ITEMS + 8 + 8 * from..channel * CHANNEL_ITEMS + 8 + 8 * (from + len)])
    }

    // Command 0x02: the answer goes over the request.
    method ReadCommand(banksel: nat, ghost hi: byte, ghost lo: byte)
      requires Valid() && Request(0, 2) == BitsOf([hi, lo])
      modifies items, buf
      ensures Answered(items[..], channel * CHANNEL_ITEMS,
                       Payload(store.State(), channel, banksel, acc, rumbleOn, hi, lo))
      ensures acc != Rumble && hi < 128 ==>
                exists block :: |block| == 32 && Answered(items[..], channel * CHANNEL_ITEMS, block) &&
                                IsBlock(M.Flat(store.Ram()), PakByte(channel, banksel, hi as nat, lo as nat), block)
    {
      hide BitsOf, Pulses, Levels, Remainder, Payload, Answered, M.Flat, IsBlock, PakByte;
      PayloadIsBlock(store.State(), channel, banksel, acc, rumbleOn, hi, lo);
      var _ := TakeAddress(hi, lo);
      var payload := ReadPayload(banksel, buf[0], buf[1]);
      SendAnswer(payload);
    }

    method ReadPayload(banksel: nat, hi: byte, lo: byte) returns (payload: seq<byte>)
      requires Valid()
      ensures payload == Payload(store.State(), channel, banksel, acc, rumbleOn, hi, lo)
    {
      hide M.ReadBlocks;
      if hi == 0x80 && lo == 0x01 {
        if acc == Rumble && rumbleOn {
          payload := Fill(0x80);
        } else {
          payload := Fill(0);
        }
      } else if acc == Rumble {
        payload := Fill(0);
      } else {
        var addr := PakAddress(hi, lo);
        PakAddressAligned(hi, lo);
        if addr < PAK_SIZE {
          OnPakInBlock(channel, banksel, addr);
          payload := store.Read(CardAddress(channel, banksel, addr), BLOCK);
        } else {
          payload := Fill(0);
        }
      }
    }

    method SendAnswer(payload: seq<byte>)
      requires Valid() && |payload| == BLOCK
      modifies items, buf
      ensures Answered(items[..], channel * CHANNEL_ITEMS, payload)
    {
      hide Xor, BitsOf, Pulses, RunningCrc, Remainder;
      var base := channel * CHANNEL_ITEMS;
      var item, crc := BytesToItemsCrc(items, base, payload, STOP_BIT_2US);
      ghost var first := items[base..item];
      SentCrcIsRemainder(BitsOf(payload));
      buf[0] := Xor(crc, 0xFF);
      var end, again := BytesToItemsCrc(items, item, [buf[0]], STOP_BIT_2US);
      assert items[base..item] == items[..item][base..] == first;
      PulsesJoin(payload, [buf[0]]);
      assert items[base..end] == items[base..item] + items[item..end];
    }

    // Command 0x03: the acknowledgement goes out before the data are read off the request.
    // `feedback` is what is handed to adapter_q_fb, which may drop it.
    method WriteCommand(banksel: nat, ghost hi: byte, ghost lo: byte, ghost data: seq<byte>)
      returns (feedback: seq<byte>)
      requires Valid() && |data| == BLOCK && Request(0, 2) == BitsOf([hi, lo]) && Request(2, BLOCK) == BitsOf(data)
      modifies this`rumbleOn, this`lastRumble, items, buf, store`dirty, store`queued, store.buffer
      ensures Acknowledged(items[..], channel * CHANNEL_ITEMS, data)
      ensures store.State() == WrittenCard(old(store.State()), channel, banksel, acc, hi, lo, data)
      ensures if acc == Mem && hi < 128 then
                WrittenAt(old(M.Flat(store.Ram())), M.Flat(store.Ram()),
                          PakByte(channel, banksel, hi as nat, lo as nat), data)
              else M.Flat(store.Ram()) == old(M.Flat(store.Ram()))
      ensures rumbleOn == if acc == Rumble && hi == 0x80 && lo == 0x01 && data[0] == 0xFE then false
                          else if acc == Rumble && hi == 0x80 && lo == 0x01 && data[0] == 0x80 then true
                          else old(rumbleOn)
      ensures feedback == if acc == Rumble && hi == 0xC0 && old(lastRumble) != data[0] then [data[0]] else []
      ensures lastRumble == if acc == Rumble && hi == 0xC0 then data[0] else old(lastRumble)
    {
      hide BitsOf, Pulses, Levels, Remainder, WrittenCard, Acknowledged, M.Flat, WrittenAt, PakByte;
      WritesBlock(store.State(), channel, banksel, acc, hi, lo, data);
      var item := TakeAddress(hi, lo);
      SendAck(item, data);
      var received := TakeData(item, data);
      feedback := Apply(banksel, buf[0], buf[1], received);
    }

    method TakeAddress(ghost hi: byte, ghost lo: byte) returns (item: nat)
      requires Valid() && Request(0, 2) == BitsOf([hi, lo])
      modifies buf
      ensures item == channel * CHANNEL_ITEMS + 24 && buf[0] == hi && buf[1] == lo
    {
      hide BitsOf, Pulses, Levels, Remainder;
      item := ItemsToBytes(items, channel * CHANNEL_ITEMS + 8, buf, 0, 2);
      TwoBytes(buf[0..2], hi, lo);
      assert buf[0..2][0] == buf[0] && buf[0..2][1] == buf[1];
    }

    method TakeData(from: nat, ghost data: seq<byte>) returns (received: seq<byte>)
      requires Valid() && |data| == BLOCK && from == channel * CHANNEL_ITEMS + 24
      requires Levels(items[from..from + 256]) == BitsOf(data)
      modifies buf
      ensures received == data && buf[0] == old(buf[0]) && buf[1] == old(buf[1])
    {
      hide BitsOf, Pulses, Levels, Remainder;
      ghost var was := buf[..];
      var end := ItemsToBytes(items, from, buf, 2, BLOCK);
      received := buf[2..2 + BLOCK];
      BitsOfInjective(received, data);
      FirstTwo(was, buf[..]);
    }

    lemma FirstTwo(s: seq<byte>, t: seq<byte>)
      requires |s| >= 2 && |t| >= 2 && s[..2] == t[..2]
      ensures s[0] == t[0] && s[1] == t[1]
    {
      assert s[0] == s[..2][0] && s[1] == s[..2][1];
    }

    method SendAck(item: nat, ghost data: seq<byte>)
      requires Valid() && |data| == BLOCK && item == channel * CHANNEL_ITEMS + 24
      requires Levels(items[item..item + 256]) == BitsOf(data)
      modifies items, buf
      ensures Acknowledged(items[..], channel * CHANNEL_ITEMS, data)
      ensures items[item..item + 256] == old(items[item..item + 256]) && buf[0] == old(buf[0]) && buf[1] == old(buf[1])
    {
      hide Xor, Pulses, RunningCrc, Remainder;
      var base := channel * CHANNEL_ITEMS;
      var _, crc := ItemsCrc(items, item, BLOCK);
      DecoderAgreesWithEncoder(items[item..item + 256], data);
      SentCrcIsRemainder(BitsOf(data));
      buf[35] := Xor(crc, 0xFF);
      ghost var was := items[..];
      var end, again := BytesToItemsCrc(items, base, [buf[35]], STOP_BIT_2US);
      TailOf(was, base);
      TailOf(items[..], base);
    }

    lemma TailOf(s: seq<bv32>, base: nat)
      requires base + 280 <= |s|
      ensures s[base + 24..base + 280] == s[base + 9..][15..271]
    {
    }

    method Apply(banksel: nat, hi: byte, lo: byte, data: seq<byte>) returns (feedback: seq<byte>)
      requires Valid() && |data| == BLOCK
      modifies this`rumbleOn, this`lastRumble, store`dirty, store`queued, store.buffer
      ensures store.State() == WrittenCard(old(store.State()), channel, banksel, acc, hi, lo, data)
      ensures rumbleOn == if acc == Rumble && hi == 0x80 && lo == 0x01 && data[0] == 0xFE then false
                          else if acc == Rumble && hi == 0x80 && lo == 0x01 && data[0] == 0x80 then true
                          else old(rumbleOn)
      ensures feedback == if acc == Rumble && hi == 0xC0 && old(lastRumble) != data[0] then [data[0]] else []
      ensures lastRumble == if acc == Rumble && hi == 0xC0 then data[0] else old(lastRumble)
    {
      hide M.WriteCard;
      feedback := [];
      if acc == Rumble {
        if hi == 0xC0 && lastRumble != data[0] {
          lastRumble := data[0];
          feedback := [data[0]];
        } else if hi == 0x80 && lo == 0x01 {
          if data[0] == 0xFE {
            rumbleOn := false;
          } else if data[0] == 0x80 {
            rumbleOn := true;
          }
        }
      } else if acc == Mem {
        var addr := PakAddress(hi, lo);
        PakAddressAligned(hi, lo);
        if addr < PAK_SIZE {
          OnPakInBlock(channel, banksel, addr);
          store.Write(CardAddress(channel, banksel, addr), data);
        }
      }
    }
  }

  lemma TwoBytes(got: seq<byte>, hi: byte, lo: byte)
    requires BitsOf(got) == BitsOf([hi, lo])
    ensures got == [hi, lo]
  {
    BitsOfInjective(got, [hi, lo]);
  }
}
