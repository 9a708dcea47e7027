// The PlayStation memory-card protocol, one byte exchange at a time
// (main/wired/ps_spi.c: spi_isr, ps_mc_hdlr and packet_end for the card device).
module PsCard {
  import opened Bytes
  import M = MemoryCard

  const MC_CMD: nat := 1
  const MC_ID1: nat := 2
  const MC_ID2: nat := 3
  const MC_MSB: nat := 4
  const MC_LSB: nat := 5
  const RD_AK1: nat := 6
  const RD_AK2: nat := 7
  const RD_MSB: nat := 8
  const RD_LSB: nat := 9
  const RD_DAT: nat := 10
  const RD_CRC: nat := 138
  const RD_STS: nat := 139
  const RD_LEN: nat := 140
  const WR_DAT: nat := 6
  const WR_CRC: nat := 134
  const WR_AK1: nat := 135
  const WR_AK2: nat := 136
  const WR_STS: nat := 137
  const WR_LEN: nat := 138
  const GID_LEN: nat := 3
  const BUFFER: nat := 144
  // the last place of the buffers; the source clocks no further without leaving them
  const LAST: nat := 143
  const SECTOR: nat := 128
  const SECTORS: nat := 0x400

  const CONTROLLER: byte := 0x01
  const CARD: byte := 0x81
  const CMD_GID: byte := 0x21
  const CMD_RD: byte := 0x52
  const CMD_ID: byte := 0x53
  const CMD_WR: byte := 0x57
  const GOOD: byte := 0x47
  const BAD_CRC: byte := 0x4E

  // `listening` is the interrupt enable the source clears to ignore the rest of a frame.
  datatype Port = Port(
    idx: nat, valid: bool, listening: bool, cmd: byte, flags: byte, crc: byte, addrHi: byte, addrLo: byte,
    txLen: nat, tx: seq<byte>, rx: seq<seq<byte>>, active: nat)

  // What the console sees for a byte: the next byte of the card and whether it was acknowledged.
  datatype Reply = Reply(data: byte, ack: bool)

  predicate Shaped(p: Port)
  {
    && |p.tx| == BUFFER && |p.rx| == 2 && |p.rx[0]| == BUFFER && |p.rx[1]| == BUFFER && p.active < 2
  }

  function Rx(p: Port): seq<byte>
    requires Shaped(p)
  {
    p.rx[p.active]
  }

  // mc_addr, its two bytes kept apart
  function Address(hi: byte, lo: byte): nat
  {
    hi as nat * 256 + lo as nat
  }

  function PortAddress(p: Port): nat { Address(p.addrHi, p.addrLo) }

  // The sector the port addresses is on the card.
  predicate OnCard(p: Port) { PortAddress(p) < SECTORS }

  lemma SectorInBlock(a: nat)
    requires a < SECTORS
    ensures M.InBlock(a * SECTOR, SECTOR)
  {
  }

  // Handling a byte leaves the receive buffers alone, and command, address and checksum unless their bytes
  // have come.
  predicate KeepsBuffers(r: Port, p: Port)
  {
    && r.idx == p.idx && r.active == p.active && r.rx == p.rx && KeepsFields(r, p, p.idx)
  }

  predicate KeepsFields(r: Port, p: Port, idx: nat)
  {
    && (idx != MC_CMD ==> r.cmd == p.cmd) && (idx != WR_CRC ==> r.crc == p.crc)
    && (idx != MC_MSB && idx != MC_LSB ==> r.addrHi == p.addrHi && r.addrLo == p.addrLo)
  }

  // ps_mc_hdlr for the byte just stored at idx; None means the frame is refused.
  datatype Handled = Refused(port: Port) | Accepted(port: Port)

  function McHandler(p0: Port, card: M.Card): (r: Handled)
    requires Shaped(p0) && 1 <= p0.idx < LAST
    requires p0.idx == RD_AK2 && p0.cmd == CMD_RD ==> OnCard(p0)
    ensures Shaped(r.port) && KeepsBuffers(r.port, p0)
  {
    var b := Rx(p0)[p0.idx];
    var p := WithCommand(p0);
    if p0.idx == MC_CMD && !p.valid && p.cmd != CMD_GID then Refused(p) else ByCommand(p, card, b)
  }

  function WithCommand(p: Port): (r: Port)
    requires Shaped(p) && p.idx < LAST
    ensures Shaped(r) && KeepsBuffers(r, p) && r.valid == p.valid
    ensures r.cmd == if p.idx == MC_CMD then Rx(p)[MC_CMD] else p.cmd
  {
    if p.idx == MC_CMD then p.(cmd := Rx(p)[MC_CMD]) else p
  }

  // A game ID follows, of a length the console gives.
  function GidLength(b: byte): nat { 4 + b as nat }

  function ByCommand(p: Port, card: M.Card, b: byte): (r: Handled)
    requires Shaped(p) && 1 <= p.idx < LAST && (p.idx == RD_AK2 && p.cmd == CMD_RD ==> OnCard(p))
    ensures Shaped(r.port) && KeepsBuffers(r.port, p)
  {
    if p.cmd == CMD_GID then
      Accepted(if p.idx == GID_LEN then p.(txLen := GidLength(b)) else p)
    else if p.cmd == CMD_RD then Accepted(ReadByte(p, card, b))
    else if p.cmd == CMD_ID then
      Accepted(if p.idx == MC_CMD then
        p.(txLen := 10, tx := p.tx[4 := 0x5C][5 := 0x5D][6 := 0x04][7 := 0x00][8 := 0x00][9 := 0x00])
      else p)
    else if p.cmd == CMD_WR then Accepted(WriteByte(p, b))
    else Refused(p)
  }

  function ReadByte(p: Port, card: M.Card, b: byte): (r: Port)
    requires Shaped(p) && 1 <= p.idx < LAST && (p.idx == RD_AK2 ==> OnCard(p))
    ensures Shaped(r) && KeepsBuffers(r, p)
  {
    if p.idx == MC_CMD then
      p.(txLen := RD_LEN, tx := p.tx[RD_AK1 := 0x5C][RD_AK2 := 0x5D][RD_CRC := 0x00][RD_STS := GOOD])
    else if p.idx == MC_MSB then
      p.(addrHi := b, addrLo := 0, tx := p.tx[RD_MSB := b][p.idx + 1 := b])
    else if p.idx == MC_LSB then
      p.(addrLo := p.addrLo | b, tx := p.tx[RD_LSB := b])
    else if p.idx == RD_AK2 then Loaded(p, card)
    else p
  }

  // mc_read and the checksum over what is about to be sent
  function Loaded(p: Port, card: M.Card): (r: Port)
    requires Shaped(p) && OnCard(p)
    ensures Shaped(r) && KeepsBuffers(r, p)
  {
    SectorInBlock(PortAddress(p));
    var tx := Overwrite(p.tx, RD_DAT, M.ReadBlocks(card.ram, PortAddress(p) * SECTOR, SECTOR));
    p.(tx := tx[RD_CRC := tx[RD_CRC] ^ XorAll(tx[RD_MSB..RD_CRC])])
  }

  function WriteByte(p: Port, b: byte): (r: Port)
    requires Shaped(p) && 1 <= p.idx < LAST
    ensures Shaped(r) && KeepsBuffers(r, p)
  {
    if p.idx == MC_CMD then
      p.(txLen := WR_LEN, tx := p.tx[WR_AK1 := 0x5C][WR_AK2 := 0x5D][WR_STS := GOOD])
    else if p.idx == MC_ID1 || p.idx == MC_ID2 then p
    else if p.idx == MC_MSB then p.(addrHi := b, addrLo := 0, tx := p.tx[p.idx + 1 := b])
    else if p.idx == MC_LSB then p.(addrLo := p.addrLo | b, tx := p.tx[p.idx + 1 := b])
    else if p.idx == WR_CRC then Summed(p, b)
    else if p.idx == WR_AK1 || p.idx == WR_AK2 then p
    else Echoed(p, b)
  }

  // The checksum over what was received, against the one the console sends.
  function Summed(p: Port, b: byte): (r: Port)
    requires Shaped(p) && p.idx == WR_CRC
    ensures Shaped(r) && KeepsBuffers(r, p)
  {
    var crc := XorAll(Rx(p)[MC_MSB..WR_CRC]);
    p.(crc := crc, tx := if crc != b then p.tx[WR_STS := BAD_CRC] else p.tx)
  }

  // The byte just received is the next one to send.
  function Echoed(p: Port, b: byte): (r: Port)
    requires Shaped(p) && p.idx < LAST
    ensures Shaped(r) && KeepsBuffers(r, p)
  {
    p.(tx := p.tx[p.idx + 1 := b])
  }

  // spi_isr while the console holds the select line, except in frames for the controller. A frame for
  // another device is ignored to its end.
  function Isr(p: Port, card: M.Card, b: byte, enabled: bool): (r: (Port, Reply))
    requires Shaped(p) && p.idx < LAST
    requires p.idx == 0 ==> b != CONTROLLER
    requires p.idx == RD_AK2 && p.cmd == CMD_RD ==> OnCard(p)
    ensures Shaped(r.0)
  {
    if !p.listening then (p, Reply(0xFF, false))
    else
      var q := p.(rx := p.rx[p.active := Rx(p)[p.idx := b]]);
      if p.idx == 0 then
        if b == CARD then
          Next(if enabled then
                 q.(txLen := 9, valid := true, tx := q.tx[1 := q.flags][2 := 0x5A][3 := 0x5D][4 := 0x00])
               else q.(txLen := 9, valid := false, flags := 0x08))
        else (q.(txLen := 9, valid := false, listening := false), Reply(0xFF, false))
      else
        match McHandler(q, card)
        case Refused(s) => (s.(valid := false, listening := false), Reply(0xFF, false))
        case Accepted(s) => Next(s)
  }

  function Next(p: Port): (r: (Port, Reply))
    requires Shaped(p) && p.idx < LAST
    ensures Shaped(r.0)
  {
    var q := p.(idx := p.idx + 1);
    (q, Reply(q.tx[q.idx], q.valid && q.idx < q.txLen))
  }

  // packet_end for the card device.
  function PacketEnd(p: Port, card: M.Card): (r: (Port, M.Card))
    requires Shaped(p) && (p.cmd == CMD_WR ==> OnCard(p))
    ensures Shaped(r.0)
  {
    (Released(p), CardAfter(p, card))
  }

  function Released(p: Port): (r: Port)
    requires Shaped(p)
    ensures Shaped(r)
  {
    var q := p.(idx := 0, listening := true);
    if p.valid then q.(flags := 0x00, valid := false, active := 1 - p.active) else q
  }

  function CardAfter(p: Port, card: M.Card): M.Card
    requires Shaped(p) && (p.cmd == CMD_WR ==> OnCard(p))
  {
    if p.cmd == CMD_WR && p.valid && p.crc == Rx(p)[WR_CRC] then
      SectorInBlock(PortAddress(p));
      M.WriteCard(card, PortAddress(p) * SECTOR, Rx(p)[WR_DAT..WR_DAT + SECTOR])
    else card
  }

  // The game ID packet_end passes on, at most thirteen characters and skipping seven after a leading 'c'.
  function GameIdNotice(r: seq<byte>): (id: seq<byte>)
    requires |r| == BUFFER
    ensures |id| <= 13
  {
    var offset: byte := if r[4] == 0x63 then 7 else 0;
    var start := if r[4] == 0x63 then 11 else 4;
    r[start..start + NoticeLength(r[GID_LEN] - offset)]
  }

  function NoticeLength(len: byte): (n: nat)
    ensures n <= 13
  {
    if len > 13 then 13 else len as nat
  }

  // Whole frames --------------------------------------------------------------------

  predicate Ready(p: Port, b: byte)
  {
    && Shaped(p) && p.idx < LAST && (p.idx == 0 ==> b != CONTROLLER)
    && (p.idx == RD_AK2 && p.cmd == CMD_RD ==> OnCard(p))
  }

  // One exchange with an enabled card; what the source does outside these bounds is not modelled.
  function Exchange(p: Port, card: M.Card, b: byte): (r: (Port, Reply))
  {
    if Ready(p, b) then Isr(p, card, b, true) else (p, Reply(0xFF, false))
  }

  function Clock(p: Port, card: M.Card, f: seq<byte>): (r: (Port, seq<Reply>))
    ensures |r.1| == |f|
  {
    if f == [] then (p, [])
    else
      var (q, rs) := Clock(p, card, f[..|f| - 1]);
      var (r, x) := Exchange(q, card, f[|f| - 1]);
      (r, rs + [x])
  }

  // Between frames.
  predicate Idle(p: Port)
  {
    Shaped(p) && p.idx == 0 && p.listening
  }

  predicate CardFrame(f: seq<byte>)
  {
    && |f| >= 6 && f[0] == CARD && Address(f[4], f[5]) < SECTORS
    && ((f[1] == CMD_WR && |f| == WR_LEN) || (f[1] == CMD_RD && |f| == RD_LEN))
  }

  function Sector(f: seq<byte>): nat
    requires |f| >= 6
  {
    Address(f[4], f[5])
  }

  // The checksum of a write frame covers address and data.
  predicate ChecksumOk(f: seq<byte>)
    requires |f| == WR_LEN
  {
    XorAll(f[MC_MSB..WR_CRC]) == f[WR_CRC]
  }

  function Status(f: seq<byte>): byte
    requires |f| == WR_LEN
  {
    if ChecksumOk(f) then GOOD else BAD_CRC
  }

  function WriteReply(flags: byte, f: seq<byte>): (r: seq<byte>)
    requires |f| == WR_LEN
    ensures |r| == WR_LEN
  {
    [flags, 0x5A, 0x5D, 0x00] + f[MC_MSB..WR_CRC] + [0x5C, 0x5D, Status(f), f[WR_STS]]
  }

  // The last byte of a read frame gets whatever the buffer holds past the status.
  function ReadReply(flags: byte, f: seq<byte>, sector: seq<byte>): (r: seq<byte>)
    requires |f| == RD_LEN && |sector| == SECTOR
    ensures |r| == RD_LEN - 1
  {
    [flags, 0x5A, 0x5D, 0x00, f[4], 0x5C, 0x5D, f[4], f[5]] + sector + [f[4] ^ f[5] ^ XorAll(sector), GOOD]
  }

  // The part of a frame received so far.
  predicate Received(p: Port, p0: Port, f: seq<byte>, k: nat)
    requires Shaped(p0) && k <= |f| <= BUFFER
  {
    && Shaped(p) && p.listening && p.idx == k && p.active == p0.active && p.flags == p0.flags
    && (k >= 1 ==> p.valid && Rx(p)[..k] == f[..k])
  }

  function Stored(p: Port, b: byte): (q: Port)
    requires Shaped(p) && p.idx < BUFFER
    ensures Shaped(q) && Rx(q)[p.idx] == b
  {
    p.(rx := p.rx[p.active := Rx(p)[p.idx := b]])
  }

  lemma StoredPrefix(p: Port, p0: Port, f: seq<byte>, k: nat)
    requires Shaped(p0) && k < |f| <= BUFFER && Received(p, p0, f, k)
    ensures Rx(Stored(p, f[k]))[..k + 1] == f[..k + 1]
  {
    assert f[..k + 1] == f[..k] + [f[k]];
  }

  // The port in the middle of a write frame, k bytes in.
  predicate WriteOk(p: Port, p0: Port, f: seq<byte>, k: nat)
    requires |f| == WR_LEN && k <= WR_LEN && Shaped(p0)
  {
    && Received(p, p0, f, k)
    && (k >= 1 ==> p.tx[2] == 0x5A && p.tx[3] == 0x5D && p.tx[4] == 0x00)
    && (k >= 2 ==>
      && p.cmd == CMD_WR && p.txLen == WR_LEN && p.tx[WR_AK1] == 0x5C && p.tx[WR_AK2] == 0x5D
      && p.tx[WR_STS] == if k <= WR_CRC then GOOD else Status(f))
    && (k >= 5 ==> p.addrHi == f[4] && p.addrLo == if k == 5 then 0 else f[5])
    && (k > WR_CRC ==> p.crc == XorAll(f[MC_MSB..WR_CRC]))
  }

  lemma WriteOpen(p: Port, p0: Port, card: M.Card, f: seq<byte>)
    requires CardFrame(f) && f[1] == CMD_WR && Shaped(p0) && WriteOk(p, p0, f, 0)
    ensures Ready(p, f[0])
    ensures var (q, x) := Exchange(p, card, f[0]);
            WriteOk(q, p0, f, 1) && x == Reply(WriteReply(p0.flags, f)[0], true)
  {
    hide XorAll, Status, Address;
    StoredPrefix(p, p0, f, 0);
  }

  lemma WriteCommand(p: Port, p0: Port, card: M.Card, f: seq<byte>)
    requires CardFrame(f) && f[1] == CMD_WR && Shaped(p0) && WriteOk(p, p0, f, 1)
    ensures Ready(p, f[1])
    ensures var (q, x) := Exchange(p, card, f[1]);
            WriteOk(q, p0, f, 2) && x == Reply(WriteReply(p0.flags, f)[1], true)
  {
    hide XorAll, Status, Address;
    StoredPrefix(p, p0, f, 1);
  }

  // From the third byte on a frame only reaches the branch of its command.
  lemma WriteExchange(p: Port, card: M.Card, b: byte)
    requires Shaped(p) && p.listening && p.cmd == CMD_WR && 2 <= p.idx < WR_LEN
    ensures Exchange(p, card, b) == Next(WriteByte(Stored(p, b), b))
  {
    hide XorAll, WriteByte, ReadByte;
  }

  lemma WriteIds(p: Port, p0: Port, card: M.Card, f: seq<byte>, k: nat)
    requires CardFrame(f) && f[1] == CMD_WR && 2 <= k < 4 && Shaped(p0) && WriteOk(p, p0, f, k)
    ensures var (q, x) := Exchange(p, card, f[k]);
            WriteOk(q, p0, f, k + 1) && x == Reply(WriteReply(p0.flags, f)[k], true)
  {
    hide XorAll, Exchange, Status;
    StoredPrefix(p, p0, f, k);
    WriteExchange(p, card, f[k]);
  }

  lemma WriteMsb(p: Port, p0: Port, card: M.Card, f: seq<byte>)
    requires CardFrame(f) && f[1] == CMD_WR && Shaped(p0) && WriteOk(p, p0, f, MC_MSB)
    ensures var (q, x) := Exchange(p, card, f[MC_MSB]);
            WriteOk(q, p0, f, MC_MSB + 1) && x == Reply(WriteReply(p0.flags, f)[MC_MSB], true)
  {
    hide XorAll, Exchange, Status;
    StoredPrefix(p, p0, f, MC_MSB);
    WriteExchange(p, card, f[MC_MSB]);
  }

  lemma WriteLsb(p: Port, p0: Port, card: M.Card, f: seq<byte>)
    requires CardFrame(f) && f[1] == CMD_WR && Shaped(p0) && WriteOk(p, p0, f, MC_LSB)
    ensures var (q, x) := Exchange(p, card, f[MC_LSB]);
            WriteOk(q, p0, f, MC_LSB + 1) && x == Reply(WriteReply(p0.flags, f)[MC_LSB], true)
  {
    hide XorAll, Exchange, Status;
    StoredPrefix(p, p0, f, MC_LSB);
    WriteExchange(p, card, f[MC_LSB]);
    assert (0 as byte) | f[MC_LSB] == f[MC_LSB];
  }

  lemma WriteData(p: Port, p0: Port, card: M.Card, f: seq<byte>, k: nat)
    requires CardFrame(f) && f[1] == CMD_WR && WR_DAT <= k < WR_CRC && Shaped(p0) && WriteOk(p, p0, f, k)
    ensures var (q, x) := Exchange(p, card, f[k]);
            WriteOk(q, p0, f, k + 1) && x == Reply(WriteReply(p0.flags, f)[k], true)
  {
    hide XorAll, Exchange, Status;
    StoredPrefix(p, p0, f, k);
    WriteExchange(p, card, f[k]);
  }

  lemma WriteByteAtCrc(p: Port)
    requires Shaped(p) && p.idx == WR_CRC
    ensures var sum := XorAll(Rx(p)[MC_MSB..WR_CRC]);
              WriteByte(p, Rx(p)[WR_CRC])
              == p.(crc := sum, tx := if sum != Rx(p)[WR_CRC] then p.tx[WR_STS := BAD_CRC] else p.tx)
  {
    hide XorAll;
  }

  lemma SummedPart(r: seq<byte>, f: seq<byte>)
    requires |r| == BUFFER && |f| == WR_LEN && r[..WR_CRC + 1] == f[..WR_CRC + 1]
    ensures r[MC_MSB..WR_CRC] == f[MC_MSB..WR_CRC]
  {
    assert r[MC_MSB..WR_CRC] == r[..WR_CRC + 1][MC_MSB..WR_CRC];
  }

  lemma WriteSum(p: Port, p0: Port, card: M.Card, f: seq<byte>)
    requires CardFrame(f) && f[1] == CMD_WR && Shaped(p0) && WriteOk(p, p0, f, WR_CRC)
    ensures var (q, x) := Exchange(p, card, f[WR_CRC]);
            WriteOk(q, p0, f, WR_CRC + 1) && x == Reply(WriteReply(p0.flags, f)[WR_CRC], true)
  {
    hide XorAll, Exchange, Address, WriteByte;
    StoredPrefix(p, p0, f, WR_CRC);
    WriteExchange(p, card, f[WR_CRC]);
    WriteByteAtCrc(Stored(p, f[WR_CRC]));
    SummedPart(Rx(Stored(p, f[WR_CRC])), f);
  }

  lemma WriteTail(p: Port, p0: Port, card: M.Card, f: seq<byte>, k: nat)
    requires CardFrame(f) && f[1] == CMD_WR && WR_AK1 <= k < WR_LEN && Shaped(p0) && WriteOk(p, p0, f, k)
    ensures var (q, x) := Exchange(p, card, f[k]);
            WriteOk(q, p0, f, k + 1) && x == Reply(WriteReply(p0.flags, f)[k], k + 1 < WR_LEN)
  {
    hide XorAll, Exchange, Address;
    StoredPrefix(p, p0, f, k);
    WriteExchange(p, card, f[k]);
  }

  // The replies to the first bytes of a frame; the last byte is never acknowledged.
  predicate Replied(rs: seq<Reply>, want: seq<byte>, k: nat, length: nat)
  {
    |rs| == k <= length && |want| >= k && forall i :: 0 <= i < k ==> rs[i] == Reply(want[i], i + 1 < length)
  }

  lemma RepliedMore(rs: seq<Reply>, x: Reply, want: seq<byte>, k: nat, length: nat)
    requires Replied(rs, want, k, length) && k < length && k < |want| && x == Reply(want[k], k + 1 < length)
    ensures Replied(rs + [x], want, k + 1, length)
  {
  }

  lemma ClockMore(p: Port, card: M.Card, f: seq<byte>, k: nat)
    requires k < |f|
    ensures var (q, rs) := Clock(p, card, f[..k]);
            var (r, x) := Exchange(q, card, f[k]);
            Clock(p, card, f[..k + 1]) == (r, rs + [x])
  {
    hide Exchange;
    assert f[..k + 1][..k] == f[..k];
  }

  // The first k bytes of a write frame went as they should.
  predicate WriteSoFar(p0: Port, card: M.Card, f: seq<byte>, k: nat)
    requires CardFrame(f) && f[1] == CMD_WR && Shaped(p0) && k <= WR_LEN
  {
    && WriteOk(Clock(p0, card, f[..k]).0, p0, f, k)
    && Replied(Clock(p0, card, f[..k]).1, WriteReply(p0.flags, f), k, WR_LEN)
  }

  lemma WriteMore(p0: Port, card: M.Card, f: seq<byte>, k: nat)
    requires CardFrame(f) && f[1] == CMD_WR && Shaped(p0) && k < WR_LEN && WriteSoFar(p0, card, f, k)
    ensures WriteSoFar(p0, card, f, k + 1)
  {
    hide Clock, WriteOk, WriteReply, Exchange, Status, Replied, Shaped, Received;
    ClockMore(p0, card, f, k);
    var c := Clock(p0, card, f[..k]);
    if k == 0 {
      WriteOpen(c.0, p0, card, f);
    } else if k == 1 {
      WriteCommand(c.0, p0, card, f);
    } else if k < 4 {
      WriteIds(c.0, p0, card, f, k);
    } else if k == MC_MSB {
      WriteMsb(c.0, p0, card, f);
    } else if k == MC_LSB {
      WriteLsb(c.0, p0, card, f);
    } else if k < WR_CRC {
      WriteData(c.0, p0, card, f, k);
    } else if k == WR_CRC {
      WriteSum(c.0, p0, card, f);
    } else {
      WriteTail(c.0, p0, card, f, k);
    }
    RepliedMore(c.1, Exchange(c.0, card, f[k]).1, WriteReply(p0.flags, f), k, WR_LEN);
  }

  lemma {:induction false} WriteClock(p0: Port, card: M.Card, f: seq<byte>, k: nat)
    requires CardFrame(f) && f[1] == CMD_WR && Idle(p0) && k <= WR_LEN
    ensures WriteSoFar(p0, card, f, k)
  {
    if k > 0 {
      hide WriteSoFar;
      WriteClock(p0, card, f, k - 1);
      WriteMore(p0, card, f, k - 1);
    }
  }

  // The card after a write frame: its sector holds the data, and nothing else changed, if the checksum was right.
  function Written(card: M.Card, f: seq<byte>): M.Card
    requires CardFrame(f) && |f| == WR_LEN
  {
    SectorInBlock(Sector(f));
    if ChecksumOk(f) then M.WriteCard(card, Sector(f) * SECTOR, f[WR_DAT..WR_DAT + SECTOR]) else card
  }

  lemma WriteFrame(p0: Port, card: M.Card, f: seq<byte>)
    requires Idle(p0) && CardFrame(f) && f[1] == CMD_WR
    ensures var (q, rs) := Clock(p0, card, f);
            && Shaped(q) && OnCard(q) && Replied(rs, WriteReply(p0.flags, f), WR_LEN, WR_LEN)
            && PacketEnd(q, card).1 == Written(card, f)
            && Idle(PacketEnd(q, card).0) && PacketEnd(q, card).0.flags == 0
  {
    hide XorAll, Clock;
    WriteClock(p0, card, f, WR_LEN);
    assert f[..WR_LEN] == f;
    var q := Clock(p0, card, f).0;
    assert Rx(q)[WR_CRC] == Rx(q)[..WR_LEN][WR_CRC];
    assert Rx(q)[WR_DAT..WR_DAT + SECTOR] == Rx(q)[..WR_LEN][WR_DAT..WR_DAT + SECTOR];
  }

  // Aborted write frames -------------------------------------------------------------

  // What a frame has not overwritten k bytes in: the rest of the active buffer, and command, address and
  // checksum while their bytes have not come.
  predicate Stale(p: Port, p0: Port, k: nat)
    requires Shaped(p0) && k <= BUFFER
  {
    && Shaped(p) && p.active == p0.active && Rx(p)[k..] == Rx(p0)[k..]
    && (k <= MC_CMD ==> p.cmd == p0.cmd) && (k <= WR_CRC ==> p.crc == p0.crc)
    && (k <= MC_MSB ==> p.addrHi == p0.addrHi && p.addrLo == p0.addrLo)
  }

  lemma OneByteStored(p: Port, card: M.Card, b: byte)
    requires Ready(p, b) && p.listening
    ensures var q := Exchange(p, card, b).0;
            Shaped(q) && q.active == p.active && Rx(q) == Rx(p)[p.idx := b] && KeepsFields(q, p, p.idx)
  {
    hide Exchange, Address;
    if p.idx == 0 {
      FirstByteStored(p, card, b);
    } else {
      LaterByteStored(p, card, b);
    }
  }

  lemma FirstByteStored(p: Port, card: M.Card, b: byte)
    requires Ready(p, b) && p.listening && p.idx == 0
    ensures var q := Exchange(p, card, b).0;
            Shaped(q) && q.active == p.active && q.rx == Stored(p, b).rx && KeepsFields(q, p, 0)
  {
    hide XorAll, McHandler, Address;
  }

  lemma LaterByteStored(p: Port, card: M.Card, b: byte)
    requires Ready(p, b) && p.listening && p.idx > 0
    ensures var q := Exchange(p, card, b).0;
            Shaped(q) && q.active == p.active && q.rx == Stored(p, b).rx && KeepsFields(q, p, p.idx)
  {
    hide XorAll, McHandler, Address;
  }

  lemma StaleMore(p0: Port, card: M.Card, f: seq<byte>, k: nat)
    requires CardFrame(f) && f[1] == CMD_WR && Shaped(p0) && k < WR_LEN
    requires WriteSoFar(p0, card, f, k) && Stale(Clock(p0, card, f[..k]).0, p0, k)
    ensures Stale(Clock(p0, card, f[..k + 1]).0, p0, k + 1)
  {
    hide Clock, WriteReply, Exchange, Status, Replied, Isr, Address;
    ClockMore(p0, card, f, k);
    var p := Clock(p0, card, f[..k]).0;
    OneByteStored(p, card, f[k]);
    var r := Rx(Exchange(p, card, f[k]).0);
    assert r[k + 1..] == Rx(p)[k..][1..] == Rx(p0)[k + 1..];
  }

  lemma {:induction false} StaleClock(p0: Port, card: M.Card, f: seq<byte>, k: nat)
    requires CardFrame(f) && f[1] == CMD_WR && Idle(p0) && k <= WR_LEN
    ensures Stale(Clock(p0, card, f[..k]).0, p0, k)
  {
    if k == 0 {
      assert f[..0] == [];
    } else {
      hide Stale, WriteSoFar, Clock, Address;
      StaleClock(p0, card, f, k - 1);
      WriteClock(p0, card, f, k - 1);
      StaleMore(p0, card, f, k - 1);
    }
  }

  // The sector the first k bytes of a write frame select: the one of the last frame until the address comes,
  // whose first byte clears the second.
  function Selected(p0: Port, f: seq<byte>, k: nat): nat
    requires |f| == WR_LEN
  {
    if k <= MC_MSB then PortAddress(p0) else if k == MC_LSB then Address(f[4], 0) else Sector(f)
  }

  // Whether they change the card: once the checksum is in, it decides; before, the checksum and the buffer
  // left by earlier frames do, and before the command the last command does as well.
  predicate Goes(p0: Port, f: seq<byte>, k: nat)
    requires Shaped(p0) && |f| == WR_LEN
  {
    if k > WR_CRC then ChecksumOk(f)
    else p0.crc == Rx(p0)[WR_CRC] && (k <= MC_CMD ==> p0.cmd == CMD_WR)
  }

  // The data then written: what arrived, and behind it what the buffer held.
  function Mixed(p0: Port, f: seq<byte>, k: nat): (data: seq<byte>)
    requires Shaped(p0) && |f| == WR_LEN && k <= WR_LEN
    ensures |data| == SECTOR
  {
    var got := if k < WR_DAT then WR_DAT else if k < WR_CRC then k else WR_CRC;
    f[WR_DAT..got] + Rx(p0)[got..WR_CRC]
  }

  lemma MixedBuffer(p: Port, p0: Port, f: seq<byte>, k: nat)
    requires Shaped(p0) && |f| == WR_LEN && k <= WR_LEN && Shaped(p)
    requires Rx(p)[..k] == f[..k] && Rx(p)[k..] == Rx(p0)[k..]
    ensures Rx(p)[WR_DAT..WR_CRC] == Mixed(p0, f, k)
    ensures Rx(p)[WR_CRC] == if k > WR_CRC then f[WR_CRC] else Rx(p0)[WR_CRC]
  {
    var r := Rx(p);
    forall i | 0 <= i < WR_LEN
      ensures r[i] == if i < k then f[i] else Rx(p0)[i]
    {
      if i < k {
        assert r[i] == r[..k][i] == f[..k][i];
      } else {
        assert r[i] == r[k..][i - k] == Rx(p0)[k..][i - k];
      }
    }
  }

  // The console lets go of the select line after any number of bytes of a write frame.
  lemma AbortedWrite(p0: Port, card: M.Card, f: seq<byte>, k: nat)
    requires Idle(p0) && CardFrame(f) && f[1] == CMD_WR && 1 <= k <= WR_LEN && Selected(p0, f, k) < SECTORS
    ensures M.InBlock(Selected(p0, f, k) * SECTOR, SECTOR)
    ensures var q := Clock(p0, card, f[..k]).0;
            && Shaped(q) && OnCard(q) && Idle(PacketEnd(q, card).0)
            && PacketEnd(q, card).1
               == if Goes(p0, f, k) then M.WriteCard(card, Selected(p0, f, k) * SECTOR, Mixed(p0, f, k)) else card
  {
    hide XorAll, Clock, Mixed, Replied, M.WriteCard, WriteReply, Status, Address;
    SectorInBlock(Selected(p0, f, k));
    WriteClock(p0, card, f, k);
    StaleClock(p0, card, f, k);
    MixedBuffer(Clock(p0, card, f[..k]).0, p0, f, k);
  }

  // What ps_spi_init leaves in a receive buffer.
  function InitialRx(): (r: seq<byte>)
    ensures |r| == BUFFER
  {
    seq(BUFFER, k => InitialByte(k))
  }

  function InitialByte(k: int): byte
  {
    if k == 0 || k == 2 then 0x01 else if k == 1 || k == 3 || Marked(k) then 0x42 else 0x00
  }

  predicate Marked(k: int) { k == 11 || k == 19 || k == 27 }

  // On a port no frame has reached yet, a write frame left right after its address overwrites the sector with
  // zeros and three bytes meant for a multitap.
  lemma FreshPortOverwrites(p0: Port, card: M.Card, f: seq<byte>)
    requires Idle(p0) && p0.crc == 0 && Rx(p0) == InitialRx() && CardFrame(f) && f[1] == CMD_WR
    ensures M.InBlock(Sector(f) * SECTOR, SECTOR)
    ensures var q := Clock(p0, card, f[..WR_DAT]).0;
            && Shaped(q) && OnCard(q)
            && PacketEnd(q, card).1 == M.WriteCard(card, Sector(f) * SECTOR,
                                                   seq(SECTOR, k => if Marked(k + WR_DAT) then 0x42 else 0x00))
  {
    hide M.WriteCard, M.InBlock, Clock, ChecksumOk, Address;
    AbortedWrite(p0, card, f, WR_DAT);
    InitialData(p0, f);
  }

  lemma InitialData(p0: Port, f: seq<byte>)
    requires Shaped(p0) && Rx(p0) == InitialRx() && |f| == WR_LEN
    ensures Mixed(p0, f, WR_DAT) == seq(SECTOR, k => if Marked(k + WR_DAT) then 0x42 else 0x00)
  {
    hide Marked;
    forall k | 0 <= k < SECTOR
      ensures Mixed(p0, f, WR_DAT)[k] == InitialByte(k + WR_DAT)
    {
      assert Mixed(p0, f, WR_DAT)[k] == Rx(p0)[k + WR_DAT];
    }
  }

  // The sector a frame addresses.
  function SectorOf(card: M.Card, f: seq<byte>): (r: seq<byte>)
    requires CardFrame(f)
    ensures |r| == SECTOR
  {
    SectorInBlock(Sector(f));
    M.ReadBlocks(card.ram, Sector(f) * SECTOR, SECTOR)
  }

  function ReadCrc(f: seq<byte>, sector: seq<byte>): byte
    requires |f| >= 6
  {
    f[4] ^ f[5] ^ XorAll(sector)
  }

  // The port in the middle of a read frame, k bytes in.
  predicate ReadOk(p: Port, p0: Port, card: M.Card, f: seq<byte>, k: nat)
    requires CardFrame(f) && |f| == RD_LEN && k <= RD_LEN && Shaped(p0)
  {
    && Received(p, p0, f, k)
    && (k >= 1 ==> p.tx[2] == 0x5A && p.tx[3] == 0x5D && p.tx[4] == 0x00)
    && (k >= 2 ==>
      && p.cmd == CMD_RD && p.txLen == RD_LEN && p.tx[RD_AK1] == 0x5C && p.tx[RD_AK2] == 0x5D && p.tx[RD_STS] == GOOD)
    && (2 <= k <= 7 ==> p.tx[RD_CRC] == 0)
    && (k >= 5 ==>
      p.addrHi == f[4] && p.addrLo == (if k == 5 then 0 else f[5]) && p.tx[5] == f[4] && p.tx[RD_MSB] == f[4])
    && (k >= 6 ==> p.tx[RD_LSB] == f[5])
    && (k >= 8 ==> p.tx[RD_DAT..RD_CRC] == SectorOf(card, f) && p.tx[RD_CRC] == ReadCrc(f, SectorOf(card, f)))
  }

  lemma ReadOpen(p: Port, p0: Port, card: M.Card, f: seq<byte>)
    requires CardFrame(f) && f[1] == CMD_RD && Shaped(p0) && ReadOk(p, p0, card, f, 0)
    ensures Ready(p, f[0])
    ensures var (q, x) := Exchange(p, card, f[0]);
            ReadOk(q, p0, card, f, 1) && x == Reply(ReadReply(p0.flags, f, SectorOf(card, f))[0], true)
  {
    hide XorAll, SectorOf, ReadCrc, Address;
    StoredPrefix(p, p0, f, 0);
  }

  lemma ReadCommand(p: Port, p0: Port, card: M.Card, f: seq<byte>)
    requires CardFrame(f) && f[1] == CMD_RD && Shaped(p0) && ReadOk(p, p0, card, f, 1)
    ensures Ready(p, f[1])
    ensures var (q, x) := Exchange(p, card, f[1]);
            ReadOk(q, p0, card, f, 2) && x == Reply(ReadReply(p0.flags, f, SectorOf(card, f))[1], true)
  {
    hide XorAll, SectorOf, ReadCrc, Address;
    StoredPrefix(p, p0, f, 1);
  }

  lemma ReadExchange(p: Port, card: M.Card, b: byte)
    requires Shaped(p) && p.listening && p.cmd == CMD_RD && 2 <= p.idx < RD_LEN && (p.idx == RD_AK2 ==> OnCard(p))
    ensures Exchange(p, card, b) == Next(ReadByte(Stored(p, b), card, b))
  {
    hide XorAll, WriteByte, ReadByte;
  }

  lemma ReadPass(p: Port, p0: Port, card: M.Card, f: seq<byte>, k: nat)
    requires CardFrame(f) && f[1] == CMD_RD && (2 <= k < 4 || k == RD_AK1) && Shaped(p0) && ReadOk(p, p0, card, f, k)
    ensures var (q, x) := Exchange(p, card, f[k]);
            ReadOk(q, p0, card, f, k + 1) && x == Reply(ReadReply(p0.flags, f, SectorOf(card, f))[k], true)
  {
    hide XorAll, Exchange, SectorOf, ReadCrc, Loaded;
    StoredPrefix(p, p0, f, k);
    ReadExchange(p, card, f[k]);
  }

  lemma ReadMsb(p: Port, p0: Port, card: M.Card, f: seq<byte>)
    requires CardFrame(f) && f[1] == CMD_RD && Shaped(p0) && ReadOk(p, p0, card, f, MC_MSB)
    ensures var (q, x) := Exchange(p, card, f[MC_MSB]);
            ReadOk(q, p0, card, f, MC_MSB + 1) && x == Reply(ReadReply(p0.flags, f, SectorOf(card, f))[MC_MSB], true)
  {
    hide XorAll, Exchange, SectorOf, ReadCrc, Loaded;
    StoredPrefix(p, p0, f, MC_MSB);
    ReadExchange(p, card, f[MC_MSB]);
  }

  lemma ReadLsb(p: Port, p0: Port, card: M.Card, f: seq<byte>)
    requires CardFrame(f) && f[1] == CMD_RD && Shaped(p0) && ReadOk(p, p0, card, f, MC_LSB)
    ensures var (q, x) := Exchange(p, card, f[MC_LSB]);
            ReadOk(q, p0, card, f, MC_LSB + 1) && x == Reply(ReadReply(p0.flags, f, SectorOf(card, f))[MC_LSB], true)
  {
    hide XorAll, Exchange, SectorOf, ReadCrc, Loaded;
    StoredPrefix(p, p0, f, MC_LSB);
    ReadExchange(p, card, f[MC_LSB]);
    assert (0 as byte) | f[MC_LSB] == f[MC_LSB];
  }

  lemma LoadedBuffer(tx: seq<byte>, hi: byte, lo: byte, sector: seq<byte>)
    requires |tx| == BUFFER && tx[RD_MSB] == hi && tx[RD_LSB] == lo && tx[RD_CRC] == 0 && |sector| == SECTOR
    ensures var t := Overwrite(tx, RD_DAT, sector);
            && t[RD_DAT..RD_CRC] == sector && t[..RD_DAT] == tx[..RD_DAT] && t[RD_STS] == tx[RD_STS]
            && t[RD_CRC] ^ XorAll(t[RD_MSB..RD_CRC]) == hi ^ lo ^ XorAll(sector)
  {
    hide XorAll;
    var t := Overwrite(tx, RD_DAT, sector);
    assert t[RD_MSB..RD_CRC] == [hi, lo] + sector;
    XorAllAppend([hi, lo], sector);
    XorAllPair(hi, lo);
    var sum := XorAll(t[RD_MSB..RD_CRC]);
    assert (0 as byte) ^ sum == sum;
  }

  lemma SectorLoaded(p: Port, card: M.Card, f: seq<byte>)
    requires CardFrame(f) && Shaped(p) && OnCard(p) && p.idx == RD_AK2
    requires p.addrHi == f[4] && p.addrLo == f[5] && p.tx[RD_MSB] == f[4] && p.tx[RD_LSB] == f[5] && p.tx[RD_CRC] == 0
    ensures var r := ReadByte(p, card, f[RD_AK2]);
            && r == p.(tx := r.tx)
            && r.tx[RD_DAT..RD_CRC] == SectorOf(card, f) && r.tx[RD_CRC] == ReadCrc(f, SectorOf(card, f))
            && r.tx[RD_STS] == p.tx[RD_STS] && r.tx[..RD_DAT] == p.tx[..RD_DAT]
  {
    hide XorAll, M.ReadBlocks, Overwrite;
    LoadedBuffer(p.tx, f[4], f[5], SectorOf(card, f));
  }

  lemma ReadLoad(p: Port, p0: Port, card: M.Card, f: seq<byte>)
    requires CardFrame(f) && f[1] == CMD_RD && Shaped(p0) && ReadOk(p, p0, card, f, RD_AK2)
    ensures var (q, x) := Exchange(p, card, f[RD_AK2]);
            ReadOk(q, p0, card, f, RD_AK2 + 1) && x == Reply(ReadReply(p0.flags, f, SectorOf(card, f))[RD_AK2], true)
  {
    hide XorAll, Exchange, SectorOf, ReadCrc, ReadByte;
    StoredPrefix(p, p0, f, RD_AK2);
    ReadExchange(p, card, f[RD_AK2]);
    SectorLoaded(Stored(p, f[RD_AK2]), card, f);
  }

  lemma ReadTail(p: Port, p0: Port, card: M.Card, f: seq<byte>, k: nat)
    requires CardFrame(f) && f[1] == CMD_RD && RD_MSB <= k < RD_LEN && Shaped(p0) && ReadOk(p, p0, card, f, k)
    ensures var (q, x) := Exchange(p, card, f[k]);
            && ReadOk(q, p0, card, f, k + 1) && x.ack == (k + 1 < RD_LEN)
            && (k + 1 < RD_LEN ==> x.data == ReadReply(p0.flags, f, SectorOf(card, f))[k])
  {
    hide XorAll, Exchange, SectorOf;
    StoredPrefix(p, p0, f, k);
    ReadExchange(p, card, f[k]);
  }

  // The first k bytes of a read frame went as they should.
  predicate ReadSoFar(p0: Port, card: M.Card, f: seq<byte>, k: nat)
    requires CardFrame(f) && f[1] == CMD_RD && Shaped(p0) && k <= RD_LEN
  {
    var c := Clock(p0, card, f[..k]);
    && ReadOk(c.0, p0, card, f, k)
    && Replied(if k == RD_LEN then c.1[..k - 1] else c.1, ReadReply(p0.flags, f, SectorOf(card, f)),
               if k == RD_LEN then k - 1 else k, RD_LEN)
    && (k == RD_LEN ==> !c.1[k - 1].ack)
  }

  lemma ReadMore(p0: Port, card: M.Card, f: seq<byte>, k: nat)
    requires CardFrame(f) && f[1] == CMD_RD && Shaped(p0) && k < RD_LEN && ReadSoFar(p0, card, f, k)
    ensures ReadSoFar(p0, card, f, k + 1)
  {
    hide Clock, ReadOk, Exchange, Replied, Shaped, Received, SectorOf, ReadReply;
    ClockMore(p0, card, f, k);
    var c := Clock(p0, card, f[..k]);
    var want := ReadReply(p0.flags, f, SectorOf(card, f));
    if k == 0 {
      ReadOpen(c.0, p0, card, f);
    } else if k == 1 {
      ReadCommand(c.0, p0, card, f);
    } else if k == MC_MSB {
      ReadMsb(c.0, p0, card, f);
    } else if k == MC_LSB {
      ReadLsb(c.0, p0, card, f);
    } else if k < RD_AK2 {
      ReadPass(c.0, p0, card, f, k);
    } else if k == RD_AK2 {
      ReadLoad(c.0, p0, card, f);
    } else {
      ReadTail(c.0, p0, card, f, k);
    }
    if k + 1 < RD_LEN {
      RepliedMore(c.1, Exchange(c.0, card, f[k]).1, want, k, RD_LEN);
    }
  }

  lemma {:induction false} ReadClock(p0: Port, card: M.Card, f: seq<byte>, k: nat)
    requires CardFrame(f) && f[1] == CMD_RD && Idle(p0) && k <= RD_LEN
    ensures ReadSoFar(p0, card, f, k)
  {
    if k > 0 {
      hide ReadSoFar;
      ReadClock(p0, card, f, k - 1);
      ReadMore(p0, card, f, k - 1);
    }
  }

  // A read frame answers with the sector and the checksum of address and data, and leaves the card alone.
  lemma ReadFrame(p0: Port, card: M.Card, f: seq<byte>)
    requires Idle(p0) && CardFrame(f) && f[1] == CMD_RD
    ensures var (q, rs) := Clock(p0, card, f);
            && Shaped(q) && q.cmd == CMD_RD && !rs[RD_LEN - 1].ack
            && Replied(rs[..RD_LEN - 1], ReadReply(p0.flags, f, SectorOf(card, f)), RD_LEN - 1, RD_LEN)
            && PacketEnd(q, card).1 == card
            && Idle(PacketEnd(q, card).0) && PacketEnd(q, card).0.flags == 0
  {
    hide XorAll, Clock, SectorOf, ReadReply;
    ReadClock(p0, card, f, RD_LEN);
    assert f[..RD_LEN] == f;
  }

  // Sessions ------------------------------------------------------------------------

  // What the console sees of a frame: every byte that carries meaning, all but the last acknowledged.
  function Seen(f: seq<byte>, rs: seq<Reply>): seq<Reply>
    requires |rs| == |f|
  {
    if |f| == RD_LEN then rs[..RD_LEN - 1] else rs
  }

  // One frame and the end of it; a frame the model does not cover changes nothing.
  function Frame(p: Port, card: M.Card, f: seq<byte>): (r: (Port, M.Card, seq<Reply>))
    ensures |r.2| == |f|
  {
    var (q, rs) := Clock(p, card, f);
    if Shaped(q) && (q.cmd == CMD_WR ==> OnCard(q)) then
      var (e, c) := PacketEnd(q, card);
      (e, c, rs)
    else (p, card, rs)
  }

  function Session(p: Port, card: M.Card, fs: seq<seq<byte>>): (r: (Port, M.Card, seq<seq<Reply>>))
    ensures |r.2| == |fs|
    decreases |fs|
  {
    if fs == [] then (p, card, [])
    else
      var (q, c, seen) := Session(p, card, fs[..|fs| - 1]);
      var (e, d, rs) := Frame(q, c, fs[|fs| - 1]);
      (e, d, seen + [Seen(fs[|fs| - 1], rs)])
  }

  // The block store a console may rely on.
  function Committed(store: seq<byte>, f: seq<byte>): (r: seq<byte>)
    requires CardFrame(f) && |store| == M.CARD_SIZE
    ensures |r| == M.CARD_SIZE
  {
    if f[1] == CMD_WR && ChecksumOk(f) then Overwrite(store, Sector(f) * SECTOR, f[WR_DAT..WR_DAT + SECTOR])
    else store
  }

  function At(store: seq<byte>, sector: nat): seq<byte>
    requires |store| == M.CARD_SIZE && sector < SECTORS
  {
    store[sector * SECTOR..sector * SECTOR + SECTOR]
  }

  function Answer(store: seq<byte>, flags: byte, f: seq<byte>): (r: seq<byte>)
    requires CardFrame(f) && |store| == M.CARD_SIZE
  {
    if f[1] == CMD_WR then WriteReply(flags, f)
    else ReadReply(flags, f, At(store, Sector(f)))
  }

  predicate Frames(fs: seq<seq<byte>>)
  {
    forall i :: 0 <= i < |fs| ==> CardFrame(fs[i])
  }

  function CommittedAll(store: seq<byte>, fs: seq<seq<byte>>): (r: seq<byte>)
    requires Frames(fs) && |store| == M.CARD_SIZE
    ensures |r| == M.CARD_SIZE
    decreases |fs|
  {
    if fs == [] then store else Committed(CommittedAll(store, fs[..|fs| - 1]), fs[|fs| - 1])
  }

  // Every reply byte is the answer's, acknowledged while more bytes of the frame are to come.
  predicate Answers(rs: seq<Reply>, want: seq<byte>, f: seq<byte>)
  {
    Replied(rs, want, |want|, |f|)
  }

  lemma FrameIs(p: Port, card: M.Card, f: seq<byte>)
    ensures var c := Clock(p, card, f);
            Shaped(c.0) && (c.0.cmd == CMD_WR ==> OnCard(c.0)) ==>
              Frame(p, card, f) == (PacketEnd(c.0, card).0, PacketEnd(c.0, card).1, c.1)
  {
    hide Clock, PacketEnd;
  }

  lemma WriteRefinesStore(p: Port, card: M.Card, f: seq<byte>)
    requires Idle(p) && CardFrame(f) && f[1] == CMD_WR
    ensures var r := Frame(p, card, f);
            && Idle(r.0) && r.0.flags == 0
            && M.Flat(r.1.ram) == Committed(M.Flat(card.ram), f)
            && Answers(Seen(f, r.2), WriteReply(p.flags, f), f)
  {
    hide Frame, Clock, PacketEnd, Written, Committed, M.Flat, WriteReply, Shaped, Address, Replied, OnCard;
    WriteFrame(p, card, f);
    FrameIs(p, card, f);
    WrittenIsCommitted(card, f);
  }

  lemma WrittenIsCommitted(card: M.Card, f: seq<byte>)
    requires CardFrame(f) && f[1] == CMD_WR
    ensures M.Flat(Written(card, f).ram) == Committed(M.Flat(card.ram), f)
  {
    hide ChecksumOk, M.Flat, Address, M.WriteBlocks, M.WriteCard, Overwrite;
    var at, data := Sector(f) * SECTOR, f[WR_DAT..WR_DAT + SECTOR];
    SectorInBlock(Sector(f));
    M.WriteRefinesFlat(card.ram, at, data);
    M.RamWritten(card, at, data);
  }

  lemma ReadRefinesStore(p: Port, card: M.Card, f: seq<byte>)
    requires Idle(p) && CardFrame(f) && f[1] == CMD_RD
    ensures var r := Frame(p, card, f);
            && Idle(r.0) && r.0.flags == 0 && r.1 == card
            && Answers(Seen(f, r.2), ReadReply(p.flags, f, SectorOf(card, f)), f)
  {
    hide Frame, Clock, PacketEnd, M.Flat, ReadReply, Shaped, Address, SectorOf;
    ReadFrame(p, card, f);
    FrameIs(p, card, f);
  }

  // One frame refines one operation of the block store.
  lemma FrameRefinesStore(p: Port, card: M.Card, f: seq<byte>)
    requires Idle(p) && CardFrame(f)
    ensures var r := Frame(p, card, f);
            && Idle(r.0) && r.0.flags == 0
            && M.Flat(r.1.ram) == Committed(M.Flat(card.ram), f)
            && Answers(Seen(f, r.2), Answer(M.Flat(card.ram), p.flags, f), f)
  {
    if f[1] == CMD_WR {
      hide Frame, Idle, M.Flat, Answers, Seen, WriteReply, ReadReply, ChecksumOk;
      WriteRefinesStore(p, card, f);
    } else {
      hide Frame, Idle, M.Flat, Answers, Seen, WriteReply, ReadReply;
      ReadRefinesStore(p, card, f);
      FlatSector(card, f);
    }
  }

  lemma FlatSector(card: M.Card, f: seq<byte>)
    requires CardFrame(f)
    ensures At(M.Flat(card.ram), Sector(f)) == SectorOf(card, f)
  {
    hide M.Flat;
    SectorInBlock(Sector(f));
    M.ReadRefinesFlat(card.ram, Sector(f) * SECTOR, SECTOR);
  }

  // The answer due to the i-th frame of a session.
  function Due(store: seq<byte>, flags: byte, fs: seq<seq<byte>>, i: nat): seq<byte>
    requires Frames(fs) && |store| == M.CARD_SIZE && i < |fs|
  {
    Answer(CommittedAll(store, fs[..i]), if i == 0 then flags else 0, fs[i])
  }

  lemma DueOfFront(store: seq<byte>, flags: byte, fs: seq<seq<byte>>, i: nat)
    requires Frames(fs) && |store| == M.CARD_SIZE && i < |fs| - 1
    ensures Due(store, flags, fs[..|fs| - 1], i) == Due(store, flags, fs, i)
  {
    hide Answer, CommittedAll;
    assert fs[..|fs| - 1][..i] == fs[..i];
  }

  lemma LastDue(store: seq<byte>, flags: byte, fs: seq<seq<byte>>)
    requires Frames(fs) && |store| == M.CARD_SIZE && fs != []
    ensures Due(store, flags, fs, |fs| - 1)
         == Answer(CommittedAll(store, fs[..|fs| - 1]), if |fs| == 1 then flags else 0, fs[|fs| - 1])
  {
  }

  predicate SessionOk(p: Port, card: M.Card, fs: seq<seq<byte>>)
    requires Frames(fs)
  {
    var s := Session(p, card, fs);
    && Idle(s.0) && s.0.flags == (if fs == [] then p.flags else 0)
    && M.Flat(s.1.ram) == CommittedAll(M.Flat(card.ram), fs)
    && AllAnswered(s.2, M.Flat(card.ram), p.flags, fs)
  }

  // Every frame got the answer due to it.
  predicate AllAnswered(seen: seq<seq<Reply>>, store: seq<byte>, flags: byte, fs: seq<seq<byte>>)
    requires Frames(fs) && |store| == M.CARD_SIZE && |seen| == |fs|
  {
    forall i :: 0 <= i < |fs| ==> Answers(seen[i], Due(store, flags, fs, i), fs[i])
  }

  lemma OneMoreAnswered(seen: seq<seq<Reply>>, x: seq<Reply>, store: seq<byte>, flags: byte, fs: seq<seq<byte>>)
    requires fs != [] && Frames(fs) && |store| == M.CARD_SIZE && |seen| == |fs| - 1
    requires AllAnswered(seen, store, flags, fs[..|fs| - 1]) &&
             Answers(x, Due(store, flags, fs, |fs| - 1), fs[|fs| - 1])
    ensures AllAnswered(seen + [x], store, flags, fs)
  {
    hide Answers, Due;
    var front := fs[..|fs| - 1];
    forall i | 0 <= i < |fs|
      ensures Answers((seen + [x])[i], Due(store, flags, fs, i), fs[i])
    {
      if i < |front| {
        DueOfFront(store, flags, fs, i);
        assert Answers(seen[i], Due(store, flags, front, i), front[i]);
      }
    }
  }

  lemma SessionMore(p: Port, card: M.Card, fs: seq<seq<byte>>)
    requires fs != []
    ensures var s, f := Session(p, card, fs[..|fs| - 1]), fs[|fs| - 1];
            var r := Frame(s.0, s.1, f);
            Session(p, card, fs) == (r.0, r.1, s.2 + [Seen(f, r.2)])
  {
    hide Frame, Seen;
  }

  lemma CommittedMore(store: seq<byte>, fs: seq<seq<byte>>)
    requires fs != [] && Frames(fs) && |store| == M.CARD_SIZE
    ensures CommittedAll(store, fs) == Committed(CommittedAll(store, fs[..|fs| - 1]), fs[|fs| - 1])
  {
    hide Committed;
  }

  // Over any sequence of complete frames the card is the block store: the new-card flag shows in the
  // first frame only, and nothing left in the buffers by earlier frames leaks into a later one.
  lemma {:induction false} SessionRefinesStore(p: Port, card: M.Card, fs: seq<seq<byte>>)
    requires Idle(p) && Frames(fs)
    ensures SessionOk(p, card, fs)
    decreases |fs|
  {
    if fs != [] {
      assert CardFrame(fs[|fs| - 1]);
      hide M.Flat, Frame, Session, Committed, CommittedAll, Answer, Answers, Due,
           CardFrame, Seen, Shaped, AllAnswered, Idle;
      var front, f := fs[..|fs| - 1], fs[|fs| - 1];
      SessionRefinesStore(p, card, front);
      SessionMore(p, card, fs);
      var s, store := Session(p, card, front), M.Flat(card.ram);
      FrameRefinesStore(s.0, s.1, f);
      CommittedMore(store, fs);
      LastDue(store, p.flags, fs);
      OneMoreAnswered(s.2, Seen(f, Frame(s.0, s.1, f).2), store, p.flags, fs);
    }
  }

  // The last write to a sector that was committed.
  predicate Commits(f: seq<byte>, sector: nat)
  {
    CardFrame(f) && f[1] == CMD_WR && ChecksumOk(f) && Sector(f) == sector
  }

  // Frame i is the last write to the sector that was committed.
  predicate LastWrite(fs: seq<seq<byte>>, sector: nat, i: nat)
  {
    i < |fs| && Commits(fs[i], sector) && forall j :: i < j < |fs| ==> !Commits(fs[j], sector)
  }

  predicate NoWrite(fs: seq<seq<byte>>, sector: nat)
  {
    forall j :: 0 <= j < |fs| ==> !Commits(fs[j], sector)
  }

  // Reading the store back: the data of the last committed write to the sector, or the original contents.
  lemma LastCommitted(store: seq<byte>, fs: seq<seq<byte>>, sector: nat)
    requires Frames(fs) && |store| == M.CARD_SIZE && sector < SECTORS
    ensures NoWrite(fs, sector) ==> At(CommittedAll(store, fs), sector) == At(store, sector)
    ensures forall i: nat :: LastWrite(fs, sector, i) ==>
              At(CommittedAll(store, fs), sector) == fs[i][WR_DAT..WR_DAT + SECTOR]
    ensures NoWrite(fs, sector) || exists i: nat :: LastWrite(fs, sector, i)
  {
    hide At, CommittedAll, Address, ChecksumOk;
    if NoWrite(fs, sector) {
      NeverCommitted(store, fs, sector);
    }
    forall i: nat | LastWrite(fs, sector, i)
      ensures At(CommittedAll(store, fs), sector) == fs[i][WR_DAT..WR_DAT + SECTOR]
    {
      LastWriteStays(store, fs, sector, i);
    }
    LastWriteExists(fs, sector);
  }

  lemma {:induction false} NeverCommitted(store: seq<byte>, fs: seq<seq<byte>>, sector: nat)
    requires Frames(fs) && |store| == M.CARD_SIZE && sector < SECTORS && NoWrite(fs, sector)
    ensures At(CommittedAll(store, fs), sector) == At(store, sector)
    decreases |fs|
  {
    if fs != [] {
      hide At, CardFrame, Commits, Committed;
      NeverCommitted(store, fs[..|fs| - 1], sector);
      CommitTouches(CommittedAll(store, fs[..|fs| - 1]), fs[|fs| - 1], sector);
    }
  }

  lemma {:induction false} LastWriteStays(store: seq<byte>, fs: seq<seq<byte>>, sector: nat, i: nat)
    requires Frames(fs) && |store| == M.CARD_SIZE && sector < SECTORS && LastWrite(fs, sector, i)
    ensures At(CommittedAll(store, fs), sector) == fs[i][WR_DAT..WR_DAT + SECTOR]
    decreases |fs|
  {
    hide At, CardFrame, Commits, Committed;
    if i < |fs| - 1 {
      LastWriteStays(store, fs[..|fs| - 1], sector, i);
    }
    CommitTouches(CommittedAll(store, fs[..|fs| - 1]), fs[|fs| - 1], sector);
  }

  lemma {:induction false} LastWriteExists(fs: seq<seq<byte>>, sector: nat)
    ensures NoWrite(fs, sector) || exists i: nat :: LastWrite(fs, sector, i)
    decreases |fs|
  {
    if fs != [] {
      hide Commits;
      var front := fs[..|fs| - 1];
      if Commits(fs[|fs| - 1], sector) {
        assert LastWrite(fs, sector, |fs| - 1);
      } else {
        LastWriteExists(front, sector);
        if !NoWrite(front, sector) {
          var i: nat :| LastWrite(front, sector, i);
          assert LastWrite(fs, sector, i);
        }
      }
    }
  }

  // A write frame changes its own sector and no other.
  lemma CommitTouches(store: seq<byte>, f: seq<byte>, sector: nat)
    requires CardFrame(f) && |store| == M.CARD_SIZE && sector < SECTORS
    ensures At(Committed(store, f), sector)
         == if Commits(f, sector) then f[WR_DAT..WR_DAT + SECTOR] else At(store, sector)
  {
    hide ChecksumOk, Address, Overwrite;
    if f[1] == CMD_WR && ChecksumOk(f) {
      SectorWritten(store, Sector(f), f[WR_DAT..WR_DAT + SECTOR], sector);
    }
  }

  lemma SectorWritten(store: seq<byte>, s: nat, data: seq<byte>, sector: nat)
    requires |store| == M.CARD_SIZE && s < SECTORS && sector < SECTORS && |data| == SECTOR
    ensures At(Overwrite(store, s * SECTOR, data), sector) == if s == sector then data else At(store, sector)
  {
  }
}
