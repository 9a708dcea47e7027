// The port structure of the PlayStation interface, its buffers changed in place byte by byte
// (main/wired/ps_spi.c, card device).
module PsPort {
  import opened Bytes
  import M = MemoryCard
  import opened PsCard

  class PortState {
    var idx: nat
    var valid: bool
    var listening: bool
    var cmd: byte
    var flags: byte
    var crc: byte
    var addrHi: byte
    var addrLo: byte
    var txLen: nat
    var active: nat
    const tx: array<byte>
    const rx: array2<byte>
    const store: M.Store

    ghost predicate Allocated()
      reads this
    {
      && tx.Length == BUFFER && rx.Length0 == 2 && rx.Length1 == BUFFER && active < 2
      && store.Shaped() && rx != store.buffer
    }

    ghost function RxBuffer(i: nat): (s: seq<byte>)
      requires rx.Length0 == 2 && rx.Length1 == BUFFER && i < 2
      reads rx
      ensures |s| == BUFFER && forall k :: 0 <= k < BUFFER ==> s[k] == rx[i, k]
    {
      seq(BUFFER, (k: int) requires 0 <= k < BUFFER && rx.Length0 == 2 && rx.Length1 == BUFFER reads rx => rx[i, k])
    }

    ghost function State(): (p: Port)
      requires Allocated()
      reads this, tx, rx
      ensures Shaped(p)
    {
      Port(idx, valid, listening, cmd, flags, crc, addrHi, addrLo, txLen, tx[..], [RxBuffer(0), RxBuffer(1)], active)
    }

    constructor (card: M.Store)
      requires card.Shaped()
      ensures Allocated() && store == card && Idle(State()) && State().flags == 0x08 && !State().valid
      ensures State().crc == 0 && RxBuffer(0) == RxBuffer(1) == InitialRx()
      ensures fresh(tx) && fresh(rx)
    {
      idx, valid, listening, cmd, flags, crc := 0, false, true, 0, 0x08, 0;
      addrHi, addrLo, txLen, active := 0, 0, 0, 0;
      tx := new byte[BUFFER](_ => 0xFF);
      rx := new byte[2, BUFFER]((_, k) => InitialByte(k));
      store := card;
    }

    method Send(i: nat, b: byte)
      requires Allocated() && i < BUFFER
      modifies tx
      ensures Allocated() && State() == old(State()).(tx := old(State()).tx[i := b])
    {
      tx[i] := b;
    }

    method Receive(b: byte)
      requires Allocated() && idx < BUFFER
      modifies rx
      ensures Allocated() && State() == Stored(old(State()), b)
    {
      rx[active, idx] := b;
      assert RxBuffer(active) == old(RxBuffer(active))[idx := b];
      assert RxBuffer(1 - active) == old(RxBuffer(1 - active));
    }

    // The branch of a read frame.
    method ReadBranch(b: byte)
      requires Allocated() && 1 <= idx < LAST && (idx == RD_AK2 ==> OnCard(State()))
      modifies this`txLen, this`addrHi, this`addrLo, tx
      ensures Allocated() && State() == ReadByte(old(State()), store.State(), b)
    {
      hide XorAll, Loaded, Address, KeepsBuffers;
      if idx == MC_CMD {
        OpenRead();
      } else if idx == MC_MSB {
        ReadMsb(b);
      } else if idx == MC_LSB {
        ReadLsb(b);
      } else if idx == RD_AK2 {
        FetchSector();
      }
    }

    method ReadMsb(b: byte)
      requires Allocated() && idx == MC_MSB
      modifies this`addrHi, this`addrLo, tx
      ensures Allocated()
      ensures State() == old(State()).(addrHi := b, addrLo := 0, tx := old(tx[..])[RD_MSB := b][idx + 1 := b])
    {
      addrHi, addrLo := b, 0;
      Send(RD_MSB, b);
      Send(idx + 1, b);
    }

    method ReadLsb(b: byte)
      requires Allocated() && idx == MC_LSB
      modifies this`addrLo, tx
      ensures Allocated() && State() == old(State()).(addrLo := old(addrLo) | b, tx := old(tx[..])[RD_LSB := b])
    {
      addrLo := addrLo | b;
      Send(RD_LSB, b);
    }

    method FetchSector()
      requires Allocated() && OnCard(State())
      modifies tx
      ensures Allocated() && State() == Loaded(old(State()), store.State())
    {
      hide XorAll, M.ReadBlocks, Overwrite;
      var at := Address(addrHi, addrLo);
      SectorInBlock(at);
      var data := store.Read(at * SECTOR, SECTOR);
      assert |data| == SECTOR by { SectorSize(store.State(), at); }
      LoadSector(data);
    }

    method OpenRead()
      requires Allocated()
      modifies this`txLen, tx
      ensures Allocated()
      ensures State() == old(State()).(
                txLen := RD_LEN, tx := old(tx[..])[RD_AK1 := 0x5C][RD_AK2 := 0x5D][RD_CRC := 0x00][RD_STS := GOOD])
    {
      txLen := RD_LEN;
      Send(RD_AK1, 0x5C);
      Send(RD_AK2, 0x5D);
      Send(RD_CRC, 0x00);
      Send(RD_STS, GOOD);
    }

    lemma SectorSize(card: M.Card, at: nat)
      requires at < SECTORS
      ensures M.InBlock(at * SECTOR, SECTOR) && |M.ReadBlocks(card.ram, at * SECTOR, SECTOR)| == SECTOR
    {
      SectorInBlock(at);
    }

    method LoadSector(data: seq<byte>)
      requires Allocated() && |data| == SECTOR
      modifies tx
      ensures Allocated()
      ensures var t := Overwrite(old(tx[..]), RD_DAT, data);
              State() == old(State()).(tx := t[RD_CRC := t[RD_CRC] ^ XorAll(t[RD_MSB..RD_CRC])])
    {
      hide XorAll;
      CopyToSend(data);
      SumToSend();
    }

    method CopyToSend(data: seq<byte>)
      requires tx.Length == BUFFER && |data| == SECTOR
      modifies tx
      ensures tx[..] == Overwrite(old(tx[..]), RD_DAT, data)
    {
      for i := 0 to SECTOR
        invariant forall k :: 0 <= k < BUFFER ==>
                    tx[k] == if RD_DAT <= k < RD_DAT + i then data[k - RD_DAT] else old(tx[k])
      {
        tx[RD_DAT + i] := data[i];
      }
    }

    method SumToSend()
      requires tx.Length == BUFFER
      modifies tx
      ensures var t := old(tx[..]); tx[..] == t[RD_CRC := t[RD_CRC] ^ XorAll(t[RD_MSB..RD_CRC])]
    {
      hide XorAll;
      ghost var t := tx[..];
      XorWithNothing(t[RD_CRC]);
      assert t[RD_MSB..RD_MSB] == [];
      for i := RD_MSB to RD_CRC
        invariant tx[..] == t[RD_CRC := t[RD_CRC] ^ XorAll(t[RD_MSB..i])]
      {
        SumOneMore(t, RD_MSB, i, t[RD_CRC]);
        tx[RD_CRC] := tx[RD_CRC] ^ tx[i];
      }
    }

    lemma XorWithNothing(x: byte)
      ensures x ^ XorAll([]) == x
    {
    }

    lemma SumOneMore(t: seq<byte>, lo: nat, i: nat, x: byte)
      requires lo <= i < |t|
      ensures x ^ XorAll(t[lo..i + 1]) == (x ^ XorAll(t[lo..i])) ^ t[i]
    {
      assert t[lo..i + 1][..i - lo] == t[lo..i];
    }

    // The branch of a write frame.
    method WriteBranch(b: byte)
      requires Allocated() && 1 <= idx < LAST && rx[active, idx] == b
      modifies this`txLen, this`addrHi, this`addrLo, this`crc, tx
      ensures Allocated() && State() == WriteByte(old(State()), b)
    {
      hide XorAll, Summed, Echoed;
      if idx == MC_CMD {
        OpenWrite();
      } else if idx == MC_ID1 || idx == MC_ID2 {
      } else if idx == MC_MSB {
        WriteMsbByte(b);
      } else if idx == MC_LSB {
        WriteLsbByte(b);
      } else if idx == WR_CRC {
        CheckReceived();
      } else if idx == WR_AK1 || idx == WR_AK2 {
      } else {
        Echo(b);
      }
    }

    method Echo(b: byte)
      requires Allocated() && idx < LAST
      modifies tx
      ensures Allocated() && State() == Echoed(old(State()), b)
    {
      Send(idx + 1, b);
    }

    method WriteMsbByte(b: byte)
      requires Allocated() && idx == MC_MSB
      modifies this`addrHi, this`addrLo, tx
      ensures Allocated() && State() == old(State()).(addrHi := b, addrLo := 0, tx := old(tx[..])[idx + 1 := b])
    {
      addrHi, addrLo := b, 0;
      Send(idx + 1, b);
    }

    method WriteLsbByte(b: byte)
      requires Allocated() && idx == MC_LSB
      modifies this`addrLo, tx
      ensures Allocated() && State() == old(State()).(addrLo := old(addrLo) | b, tx := old(tx[..])[idx + 1 := b])
    {
      addrLo := addrLo | b;
      Send(idx + 1, b);
    }

    method OpenWrite()
      requires Allocated()
      modifies this`txLen, tx
      ensures Allocated()
      ensures State() == old(State()).(
                txLen := WR_LEN, tx := old(tx[..])[WR_AK1 := 0x5C][WR_AK2 := 0x5D][WR_STS := GOOD])
    {
      txLen := WR_LEN;
      Send(WR_AK1, 0x5C);
      Send(WR_AK2, 0x5D);
      Send(WR_STS, GOOD);
    }

    method CheckReceived()
      requires Allocated() && idx == WR_CRC
      modifies this`crc, tx
      ensures Allocated() && State() == Summed(old(State()), rx[active, WR_CRC])
    {
      hide XorAll;
      var sent := rx[active, WR_CRC];
      SumReceived();
      SendVerdict(sent);
    }

    method SendVerdict(sent: byte)
      requires Allocated()
      modifies tx
      ensures Allocated()
      ensures var p := old(State());
              State() == p.(tx := if p.crc != sent then p.tx[WR_STS := BAD_CRC] else p.tx)
    {
      if crc != sent {
        Send(WR_STS, BAD_CRC);
      }
    }

    method SumReceived()
      requires Allocated()
      modifies this`crc
      ensures Allocated() && crc == XorAll(RxBuffer(active)[MC_MSB..WR_CRC])
      ensures State() == old(State()).(crc := crc)
    {
      hide XorAll;
      ghost var r := RxBuffer(active);
      crc := 0;
      NothingSummed(r);
      for i := MC_MSB to WR_CRC
        invariant crc == XorAll(r[MC_MSB..i])
      {
        SumReceivedMore(r, i);
        crc := crc ^ rx[active, i];
      }
    }

    lemma NothingSummed(r: seq<byte>)
      requires |r| == BUFFER
      ensures XorAll(r[MC_MSB..MC_MSB]) == 0
    {
    }

    lemma SumReceivedMore(r: seq<byte>, i: nat)
      requires MC_MSB <= i < |r|
      ensures XorAll(r[MC_MSB..i + 1]) == XorAll(r[MC_MSB..i]) ^ r[i]
    {
      assert r[MC_MSB..i + 1][..i - MC_MSB] == r[MC_MSB..i];
    }

    // ps_mc_hdlr
    method McHandle() returns (ret: int)
      requires Allocated() && 1 <= idx < LAST
      requires idx == RD_AK2 && cmd == CMD_RD ==> OnCard(State())
      modifies this`cmd, this`txLen, this`addrHi, this`addrLo, this`crc, tx
      ensures Allocated() && State() == McHandler(old(State()), store.State()).port
      ensures ret == if McHandler(old(State()), store.State()).Refused? then -1 else 0
    {
      hide XorAll, ByCommand, WithCommand, Address;
      TakeCommand();
      if idx == MC_CMD && !valid && cmd != CMD_GID {
        return -1;
      }
      ret := Dispatch(rx[active, idx]);
    }

    method TakeCommand()
      requires Allocated() && idx < LAST
      modifies this`cmd
      ensures Allocated() && State() == WithCommand(old(State()))
    {
      if idx == MC_CMD {
        cmd := rx[active, MC_CMD];
      }
    }

    method Dispatch(b: byte) returns (ret: int)
      requires Allocated() && 1 <= idx < LAST && b == rx[active, idx]
      requires idx == RD_AK2 && cmd == CMD_RD ==> OnCard(State())
      modifies this`txLen, this`addrHi, this`addrLo, this`crc, tx
      ensures Allocated() && State() == ByCommand(old(State()), store.State(), b).port
      ensures ret == if ByCommand(old(State()), store.State(), b).Refused? then -1 else 0
    {
      hide XorAll, WriteByte, ReadByte, GidLength, Address;
      ret := 0;
      if cmd == CMD_GID {
        if idx == GID_LEN {
          txLen := GidLength(b);
        }
      } else if cmd == CMD_RD {
        ReadBranch(b);
      } else if cmd == CMD_ID {
        if idx == MC_CMD {
          Identify();
        }
      } else if cmd == CMD_WR {
        WriteBranch(b);
      } else {
        ret := -1;
      }
    }

    method Identify()
      requires Allocated()
      modifies this`txLen, tx
      ensures Allocated()
      ensures State() == old(State()).(
                txLen := 10, tx := old(tx[..])[4 := 0x5C][5 := 0x5D][6 := 0x04][7 := 0x00][8 := 0x00][9 := 0x00])
    {
      txLen := 10;
      Send(4, 0x5C);
      Send(5, 0x5D);
      Send(6, 0x04);
      Send(7, 0x00);
      Send(8, 0x00);
      Send(9, 0x00);
    }

    // The address byte of a frame for the card.
    method Select(enabled: bool)
      requires Allocated()
      modifies this`txLen, this`valid, this`flags, tx
      ensures Allocated()
      ensures State() ==
        if enabled then old(State()).(txLen := 9, valid := true,
                          tx := old(tx[..])[1 := old(flags)][2 := 0x5A][3 := 0x5D][4 := 0x00])
        else old(State()).(txLen := 9, valid := false, flags := 0x08)
    {
      txLen := 9;
      if enabled {
        valid := true;
        Send(1, flags);
        Send(2, 0x5A);
        Send(3, 0x5D);
        Send(4, 0x00);
      } else {
        valid := false;
        flags := 0x08;
      }
    }

    // spi_isr: the byte just received, and what the console gets with the next one.
    method SpiIsr(b: byte, enabled: bool) returns (reply: Reply)
      requires Allocated() && listening && idx < LAST && (idx == 0 ==> b != CONTROLLER)
      requires idx == RD_AK2 && cmd == CMD_RD ==> OnCard(State())
      modifies this, tx, rx
      ensures Allocated() && (State(), reply) == Isr(old(State()), store.State(), b, enabled)
    {
      hide McHandler, Address, Next, KeepsBuffers;
      Receive(b);
      if idx == 0 {
        if b == CARD {
          Select(enabled);
        } else {
          txLen := 9;
          valid := false;
          listening := false;
          return Reply(0xFF, false);
        }
      } else {
        var ret := McHandle();
        if ret != 0 {
          valid := false;
          listening := false;
          return Reply(0xFF, false);
        }
      }
      reply := Advance();
    }

    method Advance() returns (reply: Reply)
      requires Allocated() && idx < LAST
      modifies this`idx
      ensures Allocated() && (State(), reply) == Next(old(State()))
    {
      idx := idx + 1;
      reply := Reply(tx[idx], valid && idx < txLen);
    }

    // packet_end: the console lets go of the select line. `gameId` is what is handed to adapter_q_fb.
    method End() returns (gameId: seq<byte>)
      requires Allocated() && (cmd == CMD_WR ==> OnCard(State()))
      modifies this, store`dirty, store`queued, store.buffer
      ensures Allocated() && (State(), store.State()) == PacketEnd(old(State()), old(store.State()))
      ensures gameId == if old(cmd) == CMD_GID then GameIdNotice(RxBuffer(old(active))) else []
    {
      hide Released, CardAfter, NoticeLength, GameIdNotice;
      gameId := [];
      if cmd == CMD_GID {
        gameId := TakeGameId();
      }
      CommitIfGood();
      Release();
    }

    method Release()
      requires Allocated()
      modifies this`idx, this`listening, this`flags, this`valid, this`active
      ensures Allocated() && State() == Released(old(State()))
    {
      idx := 0;
      listening := true;
      if valid {
        flags := 0x00;
        valid := false;
        active := 1 - active;
      }
    }

    method CommitIfGood()
      requires Allocated() && (cmd == CMD_WR ==> OnCard(State()))
      modifies store`dirty, store`queued, store.buffer
      ensures Allocated() && State() == old(State())
      ensures store.State() == CardAfter(State(), old(store.State()))
    {
      hide M.WriteCard, Address;
      if cmd == CMD_WR && valid && crc == rx[active, WR_CRC] {
        Commit();
      }
    }

    method TakeGameId() returns (gameId: seq<byte>)
      requires Allocated()
      ensures gameId == GameIdNotice(RxBuffer(active))
    {
      var offset: byte := 0;
      var start := 4;
      if rx[active, 4] == 0x63 {
        offset := 7;
        start := 11;
      }
      gameId := Received(start, NoticeLength(rx[active, GID_LEN] - offset));
    }

    method Commit()
      requires Allocated() && OnCard(State())
      modifies store`dirty, store`queued, store.buffer
      ensures Allocated() && State() == old(State()) && M.InBlock(PortAddress(State()) * SECTOR, SECTOR)
      ensures store.State()
           == M.WriteCard(old(store.State()), PortAddress(State()) * SECTOR, RxBuffer(active)[WR_DAT..WR_DAT + SECTOR])
    {
      hide M.WriteCard;
      SectorInBlock(Address(addrHi, addrLo));
      var data := Received(WR_DAT, SECTOR);
      store.Write(Address(addrHi, addrLo) * SECTOR, data);
    }

    method Received(at: nat, length: nat) returns (data: seq<byte>)
      requires Allocated() && at + length <= BUFFER
      ensures data == RxBuffer(active)[at..at + length]
    {
      data := [];
      for i := 0 to length
        invariant data == RxBuffer(active)[at..at + i]
      {
        data := data + [rx[active, at + i]];
      }
    }
  }
}
