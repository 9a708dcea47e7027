// The other two frames of the PlayStation card device: the one that identifies the card and the one that carries a
// game ID (main/wired/ps_spi.c:591-606, 635-647, 734-756).
module PsIdent {
  import opened Bytes
  import M = MemoryCard
  import opened PsCard

  // A frame byte by byte -----------------------------------------------------------------

  predicate IdFrame(f: seq<byte>)
  {
    |f| == 10 && f[0] == CARD && f[1] == CMD_ID
  }

  // Four bytes, the last of them the length of the game ID, and the ID.
  predicate GidFrame(f: seq<byte>)
  {
    4 <= |f| < LAST && f[0] == CARD && f[1] == CMD_GID && |f| == 4 + f[3] as nat
  }

  // The port k bytes into either frame.
  predicate FrameOk(p: Port, p0: Port, f: seq<byte>, k: nat)
    requires k <= |f| <= BUFFER && |f| >= 2 && Shaped(p0)
  {
    && Received(p, p0, f, k) && (k >= 1 ==> p.tx[2] == 0x5A && p.tx[3] == 0x5D)
    && (k == 1 ==> p.txLen == 9 && p.tx[4] == 0x00)
    && (k >= 2 ==> p.cmd == f[1])
    && (k >= 2 && f[1] == CMD_ID ==>
          && p.txLen == 10 && p.tx[4] == 0x5C && p.tx[5] == 0x5D && p.tx[6] == 0x04
          && p.tx[7] == p.tx[8] == p.tx[9] == 0x00)
    && (2 <= k <= 3 && f[1] == CMD_GID ==> p.txLen == 9)
    && (k > 3 && f[1] == CMD_GID ==> p.txLen == 4 + f[3] as nat)
  }

  // The card's identification, as the console reads it.
  function IdReply(flags: byte): (r: seq<byte>)
    ensures |r| == 9
  {
    [flags, 0x5A, 0x5D, 0x5C, 0x5D, 0x04, 0x00, 0x00, 0x00]
  }

  lemma FirstByte(p: Port, p0: Port, card: M.Card, f: seq<byte>)
    requires (IdFrame(f) || GidFrame(f)) && Shaped(p0) && FrameOk(p, p0, f, 0)
    ensures var (q, x) := Exchange(p, card, f[0]); FrameOk(q, p0, f, 1) && x == Reply(p0.flags, true)
  {
    hide XorAll, Address;
    StoredPrefix(p, p0, f, 0);
  }

  lemma Command(p: Port, p0: Port, card: M.Card, f: seq<byte>)
    requires (IdFrame(f) || GidFrame(f)) && Shaped(p0) && FrameOk(p, p0, f, 1)
    ensures var (q, x) := Exchange(p, card, f[1]); FrameOk(q, p0, f, 2) && x == Reply(0x5A, true)
  {
    hide XorAll, Address;
    StoredPrefix(p, p0, f, 1);
  }

  // From the third byte on only the length of a game ID has an effect.
  lemma OtherExchange(p: Port, card: M.Card, b: byte)
    requires Shaped(p) && p.listening && (p.cmd == CMD_ID || p.cmd == CMD_GID) && 2 <= p.idx < LAST
    ensures var q := Stored(p, b);
            Exchange(p, card, b) == Next(if p.cmd == CMD_GID && p.idx == 3 then q.(txLen := 4 + b as nat) else q)
  {
    hide XorAll, WriteByte, ReadByte, Address;
  }

  lemma Later(p: Port, p0: Port, card: M.Card, f: seq<byte>, k: nat)
    requires (IdFrame(f) || GidFrame(f)) && 2 <= k < |f| && Shaped(p0) && FrameOk(p, p0, f, k)
    ensures var (q, x) := Exchange(p, card, f[k]);
            && FrameOk(q, p0, f, k + 1) && x.ack == (k + 1 < |f|)
            && (f[1] == CMD_ID && k < 9 ==> x.data == IdReply(p0.flags)[k])
  {
    hide XorAll, Exchange, Address;
    StoredPrefix(p, p0, f, k);
    OtherExchange(p, card, f[k]);
  }

  // All but the last byte of the frame are acknowledged; the replies to an identification are the card's.
  predicate SoFar(p0: Port, card: M.Card, f: seq<byte>, k: nat)
    requires (IdFrame(f) || GidFrame(f)) && Shaped(p0) && k <= |f|
  {
    var (p, rs) := Clock(p0, card, f[..k]);
    && FrameOk(p, p0, f, k) && |rs| == k
    && forall i :: 0 <= i < k ==> rs[i].ack == (i + 1 < |f|)
                                  && (f[1] == CMD_ID && i < 9 ==> rs[i].data == IdReply(p0.flags)[i])
  }

  lemma More(p0: Port, card: M.Card, f: seq<byte>, k: nat)
    requires (IdFrame(f) || GidFrame(f)) && Shaped(p0) && k < |f| && SoFar(p0, card, f, k)
    ensures SoFar(p0, card, f, k + 1)
  {
    hide Clock, FrameOk, Exchange, Shaped;
    ClockMore(p0, card, f, k);
    var c := Clock(p0, card, f[..k]);
    if k == 0 {
      FirstByte(c.0, p0, card, f);
    } else if k == 1 {
      Command(c.0, p0, card, f);
    } else {
      Later(c.0, p0, card, f, k);
    }
  }

  lemma {:induction false} FrameClock(p0: Port, card: M.Card, f: seq<byte>, k: nat)
    requires (IdFrame(f) || GidFrame(f)) && Idle(p0) && k <= |f|
    ensures SoFar(p0, card, f, k)
  {
    if k > 0 {
      hide SoFar;
      FrameClock(p0, card, f, k - 1);
      More(p0, card, f, k - 1);
    } else {
      assert f[..0] == [];
    }
  }

  // Whole frames -------------------------------------------------------------------------

  // An identification is answered with the flag and the card's ID, from any idle port and without touching the card.
  lemma Identified(p0: Port, card: M.Card, f: seq<byte>)
    requires Idle(p0) && IdFrame(f)
    ensures var (q, rs) := Clock(p0, card, f);
            && |rs| == 10 && (forall i :: 0 <= i < 9 ==> rs[i] == Reply(IdReply(p0.flags)[i], true)) && !rs[9].ack
            && Shaped(q) && q.cmd == CMD_ID && PacketEnd(q, card).1 == card
            && Idle(PacketEnd(q, card).0) && PacketEnd(q, card).0.flags == 0
  {
    hide XorAll, Clock;
    FrameClock(p0, card, f, 10);
    assert f[..10] == f;
  }

  // What is to be handed on of a game ID: at most thirteen characters, from the first on, or from the eighth on if it
  // begins with a 'c'.
  function Wanted(id: seq<byte>): seq<byte>
  {
    var rest := if id != [] && id[0] == 0x63 then if |id| < 7 then [] else id[7..] else id;
    if |rest| > 13 then rest[..13] else rest
  }

  // That is handed on of every game ID, unless it is empty or begins with a 'c' and has fewer than seven characters.
  // Of such a one thirteen bytes from the twelfth of the buffer on are: the length wraps.
  lemma GameIdHandedOn(p0: Port, card: M.Card, f: seq<byte>)
    requires Idle(p0) && GidFrame(f) && f[3] > 0
    ensures var (q, rs) := Clock(p0, card, f);
            && |rs| == |f| && (forall i :: 0 <= i < |f| ==> rs[i].ack == (i + 1 < |f|))
            && Shaped(q) && q.cmd == CMD_GID && PacketEnd(q, card).1 == card
            && Idle(PacketEnd(q, card).0) && PacketEnd(q, card).0.flags == 0
            && GameIdNotice(Rx(q)) == if f[4] == 0x63 && f[3] < 7 then Rx(q)[11..24] else Wanted(f[4..])
  {
    hide XorAll, Clock;
    FrameClock(p0, card, f, |f|);
    assert f[..|f|] == f;
    NoticeOf(Rx(Clock(p0, card, f).0), f);
    hide GameIdNotice, Wanted;
  }

  lemma NoticeOf(r: seq<byte>, f: seq<byte>)
    requires |r| == BUFFER && GidFrame(f) && f[3] > 0 && r[..|f|] == f
    ensures GameIdNotice(r) == if f[4] == 0x63 && f[3] < 7 then r[11..24] else Wanted(f[4..])
  {
    assert r[3] == r[..|f|][3] && r[4] == r[..|f|][4];
    Less(f[3]);
    hide NoticeLength;
    var id := f[4..];
    if f[4] != 0x63 {
      WithinFrame(r, f, 4, if |id| > 13 then 13 else |id|);
    } else if f[3] >= 7 {
      assert id[7..] == f[11..];
      WithinFrame(r, f, 11, if |id| - 7 > 13 then 13 else |id| - 7);
    }
  }

  lemma WithinFrame(r: seq<byte>, f: seq<byte>, at: nat, n: nat)
    requires at + n <= |f| <= |r| && r[..|f|] == f
    ensures r[at..at + n] == f[at..][..n]
  {
    forall k | at <= k < at + n
      ensures r[k] == f[k]
    {
      assert r[k] == r[..|f|][k];
    }
  }

  // The length less the seven characters, in a byte.
  lemma Less(len: byte)
    ensures NoticeLength(len - 7) == if len < 7 then 13 else if len as nat - 7 > 13 then 13 else len as nat - 7
    ensures NoticeLength(len - 0) == if len as nat > 13 then 13 else len as nat
  {
    assert len - 0 == len;
    if len >= 7 {
      Difference(len);
    }
  }

  lemma Difference(len: byte)
    requires len >= 7
    ensures (len - 7) as nat == len as nat - 7
  {
  }

  // Frames not for the card ----------------------------------------------------------------

  // A frame while the card may be disabled.
  function ClockIf(p: Port, card: M.Card, f: seq<byte>, enabled: bool): (r: (Port, seq<Reply>))
    ensures |r.1| == |f|
  {
    if f == [] then (p, [])
    else
      var (q, rs) := ClockIf(p, card, f[..|f| - 1], enabled);
      var b := f[|f| - 1];
      var (r, x) := if Ready(q, b) then Isr(q, card, b, enabled) else (q, Reply(0xFF, false));
      (r, rs + [x])
  }

  // For another device, or for a disabled card and not a game ID.
  predicate NotForUs(f: seq<byte>, enabled: bool)
  {
    && f != [] && f[0] != CONTROLLER && (f[0] == CARD ==> !enabled && (|f| >= 2 ==> f[1] != CMD_GID))
  }

  predicate Deaf(p: Port, p0: Port, f: seq<byte>, k: nat)
    requires NotForUs(f, false)
  {
    && Shaped(p) && !p.valid && p.flags == (if f[0] == CARD then 0x08 else p0.flags)
    && (if k == 1 && f[0] == CARD then p.idx == 1 && p.listening else !p.listening)
  }

  lemma DeafByte(p: Port, p0: Port, card: M.Card, f: seq<byte>, k: nat, enabled: bool)
    requires NotForUs(f, enabled) && NotForUs(f, false) && k < |f|
    requires if k == 0 then Idle(p) && p.flags == p0.flags else Deaf(p, p0, f, k)
    requires Ready(p, f[k])
    ensures var (q, x) := Isr(p, card, f[k], enabled); Deaf(q, p0, f, k + 1) && !x.ack
  {
    hide XorAll, Address, ByCommand;
  }

  lemma {:induction false} DeafFrame(p0: Port, card: M.Card, f: seq<byte>, enabled: bool, k: nat)
    requires Idle(p0) && NotForUs(f, enabled) && 1 <= k <= |f|
    ensures NotForUs(f, false)
    ensures var (p, rs) := ClockIf(p0, card, f[..k], enabled);
            Deaf(p, p0, f, k) && forall i :: 0 <= i < k ==> !rs[i].ack
  {
    hide Isr, Address;
    assert f[..k][..k - 1] == f[..k - 1];
    if k == 1 {
      assert f[..0] == [];
      DeafByte(p0, p0, card, f, 0, enabled);
    } else {
      DeafFrame(p0, card, f, enabled, k - 1);
      var c := ClockIf(p0, card, f[..k - 1], enabled);
      if Ready(c.0, f[k - 1]) {
        DeafByte(c.0, p0, card, f, k - 1, enabled);
      }
    }
  }

  // Such a frame gets no acknowledgement whatever its length, and leaves the card alone; a disabled card shows as new
  // in the next frame it answers.
  lemma NotAnswered(p0: Port, card: M.Card, f: seq<byte>, enabled: bool)
    requires Idle(p0) && NotForUs(f, enabled)
    ensures var (q, rs) := ClockIf(p0, card, f, enabled);
            && (forall i :: 0 <= i < |f| ==> !rs[i].ack) && Shaped(q)
            && ((q.cmd == CMD_WR ==> OnCard(q)) ==>
                  && PacketEnd(q, card).1 == card && Idle(PacketEnd(q, card).0)
                  && PacketEnd(q, card).0.flags == if f[0] == CARD then 0x08 else p0.flags)
  {
    hide Isr, Address, ClockIf;
    DeafFrame(p0, card, f, enabled, |f|);
    assert f[..|f|] == f;
  }
}
