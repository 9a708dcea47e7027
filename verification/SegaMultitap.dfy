// The Genesis multitap: devices of 2, 3, 6 or no nibbles packed into bytes, then sent nibble by
// nibble over the three-wire handshake (main/wired/sega_io.c:138-275, 393-458).
module SegaMultitap {
  import opened Bytes

  const GEN_PORTS: nat := 4
  const BUFFER_SIZE: nat := 36
  const TWH_TIMEOUT: nat := 4096

  // Nibbles --------------------------------------------------------------------------

  function Hi(b: byte): byte { b >> 4 }
  function Lo(b: byte): byte { b & 0x0F }

  function Unpack(s: seq<byte>): (r: seq<byte>)
    ensures |r| == 2 * |s|
  {
    if s == [] then [] else Unpack(s[..|s| - 1]) + [Hi(s[|s| - 1]), Lo(s[|s| - 1])]
  }

  lemma {:induction false} UnpackAt(s: seq<byte>, n: nat)
    requires n < 2 * |s|
    ensures Unpack(s)[n] == if n % 2 == 0 then Hi(s[n / 2]) else Lo(s[n / 2])
  {
    if n < 2 * (|s| - 1) {
      UnpackAt(s[..|s| - 1], n);
    }
  }

  // A byte whose low nibble is still open keeps it all ones, so a mask can fill it in.
  function Open(x: byte): byte { (x << 4) | 0x0F }
  function Fill(b: byte, x: byte): byte { b & ((x >> 4) | 0xF0) }

  lemma OpenNibbles(x: byte)
    ensures Hi(Open(x)) == Lo(x) && Lo(Open(x)) == 0x0F
    ensures Hi(x | 0x0F) == Hi(x) && Lo(x | 0x0F) == 0x0F
  {
  }

  lemma FillNibbles(b: byte, x: byte)
    requires Lo(b) == 0x0F
    ensures Hi(Fill(b, x)) == Hi(b) && Lo(Fill(b, x)) == Hi(x)
  {
  }

  // Devices --------------------------------------------------------------------------

  datatype Kind =
    | None | Pad3 | Pad6 | GenMultitap | SegaMouse | XbandKb
    | SaturnDigital | SaturnDigitalTwh | SaturnAnalog | SaturnMultitap | SaturnKb | EaMultitap

  // The part of a port's data the multitap looks at: output[24..26] with the turbo masks, and the mouse axes.
  datatype Device = Device(kind: Kind, out0: byte, out1: byte, mask0: byte, mask1: byte, x: int, y: int)

  // gen_ids
  function GenId(k: Kind): byte
  {
    match k
    case Pad3 => 0x0
    case Pad6 => 0x1
    case SegaMouse => 0x2
    case _ => 0xF
  }

  const X_SIGN: byte := 0x10
  const Y_SIGN: byte := 0x20

  function WithSign(flags: byte, mask: byte, negative: bool): byte
  {
    if negative then flags | mask else flags & !mask
  }

  // What load_mouse_axes stores for one axis.
  function AxisValue(v: int): (r: int)
    ensures 0 <= r < 256
  {
    if v > 255 then 0xFF else if v < -256 then 0x00 else v % 256
  }

  function AxisByte(v: int): byte { AxisValue(v) as byte }

  function MouseFlags(flags: byte, x: int, y: int): byte
  {
    WithSign(WithSign(flags, X_SIGN, x < 0), Y_SIGN, y < 0)
  }

  function Clamp(v: int): int
  {
    if v > 255 then 255 else if v < -256 then -256 else v
  }

  // Sign bit and byte together are the nine-bit two's complement of the movement, saturated.
  lemma MouseAxes(flags: byte, x: int, y: int)
    ensures var f := MouseFlags(flags, x, y);
            && AxisValue(x) - (if f & X_SIGN != 0 then 256 else 0) == Clamp(x)
            && AxisValue(y) - (if f & Y_SIGN != 0 then 256 else 0) == Clamp(y)
            && f & 0xCF == flags & 0xCF
  {
    SignBits(flags, x < 0, y < 0);
  }

  lemma SignBits(flags: byte, xNeg: bool, yNeg: bool)
    ensures var f := WithSign(WithSign(flags, X_SIGN, xNeg), Y_SIGN, yNeg);
            && (f & X_SIGN != 0 <==> xNeg) && (f & Y_SIGN != 0 <==> yNeg) && f & 0xCF == flags & 0xCF
  {
  }

  function Byte0(d: Device): byte { d.out0 | d.mask0 }
  function Byte1(d: Device): byte { d.out1 | d.mask1 }

  // The nibbles a device contributes.
  function Contribution(d: Device): (r: seq<byte>)
    ensures |r| <= 6
  {
    match d.kind
    case Pad3 => Unpack1(Byte0(d))
    case Pad6 => Unpack1(Byte0(d)) + [Hi(Byte1(d))]
    case SegaMouse => Unpack1(MouseFlags(d.out0, d.x, d.y)) + Unpack1(AxisByte(d.x)) + Unpack1(AxisByte(d.y))
    case _ => []
  }

  function Unpack1(b: byte): (r: seq<byte>)
    ensures |r| == 2
  {
    [Hi(b), Lo(b)]
  }

  function Contributions(ds: seq<Device>): (r: seq<byte>)
    ensures |r| <= 6 * |ds|
  {
    if ds == [] then [] else Contributions(ds[..|ds| - 1]) + Contribution(ds[|ds| - 1])
  }

  function Header(ds: seq<Device>): (r: seq<byte>)
    requires |ds| == GEN_PORTS
    ensures |r| == 6
  {
    [0, 0, GenId(ds[0].kind), GenId(ds[1].kind), GenId(ds[2].kind), GenId(ds[3].kind)]
  }

  // The packet the console is promised.
  function Packet(ds: seq<Device>, ports: nat): (r: seq<byte>)
    requires |ds| == GEN_PORTS && ports <= GEN_PORTS
  {
    var body := Header(ds) + Contributions(ds[..ports]);
    if |body| % 2 == 1 then body + [0x0F] else body
  }

  // What the console makes of a packet -------------------------------------------------

  // How many nibbles follow for a device that shows this ID.
  function LengthOf(id: byte): nat
  {
    if id == 0x0 then 2 else if id == 0x1 then 3 else if id == 0x2 then 6 else 0
  }

  // Where the nibbles of port i start: behind the two zeros, the four IDs and what the ports before it sent.
  function OffsetOf(p: seq<byte>, i: nat): nat
    requires i <= 4 && |p| >= 6
  {
    if i == 0 then 6 else OffsetOf(p, i - 1) + LengthOf(p[1 + i])
  }

  // Two nibbles as a byte.
  function Joined(hi: byte, lo: byte): byte { (hi << 4) | lo }

  lemma JoinedIs(b: byte)
    ensures Joined(Hi(b), Lo(b)) == b
  {
  }

  function Masked(out: byte, mask: byte): byte { out | mask }
  function Upper(b: byte): byte { b >> 4 }

  // What is read for a device: its buttons with their turbo mask, for a mouse its flags and both axes. Everything else
  // shows 0xF and sends nothing.
  predicate Shows(d: Device, id: byte, data: seq<byte>)
  {
    match d.kind
    case Pad3 => id == 0x0 && |data| == 2 && Joined(data[0], data[1]) == Masked(d.out0, d.mask0)
    case Pad6 =>
      && id == 0x1 && |data| == 3 && Joined(data[0], data[1]) == Masked(d.out0, d.mask0)
      && data[2] == Upper(Masked(d.out1, d.mask1))
    case SegaMouse =>
      && id == 0x2 && |data| == 6 && Joined(data[0], data[1]) == MouseFlags(d.out0, d.x, d.y)
      && Joined(data[2], data[3]) == AxisByte(d.x) && Joined(data[4], data[5]) == AxisByte(d.y)
    case _ => id == 0xF && data == []
  }

  lemma DeviceShows(d: Device)
    ensures Shows(d, GenId(d.kind), Contribution(d)) && |Contribution(d)| == LengthOf(GenId(d.kind))
  {
    hide MouseFlags, AxisByte, Lo, Hi, Joined, Byte0, Byte1, Masked, Upper;
    BytesOf(d);
    match d.kind
    case Pad3 => JoinedIs(Byte0(d));
    case Pad6 => JoinedIs(Byte0(d));
    case SegaMouse =>
      JoinedIs(MouseFlags(d.out0, d.x, d.y));
      JoinedIs(AxisByte(d.x));
      JoinedIs(AxisByte(d.y));
    case _ =>
  }

  lemma BytesOf(d: Device)
    ensures Byte0(d) == Masked(d.out0, d.mask0) && Hi(Byte1(d)) == Upper(Masked(d.out1, d.mask1))
  {
  }

  // The console reads off the IDs what is plugged in and where its data are.
  lemma PacketIsReadable(ds: seq<Device>, ports: nat, i: nat)
    requires |ds| == GEN_PORTS && i < ports <= GEN_PORTS
    ensures var p := Packet(ds, ports);
            && |p| >= 6 && p[0] == p[1] == 0
            && var id, o := p[2 + i], OffsetOf(p, i);
               o + LengthOf(id) <= |p| && Shows(ds[i], id, p[o..o + LengthOf(id)])
  {
    hide Contribution, GenId, LengthOf, Shows, OffsetOf, Contributions;
    OffsetIs(ds, ports, i);
    DataAt(ds, ports, i);
    DeviceShows(ds[i]);
    HeadOf(ds, ports, i);
    hide Packet;
  }

  lemma HeadOf(ds: seq<Device>, ports: nat, i: nat)
    requires |ds| == GEN_PORTS && i < 4 && ports <= GEN_PORTS
    ensures |Packet(ds, ports)| >= 6
    ensures Packet(ds, ports)[0] == Packet(ds, ports)[1] == 0 && Packet(ds, ports)[2 + i] == GenId(ds[i].kind)
  {
    hide GenId, Contributions;
  }

  lemma {:induction false} OffsetIs(ds: seq<Device>, ports: nat, i: nat)
    requires |ds| == GEN_PORTS && i <= ports <= GEN_PORTS
    ensures |Packet(ds, ports)| >= 6 && OffsetOf(Packet(ds, ports), i) == 6 + |Contributions(ds[..i])|
  {
    HeadOf(ds, ports, 0);
    if i > 0 {
      hide Contribution, GenId, LengthOf, Packet;
      OffsetIs(ds, ports, i - 1);
      assert ds[..i][..i - 1] == ds[..i - 1];
      DeviceShows(ds[i - 1]);
      HeadOf(ds, ports, i - 1);
    }
  }

  lemma DataAt(ds: seq<Device>, ports: nat, i: nat)
    requires |ds| == GEN_PORTS && i < ports <= GEN_PORTS
    ensures var p, o := Packet(ds, ports), 6 + |Contributions(ds[..i])|;
            && p[..6] == Header(ds) && o + |Contribution(ds[i])| <= |p|
            && p[o..o + |Contribution(ds[i])|] == Contribution(ds[i])
  {
    hide Contribution, GenId, Contributions;
    ContributionAt(ds[..ports], i);
    assert ds[..ports][..i] == ds[..i];
    BodyAt(Header(ds), Contributions(ds[..ports]), |Contributions(ds[..i])|, |Contribution(ds[i])|, Packet(ds, ports));
  }

  lemma BodyAt(head: seq<byte>, body: seq<byte>, at: nat, n: nat, p: seq<byte>)
    requires |head| == 6 && at + n <= |body| && (p == head + body || p == head + body + [0x0F])
    ensures p[..6] == head && p[6 + at..6 + at + n] == body[at..at + n]
  {
  }

  lemma {:induction false} ContributionAt(ds: seq<Device>, i: nat)
    requires i < |ds|
    ensures var o := |Contributions(ds[..i])|;
            && o + |Contribution(ds[i])| <= |Contributions(ds)|
            && Contributions(ds)[o..o + |Contribution(ds[i])|] == Contribution(ds[i])
    decreases |ds|
  {
    hide Contribution;
    var front := ds[..|ds| - 1];
    if i < |ds| - 1 {
      ContributionAt(front, i);
      assert front[..i] == ds[..i];
      var o, c := |Contributions(ds[..i])|, Contribution(ds[i]);
      assert Contributions(ds)[..|Contributions(front)|] == Contributions(front);
      assert Contributions(ds)[o..o + |c|] == Contributions(front)[o..o + |c|];
    }
  }

  // Packing ----------------------------------------------------------------------------

  class Multitap {
    const buffer: array<byte>
    var data: nat
    var odd: bool

    ghost predicate Valid()
      reads this, buffer
    {
      && buffer.Length == BUFFER_SIZE && data + (if odd then 1 else 0) <= BUFFER_SIZE
      && (odd ==> Lo(buffer[data]) == 0x0F)
    }

    // The nibbles packed so far.
    ghost function Packed(): (r: seq<byte>)
      requires Valid()
      reads this, buffer
      ensures |r| == 2 * data + if odd then 1 else 0
    {
      Unpack(buffer[..data]) + if odd then [Hi(buffer[data])] else []
    }

    constructor ()
      ensures Valid() && data == 0 && !odd && fresh(buffer)
    {
      buffer := new byte[BUFFER_SIZE](_ => 0);
      data := 0;
      odd := false;
    }

    // A whole byte on an even position.
    method Put(b: byte)
      requires Valid() && !odd && data < BUFFER_SIZE
      modifies this`data, buffer
      ensures Valid() && Packed() == old(Packed()) + Unpack1(b)
    {
      hide Hi, Lo;
      buffer[data] := b;
      data := data + 1;
      assert buffer[..data][..data - 1] == old(buffer[..data]);
    }

    // A whole byte on an odd position: its halves go into two bytes.
    method PutAcross(b: byte)
      requires Valid() && odd && data + 2 <= BUFFER_SIZE
      modifies this`data, buffer
      ensures Valid() && Packed() == old(Packed()) + Unpack1(b)
    {
      hide Hi, Lo, Fill, Open;
      FillNibbles(buffer[data], b);
      OpenNibbles(b);
      buffer[data] := Fill(buffer[data], b);
      data := data + 1;
      buffer[data] := Open(b);
      assert buffer[..data][..data - 1] == old(buffer[..data]);
    }

    // Only the high nibble counts.
    method PutHalf(b: byte)
      requires Valid() && data < BUFFER_SIZE
      modifies this, buffer
      ensures Valid() && Packed() == old(Packed()) + [Hi(b)]
    {
      hide Hi, Lo, Fill;
      if odd {
        FillNibbles(buffer[data], b);
        buffer[data] := Fill(buffer[data], b);
        data := data + 1;
        assert buffer[..data][..data - 1] == old(buffer[..data]);
        odd := false;
      } else {
        OpenNibbles(b);
        buffer[data] := b | 0x0F;
        assert buffer[..data] == old(buffer[..data]);
        odd := true;
      }
    }

    method PutAny(b: byte)
      requires Valid() && data + 2 <= BUFFER_SIZE
      modifies this, buffer
      ensures Valid() && Packed() == old(Packed()) + Unpack1(b) && odd == old(odd)
    {
      if odd {
        PutAcross(b);
      } else {
        Put(b);
      }
    }

    method PutThree(a: byte, b: byte, c: byte)
      requires Valid() && data + 4 <= BUFFER_SIZE
      modifies this, buffer
      ensures Valid() && Packed() == old(Packed()) + (Unpack1(a) + Unpack1(b) + Unpack1(c))
    {
      hide Unpack, Unpack1, Hi, Lo;
      PutAny(a);
      PutAny(b);
      PutAny(c);
    }

    method PutByteAndHalf(a: byte, b: byte)
      requires Valid() && data + 3 <= BUFFER_SIZE
      modifies this, buffer
      ensures Valid() && Packed() == old(Packed()) + (Unpack1(a) + [Hi(b)])
    {
      hide Unpack, Unpack1, Hi, Lo;
      PutAny(a);
      PutHalf(b);
    }

    method PutDevice(d: Device)
      requires Valid() && data + 4 <= BUFFER_SIZE
      modifies this, buffer
      ensures Valid() && Packed() == old(Packed()) + Contribution(d)
    {
      hide Unpack, Unpack1, MouseFlags, AxisByte, Hi, Lo, Byte0, Byte1;
      match d.kind
      case Pad3 => PutAny(Byte0(d));
      case Pad6 => PutByteAndHalf(Byte0(d), Byte1(d));
      case SegaMouse => PutThree(MouseFlags(d.out0, d.x, d.y), AxisByte(d.x), AxisByte(d.y));
      case _ =>
    }

    // set_gen_multitap, up to the transmission.
    method Pack(ds: seq<Device>, ports: nat) returns (length: nat)
      requires Valid() && |ds| == GEN_PORTS && ports <= GEN_PORTS
      modifies this, buffer
      ensures buffer.Length == BUFFER_SIZE && length <= BUFFER_SIZE
      ensures Unpack(buffer[..length]) == Packet(ds, ports)
    {
      hide Unpack, Hi, Lo, Contribution;
      PutHeader(ds);
      assert ds[..0] == [];
      for i := 0 to ports
        invariant Valid() && Packed() == Header(ds) + Contributions(ds[..i])
      {
        assert ds[..i + 1][..i] == ds[..i];
        PutDevice(ds[i]);
      }
      if odd {
        data := data + 1;
        LastByte(buffer[..data]);
        assert buffer[..data][..data - 1] == buffer[..data - 1];
      }
      length := data;
    }

    method PutHeader(ds: seq<Device>)
      requires Valid() && |ds| == GEN_PORTS
      modifies this, buffer
      ensures Valid() && Packed() == Header(ds)
    {
      hide Unpack1, Hi, Lo, GenId;
      data, odd := 0, false;
      Put(0x00);
      Put(IdByte(ds[0].kind, ds[1].kind));
      Put(IdByte(ds[2].kind, ds[3].kind));
      HeaderBytes(ds);
    }
  }

  function IdByte(a: Kind, b: Kind): byte
  {
    (GenId(a) << 4) | (GenId(b) & 0xF)
  }

  lemma HeaderBytes(ds: seq<Device>)
    requires |ds| == GEN_PORTS
    ensures Unpack1(0x00) + Unpack1(IdByte(ds[0].kind, ds[1].kind)) + Unpack1(IdByte(ds[2].kind, ds[3].kind))
         == Header(ds)
  {
    hide GenId, IdByte, Hi, Lo;
    IdPair(ds[0].kind, ds[1].kind);
    IdPair(ds[2].kind, ds[3].kind);
    assert Unpack1(0x00) == [0, 0] by { ZeroNibbles(); }
  }

  lemma ZeroNibbles()
    ensures Hi(0x00) == 0 && Lo(0x00) == 0
  {
  }

  lemma LastByte(s: seq<byte>)
    requires s != []
    ensures Unpack(s) == Unpack(s[..|s| - 1]) + [Hi(s[|s| - 1]), Lo(s[|s| - 1])]
  {
  }

  lemma IdPair(a: Kind, b: Kind)
    ensures Unpack1(IdByte(a, b)) == [GenId(a), GenId(b)]
  {
  }

  // The handshake ----------------------------------------------------------------------

  // One look at the console's request and select lines.
  datatype Poll = Poll(tr: bool, th: bool)

  // A look that makes the wait go on.
  predicate Waits(p: Poll, level: bool)
  {
    p.tr != level && !p.th
  }

  // Every look from `from` up to `to` makes the wait go on.
  predicate WaitsThrough(polls: seq<Poll>, from: nat, to: nat, level: bool)
  {
    from <= to <= |polls| && forall k :: from <= k < to ==> Waits(polls[k], level)
  }

  // The request line got to the level at look `at`, before the select line or the clock ended the wait.
  predicate Answers(polls: seq<Poll>, from: nat, at: nat, level: bool)
  {
    && at < |polls| && WaitsThrough(polls, from, at, level) && polls[at].tr == level
    && at - from <= TWH_TIMEOUT + 1
  }

  lemma AnswersOnce(polls: seq<Poll>, from: nat, a: nat, b: nat, level: bool)
    requires Answers(polls, from, a, level) && Answers(polls, from, b, level)
    ensures a == b
  {
  }

  // The next wait starts with the look after the one that ended the last; its level alternates, low first.
  predicate Next(polls: seq<Poll>, at: seq<nat>, k: nat)
  {
    Answers(polls, Start(at), k, |at| % 2 == 1)
  }

  function Start(at: seq<nat>): nat
  {
    if at == [] then 0 else at[|at| - 1] + 1
  }

  // The looks at which the successive waits were answered.
  predicate Handshake(polls: seq<Poll>, at: seq<nat>)
  {
    at != [] ==> Handshake(polls, at[..|at| - 1]) && Next(polls, at[..|at| - 1], at[|at| - 1])
  }

  // A run of answered waits that cannot be continued.
  ghost predicate Complete(polls: seq<Poll>, at: seq<nat>)
  {
    Handshake(polls, at) && forall k: nat :: !Next(polls, at, k)
  }

  lemma {:induction false} HandshakePrefix(polls: seq<Poll>, at: seq<nat>, n: nat)
    requires Handshake(polls, at) && n <= |at|
    ensures Handshake(polls, at[..n]) && (n < |at| ==> Next(polls, at[..n], at[n]))
  {
    hide Next;
    if n < |at| {
      HandshakePrefix(polls, at[..|at| - 1], n);
      assert at[..|at| - 1][..n] == at[..n];
    } else {
      assert at[..n] == at;
    }
  }

  // The console's lines decide how many waits are answered.
  lemma {:induction false} HandshakesAgree(polls: seq<Poll>, a: seq<nat>, b: seq<nat>)
    requires Handshake(polls, a) && Handshake(polls, b) && |a| <= |b|
    ensures a == b[..|a|]
    decreases |a|
  {
    if a != [] {
      var m := |a| - 1;
      HandshakesAgree(polls, a[..m], b);
      HandshakePrefix(polls, b, m);
      AnswersOnce(polls, Start(a[..m]), a[m], b[m], m % 2 == 1);
      assert a == a[..m] + [a[m]] && b[..|a|] == b[..m] + [b[m]];
    }
  }

  lemma CompleteOnce(polls: seq<Poll>, a: seq<nat>, b: seq<nat>)
    requires Complete(polls, a) && Complete(polls, b)
    ensures a == b
  {
    var (x, y) := if |a| <= |b| then (a, b) else (b, a);
    HandshakesAgree(polls, x, y);
    HandshakePrefix(polls, y, |x|);
    assert y[..|y|] == y;
  }

  // What the console sees after a wait: the four data lines and the acknowledge line.
  datatype Beat = Beat(nibble: byte, tl: bool)

  // The n-th nibble of the data; past the end the lines keep the last one.
  function NibbleAt(data: seq<byte>, n: nat): byte
    requires data != []
  {
    if n < 2 * |data| then Unpack(data)[n] else Lo(data[|data| - 1])
  }

  function Beats(data: seq<byte>, count: nat): (r: seq<Beat>)
    requires data != []
    ensures |r| == count
  {
    seq(count, (n: int) requires 0 <= n < count => Beat(NibbleAt(data, n), n % 2 == 1))
  }

  lemma BeatsMore(data: seq<byte>, n: nat)
    requires data != []
    ensures Beats(data, n + 1) == Beats(data, n) + [Beat(NibbleAt(data, n), n % 2 == 1)]
  {
    hide NibbleAt;
  }

  class Link {
    var r: bool
    var l: bool
    var d: bool
    var u: bool
    var tl: bool

    // The data lines read as a nibble.
    function Lines(): byte
      reads this`r, this`l, this`d, this`u
    {
      (if r then 8 else 0) | (if l then 4 else 0) | (if d then 2 else 0) | (if u then 1 else 0)
    }

    method TxNibble(nibble: byte)
      modifies this`r, this`l, this`d, this`u
      ensures Lines() == Lo(nibble)
      ensures r == (nibble & 0x8 != 0) && l == (nibble & 0x4 != 0)
      ensures d == (nibble & 0x2 != 0) && u == (nibble & 0x1 != 0)
    {
      r := nibble & 0x8 != 0;
      l := nibble & 0x4 != 0;
      d := nibble & 0x2 != 0;
      u := nibble & 0x1 != 0;
    }

    method WaitFor(polls: seq<Poll>, from: nat, level: bool, ghost before: seq<nat>) returns (ok: bool, at: nat)
      requires from == Start(before) <= |polls| && level == (|before| % 2 == 1)
      ensures ok ==> from <= at < |polls| && Next(polls, before, at)
      ensures !ok ==> forall k: nat :: !Next(polls, before, k)
    {
      var timeout := 0;
      at := from;
      while at < |polls| && polls[at].tr != level
        invariant WaitsThrough(polls, from, at, level) && timeout == at - from <= TWH_TIMEOUT + 1
      {
        if polls[at].th || timeout > TWH_TIMEOUT {
          assert !Answers(polls, from, at, level);
          return false, at;
        }
        timeout := timeout + 1;
        at := at + 1;
      }
      ok := at < |polls|;
    }

    // Wait for the request, put out a nibble and flip the acknowledge line.
    method SendNibble(polls: seq<Poll>, data: seq<byte>, sent: seq<Beat>, from: nat, ghost before: seq<nat>,
                      nibble: byte, high: bool, tlState: bool)
      returns (ok: bool, beats: seq<Beat>, next: nat, ghost at: seq<nat>)
      requires data != [] && Lo(nibble) == NibbleAt(data, |before|) && high == tlState == (|before| % 2 == 1)
      requires Handshake(polls, before) && from == Start(before) <= |polls| && sent == Beats(data, |before|)
      modifies this
      ensures Handshake(polls, at) && beats == Beats(data, |at|) && next == Start(at) <= |polls|
      ensures if ok then |at| == |before| + 1 && Lines() == Lo(nibble) else Complete(polls, at)
    {
      hide Next, Lo, Lines, Beats, Handshake, NibbleAt, Unpack;
      var t;
      ok, t := WaitFor(polls, from, high, before);
      BeatsMore(data, |before|);
      beats, next, at := sent, from, before;
      if ok {
        TxNibble(nibble);
        tl := tlState;
        at := Continued(polls, before, t);
        next := t + 1;
        beats := beats + [Beat(Lines(), tl)];
      }
    }

    // twh_tx: what the console sees until a wait is not answered.
    method TwhTx(polls: seq<Poll>, data: seq<byte>) returns (beats: seq<Beat>)
      requires data != []
      modifies this
      ensures exists at: seq<nat> :: Complete(polls, at) && beats == Beats(data, |at|)
    {
      beats := [];
      ghost var at: seq<nat> := [];
      assert beats == Beats(data, 0) && Handshake(polls, at);
      hide Next, Lo, Hi, Unpack, Complete, Handshake, Lines, Beats;
      var next := 0;
      var tlState := false;
      for i := 0 to |data|
        invariant !tlState && |at| == 2 * i && next <= |polls| && beats == Beats(data, |at|)
        invariant Handshake(polls, at) && next == Start(at)
        invariant i > 0 ==> Lines() == Lo(data[i - 1])
      {
        var ok;
        ok, beats, next, at, tlState := SendByte(polls, data, beats, next, at, i, tlState);
        if !ok {
          return;
        }
      }
      beats := Extra(polls, data, beats, next, at);
    }

    // The two nibbles of a byte, the first with the acknowledge line low.
    method SendByte(polls: seq<Poll>, data: seq<byte>, sent: seq<Beat>, from: nat, ghost before: seq<nat>, i: nat,
                    tlState: bool)
      returns (ok: bool, beats: seq<Beat>, next: nat, ghost at: seq<nat>, toggled: bool)
      requires i < |data| && |before| == 2 * i && !tlState
      requires Handshake(polls, before) && from == Start(before) <= |polls| && sent == Beats(data, |before|)
      modifies this
      ensures Handshake(polls, at) && beats == Beats(data, |at|) && next == Start(at) <= |polls|
      ensures if ok then !toggled && |at| == 2 * i + 2 && Lines() == Lo(data[i]) else Complete(polls, at)
    {
      hide Next, Lo, Hi, Unpack, Complete, Handshake, Lines, Beats;
      ShiftedNibble(data[i]);
      MaskedNibble(data[i]);
      UnpackAt(data, 2 * i);
      UnpackAt(data, 2 * i + 1);
      ok, beats, next, at := SendNibble(polls, data, sent, from, before, data[i] >> 4, false, tlState);
      toggled := !tlState;
      if ok {
        ok, beats, next, at := SendNibble(polls, data, beats, next, at, data[i] & 0x0F, true, toggled);
        toggled := !toggled;
      }
    }

    // Extra cycles repeat the last nibble.
    method Extra(polls: seq<Poll>, data: seq<byte>, sent: seq<Beat>, from: nat, ghost before: seq<nat>)
      returns (beats: seq<Beat>)
      requires data != [] && Lines() == Lo(data[|data| - 1])
      requires Handshake(polls, before) && |before| == 2 * |data| && from == Start(before) <= |polls|
      requires sent == Beats(data, |before|)
      modifies this`tl
      ensures exists at: seq<nat> :: Complete(polls, at) && beats == Beats(data, |at|)
    {
      hide Next, Lo, Hi, Unpack;
      beats := sent;
      ghost var at := before;
      var next := from;
      var tlState := false;
      while true
        invariant |at| >= 2 * |data| && next <= |polls| && tlState == (|at| % 2 == 1) && beats == Beats(data, |at|)
        invariant Handshake(polls, at) && next == Start(at)
        invariant Lines() == Lo(data[|data| - 1])
        decreases |polls| - next
      {
        var ok, t := WaitFor(polls, next, tlState, at);
        if !ok {
          return;
        }
        tl := tlState;
        tlState := !tlState;
        at := Continued(polls, at, t);
        next := t + 1;
        beats := beats + [Beat(Lines(), tl)];
      }
    }
  }

  ghost function Continued(polls: seq<Poll>, at: seq<nat>, t: nat): (r: seq<nat>)
    requires Handshake(polls, at) && Next(polls, at, t)
    ensures Handshake(polls, r) && |r| == |at| + 1 && Start(r) == t + 1
  {
    assert (at + [t])[..|at|] == at;
    at + [t]
  }

  lemma ShiftedNibble(b: byte)
    ensures Lo(b >> 4) == Hi(b)
  {
  }

  lemma MaskedNibble(b: byte)
    ensures Lo(b & 0x0F) == Lo(b)
  {
  }

  // A console that keeps asking gets the whole packet: nibble n comes with TL at n mod 2.
  lemma WholePacket(data: seq<byte>, packet: seq<byte>, count: nat, n: nat)
    requires data != [] && Unpack(data) == packet && n < count
    ensures n < |packet| ==> Beats(data, count)[n] == Beat(packet[n], n % 2 == 1)
    ensures n >= |packet| ==> Beats(data, count)[n] == Beat(packet[|packet| - 1], n % 2 == 1)
  {
    UnpackAt(data, |packet| - 1);
  }
}
