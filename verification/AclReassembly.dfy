// L2CAP recombination (main/bluetooth/host.c, bt_host_acl_hdlr): start and continuation
// fragments of the controller become whole PDUs again.
module AclReassembly {
  import opened Bytes

  const ACL_CONT: nat := 1   // packet-boundary flags of the handle field
  const ACL_START: nat := 2
  const HDR: nat := 5        // H4 type, connection handle and ACL length
  const BASIC: nat := 4      // L2CAP length and channel
  const FRAG_MAX: nat := 1024

  // An ACL packet as the transport delivers it: the boundary flags, the five header bytes and the data.
  datatype Packet = Packet(flags: nat, header: seq<byte>, data: seq<byte>)

  predicate ValidPacket(p: Packet)
  {
    |p.header| == HDR
  }

  // The L2CAP length field: the first two data bytes, least significant first.
  function PduLength(data: seq<byte>): nat
    requires |data| >= 2
  {
    data[0] as nat + 256 * (data[1] as nat)
  }

  // A complete PDU: basic header and exactly as much payload as it announces.
  predicate WholePdu(data: seq<byte>)
  {
    |data| >= 4 && |data| == 4 + data[0] as nat + 256 * data[1] as nat
  }

  // The static reassembly state. The boundary flags of the stored packet are kept beside its bytes.
  datatype Frag = Frag(buf: seq<byte>, flags: nat, offset: nat, size: nat)

  // What the handler passes on: `len` bytes, headers included.
  datatype Dispatch = Dispatch(data: seq<byte>, len: nat)

  // The buffer only ever has to hold what the packet brings.
  predicate Fits(f: Frag, p: Packet)
  {
    && |f.buf| == FRAG_MAX && ValidPacket(p)
    && (p.flags == ACL_CONT ==> f.offset + |p.data| <= FRAG_MAX && HDR + 2 <= f.size <= FRAG_MAX && f.flags != ACL_CONT)
    && (p.flags != ACL_CONT ==> |p.data| >= 2 && HDR + |p.data| <= FRAG_MAX)
  }

  // Unsigned arithmetic: a packet shorter than its headers counts as very long.
  predicate Incomplete(flags: nat, len: nat, pduLength: nat)
  {
    flags == ACL_START && len >= HDR + BASIC && len - (HDR + BASIC) < pduLength
  }

  function Handle(f: Frag, p: Packet): (r: (Frag, seq<Dispatch>))
    requires Fits(f, p)
    ensures |r.0.buf| == FRAG_MAX
  {
    if p.flags == ACL_CONT then
      var g := f.(buf := Overwrite(f.buf, f.offset, p.data), offset := f.offset + |p.data|);
      if g.offset < g.size then (g, [])
      else Pass(g, g.buf[..g.size], g.flags, g.size)
    else
      Pass(f, p.header + p.data, p.flags, HDR + |p.data|)
  }

  // The second half of the handler, for the packet itself or the reassembled one.
  function Pass(f: Frag, bytes: seq<byte>, flags: nat, len: nat): (r: (Frag, seq<Dispatch>))
    requires |f.buf| == FRAG_MAX && |bytes| == len && HDR + 2 <= len <= FRAG_MAX
    ensures |r.0.buf| == FRAG_MAX
  {
    var n := PduLength(bytes[HDR..]);
    if Incomplete(flags, len, n) then
      (Frag(Overwrite(f.buf, 0, bytes), flags, len, n + HDR + BASIC), [])
    else
      (f, [Dispatch(bytes[HDR..], len)])
  }

  // The source's form: one static buffer and two counters.
  class Reassembler {
    const fragBuf: array<byte>
    var fragFlags: nat
    var fragOffset: nat
    var fragSize: nat

    function State(): Frag
      reads this, fragBuf
    {
      Frag(fragBuf[..], fragFlags, fragOffset, fragSize)
    }

    constructor ()
      ensures State() == Frag(seq(FRAG_MAX, _ => 0), 0, 0, 0) && fresh(fragBuf)
    {
      fragBuf := new byte[FRAG_MAX](_ => 0);
      fragFlags, fragOffset, fragSize := 0, 0, 0;
    }

    method Copy(at: nat, data: seq<byte>)
      requires at + |data| <= fragBuf.Length
      modifies fragBuf
      ensures fragBuf[..] == Overwrite(old(fragBuf[..]), at, data)
    {
      for i := 0 to |data|
        invariant fragBuf[..] == Overwrite(old(fragBuf[..]), at, data[..i])
      {
        fragBuf[at + i] := data[i];
        assert data[..i + 1] == data[..i] + [data[i]];
      }
      assert data[..|data|] == data;
    }

    // bt_host_acl_hdlr up to the point where a packet is handed to its protocol.
    method AclHandler(p: Packet) returns (out: seq<Dispatch>)
      requires Fits(State(), p)
      modifies this, fragBuf
      ensures (State(), out) == Handle(old(State()), p)
    {
      var bytes, flags, len := p.header + p.data, p.flags, HDR + |p.data|;
      if p.flags == ACL_CONT {
        Copy(fragOffset, p.data);
        fragOffset := fragOffset + |p.data|;
        if fragOffset < fragSize {
          return [];
        }
        bytes, flags, len := fragBuf[..fragSize], fragFlags, fragSize;
      }
      var pduLen := PduLength(bytes[HDR..]);
      if flags == ACL_START && len >= HDR + BASIC && len - (HDR + BASIC) < pduLen {
        Copy(0, bytes);
        fragFlags, fragOffset := flags, len;
        fragSize := pduLen + HDR + BASIC;
        return [];
      }
      out := [Dispatch(bytes[HDR..], len)];
    }
  }

  // Streams of fragments ------------------------------------------------------

  // One PDU on the wire: a start fragment with at least the basic header, then non-empty continuations.
  datatype Sent = Sent(header: seq<byte>, first: seq<byte>, rest: seq<seq<byte>>)

  function Concat(parts: seq<seq<byte>>): seq<byte>
  {
    if parts == [] then [] else Concat(parts[..|parts| - 1]) + parts[|parts| - 1]
  }

  function Pdu(s: Sent): seq<byte>
  {
    s.first + Concat(s.rest)
  }

  predicate ValidSent(s: Sent)
  {
    && |s.header| == HDR && |s.first| >= BASIC && (forall i :: 0 <= i < |s.rest| ==> s.rest[i] != [])
    && WholePdu(Pdu(s)) && HDR + |Pdu(s)| <= FRAG_MAX
  }

  function Fragments(s: Sent): (ps: seq<Packet>)
    ensures |ps| == |s.rest| + 1
  {
    [Packet(2, s.header, s.first)]
      + seq(|s.rest|, (i: int) requires 0 <= i < |s.rest| => Packet(1, s.header, s.rest[i]))
  }

  ghost predicate Accepts(f: Frag, ps: seq<Packet>)
    decreases |ps|
  {
    ps == [] || (Fits(f, ps[0]) && Accepts(Handle(f, ps[0]).0, ps[1..]))
  }

  ghost function RunAll(f: Frag, ps: seq<Packet>): (r: (Frag, seq<Dispatch>))
    requires Accepts(f, ps)
    decreases |ps|
  {
    if ps == [] then (f, [])
    else
      var (g, out) := Handle(f, ps[0]);
      var (h, more) := RunAll(g, ps[1..]);
      (h, out + more)
  }

  function Conts(s: Sent, k: nat): seq<Packet>
    requires k <= |s.rest|
  {
    Fragments(s)[k + 1..]
  }

  // The state after the start fragment and k continuations, while the PDU is still incomplete.
  predicate Waiting(f: Frag, s: Sent, k: nat)
    requires ValidSent(s) && k <= |s.rest|
  {
    var so := s.header + s.first + Concat(s.rest[..k]);
    && |f.buf| == FRAG_MAX && f.flags == ACL_START
    && f.offset == |so| && f.offset < f.size == HDR + |Pdu(s)| && f.buf[..f.offset] == so
  }

  lemma {:induction false} ConcatSplit(parts: seq<seq<byte>>, k: nat)
    requires k <= |parts|
    ensures Concat(parts) == Concat(parts[..k]) + Concat(parts[k..])
    decreases |parts|
  {
    if k == |parts| {
      assert parts[..k] == parts && parts[k..] == [];
    } else {
      var n := |parts| - 1;
      ConcatSplit(parts[..n], k);
      assert parts[..n][..k] == parts[..k] && parts[..n][k..] == parts[k..][..|parts[k..]| - 1];
    }
  }

  lemma {:induction false} ConcatNonEmpty(parts: seq<seq<byte>>)
    requires parts != [] && forall i :: 0 <= i < |parts| ==> parts[i] != []
    ensures Concat(parts) != []
  {
  }

  lemma SameLength(a: seq<byte>, b: seq<byte>)
    requires |a| >= 2
    ensures PduLength(a + b) == PduLength(a)
  {
  }

  // A continuation is appended to what has arrived.
  lemma Appended(buf: seq<byte>, so: seq<byte>, data: seq<byte>)
    requires |so| + |data| <= |buf| && buf[..|so|] == so
    ensures Overwrite(buf, |so|, data)[..|so| + |data|] == so + data
  {
  }

  // How much has arrived after k + 1 continuations.
  lemma Arrived(s: Sent, k: nat)
    requires ValidSent(s) && k < |s.rest|
    ensures var so := s.header + s.first + Concat(s.rest[..k]);
            && so + s.rest[k] == s.header + s.first + Concat(s.rest[..k + 1])
            && (k + 1 < |s.rest| ==> |so + s.rest[k]| < HDR + |Pdu(s)|)
            && (k + 1 == |s.rest| ==> so + s.rest[k] == s.header + Pdu(s))
            && |so + s.rest[k]| <= HDR + |Pdu(s)|
  {
    ConcatSplit(s.rest, k + 1);
    ConcatStep(s.rest, k);
    if k + 1 < |s.rest| {
      ConcatNonEmpty(s.rest[k + 1..]);
    } else {
      assert s.rest[..k + 1] == s.rest;
    }
  }

  // The last one completes the PDU, which is passed on.
  lemma Completed(f: Frag, s: Sent)
    requires ValidSent(s) && |f.buf| == FRAG_MAX && f.buf[..HDR + |Pdu(s)|] == s.header + Pdu(s)
    ensures Pass(f, s.header + Pdu(s), ACL_START, HDR + |Pdu(s)|) == (f, [Dispatch(Pdu(s), HDR + |Pdu(s)|)])
  {
    assert (s.header + Pdu(s))[HDR..] == Pdu(s);
  }

  // One more continuation: either still waiting, or the whole PDU goes out.
  lemma Continue(f: Frag, s: Sent, k: nat)
    requires ValidSent(s) && k < |s.rest| && Waiting(f, s, k)
    ensures var p := Packet(ACL_CONT, s.header, s.rest[k]);
            && Fits(f, p)
            && (k + 1 < |s.rest| ==> Handle(f, p).1 == [] && Waiting(Handle(f, p).0, s, k + 1))
            && (k + 1 == |s.rest| ==> Handle(f, p).1 == [Dispatch(Pdu(s), HDR + |Pdu(s)|)])
  {
    hide Pdu, Overwrite, Pass, WholePdu, Concat, PduLength;
    var so := s.header + s.first + Concat(s.rest[..k]);
    Arrived(s, k);
    Appended(f.buf, so, s.rest[k]);
    if k + 1 == |s.rest| {
      Completed(f.(buf := Overwrite(f.buf, f.offset, s.rest[k]), offset := f.offset + |s.rest[k]|), s);
    }
  }

  lemma ConcatStep(parts: seq<seq<byte>>, k: nat)
    requires k < |parts|
    ensures Concat(parts[..k + 1]) == Concat(parts[..k]) + parts[k]
  {
    assert parts[..k + 1][..k] == parts[..k];
  }

  lemma {:induction false} FinishPdu(f: Frag, s: Sent, k: nat)
    requires ValidSent(s) && k < |s.rest| && Waiting(f, s, k)
    ensures Accepts(f, Conts(s, k)) && RunAll(f, Conts(s, k)).1 == [Dispatch(Pdu(s), HDR + |Pdu(s)|)]
    ensures |RunAll(f, Conts(s, k)).0.buf| == FRAG_MAX
    decreases |s.rest| - k
  {
    var p := Packet(ACL_CONT, s.header, s.rest[k]);
    Continue(f, s, k);
    assert Conts(s, k)[0] == p && Conts(s, k)[1..] == Fragments(s)[k + 2..];
    if k + 1 < |s.rest| {
      FinishPdu(Handle(f, p).0, s, k + 1);
    } else {
      assert Conts(s, k)[1..] == [];
    }
  }

  // However a PDU is cut and whatever an earlier one left behind, exactly one dispatch happens,
  // on the last fragment, with the bytes and the length of the unfragmented packet.
  lemma OnePdu(f: Frag, s: Sent)
    requires |f.buf| == FRAG_MAX && ValidSent(s)
    ensures Accepts(f, Fragments(s)) && RunAll(f, Fragments(s)).1 == [Dispatch(Pdu(s), 5 + |Pdu(s)|)]
    ensures |RunAll(f, Fragments(s)).0.buf| == FRAG_MAX
  {
    var p := Packet(ACL_START, s.header, s.first);
    var bytes := s.header + s.first;
    assert bytes[HDR..] == s.first;
    SameLength(s.first, Concat(s.rest));
    assert Fragments(s)[0] == p && Fragments(s)[1..] == Conts(s, 0);
    if s.rest == [] {
      assert Pdu(s) == s.first && Conts(s, 0) == [];
    } else {
      ConcatNonEmpty(s.rest);
      var g := Handle(f, p).0;
      assert Concat(s.rest[..0]) == [];
      assert g.buf[..g.offset] == bytes;
      FinishPdu(g, s, 0);
    }
  }

  function Stream(ss: seq<Sent>): seq<Packet>
  {
    if ss == [] then [] else Fragments(ss[0]) + Stream(ss[1..])
  }

  lemma RunStep(f: Frag, ps: seq<Packet>)
    requires Accepts(f, ps) && ps != []
    ensures Fits(f, ps[0]) && Accepts(Handle(f, ps[0]).0, ps[1..])
    ensures var (g, out) := Handle(f, ps[0]);
            RunAll(f, ps) == (RunAll(g, ps[1..]).0, out + RunAll(g, ps[1..]).1)
  {
  }

  lemma AcceptStep(f: Frag, ps: seq<Packet>)
    requires ps != [] && Fits(f, ps[0]) && Accepts(Handle(f, ps[0]).0, ps[1..])
    ensures Accepts(f, ps)
  {
  }

  lemma RunNothing(f: Frag)
    ensures Accepts(f, []) && RunAll(f, []) == (f, [])
  {
  }

  lemma {:induction false} RunAppend(f: Frag, ps: seq<Packet>, qs: seq<Packet>)
    requires Accepts(f, ps) && Accepts(RunAll(f, ps).0, qs)
    ensures Accepts(f, ps + qs)
    ensures RunAll(f, ps + qs).1 == RunAll(f, ps).1 + RunAll(RunAll(f, ps).0, qs).1
    decreases |ps|
  {
    hide *;
    if ps == [] {
      RunNothing(f);
      assert ps + qs == qs;
    } else {
      assert (ps + qs)[0] == ps[0] && (ps + qs)[1..] == ps[1..] + qs;
      RunStep(f, ps);
      var (g, out) := Handle(f, ps[0]);
      RunAppend(g, ps[1..], qs);
      AcceptStep(f, ps + qs);
      RunStep(f, ps + qs);
    }
  }

  // Any number of PDUs one after another come out complete and in order.
  lemma {:induction false} EveryPduInOrder(f: Frag, ss: seq<Sent>)
    requires |f.buf| == FRAG_MAX && forall i :: 0 <= i < |ss| ==> ValidSent(ss[i])
    ensures Accepts(f, Stream(ss)) && |RunAll(f, Stream(ss)).1| == |ss|
    ensures forall i :: 0 <= i < |ss| ==> RunAll(f, Stream(ss)).1[i] == Dispatch(Pdu(ss[i]), 5 + |Pdu(ss[i])|)
    decreases |ss|
  {
    hide Fits, Handle, Pdu, ValidSent, Fragments;
    if ss != [] {
      OnePdu(f, ss[0]);
      var g := RunAll(f, Fragments(ss[0])).0;
      EveryPduInOrder(g, ss[1..]);
      RunAppend(f, Fragments(ss[0]), Stream(ss[1..]));
    }
  }
}
