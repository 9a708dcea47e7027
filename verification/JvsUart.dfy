// JVS framing: SYNC opens a frame, MARK escapes the two reserved bytes, the sum of the payload
// closes it (main/wired/jvs_uart.c:47-98).
module JvsUart {
  import opened Bytes

  const SYNC: octet := 0xE0
  const MARK: octet := 0xD0
  const E0BYTE: octet := 0xDF
  const D0BYTE: octet := 0xCF

  // The frame --------------------------------------------------------------------------

  function Stuffed(b: octet): (r: seq<octet>)
    ensures 1 <= |r| <= 2
  {
    if b == SYNC then [MARK, E0BYTE] else if b == MARK then [MARK, D0BYTE] else [b]
  }

  function Stuff(p: seq<octet>): seq<octet>
  {
    if p == [] then [] else Stuff(p[..|p| - 1]) + Stuffed(p[|p| - 1])
  }

  // Addition in a byte.
  function Plus(a: octet, b: octet): octet { (a + b) % 0x100 }

  function Sum(p: seq<octet>): octet
  {
    if p == [] then 0 else Plus(Sum(p[..|p| - 1]), p[|p| - 1])
  }

  function Frame(p: seq<octet>): seq<octet>
  {
    [SYNC] + Stuff(p) + [Sum(p)]
  }

  method WriteFifo(buf: array<octet>, len: nat) returns (wire: seq<octet>)
    requires len <= buf.Length
    ensures wire == Frame(buf[..len])
  {
    var sum: octet := 0;
    wire := [SYNC];
    for i := 0 to len
      invariant wire == [SYNC] + Stuff(buf[..i]) && sum == Sum(buf[..i])
    {
      assert buf[..i + 1][..i] == buf[..i];
      if buf[i] == SYNC {
        wire := wire + [MARK];
        wire := wire + [E0BYTE];
      } else if buf[i] == MARK {
        wire := wire + [MARK];
        wire := wire + [D0BYTE];
      } else {
        wire := wire + [buf[i]];
      }
      sum := Plus(sum, buf[i]);
    }
    wire := wire + [sum % 0x100];
  }

  // Escaped are the two reserved bytes: 0xD0 and then the byte less one.
  lemma StuffedIs(b: octet)
    ensures Stuffed(b) == if b == 0xE0 || b == 0xD0 then [0xD0, b - 1] else [b]
  {
  }

  function Total(p: seq<octet>): nat
  {
    if p == [] then 0 else Total(p[..|p| - 1]) + p[|p| - 1]
  }

  // A frame is opened by 0xE0 and closed by the sum of the payload as it was before the escapes.
  lemma {:induction false} SumIsTotal(p: seq<octet>)
    ensures Sum(p) == Total(p) % 256
  {
    if p != [] {
      SumIsTotal(p[..|p| - 1]);
      PlusWraps(Total(p[..|p| - 1]), p[|p| - 1]);
      hide Plus;
    }
  }

  lemma PlusWraps(a: nat, b: octet)
    ensures Plus(a % 256, b) == (a + b) % 256
  {
    var q, r := a / 256, a % 256;
    if r + b < 256 {
      assert a + b == 256 * q + (r + b);
    } else {
      assert a + b == 256 * (q + 1) + (r + b - 256);
    }
  }

  lemma {:induction false} FrameIs(p: seq<octet>)
    ensures Frame(p)[0] == 0xE0 && Frame(p)[|Frame(p)| - 1] == Total(p) % 256
    ensures Frame(p)[1..|Frame(p)| - 1] == Stuff(p)
  {
    SumIsTotal(p);
    hide Sum, Stuff, Total;
  }

  // The receiver -------------------------------------------------------------------------

  // What has been received, and whether an escape is open.
  datatype Rx = Rx(data: seq<octet>, sum: octet, escaped: bool)

  function Unescaped(b: octet): octet
  {
    if b == E0BYTE then SYNC else if b == D0BYTE then MARK else b
  }

  function Take(rx: Rx, b: octet): Rx
  {
    Rx(rx.data + [b], Plus(rx.sum, b), false)
  }

  function Feed(rx: Rx, b: octet): Rx
  {
    if rx.escaped then Take(rx, Unescaped(b))
    else if b == SYNC then Rx([], 0, false)
    else if b == MARK then rx.(escaped := true)
    else Take(rx, b)
  }

  function FeedAll(rx: Rx, s: seq<octet>): Rx
    decreases |s|
  {
    if s == [] then rx else Feed(FeedAll(rx, s[..|s| - 1]), s[|s| - 1])
  }

  const START: Rx := Rx([], 0, false)

  // All bytes but the last go through the receiver and the last is the checksum; an escape still open
  // swallows it, and then the checksum is whatever the empty queue reads as.
  function Received(raw: seq<octet>, stale: octet): (seq<octet>, bool)
    requires raw != []
  {
    var last := raw[|raw| - 1];
    var rx := FeedAll(START, raw[..|raw| - 1]);
    if rx.escaped then (Take(rx, Unescaped(last)).data, Take(rx, Unescaped(last)).sum == stale)
    else (rx.data, rx.sum == last)
  }

  lemma FeedNothing(rx: Rx)
    ensures FeedAll(rx, []) == rx
  {
  }

  lemma FeedNext(rx: Rx, s: seq<octet>, i: nat)
    requires i < |s|
    ensures FeedAll(rx, s[..i + 1]) == Feed(FeedAll(rx, s[..i]), s[i])
  {
    hide Feed;
    assert s[..i + 1][..i] == s[..i];
  }

  method ReadFifo(raw: seq<octet>, stale: octet, buf: array<octet>) returns (ok: bool, len: nat)
    requires 1 <= |raw| <= buf.Length
    modifies buf
    ensures len <= buf.Length && (buf[..len], ok) == Received(raw, stale)
  {
    hide FeedAll, Plus;
    FeedNothing(START);
    var sum: octet := 0;
    len := 0;
    var i := 0;
    while i < |raw| - 1
      invariant 0 <= i <= |raw| && len <= i && (i == |raw| ==> |raw| > 1)
      invariant i < |raw| ==> FeedAll(START, raw[..i]) == Rx(buf[..len], sum, false)
      invariant i == |raw| ==>
        var rx := FeedAll(START, raw[..i - 1]);
        rx.escaped && Take(rx, Unescaped(raw[i - 1])) == Rx(buf[..len], sum, false)
    {
      ghost var before := buf[..len];
      FeedNext(START, raw, i);
      buf[len] := raw[i];
      if buf[len] == SYNC {
        len := 0;
        sum := 0;
      } else {
        if buf[len] == MARK {
          buf[len] := raw[i + 1];
          if buf[len] == E0BYTE {
            buf[len] := SYNC;
          } else if buf[len] == D0BYTE {
            buf[len] := MARK;
          }
          i := i + 1;
          FeedNext(START, raw, i);
        }
        assert buf[..len + 1] == before + [buf[len]];
        sum := Plus(sum, buf[len]);
        len := len + 1;
      }
      i := i + 1;
    }
    ok := sum % 0x100 == if i < |raw| then raw[i] else stale;
  }

  // Round trip -----------------------------------------------------------------------------

  lemma {:induction false} FeedAppend(rx: Rx, s: seq<octet>, t: seq<octet>)
    ensures FeedAll(rx, s + t) == FeedAll(FeedAll(rx, s), t)
    decreases |t|
  {
    if t == [] {
      assert s + t == s;
    } else {
      hide Feed;
      assert (s + t)[..|s + t| - 1] == s + t[..|t| - 1];
      FeedAppend(rx, s, t[..|t| - 1]);
    }
  }

  lemma FeedStuffed(rx: Rx, b: octet)
    requires !rx.escaped
    ensures FeedAll(rx, Stuffed(b)) == Take(rx, b)
  {
    var s := Stuffed(b);
    assert s[..0] == [];
    assert FeedAll(rx, s[..1]) == Feed(rx, s[0]);
    if |s| == 1 {
      assert s[..1] == s;
    }
  }

  lemma {:induction false} FeedStuff(rx: Rx, p: seq<octet>)
    requires !rx.escaped
    ensures var r := FeedAll(rx, Stuff(p)); !r.escaped && r.data == rx.data + p && (rx.sum == 0 ==> r.sum == Sum(p))
    decreases |p|
  {
    if p != [] {
      hide Feed, Stuffed, Take, Plus;
      var front, b := p[..|p| - 1], p[|p| - 1];
      FeedStuff(rx, front);
      FeedAppend(rx, Stuff(front), Stuffed(b));
      var r := FeedAll(rx, Stuff(front));
      FeedStuffed(r, b);
      hide FeedAll;
      OneMoreTaken(rx, r, p);
    }
  }

  lemma {:induction false} OneMoreTaken(rx: Rx, r: Rx, p: seq<octet>)
    requires p != [] && r.data == rx.data + p[..|p| - 1] && (rx.sum == 0 ==> r.sum == Sum(p[..|p| - 1]))
    ensures var t := Take(r, p[|p| - 1]); !t.escaped && t.data == rx.data + p && (rx.sum == 0 ==> t.sum == Sum(p))
  {
    SumMore(p);
    hide Plus, Sum;
    assert p == p[..|p| - 1] + [p[|p| - 1]];
  }

  lemma {:induction false} SumMore(p: seq<octet>)
    requires p != []
    ensures Sum(p) == Plus(Sum(p[..|p| - 1]), p[|p| - 1])
  {
    hide Plus;
  }

  // The receiver after all but the last byte of a frame: whatever came before, its SYNC and its payload.
  lemma FrameFed(garbage: seq<octet>, p: seq<octet>)
    ensures var raw, g := garbage + Frame(p), FeedAll(START, garbage);
            && FeedAll(START, raw[..|raw| - 1]) == FeedAll(Feed(g, SYNC), Stuff(p)) && raw[|raw| - 1] == Sum(p)
  {
    hide Feed, FeedAll, Stuff, Sum;
    var raw := garbage + Frame(p);
    assert raw[..|raw| - 1] == garbage + ([SYNC] + Stuff(p));
    FeedAppend(START, garbage, [SYNC] + Stuff(p));
    FeedAppend(FeedAll(START, garbage), [SYNC], Stuff(p));
    FeedOne(FeedAll(START, garbage), SYNC);
  }

  // The frame comes through exactly when no escape is open at its SYNC.
  lemma FrameReceived(garbage: seq<octet>, p: seq<octet>, stale: octet)
    ensures Received(garbage + Frame(p), stale).0 == p <==> !FeedAll(START, garbage).escaped
    ensures !FeedAll(START, garbage).escaped ==> Received(garbage + Frame(p), stale).1
  {
    hide Feed, FeedAll, Stuff, Sum, Take, Frame;
    FrameFed(garbage, p);
    var synced := Feed(FeedAll(START, garbage), SYNC);
    SyncFed(FeedAll(START, garbage));
    FeedStuff(synced, p);
    assert |synced.data + p| == |synced.data| + |p|;
  }

  lemma FeedOne(rx: Rx, b: octet)
    ensures FeedAll(rx, [b]) == Feed(rx, b)
  {
    assert [b][..0] == [];
  }

  lemma SyncFed(rx: Rx)
    ensures !Feed(rx, SYNC).escaped
    ensures if rx.escaped then |Feed(rx, SYNC).data| > 0 else Feed(rx, SYNC) == START
  {
  }

  function TrailingMarks(s: seq<octet>): nat
  {
    if s == [] || s[|s| - 1] != MARK then 0 else 1 + TrailingMarks(s[..|s| - 1])
  }

  // An escape is open after an odd number of MARKs in a row.
  lemma {:induction false} EscapeOpen(s: seq<octet>)
    ensures FeedAll(START, s).escaped <==> TrailingMarks(s) % 2 == 1
  {
    if s != [] {
      EscapeOpen(s[..|s| - 1]);
    }
  }

  // The two together: what a console's receiver makes of garbage followed by a frame.
  lemma RoundTrip(garbage: seq<octet>, p: seq<octet>, stale: octet)
    ensures Received(garbage + Frame(p), stale) == (p, true) <==> TrailingMarks(garbage) % 2 == 0
  {
    FrameReceived(garbage, p, stale);
    EscapeOpen(garbage);
  }

  // Inside a frame no byte is taken for the start of another.
  lemma {:induction false} NoSyncInside(p: seq<octet>)
    ensures SYNC !in Stuff(p)
  {
    if p != [] {
      NoSyncInside(p[..|p| - 1]);
    }
  }
}
