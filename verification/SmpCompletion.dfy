// The other half of a pairing: what is asked for also happens. Every random half asked for, every confirm value, every
// random value and every link key due on a run is sent or used, once, in order, and with the right value
// (main/bluetooth/smp.c:94-126, 249-287; main/bluetooth/hci.c:1319-1348, 1773-1794).
module SmpCompletion {
  import opened Bytes
  import opened SmpCrypto
  import opened SmpPairing
  import opened SmpRandom

  // On the air -------------------------------------------------------------------------

  // The keys encryption was started with, the confirm values and the random values sent to one device.
  function KeysUsed(air: seq<Air>, d: nat): seq<Block>
  {
    if air == [] then []
    else
      var a := air[|air| - 1];
      KeysUsed(air[..|air| - 1], d) + if a.EncryptionStarted? && a.dev == d then [a.key] else []
  }

  function ConfirmsSent(air: seq<Air>, d: nat): seq<Block>
  {
    if air == [] then []
    else
      var a := air[|air| - 1];
      ConfirmsSent(air[..|air| - 1], d) + if a.ConfirmSent? && a.dev == d then [a.val] else []
  }

  function RandomsSent(air: seq<Air>, d: nat): seq<Block>
  {
    if air == [] then []
    else
      var a := air[|air| - 1];
      RandomsSent(air[..|air| - 1], d) + if a.RandomSent? && a.dev == d then [a.val] else []
  }

  lemma OnAir(air: seq<Air>, a: Air, d: nat)
    ensures KeysUsed(air + [a], d) == KeysUsed(air, d) + if a.EncryptionStarted? && a.dev == d then [a.key] else []
    ensures ConfirmsSent(air + [a], d) == ConfirmsSent(air, d) + if a.ConfirmSent? && a.dev == d then [a.val] else []
    ensures RandomsSent(air + [a], d) == RandomsSent(air, d) + if a.RandomSent? && a.dev == d then [a.val] else []
  {
    assert (air + [a])[..|air|] == air;
  }

  // The random value and the parameters exchanged last with a device.
  function RandomOf(air: seq<Air>, d: nat): Block
  {
    var a := Last(air, d, Random);
    if a.Some? && a.value.RandomSent? then a.value.val else TK0
  }

  function RequestOf(air: seq<Air>, d: nat): Pairing
  {
    var a := Last(air, d, Req);
    if a.Some? && a.value.ReqSent? then a.value.preq else ReqBytes()
  }

  function ResponseOf(air: seq<Air>, d: nat): Pairing
  {
    var a := Last(air, d, Rsp);
    if a.Some? && a.value.RspReceived? then a.value.pres else ReqBytes()
  }

  // One step ---------------------------------------------------------------------------

  // What an event puts on the air.
  function Messages(h: Host, e: Cipher, ev: Event): seq<Air>
    requires WellFormed(h) && Known(h, ev)
  {
    match ev
    case Start(d) => [ReqSent(d, ReqBytes())]
    case Response(d, body) => [RspReceived(d, RspBytes(body))]
    case PeerConfirm(d, val) => [ConfirmReceived(d, val)] + [RandomSent(d, h.devs[d].rand)]
    case PeerRandom(d, val) => [RandomReceived(d, val)]
    case RandDone(_) => []
    case EncryptDone =>
      if h.encCmds == [] || h.encq == [] then []
      else
        var data := e(h.encCmds[0].key, h.encCmds[0].plaintext);
        match h.encq[0].cb
        case ConfirmHalf => []
        case ConfirmComplete => [ConfirmSent(h.encq[0].dev, data)]
        case StkComplete => [EncryptionStarted(h.encq[0].dev, data)]
  }

  lemma StepAir(h: Host, e: Cipher, ev: Event)
    requires WellFormed(h) && Known(h, ev)
    ensures Step(h, e, ev).air == h.air + Messages(h, e, ev)
  {
    hide Part1, Part2, KeyText;
    if ev.PeerConfirm? {
      assert [ConfirmReceived(ev.dev, ev.val), RandomSent(ev.dev, h.devs[ev.dev].rand)] == Messages(h, e, ev);
    }
  }

  // The answer that is due at the head of the queues, if it is this one.
  function Answered(h: Host, e: Cipher, ev: Event, c: EncryptContext): seq<Block>
  {
    if ev.EncryptDone? && h.encCmds != [] && h.encq != [] && h.encq[0] == c then
      [e(h.encCmds[0].key, h.encCmds[0].plaintext)]
    else []
  }

  predicate Counted(h: Host, e: Cipher, ev: Event, d: nat, air: seq<Air>)
    requires d < |h.devs|
  {
    && KeysUsed(air, d) == KeysUsed(h.air, d) + Answered(h, e, ev, EncryptContext(d, StkComplete))
    && ConfirmsSent(air, d) == ConfirmsSent(h.air, d) + Answered(h, e, ev, EncryptContext(d, ConfirmComplete))
    && RandomsSent(air, d) == RandomsSent(h.air, d) + if ev.PeerConfirm? && ev.dev == d then [h.devs[d].rand] else []
  }

  lemma StepCounts(h: Host, e: Cipher, ev: Event, d: nat)
    requires WellFormed(h) && Known(h, ev) && d < |h.devs|
    ensures Counted(h, e, ev, d, Step(h, e, ev).air)
  {
    StepAir(h, e, ev);
    if ev.EncryptDone? {
      CountAnswer(h, e, d);
    } else {
      CountOther(h, e, ev, d);
    }
    hide Counted, Step;
  }

  lemma CountOther(h: Host, e: Cipher, ev: Event, d: nat)
    requires WellFormed(h) && Known(h, ev) && d < |h.devs| && !ev.EncryptDone?
    ensures Counted(h, e, ev, d, h.air + Messages(h, e, ev))
  {
    hide KeysUsed, ConfirmsSent, RandomsSent, ReqBytes, RspBytes;
    match ev
    case Start(x) => OnAir(h.air, ReqSent(x, ReqBytes()), d);
    case Response(x, body) => OnAir(h.air, RspReceived(x, RspBytes(body)), d);
    case PeerConfirm(x, val) =>
      OnAir(h.air, ConfirmReceived(x, val), d);
      OnAir(h.air + [ConfirmReceived(x, val)], RandomSent(x, h.devs[x].rand), d);
      assert h.air + Messages(h, e, ev) == h.air + [ConfirmReceived(x, val)] + [RandomSent(x, h.devs[x].rand)];
    case PeerRandom(x, val) => OnAir(h.air, RandomReceived(x, val), d);
    case RandDone(_) => assert h.air + [] == h.air;
  }

  lemma CountAnswer(h: Host, e: Cipher, d: nat)
    requires WellFormed(h) && d < |h.devs|
    ensures Counted(h, e, EncryptDone, d, h.air + Messages(h, e, EncryptDone))
  {
    hide KeysUsed, ConfirmsSent, RandomsSent;
    assert h.air + [] == h.air;
    if h.encCmds != [] && h.encq != [] {
      var data := e(h.encCmds[0].key, h.encCmds[0].plaintext);
      OnAir(h.air, EncryptionStarted(h.encq[0].dev, data), d);
      OnAir(h.air, ConfirmSent(h.encq[0].dev, data), d);
    }
  }

  // The values of device d that only its own events change.
  predicate ValuesStep(ev: Event, d: nat, dev: Device, next: Device)
  {
    && next.rrand == (if ev.PeerRandom? && ev.dev == d then ev.val else dev.rrand)
    && next.preq == (if ev.Start? && ev.dev == d then ReqBytes() else dev.preq)
    && next.pres == (if ev.Response? && ev.dev == d && |ev.body| == 6 then RspBytes(ev.body) else dev.pres)
    && next.remote == dev.remote
  }

  lemma StepValues(h: Host, e: Cipher, ev: Event, d: nat)
    requires Aligned(h) && Known(h, ev) && d < |h.devs| == |Step(h, e, ev).devs|
    ensures ValuesStep(ev, d, h.devs[d], Step(h, e, ev).devs[d])
  {
    hide Part1, Part2, KeyText, ReqBytes, RspBytes, GetEncrypt, GetRandom;
    match ev
    case Start(_) =>
    case Response(x, body) => RequestsKeepDevices(h, x, RspBytes(body));
    case PeerConfirm(_, _) =>
    case PeerRandom(x, val) =>
      var text := KeyText(val, h.devs[x].rand);
      var h1 := h.(devs := h.devs[x := h.devs[x].(rrand := val, ltk := text)], air := h.air + [RandomReceived(x, val)]);
      EncryptKeepsDevices(h1, x, StkComplete, text);
    case RandDone(half) => RandDoneValues(h, half, d);
    case EncryptDone => EncryptDoneValues(h, e, d);
  }

  lemma RequestsKeepDevices(h: Host, d: nat, pres: Pairing)
    requires d < |h.devs|
    ensures var h1 := h.(devs := h.devs[d := h.devs[d].(pres := pres)], air := h.air + [RspReceived(d, pres)]);
            GetRandom(GetRandom(h1, d, MrandHalf), d, MrandComplete).devs == h1.devs
  {
  }

  lemma EncryptKeepsDevices(h: Host, d: nat, cb: EncryptCallback, text: Block)
    ensures GetEncrypt(h, d, cb, TK0, text).devs == h.devs
  {
  }

  lemma RandDoneValues(h: Host, half: Half, d: nat)
    requires Aligned(h) && d < |h.devs| == |OnRandDone(h, half).devs|
    ensures ValuesStep(RandDone(half), d, h.devs[d], OnRandDone(h, half).devs[d])
  {
    hide Part1;
    if h.randq != [] {
      assert h.randq[0] in h.randq;
    }
  }

  lemma EncryptDoneValues(h: Host, e: Cipher, d: nat)
    requires Aligned(h) && d < |h.devs| == |OnEncryptDone(h, e).devs|
    ensures ValuesStep(EncryptDone, d, h.devs[d], OnEncryptDone(h, e).devs[d])
  {
    hide Part2;
    if h.encq != [] {
      assert h.encq[0] in h.encq;
    }
  }

  // An answer for device d meets it in the phase that waits for it.
  lemma HeadPhase(h: Host, ph: seq<Phase>, e: Cipher, d: nat)
    requires Inv(h, ph, e) && d < |h.devs|
    ensures |ph| == |h.devs| && Aligned(h) && |h.encq| == |h.encCmds| && |h.encq| <= h.capacity
    ensures h.randq != [] && h.randq[0].dev == d ==>
              ph[d] in (if h.randq[0].cb == MrandComplete then {AwaitWhole} else {Requested, AwaitHalf, Stalled})
    ensures h.encq != [] && h.encq[0].dev == d ==>
              ph[d] == match h.encq[0].cb
                       case ConfirmHalf => AwaitPart1
                       case ConfirmComplete => AwaitPart2
                       case StkComplete => AwaitKey
  {
    InvAligned(h, ph, e);
    if h.randq != [] && h.randq[0].dev == d {
      RandHead(h, ph, e, d);
    }
    if h.encq != [] && h.encq[0].dev == d {
      EncryptHead(h, ph, e, d);
    }
  }

  // How the phase of a device moves on.
  predicate Moves(h: Host, ev: Event, d: nat, p: Phase, q: Phase)
  {
    match ev
    case Start(x) => if x == d then p in {Idle, Stalled} && q == Requested else q == p
    case Response(x, _) =>
      if x == d then p == Requested && q == (if |h.randq| + 2 <= h.capacity then AwaitHalf else Stalled) else q == p
    case PeerConfirm(x, _) => if x == d then p == Confirmed && q == Exchanged else q == p
    case PeerRandom(x, _) =>
      if x == d then p == Exchanged && q == (if |h.encq| < h.capacity then AwaitKey else Stalled) else q == p
    case RandDone(_) =>
      if h.randq == [] || h.randq[0].dev != d then q == p
      else if h.randq[0].cb == MrandComplete then
        p == AwaitWhole && q == (if |h.encq| < h.capacity then AwaitPart1 else Stalled)
      else q == p || (p == AwaitHalf && q == AwaitWhole)
    case EncryptDone =>
      if h.encq == [] || h.encq[0].dev != d then q == p
      else
        match h.encq[0].cb
        case ConfirmHalf => p == AwaitPart1 && q == AwaitPart2
        case ConfirmComplete => p == AwaitPart2 && q == Confirmed
        case StkComplete => p == AwaitKey && q == Idle
  }

  lemma PhaseMoves(h: Host, ph: seq<Phase>, e: Cipher, ev: Event, d: nat)
    requires Inv(h, ph, e) && Known(h, ev) && Conforms(ph, ev) && d < |h.devs|
    ensures WellFormed(h) && |ph| == |h.devs| == |NextPhase(h, ph, ev)|
    ensures Moves(h, ev, d, ph[d], NextPhase(h, ph, ev)[d])
  {
    hide PendingRand, Inv;
    HeadPhase(h, ph, e, d);
    SamePhases(h, ph, ev);
    match ev
    case Start(_) =>
    case Response(_, _) =>
    case PeerConfirm(_, _) =>
    case PeerRandom(_, _) =>
    case RandDone(_) => WholeAfterHalf(h, ph, e, d);
    case EncryptDone =>
  }

  lemma WholeAfterHalf(h: Host, ph: seq<Phase>, e: Cipher, d: nat)
    requires Inv(h, ph, e) && d < |h.devs| == |ph|
    ensures PendingRand(h.randq, d) == [MrandHalf, MrandComplete] ==> ph[d] == AwaitHalf
  {
    assert ViewOk(ViewOf(h, d), ph[d], e, h.local);
    ViewPending(h, d);
    hide Inv, ValuesOk, ViewOf, PendingRand;
    if PendingRand(h.randq, d) == [MrandHalf, MrandComplete] {
      assert ViewOf(h, d).pendR[1] == MrandComplete;
    }
  }

  // Link keys --------------------------------------------------------------------------

  // The link keys due: one for every random value of the peer whose request found room, made of that value and of the
  // one sent to it.
  function KeysDue(hs: seq<Host>, evs: seq<Event>, e: Cipher, n: nat, d: nat): seq<Block>
    requires n <= |evs| < |hs|
  {
    if n == 0 then [] else KeysDue(hs, evs, e, n - 1, d) + KeyDue(hs[n - 1], evs[n - 1], e, d)
  }

  function KeyDue(h: Host, ev: Event, e: Cipher, d: nat): seq<Block>
  {
    if ev.PeerRandom? && ev.dev == d && |h.encq| < h.capacity then [S1(e, TK0, ev.val, RandomOf(h.air, d))] else []
  }

  function KeyOf(e: Cipher, dev: Device): Block { S1(e, TK0, dev.rrand, dev.rand) }

  function KeyAhead(e: Cipher, dev: Device, p: Phase): seq<Block>
  {
    if p == AwaitKey then [KeyOf(e, dev)] else []
  }

  lemma KeyAtItsTurn(h: Host, ph: seq<Phase>, e: Cipher)
    requires Inv(h, ph, e) && h.encq != [] && h.encq[0].cb == StkComplete
    ensures h.encq[0].dev < |h.devs| && h.encCmds != []
    ensures e(h.encCmds[0].key, h.encCmds[0].plaintext) == KeyOf(e, h.devs[h.encq[0].dev])
  {
    assert h.encq[0] in h.encq;
    assert CommandOk(h.encCmds[0], h.encq[0].cb, h.devs[h.encq[0].dev], e, h.local);
    hide AirOk, ViewOf, KeyText;
  }

  lemma OwnValues(h: Host, ph: seq<Phase>, e: Cipher, d: nat)
    requires Inv(h, ph, e) && d < |h.devs|
    ensures |ph| == |h.devs|
    ensures ph[d] == Exchanged ==> RandomOf(h.air, d) == h.devs[d].rand
    ensures ph[d] in {AwaitHalf, AwaitWhole, AwaitPart1, AwaitPart2, Confirmed, Exchanged, AwaitKey} ==>
              RequestOf(h.air, d) == h.devs[d].preq && ResponseOf(h.air, d) == h.devs[d].pres
  {
    assert ViewOk(ViewOf(h, d), ph[d], e, h.local);
    hide AirOk, CommandOk, PendingOk, Last;
  }

  // The balance of device d over one event.
  lemma KeyStep(h: Host, ph: seq<Phase>, e: Cipher, ev: Event, d: nat)
    requires Inv(h, ph, e) && Known(h, ev) && Conforms(ph, ev) && d < |h.devs|
    ensures |Step(h, e, ev).devs| == |NextPhase(h, ph, ev)| == |h.devs| == |ph|
    ensures var h2, p2 := Step(h, e, ev), NextPhase(h, ph, ev)[d];
            KeysUsed(h2.air, d) + KeyAhead(e, h2.devs[d], p2)
            == KeysUsed(h.air, d) + KeyAhead(e, h.devs[d], ph[d]) + KeyDue(h, ev, e, d)
  {
    hide KeysUsed, ConfirmsSent, RandomsSent, KeyOf, Inv, RandomOf, WellFormed, Step;
    HeadPhase(h, ph, e, d);
    StepKeepsWellFormed(h, e, ev);
    SamePhases(h, ph, ev);
    StepCounts(h, e, ev, d);
    KeyAnswer(h, ph, e, ev, d);
    KeyValues(h, ph, e, ev, d);
    PhaseMoves(h, ph, e, ev, d);
  }

  // The answer is the key that was ahead.
  lemma KeyAnswer(h: Host, ph: seq<Phase>, e: Cipher, ev: Event, d: nat)
    requires Inv(h, ph, e) && d < |h.devs|
    ensures Answered(h, e, ev, EncryptContext(d, StkComplete))
         == if ev.EncryptDone? && h.encq != [] && h.encq[0] == EncryptContext(d, StkComplete)
            then [KeyOf(e, h.devs[d])] else []
  {
    HeadPhase(h, ph, e, d);
    if h.encq != [] && h.encq[0] == EncryptContext(d, StkComplete) {
      KeyAtItsTurn(h, ph, e);
    }
    hide Inv, KeyOf;
  }

  // The key ahead stays what it was, and starts as the one due.
  lemma KeyValues(h: Host, ph: seq<Phase>, e: Cipher, ev: Event, d: nat)
    requires Inv(h, ph, e) && Known(h, ev) && Conforms(ph, ev) && d < |h.devs| == |Step(h, e, ev).devs| == |ph|
    ensures var key := KeyOf(e, Step(h, e, ev).devs[d]);
            && (ph[d] == AwaitKey ==> key == KeyOf(e, h.devs[d]))
            && (ev.PeerRandom? && ev.dev == d ==> key == S1(e, TK0, ev.val, RandomOf(h.air, d)))
  {
    hide Step, Inv, RandomOf, KeyOf;
    HeadPhase(h, ph, e, d);
    StepValues(h, e, ev, d);
    StepRandom(h, e, ev, d);
    OwnValues(h, ph, e, d);
    KeysFrom(e, h.devs[d], Step(h, e, ev).devs[d]);
  }

  lemma KeysFrom(e: Cipher, dev: Device, next: Device)
    ensures dev.rand == next.rand && dev.rrand == next.rrand ==> KeyOf(e, dev) == KeyOf(e, next)
    ensures KeyOf(e, next) == S1(e, TK0, next.rrand, next.rand)
  {
  }

  // Confirm values ---------------------------------------------------------------------

  // The confirm values due: one for every second half of a random value that was asked for and answered while there was
  // room for an encryption, made of the two answers and the parameters exchanged.
  function ConfirmsDue(hs: seq<Host>, evs: seq<Event>, e: Cipher, n: nat, d: nat): seq<Block>
    requires n <= |evs| < |hs| && d < |hs[0].devs|
  {
    if n == 0 then []
    else
      var h, ev := hs[n - 1], evs[n - 1];
      ConfirmsDue(hs, evs, e, n - 1, d)
      + if SecondHalf(h, ev, d) && |h.encq| < h.capacity then
          [C1(e, TK0, OwnRandom(hs, evs, n, d), RequestOf(h.air, d), ResponseOf(h.air, d), h.local,
              hs[0].devs[d].remote)]
        else []
  }

  // The event answers the second of the device's two requests for random numbers.
  predicate SecondHalf(h: Host, ev: Event, d: nat)
  {
    ev.RandDone? && h.randCmds != [] && h.randCmds[0] == RandContext(d, MrandComplete)
  }

  function ConfirmOf(e: Cipher, local: LeAddr, dev: Device): Block
  {
    C1(e, TK0, dev.rand, dev.preq, dev.pres, local, dev.remote)
  }

  function ConfirmAhead(e: Cipher, local: LeAddr, dev: Device, p: Phase): seq<Block>
  {
    if p == AwaitPart1 || p == AwaitPart2 then [ConfirmOf(e, local, dev)] else []
  }

  lemma ConfirmAtItsTurn(h: Host, ph: seq<Phase>, e: Cipher)
    requires Inv(h, ph, e) && h.encq != [] && h.encq[0].cb == ConfirmComplete
    ensures h.encq[0].dev < |h.devs| && h.encCmds != []
    ensures e(h.encCmds[0].key, h.encCmds[0].plaintext) == ConfirmOf(e, h.local, h.devs[h.encq[0].dev])
  {
    assert h.encq[0] in h.encq;
    assert CommandOk(h.encCmds[0], h.encq[0].cb, h.devs[h.encq[0].dev], e, h.local);
    hide AirOk, ViewOf, KeyText, Part1, Part2;
  }

  lemma ConfirmAnswer(h: Host, ph: seq<Phase>, e: Cipher, ev: Event, d: nat)
    requires Inv(h, ph, e) && d < |h.devs|
    ensures Answered(h, e, ev, EncryptContext(d, ConfirmComplete))
         == if ev.EncryptDone? && h.encq != [] && h.encq[0] == EncryptContext(d, ConfirmComplete)
            then [ConfirmOf(e, h.local, h.devs[d])] else []
  {
    HeadPhase(h, ph, e, d);
    if h.encq != [] && h.encq[0] == EncryptContext(d, ConfirmComplete) {
      ConfirmAtItsTurn(h, ph, e);
    }
    hide Inv, ConfirmOf;
  }

  lemma ConfirmFrom(e: Cipher, local: LeAddr, dev: Device, next: Device)
    ensures dev.rand == next.rand && dev.preq == next.preq && dev.pres == next.pres && dev.remote == next.remote ==>
              ConfirmOf(e, local, dev) == ConfirmOf(e, local, next)
  {
  }

  lemma ConfirmValues(h: Host, ph: seq<Phase>, e: Cipher, ev: Event, d: nat)
    requires Inv(h, ph, e) && Known(h, ev) && Conforms(ph, ev) && d < |h.devs| == |Step(h, e, ev).devs| == |ph|
    ensures ph[d] == AwaitPart1 || ph[d] == AwaitPart2 ==>
              ConfirmOf(e, h.local, Step(h, e, ev).devs[d]) == ConfirmOf(e, h.local, h.devs[d])
    ensures ph[d] == AwaitWhole && ev.RandDone? ==>
              var next := Step(h, e, ev).devs[d];
              && next.preq == RequestOf(h.air, d) && next.pres == ResponseOf(h.air, d)
              && next.remote == h.devs[d].remote
  {
    hide Step, Inv, RequestOf, ResponseOf, ConfirmOf;
    HeadPhase(h, ph, e, d);
    StepValues(h, e, ev, d);
    StepRandom(h, e, ev, d);
    OwnValues(h, ph, e, d);
    ConfirmFrom(e, h.local, h.devs[d], Step(h, e, ev).devs[d]);
  }

  lemma ConfirmStep(h: Host, ph: seq<Phase>, e: Cipher, ev: Event, d: nat)
    requires Inv(h, ph, e) && Known(h, ev) && Conforms(ph, ev) && d < |h.devs|
    ensures |Step(h, e, ev).devs| == |NextPhase(h, ph, ev)| == |h.devs| == |ph|
    ensures var h2, p2 := Step(h, e, ev), NextPhase(h, ph, ev)[d];
            ConfirmsSent(h2.air, d) + ConfirmAhead(e, h.local, h2.devs[d], p2)
            == ConfirmsSent(h.air, d) + ConfirmAhead(e, h.local, h.devs[d], ph[d])
               + if SecondHalf(h, ev, d) && |h.encq| < h.capacity then [ConfirmOf(e, h.local, h2.devs[d])] else []
  {
    hide KeysUsed, ConfirmsSent, RandomsSent, ConfirmOf, Inv, WellFormed, Step;
    HeadPhase(h, ph, e, d);
    StepKeepsWellFormed(h, e, ev);
    SamePhases(h, ph, ev);
    StepCounts(h, e, ev, d);
    ConfirmAnswer(h, ph, e, ev, d);
    ConfirmValues(h, ph, e, ev, d);
    PhaseMoves(h, ph, e, ev, d);
  }

  // Whole runs -------------------------------------------------------------------------

  // A command of the controller that is not completed yet.
  predicate Outstanding(h: Host, c: EncryptContext)
  {
    exists i :: 0 <= i < |h.encCmds| && h.encCmds[i].owner == c
  }

  lemma {:induction false} PendingIffQueued(q: seq<EncryptContext>, d: nat, cb: EncryptCallback)
    ensures cb in PendingEncrypt(q, d) <==> EncryptContext(d, cb) in q
  {
    if q != [] {
      PendingIffQueued(q[..|q| - 1], d, cb);
      assert q == q[..|q| - 1] + [q[|q| - 1]];
    }
  }

  lemma OutstandingIsPhase(h: Host, ph: seq<Phase>, e: Cipher, d: nat)
    requires Inv(h, ph, e) && d < |h.devs|
    ensures |ph| == |h.devs|
    ensures Outstanding(h, EncryptContext(d, StkComplete)) <==> ph[d] == AwaitKey
    ensures Outstanding(h, EncryptContext(d, ConfirmHalf)) <==> ph[d] == AwaitPart1
    ensures Outstanding(h, EncryptContext(d, ConfirmComplete)) <==> ph[d] == AwaitPart2
  {
    assert ViewOk(ViewOf(h, d), ph[d], e, h.local);
    ViewPending(h, d);
    QueuedIffOutstanding(h, d, StkComplete);
    QueuedIffOutstanding(h, d, ConfirmHalf);
    QueuedIffOutstanding(h, d, ConfirmComplete);
    hide Inv, ValuesOk, ViewOf, PendingEncrypt, Outstanding;
  }

  lemma QueuedIffOutstanding(h: Host, d: nat, cb: EncryptCallback)
    requires Aligned(h)
    ensures Outstanding(h, EncryptContext(d, cb)) <==> cb in PendingEncrypt(h.encq, d)
  {
    PendingIffQueued(h.encq, d, cb);
    hide PendingEncrypt;
    assert forall i :: 0 <= i < |h.encCmds| ==> h.encq[i] == h.encCmds[i].owner;
  }

  // The last step of a run up to event n.
  lemma RunStep(hs: seq<Host>, phs: seq<seq<Phase>>, evs: seq<Event>, e: Cipher, n: nat)
    requires IsRun(hs, phs, evs, e) && 0 < n <= |evs|
    ensures var h, ph, ev := hs[n - 1], phs[n - 1], evs[n - 1];
            && Inv(h, ph, e) && WellFormed(h) && Known(h, ev) && Conforms(ph, ev)
            && |ph| == |h.devs| == |hs[0].devs| == |hs[n].devs| == |phs[n]| && h.local == hs[0].local
            && hs[n] == Step(h, e, ev) && phs[n] == NextPhase(h, ph, ev)
  {
    hide Inv, Step, NextPhase;
    RunKeepsInv(hs, phs, evs, e, n - 1);
    SameDevices(hs, phs, evs, e, n - 1);
    SameDevices(hs, phs, evs, e, n);
    SamePhases(hs[n - 1], phs[n - 1], evs[n - 1]);
  }

  lemma AtTheStart(hs: seq<Host>, phs: seq<seq<Phase>>, evs: seq<Event>, e: Cipher, d: nat)
    requires IsRun(hs, phs, evs, e) && d < |hs[0].devs|
    ensures hs[0].air == [] && |phs[0]| == |hs[0].devs| && phs[0][d] == Idle
  {
  }

  lemma {:induction false} KeyBalance(hs: seq<Host>, phs: seq<seq<Phase>>, evs: seq<Event>, e: Cipher, n: nat, d: nat)
    requires IsRun(hs, phs, evs, e) && n <= |evs| && d < |hs[0].devs|
    ensures |hs[n].devs| == |phs[n]| == |hs[0].devs|
    ensures KeysUsed(hs[n].air, d) + KeyAhead(e, hs[n].devs[d], phs[n][d]) == KeysDue(hs, evs, e, n, d)
  {
    if n == 0 {
      AtTheStart(hs, phs, evs, e, d);
    } else {
      hide Inv, Step, NextPhase, KeyAhead, KeyDue, KeysUsed, IsRun, Conforms, Known, WellFormed;
      KeyBalance(hs, phs, evs, e, n - 1, d);
      RunStep(hs, phs, evs, e, n);
      KeyStep(hs[n - 1], phs[n - 1], e, evs[n - 1], d);
    }
  }

  lemma {:induction false} ConfirmBalance(hs: seq<Host>, phs: seq<seq<Phase>>, evs: seq<Event>, e: Cipher,
                                          n: nat, d: nat)
    requires IsRun(hs, phs, evs, e) && n <= |evs| && d < |hs[0].devs|
    ensures |hs[n].devs| == |phs[n]| == |hs[0].devs|
    ensures ConfirmsSent(hs[n].air, d) + ConfirmAhead(e, hs[0].local, hs[n].devs[d], phs[n][d])
         == ConfirmsDue(hs, evs, e, n, d)
  {
    if n == 0 {
      AtTheStart(hs, phs, evs, e, d);
    } else {
      hide Inv, Step, NextPhase, ConfirmAhead, ConfirmsSent, IsRun, Conforms, Known, WellFormed, SecondHalf, OwnRandom,
           ConfirmOf, C1;
      ConfirmBalance(hs, phs, evs, e, n - 1, d);
      RunStep(hs, phs, evs, e, n);
      ConfirmStep(hs[n - 1], phs[n - 1], e, evs[n - 1], d);
      if SecondHalf(hs[n - 1], evs[n - 1], d) {
        ConfirmDueIs(hs, phs, evs, e, n, d);
      }
    }
  }

  lemma ConfirmDueIs(hs: seq<Host>, phs: seq<seq<Phase>>, evs: seq<Event>, e: Cipher, n: nat, d: nat)
    requires IsRun(hs, phs, evs, e) && 0 < n <= |evs| && d < |hs[0].devs|
    requires SecondHalf(hs[n - 1], evs[n - 1], d)
    ensures d < |hs[n].devs|
    ensures var h := hs[n - 1];
            ConfirmOf(e, h.local, hs[n].devs[d])
            == C1(e, TK0, OwnRandom(hs, evs, n, d), RequestOf(h.air, d), ResponseOf(h.air, d), h.local,
                  hs[0].devs[d].remote)
  {
    hide Inv, Step, NextPhase, C1, RequestOf, ResponseOf;
    var h, ph := hs[n - 1], phs[n - 1];
    RunKeepsInv(hs, phs, evs, e, n - 1);
    SameDevices(hs, phs, evs, e, n - 1);
    SameDevices(hs, phs, evs, e, n);
    HeadPhase(h, ph, e, d);
    ConfirmValues(h, ph, e, evs[n - 1], d);
    RandomIsOwn(hs, phs, evs, e, n, d);
    assert Remotes(h)[d] == Remotes(hs[0])[d];
  }

  // The link is encrypted with every key that falls due, once, in order, and as soon as the answer is in: the keys used
  // are those due, less the one whose command is outstanding.
  lemma KeysAreUsed(hs: seq<Host>, phs: seq<seq<Phase>>, evs: seq<Event>, e: Cipher, n: nat, d: nat)
    requires IsRun(hs, phs, evs, e) && n <= |evs| && d < |hs[0].devs|
    ensures var used, due := KeysUsed(hs[n].air, d), KeysDue(hs, evs, e, n, d);
            used <= due && |due| - |used| == if Outstanding(hs[n], EncryptContext(d, StkComplete)) then 1 else 0
  {
    RunKeepsInv(hs, phs, evs, e, n);
    KeyBalance(hs, phs, evs, e, n, d);
    OutstandingIsPhase(hs[n], phs[n], e, d);
    hide Inv, KeysUsed, KeysDue, Outstanding;
  }

  // And every confirm value that falls due is sent.
  lemma ConfirmsAreSent(hs: seq<Host>, phs: seq<seq<Phase>>, evs: seq<Event>, e: Cipher, n: nat, d: nat)
    requires IsRun(hs, phs, evs, e) && n <= |evs| && d < |hs[0].devs|
    ensures var sent, due := ConfirmsSent(hs[n].air, d), ConfirmsDue(hs, evs, e, n, d);
            && sent <= due
            && |due| - |sent| == if Outstanding(hs[n], EncryptContext(d, ConfirmHalf))
                                    || Outstanding(hs[n], EncryptContext(d, ConfirmComplete)) then 1 else 0
  {
    RunKeepsInv(hs, phs, evs, e, n);
    ConfirmBalance(hs, phs, evs, e, n, d);
    OutstandingIsPhase(hs[n], phs[n], e, d);
    hide Inv, ConfirmsSent, ConfirmsDue, Outstanding;
  }

  // Every confirm value of the peer is answered at once with the random value the controller gave the device.
  function RandomsDue(hs: seq<Host>, evs: seq<Event>, n: nat, d: nat): seq<Block>
    requires n <= |evs| < |hs| && d < |hs[0].devs|
  {
    if n == 0 then []
    else RandomsDue(hs, evs, n - 1, d) + if Confirms(evs[n - 1], d) then [OwnRandom(hs, evs, n - 1, d)] else []
  }

  predicate Confirms(ev: Event, d: nat)
  {
    ev.PeerConfirm? && ev.dev == d
  }

  lemma RandomStep(h: Host, e: Cipher, ev: Event, d: nat)
    requires WellFormed(h) && Known(h, ev) && d < |h.devs|
    ensures RandomsSent(Step(h, e, ev).air, d)
         == RandomsSent(h.air, d) + if Confirms(ev, d) then [h.devs[d].rand] else []
  {
    hide Step, RandomsSent, KeysUsed, ConfirmsSent, Answered;
    StepCounts(h, e, ev, d);
  }

  lemma {:induction false} RandomsAreSent(hs: seq<Host>, phs: seq<seq<Phase>>, evs: seq<Event>, e: Cipher,
                                          n: nat, d: nat)
    requires IsRun(hs, phs, evs, e) && n <= |evs| && d < |hs[0].devs|
    ensures RandomsSent(hs[n].air, d) == RandomsDue(hs, evs, n, d)
  {
    if n == 0 {
      AtTheStart(hs, phs, evs, e, d);
    } else {
      hide Inv, Step, NextPhase, RandomsSent, Conforms, WellFormed, Known, OwnRandom, IsRun, Confirms;
      RandomsAreSent(hs, phs, evs, e, n - 1, d);
      RandomIsOwn(hs, phs, evs, e, n - 1, d);
      RunStep(hs, phs, evs, e, n);
      RandomStep(hs[n - 1], e, evs[n - 1], d);
    }
  }

  // Both halves of a random value are asked for on every response that finds room for two requests, and the second
  // request is answered once for each, unless it is outstanding.
  function Asked(hs: seq<Host>, evs: seq<Event>, n: nat, d: nat): nat
    requires n <= |evs| < |hs|
  {
    if n == 0 then 0 else Asked(hs, evs, n - 1, d) + if Asks(hs[n - 1], evs[n - 1], d) then 1 else 0
  }

  predicate Asks(h: Host, ev: Event, d: nat)
  {
    ev.Response? && ev.dev == d && |h.randq| + 2 <= h.capacity
  }

  function SecondHalves(hs: seq<Host>, evs: seq<Event>, n: nat, d: nat): nat
    requires n <= |evs| < |hs|
  {
    if n == 0 then 0 else SecondHalves(hs, evs, n - 1, d) + if SecondHalf(hs[n - 1], evs[n - 1], d) then 1 else 0
  }

  predicate HalfAhead(p: Phase) { p == AwaitHalf || p == AwaitWhole }

  lemma HalfStep(h: Host, ph: seq<Phase>, e: Cipher, ev: Event, d: nat)
    requires Inv(h, ph, e) && Known(h, ev) && Conforms(ph, ev) && d < |h.devs|
    ensures WellFormed(h) && |NextPhase(h, ph, ev)| == |h.devs| == |ph|
    ensures var q := NextPhase(h, ph, ev)[d];
            (if HalfAhead(q) then 1 else 0) + (if SecondHalf(h, ev, d) then 1 else 0)
            == (if HalfAhead(ph[d]) then 1 else 0) + if Asks(h, ev, d) then 1 else 0
  {
    hide Inv, NextPhase, WellFormed, Known, Conforms;
    PhaseMoves(h, ph, e, ev, d);
    HeadPhase(h, ph, e, d);
  }

  lemma {:induction false} HalvesBalance(hs: seq<Host>, phs: seq<seq<Phase>>, evs: seq<Event>, e: Cipher,
                                         n: nat, d: nat)
    requires IsRun(hs, phs, evs, e) && n <= |evs| && d < |hs[0].devs|
    ensures |hs[n].devs| == |phs[n]| == |hs[0].devs|
    ensures Asked(hs, evs, n, d) == SecondHalves(hs, evs, n, d) + if HalfAhead(phs[n][d]) then 1 else 0
  {
    if n == 0 {
      AtTheStart(hs, phs, evs, e, d);
    } else {
      hide Inv, Step, NextPhase, IsRun, Conforms, Known, WellFormed, HalfAhead, SecondHalf, Asks;
      HalvesBalance(hs, phs, evs, e, n - 1, d);
      RunStep(hs, phs, evs, e, n);
      HalfStep(hs[n - 1], phs[n - 1], e, evs[n - 1], d);
    }
  }

  lemma {:induction false} RandPendingIffQueued(q: seq<RandContext>, d: nat, cb: RandCallback)
    ensures cb in PendingRand(q, d) <==> RandContext(d, cb) in q
  {
    if q != [] {
      RandPendingIffQueued(q[..|q| - 1], d, cb);
      assert q == q[..|q| - 1] + [q[|q| - 1]];
    }
  }

  lemma HalvesAreAnswered(hs: seq<Host>, phs: seq<seq<Phase>>, evs: seq<Event>, e: Cipher, n: nat, d: nat)
    requires IsRun(hs, phs, evs, e) && n <= |evs| && d < |hs[0].devs|
    ensures Asked(hs, evs, n, d)
         == SecondHalves(hs, evs, n, d) + if RandContext(d, MrandComplete) in hs[n].randCmds then 1 else 0
  {
    RunKeepsInv(hs, phs, evs, e, n);
    HalvesBalance(hs, phs, evs, e, n, d);
    WaitingIsPhase(hs[n], phs[n], e, d);
    hide Inv, Asked, SecondHalves;
  }

  lemma WaitingIsPhase(h: Host, ph: seq<Phase>, e: Cipher, d: nat)
    requires Inv(h, ph, e) && d < |h.devs| == |ph|
    ensures RandContext(d, MrandComplete) in h.randCmds <==> HalfAhead(ph[d])
  {
    assert ViewOk(ViewOf(h, d), ph[d], e, h.local);
    ViewPending(h, d);
    RandPendingIffQueued(h.randq, d, MrandComplete);
    hide Inv, ValuesOk, ViewOf, PendingRand;
  }
}
