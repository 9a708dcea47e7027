// Where the random value of a pairing comes from: the answers of the controller to the device's own two
// LE_Rand commands (main/bluetooth/smp.c:94-126, 249-287; main/bluetooth/hci.c:1319-1332, 1773-1783).
module SmpRandom {
  import opened SmpCrypto
  import opened SmpPairing

  // The last answer the controller gave, in the first n events, to a command device d issued for callback cb.
  function AnswerTo(hs: seq<Host>, evs: seq<Event>, n: nat, d: nat, cb: RandCallback): Option<Half>
    requires n <= |evs| < |hs|
  {
    if n == 0 then None
    else if evs[n - 1].RandDone? && hs[n - 1].randCmds != [] && hs[n - 1].randCmds[0] == RandContext(d, cb) then
      Some(evs[n - 1].half)
    else AnswerTo(hs, evs, n - 1, d, cb)
  }

  // Low half first; what was never answered is what the record held at the start.
  function OwnRandom(hs: seq<Host>, evs: seq<Event>, n: nat, d: nat): Block
    requires n <= |evs| < |hs| && d < |hs[0].devs|
  {
    var low, high := AnswerTo(hs, evs, n, d, MrandHalf), AnswerTo(hs, evs, n, d, MrandComplete);
    (if low.Some? then low.value else hs[0].devs[d].rand[..8])
    + if high.Some? then high.value else hs[0].devs[d].rand[8..]
  }

  // Only an answer to a request of the device changes its random value, and only the half asked for.
  lemma StepRandom(h: Host, e: Cipher, ev: Event, d: nat)
    requires Aligned(h) && Known(h, ev) && d < |h.devs|
    ensures |Step(h, e, ev).devs| == |h.devs|
    ensures var rand := h.devs[d].rand;
            Step(h, e, ev).devs[d].rand ==
              if !ev.RandDone? || h.randCmds == [] || h.randCmds[0].dev != d then rand
              else if h.randCmds[0].cb == MrandHalf then ev.half + rand[8..]
              else rand[..8] + ev.half
  {
    hide Part1, Part2, KeyText;
    if h.randq != [] {
      assert h.randq[0] in h.randq;
    }
    if h.encq != [] {
      assert h.encq[0] in h.encq;
    }
  }

  lemma {:induction false} RandomIsOwn(hs: seq<Host>, phs: seq<seq<Phase>>, evs: seq<Event>, e: Cipher, n: nat, d: nat)
    requires IsRun(hs, phs, evs, e) && n <= |evs| && d < |hs[0].devs|
    ensures |hs[n].devs| == |hs[0].devs| && hs[n].devs[d].rand == OwnRandom(hs, evs, n, d)
  {
    if n == 0 {
      assert hs[0].devs[d].rand == hs[0].devs[d].rand[..8] + hs[0].devs[d].rand[8..];
    } else {
      RandomIsOwn(hs, phs, evs, e, n - 1, d);
      RunKeepsInv(hs, phs, evs, e, n - 1);
      hide Step, Inv;
      assert Aligned(hs[n - 1]) by { InvAligned(hs[n - 1], phs[n - 1], e); }
      StepRandom(hs[n - 1], e, evs[n - 1], d);
    }
  }

  lemma InvAligned(h: Host, ph: seq<Phase>, e: Cipher)
    requires Inv(h, ph, e)
    ensures Aligned(h)
  {
  }

  // The answers a device needs have come in by the time its confirm value is on the way.
  predicate AnswersIn(p: Phase, low: Option<Half>, high: Option<Half>)
  {
    && (p == AwaitWhole ==> low.Some?)
    && (p in {AwaitPart1, AwaitPart2, Confirmed, Exchanged, AwaitKey} ==> low.Some? && high.Some?)
  }

  // Which callback the answer goes to decides the phase.
  lemma PhaseStep(h: Host, ph: seq<Phase>, e: Cipher, ev: Event, d: nat)
    requires Inv(h, ph, e) && Known(h, ev) && Conforms(ph, ev) && d < |h.devs|
    ensures var q := NextPhase(h, ph, ev)[d];
            var mine := ev.RandDone? && h.randCmds != [] && h.randCmds[0].dev == d;
            && (mine && h.randCmds[0].cb == MrandComplete ==> ph[d] == AwaitWhole)
            && (q == AwaitWhole ==> ph[d] == AwaitWhole || (mine && h.randCmds[0].cb == MrandHalf))
            && (q in {AwaitPart1, AwaitPart2, Confirmed, Exchanged, AwaitKey} ==>
                  || ph[d] in {AwaitPart1, AwaitPart2, Confirmed, Exchanged, AwaitKey}
                  || (mine && h.randCmds[0].cb == MrandComplete))
  {
    if ev.RandDone? && h.randq != [] && h.randq[0].dev == d {
      RandHead(h, ph, e, d);
    } else if ev.EncryptDone? && h.encq != [] && h.encq[0].dev == d {
      EncryptHead(h, ph, e, d);
    }
    InvAligned(h, ph, e);
    hide Inv, PendingRand, WellFormed;
  }

  lemma RandHead(h: Host, ph: seq<Phase>, e: Cipher, d: nat)
    requires Inv(h, ph, e) && h.randq != [] && h.randq[0].dev == d < |h.devs|
    ensures h.randq[0].cb == MrandComplete ==> ph[d] == AwaitWhole
    ensures h.randq[0].cb == MrandHalf ==> ph[d] in {Requested, AwaitHalf, Stalled}
  {
    assert ViewOk(ViewOf(h, d), ph[d], e, h.local);
    PopRand(h.randq, d);
    assert ViewOf(h, d).pendR[0] == h.randq[0].cb by { ViewPending(h, d); }
    hide ViewOf, ValuesOk, Inv;
  }

  lemma EncryptHead(h: Host, ph: seq<Phase>, e: Cipher, d: nat)
    requires Inv(h, ph, e) && h.encq != [] && h.encq[0].dev == d < |h.devs|
    ensures ph[d] == match h.encq[0].cb
                     case ConfirmHalf => AwaitPart1
                     case ConfirmComplete => AwaitPart2
                     case StkComplete => AwaitKey
  {
    assert ViewOk(ViewOf(h, d), ph[d], e, h.local);
    PopEncrypt(h.encq, d);
    assert ViewOf(h, d).pendE[0] == h.encq[0].cb by { ViewPending(h, d); }
    hide ViewOf, ValuesOk, Inv;
  }

  lemma {:induction false} AnswersComeIn(hs: seq<Host>, phs: seq<seq<Phase>>, evs: seq<Event>, e: Cipher,
                                         n: nat, d: nat)
    requires IsRun(hs, phs, evs, e) && n <= |evs| && d < |hs[0].devs|
    ensures |phs[n]| == |hs[0].devs|
    ensures AnswersIn(phs[n][d], AnswerTo(hs, evs, n, d, MrandHalf), AnswerTo(hs, evs, n, d, MrandComplete))
  {
    if n > 0 {
      AnswersComeIn(hs, phs, evs, e, n - 1, d);
      RunKeepsInv(hs, phs, evs, e, n - 1);
      RandomIsOwn(hs, phs, evs, e, n - 1, d);
      hide Inv, Step, NextPhase;
      PhaseStep(hs[n - 1], phs[n - 1], e, evs[n - 1], d);
      SamePhases(hs[n - 1], phs[n - 1], evs[n - 1]);
    }
  }

  lemma SamePhases(h: Host, ph: seq<Phase>, ev: Event)
    requires WellFormed(h) && |ph| == |h.devs| && Known(h, ev)
    ensures |NextPhase(h, ph, ev)| == |ph|
  {
  }

  // The confirm value commits to the controller's two answers to the device's own requests, and the random
  // value sent later is made of the same.
  lemma OwnRandomCommitted(hs: seq<Host>, phs: seq<seq<Phase>>, evs: seq<Event>, e: Cipher, n: nat)
    requires IsRun(hs, phs, evs, e) && n < |evs|
    ensures var h := hs[n];
            evs[n].EncryptDone? && h.encq != [] && h.encq[0].cb == ConfirmComplete ==>
              var d := h.encq[0].dev;
              && d < |h.devs| == |hs[0].devs|
              && AnswerTo(hs, evs, n, d, MrandHalf).Some? && AnswerTo(hs, evs, n, d, MrandComplete).Some?
              && exists v: Block ::
                   && hs[n + 1].air == h.air + [ConfirmSent(d, v)]
                   && ConfirmMatches(TranscriptOf(h.air, d), v, OwnRandom(hs, evs, n, d), e, h.local, h.devs[d].remote)
    ensures evs[n].PeerConfirm? ==>
              var d := evs[n].dev;
              && d < |hs[0].devs|
              && AnswerTo(hs, evs, n, d, MrandHalf).Some? && AnswerTo(hs, evs, n, d, MrandComplete).Some?
              && hs[n + 1].air == hs[n].air + [ConfirmReceived(d, evs[n].val), RandomSent(d, OwnRandom(hs, evs, n, d))]
  {
    var h := hs[n];
    RunKeepsInv(hs, phs, evs, e, n);
    if evs[n].EncryptDone? && h.encq != [] && h.encq[0].cb == ConfirmComplete {
      assert h.encq[0] in h.encq;
      var d := h.encq[0].dev;
      ConfirmOfRecord(h, phs[n], e);
      SameDevices(hs, phs, evs, e, n);
      RandomIsOwn(hs, phs, evs, e, n, d);
      AnswersComeIn(hs, phs, evs, e, n, d);
      hide Inv, C1;
    } else if evs[n].PeerConfirm? {
      SameDevices(hs, phs, evs, e, n);
      RandomIsOwn(hs, phs, evs, e, n, evs[n].dev);
      AnswersComeIn(hs, phs, evs, e, n, evs[n].dev);
      hide Inv;
    }
  }

  lemma {:induction false} SameDevices(hs: seq<Host>, phs: seq<seq<Phase>>, evs: seq<Event>, e: Cipher, n: nat)
    requires IsRun(hs, phs, evs, e) && n <= |evs|
    ensures |hs[n].devs| == |hs[0].devs|
  {
    RunKeepsInv(hs, phs, evs, e, n);
    hide Inv;
    assert |Remotes(hs[n])| == |Remotes(hs[0])|;
  }

  lemma ConfirmOfRecord(h: Host, ph: seq<Phase>, e: Cipher)
    requires Inv(h, ph, e) && h.encq != [] && h.encq[0].cb == ConfirmComplete
    ensures var d := h.encq[0].dev;
            && d < |h.devs| == |ph| && ph[d] == AwaitPart2
            && OnEncryptDone(h, e).air == h.air + [ConfirmSent(d, e(h.encCmds[0].key, h.encCmds[0].plaintext))]
            && ConfirmMatches(TranscriptOf(h.air, d), e(h.encCmds[0].key, h.encCmds[0].plaintext), h.devs[d].rand,
                              e, h.local, h.devs[d].remote)
  {
    hide AirOk, Part1, Part2;
    var d := h.encq[0].dev;
    assert h.encq[0] in h.encq;
    EncryptHead(h, ph, e, d);
    assert ViewOk(ViewOf(h, d), ph[d], e, h.local);
    var v := ViewOf(h, d);
    assert v.dev == h.devs[d] && v.t == TranscriptOf(h.air, d);
    assert CommandOk(h.encCmds[0], h.encq[0].cb, h.devs[d], e, h.local);
    hide TranscriptOf, PendingOk;
  }
}
