// LE legacy pairing of several devices over the controller's shared, asynchronous
// random-number and encryption commands (main/bluetooth/smp.c, main/bluetooth/hci.c).
module SmpPairing {
  import opened Bytes
  import opened SmpCrypto

  // One record of the host's device table.
  datatype Device = Device(remote: LeAddr, rand: Block, rrand: Block, ltk: Block, preq: Pairing, pres: Pairing)

  datatype RandCallback = MrandHalf | MrandComplete
  datatype EncryptCallback = ConfirmHalf | ConfirmComplete | StkComplete

  // What a request leaves in the host's queue until the controller answers.
  datatype RandContext = RandContext(dev: nat, cb: RandCallback)
  datatype EncryptContext = EncryptContext(dev: nat, cb: EncryptCallback)

  // A command in the controller. `owner` is the request that issued it; the controller
  // itself sees only the key and the plaintext.
  datatype EncryptCommand = EncryptCommand(key: Block, plaintext: Block, owner: EncryptContext)

  // Everything that crosses the air, and the encryption requests to the link.
  datatype Air =
    | ReqSent(dev: nat, preq: Pairing)
    | RspReceived(dev: nat, pres: Pairing)
    | ConfirmSent(dev: nat, val: Block)
    | ConfirmReceived(dev: nat, val: Block)
    | RandomSent(dev: nat, val: Block)
    | RandomReceived(dev: nat, val: Block)
    | EncryptionStarted(dev: nat, key: Block)

  datatype Host = Host(
    local: LeAddr, capacity: nat, devs: seq<Device>,
    randq: seq<RandContext>, encq: seq<EncryptContext>,
    randCmds: seq<RandContext>, encCmds: seq<EncryptCommand>,
    air: seq<Air>)

  datatype Event =
    | Start(dev: nat)
    | Response(dev: nat, body: seq<byte>)
    | PeerConfirm(dev: nat, val: Block)
    | PeerRandom(dev: nat, val: Block)
    | RandDone(half: Half)
    | EncryptDone

  const REQ_BODY: seq<byte> := [0x03, 0x00, 0x01, 16, 0x02, 0x01]

  function ReqBytes(): Pairing { [0x01] + REQ_BODY }

  function RspBytes(body: seq<byte>): Pairing
    requires |body| == 6
  {
    [0x02] + body
  }

  predicate Known(h: Host, ev: Event)
  {
    match ev
    case Start(d) => d < |h.devs|
    case Response(d, body) => d < |h.devs| && |body| == 6
    case PeerConfirm(d, _) => d < |h.devs|
    case PeerRandom(d, _) => d < |h.devs|
    case RandDone(_) => true
    case EncryptDone => true
  }

  predicate WellFormed(h: Host)
  {
    && (forall c :: c in h.randq ==> c.dev < |h.devs|)
    && (forall c :: c in h.encq ==> c.dev < |h.devs|)
  }

  // bt_hci_get_random and bt_hci_get_encrypt: no room, no command.
  function GetRandom(h: Host, d: nat, cb: RandCallback): Host
  {
    if |h.randq| >= h.capacity then h
    else
      var c := RandContext(d, cb);
      h.(randq := h.randq + [c], randCmds := h.randCmds + [c])
  }

  function GetEncrypt(h: Host, d: nat, cb: EncryptCallback, key: Block, plaintext: Block): Host
  {
    if |h.encq| >= h.capacity then h
    else
      var c := EncryptContext(d, cb);
      h.(encq := h.encq + [c], encCmds := h.encCmds + [EncryptCommand(key, plaintext, c)])
  }

  function OnStart(h: Host, d: nat): Host
    requires d < |h.devs|
  {
    h.(devs := h.devs[d := h.devs[d].(preq := ReqBytes())], air := h.air + [ReqSent(d, ReqBytes())])
  }

  function OnResponse(h: Host, d: nat, body: seq<byte>): Host
    requires d < |h.devs| && |body| == 6
  {
    var pres := RspBytes(body);
    var h1 := h.(devs := h.devs[d := h.devs[d].(pres := pres)], air := h.air + [RspReceived(d, pres)]);
    GetRandom(GetRandom(h1, d, MrandHalf), d, MrandComplete)
  }

  function OnPeerConfirm(h: Host, d: nat, val: Block): Host
    requires d < |h.devs|
  {
    h.(air := h.air + [ConfirmReceived(d, val), RandomSent(d, h.devs[d].rand)])
  }

  function OnPeerRandom(h: Host, d: nat, val: Block): Host
    requires d < |h.devs|
  {
    var text := KeyText(val, h.devs[d].rand);
    var h1 := h.(devs := h.devs[d := h.devs[d].(rrand := val, ltk := text)], air := h.air + [RandomReceived(d, val)]);
    GetEncrypt(h1, d, StkComplete, TK0, text)
  }

  // The completion of the oldest LE_Rand command.
  function OnRandDone(h: Host, half: Half): Host
    requires WellFormed(h)
  {
    if h.randCmds == [] then h
    else if h.randq == [] then h.(randCmds := h.randCmds[1..])
    else
      var c := h.randq[0];
      var dev := h.devs[c.dev];
      var h1 := h.(randCmds := h.randCmds[1..], randq := h.randq[1..]);
      match c.cb
      case MrandHalf =>
        h1.(devs := h.devs[c.dev := dev.(rand := half + dev.rand[8..])])
      case MrandComplete =>
        var rand: Block := dev.rand[..8] + half;
        var text := Part1(rand, dev.preq, dev.pres, h.local, dev.remote);
        GetEncrypt(h1.(devs := h.devs[c.dev := dev.(rand := rand, ltk := text)]), c.dev, ConfirmHalf, TK0, text)
  }

  // The completion of the oldest LE_Encrypt command.
  function OnEncryptDone(h: Host, e: Cipher): Host
    requires WellFormed(h)
  {
    if h.encCmds == [] then h
    else
      var data := e(h.encCmds[0].key, h.encCmds[0].plaintext);
      if h.encq == [] then h.(encCmds := h.encCmds[1..])
      else
        var c := h.encq[0];
        var dev := h.devs[c.dev];
        var h1 := h.(encCmds := h.encCmds[1..], encq := h.encq[1..]);
        match c.cb
        case ConfirmHalf =>
          var text := Part2(data, h.local, dev.remote);
          GetEncrypt(h1.(devs := h.devs[c.dev := dev.(ltk := text)]), c.dev, ConfirmComplete, TK0, text)
        case ConfirmComplete =>
          h1.(devs := h.devs[c.dev := dev.(ltk := data)], air := h.air + [ConfirmSent(c.dev, data)])
        case StkComplete =>
          h1.(devs := h.devs[c.dev := dev.(ltk := data)], air := h.air + [EncryptionStarted(c.dev, data)])
  }

  function Step(h: Host, e: Cipher, ev: Event): Host
    requires WellFormed(h) && Known(h, ev)
  {
    match ev
    case Start(d) => OnStart(h, d)
    case Response(d, body) => OnResponse(h, d, body)
    case PeerConfirm(d, val) => OnPeerConfirm(h, d, val)
    case PeerRandom(d, val) => OnPeerRandom(h, d, val)
    case RandDone(half) => OnRandDone(h, half)
    case EncryptDone => OnEncryptDone(h, e)
  }

  // Every request's answer ---------------------------------------------------

  function Owners(cmds: seq<EncryptCommand>): (s: seq<EncryptContext>)
    ensures |s| == |cmds|
  {
    seq(|cmds|, (i: int) requires 0 <= i < |cmds| => cmds[i].owner)
  }

  // The context at the head of a queue belongs to the command at the head of the controller.
  predicate Aligned(h: Host)
  {
    WellFormed(h) && h.randq == h.randCmds && h.encq == Owners(h.encCmds)
  }

  // A request adds its context and its command together, or neither.
  lemma RandomKeepsAligned(h: Host, d: nat, cb: RandCallback)
    requires Aligned(h) && d < |h.devs|
    ensures Aligned(GetRandom(h, d, cb)) && GetRandom(h, d, cb).devs == h.devs
  {
  }

  lemma EncryptKeepsAligned(h: Host, d: nat, cb: EncryptCallback, key: Block, plaintext: Block)
    requires Aligned(h) && d < |h.devs|
    ensures Aligned(GetEncrypt(h, d, cb, key, plaintext))
  {
  }

  lemma RandDoneKeepsAligned(h: Host, half: Half)
    requires Aligned(h)
    ensures Aligned(OnRandDone(h, half))
  {
    if h.randq != [] {
      hide Part1, GetEncrypt, Owners;
      var c, dev := h.randq[0], h.devs[h.randq[0].dev];
      assert c in h.randq;
      var popped := h.(randCmds := h.randCmds[1..], randq := h.randq[1..]);
      assert Aligned(popped);
      var rand: Block := dev.rand[..8] + half;
      var text := Part1(rand, dev.preq, dev.pres, h.local, dev.remote);
      var next := popped.(devs := h.devs[c.dev := dev.(rand := rand, ltk := text)]);
      EncryptKeepsAligned(next, c.dev, ConfirmHalf, TK0, text);
    }
  }

  lemma EncryptDoneKeepsAligned(h: Host, e: Cipher)
    requires Aligned(h)
    ensures Aligned(OnEncryptDone(h, e))
  {
    if h.encq != [] {
      var c, dev := h.encq[0], h.devs[h.encq[0].dev];
      assert c in h.encq;
      var popped := h.(encCmds := h.encCmds[1..], encq := h.encq[1..]);
      assert popped.encq == Owners(popped.encCmds);
      hide Part2, GetEncrypt, Owners;
      var text := Part2(e(h.encCmds[0].key, h.encCmds[0].plaintext), h.local, dev.remote);
      EncryptKeepsAligned(popped.(devs := h.devs[c.dev := dev.(ltk := text)]), c.dev, ConfirmComplete, TK0, text);
    }
  }

  // Whatever the peers do, and whether or not the queues fill up.
  lemma StepKeepsAligned(h: Host, e: Cipher, ev: Event)
    requires Aligned(h) && Known(h, ev)
    ensures Aligned(Step(h, e, ev))
  {
    hide OnRandDone, OnEncryptDone, GetRandom, GetEncrypt, Owners, KeyText;
    match ev
    case Start(d) =>
    case Response(d, body) =>
      var pres := RspBytes(body);
      var h1 := h.(devs := h.devs[d := h.devs[d].(pres := pres)], air := h.air + [RspReceived(d, pres)]);
      RandomKeepsAligned(h1, d, MrandHalf);
      RandomKeepsAligned(GetRandom(h1, d, MrandHalf), d, MrandComplete);
    case PeerConfirm(d, val) =>
    case PeerRandom(d, val) =>
      var text := KeyText(val, h.devs[d].rand);
      var h1 := h.(devs := h.devs[d := h.devs[d].(rrand := val, ltk := text)], air := h.air + [RandomReceived(d, val)]);
      EncryptKeepsAligned(h1, d, StkComplete, TK0, text);
    case RandDone(half) => RandDoneKeepsAligned(h, half);
    case EncryptDone => EncryptDoneKeepsAligned(h, e);
  }

  // Every answer of every run goes to the callback of the request that asked for it.
  lemma {:induction false} AnswersReachTheirRequests(h: Host, e: Cipher, evs: seq<Event>)
    requires Aligned(h) && forall i :: 0 <= i < |evs| ==> Known(h, evs[i])
    ensures Aligned(RunOf(h, e, evs))
  {
    if evs != [] {
      var front := evs[..|evs| - 1];
      AnswersReachTheirRequests(h, e, front);
      assert Known(h, evs[|evs| - 1]);
      StepKeepsAligned(RunOf(h, e, front), e, evs[|evs| - 1]);
    }
  }

  // Any sequence of events, in or out of the order of the protocol.
  function RunOf(h: Host, e: Cipher, evs: seq<Event>): (h2: Host)
    requires WellFormed(h) && forall i :: 0 <= i < |evs| ==> Known(h, evs[i])
    ensures WellFormed(h2) && |h2.devs| == |h.devs|
  {
    if evs == [] then h
    else
      var h1 := RunOf(h, e, evs[..|evs| - 1]);
      var ev := evs[|evs| - 1];
      assert Known(h, ev);
      StepKeepsWellFormed(h1, e, ev);
      Step(h1, e, ev)
  }

  lemma StepKeepsWellFormed(h: Host, e: Cipher, ev: Event)
    requires WellFormed(h) && Known(h, ev)
    ensures WellFormed(Step(h, e, ev)) && |Step(h, e, ev).devs| == |h.devs|
  {
  }

  // The transcript of every device ------------------------------------------

  datatype Kind = Req | Rsp | Confirm | Random | PeerRandomKind | Other

  function KindOf(a: Air): Kind
  {
    match a
    case ReqSent(_, _) => Req
    case RspReceived(_, _) => Rsp
    case ConfirmSent(_, _) => Confirm
    case RandomSent(_, _) => Random
    case RandomReceived(_, _) => PeerRandomKind
    case _ => Other
  }

  datatype Option<T> = None | Some(value: T)

  // The last message of a kind to or from one device.
  function Last(air: seq<Air>, d: nat, k: Kind): Option<Air>
  {
    if air == [] then None
    else
      var a := air[|air| - 1];
      if a.dev == d && KindOf(a) == k then Some(a) else Last(air[..|air| - 1], d, k)
  }

  // What the pairing with device d has put on the air so far.
  datatype Transcript = Transcript(req: Option<Air>, rsp: Option<Air>, confirm: Option<Air>,
                                   random: Option<Air>, peer: Option<Air>)

  function TranscriptOf(air: seq<Air>, d: nat): Transcript
  {
    Transcript(Last(air, d, Req), Last(air, d, Rsp), Last(air, d, Confirm), Last(air, d, Random),
               Last(air, d, PeerRandomKind))
  }

  predicate ConfirmMatches(t: Transcript, v: Block, r: Block, e: Cipher, local: LeAddr, remote: LeAddr)
  {
    && t.req.Some? && t.req.value.ReqSent? && t.rsp.Some? && t.rsp.value.RspReceived?
    && v == C1(e, TK0, r, t.req.value.preq, t.rsp.value.pres, local, remote)
  }

  // What the peer relies on when the host sends a message:
  // a confirm value commits to some random value, the random value sent is the one committed to,
  // and the link key is derived from the two random values exchanged.
  ghost predicate Justified(before: seq<Air>, a: Air, e: Cipher, local: LeAddr, remotes: seq<LeAddr>)
  {
    var t := TranscriptOf(before, a.dev);
    a.dev < |remotes| &&
    match a
    case ConfirmSent(d, v) => exists r: Block :: ConfirmMatches(t, v, r, e, local, remotes[d])
    case RandomSent(d, r) =>
      t.confirm.Some? && t.confirm.value.ConfirmSent? && ConfirmMatches(t, t.confirm.value.val, r, e, local, remotes[d])
    case EncryptionStarted(d, key) =>
      && t.peer.Some? && t.peer.value.RandomReceived? && t.random.Some? && t.random.value.RandomSent?
      && key == S1(e, TK0, t.peer.value.val, t.random.value.val)
    case _ => true
  }

  ghost predicate AirOk(air: seq<Air>, e: Cipher, local: LeAddr, remotes: seq<LeAddr>)
  {
    forall k :: 0 <= k < |air| ==> Justified(air[..k], air[k], e, local, remotes)
  }

  function Remotes(h: Host): (r: seq<LeAddr>)
    ensures |r| == |h.devs|
  {
    seq(|h.devs|, (i: int) requires 0 <= i < |h.devs| => h.devs[i].remote)
  }

  // Peers that follow the order of the pairing protocol ---------------------

  datatype Phase =
    | Idle | Requested | AwaitHalf | AwaitWhole | AwaitPart1 | AwaitPart2
    | Confirmed | Exchanged | AwaitKey | Stalled

  predicate Conforms(ph: seq<Phase>, ev: Event)
  {
    match ev
    case Start(d) => d < |ph| && ph[d] in {Idle, Stalled}
    case Response(d, _) => d < |ph| && ph[d] == Requested
    case PeerConfirm(d, _) => d < |ph| && ph[d] == Confirmed
    case PeerRandom(d, _) => d < |ph| && ph[d] == Exchanged
    case RandDone(_) => true
    case EncryptDone => true
  }

  function PendingRand(q: seq<RandContext>, d: nat): seq<RandCallback>
  {
    if q == [] then []
    else
      var rest := PendingRand(q[..|q| - 1], d);
      if q[|q| - 1].dev == d then rest + [q[|q| - 1].cb] else rest
  }

  function PendingEncrypt(q: seq<EncryptContext>, d: nat): seq<EncryptCallback>
  {
    if q == [] then []
    else
      var rest := PendingEncrypt(q[..|q| - 1], d);
      if q[|q| - 1].dev == d then rest + [q[|q| - 1].cb] else rest
  }

  function NextPhase(h: Host, ph: seq<Phase>, ev: Event): seq<Phase>
    requires WellFormed(h) && |ph| == |h.devs| && Known(h, ev)
  {
    match ev
    case Start(d) => ph[d := Requested]
    case Response(d, _) => ph[d := if |h.randq| + 2 <= h.capacity then AwaitHalf else Stalled]
    case PeerConfirm(d, _) => ph[d := Exchanged]
    case PeerRandom(d, _) => ph[d := if |h.encq| < h.capacity then AwaitKey else Stalled]
    case RandDone(_) =>
      if h.randq == [] then ph
      else
        var d := h.randq[0].dev;
        if h.randq[0].cb == MrandComplete then ph[d := if |h.encq| < h.capacity then AwaitPart1 else Stalled]
        else if PendingRand(h.randq, d) == [MrandHalf, MrandComplete] then ph[d := AwaitWhole]
        else ph
    case EncryptDone =>
      if h.encq == [] then ph
      else
        match h.encq[0].cb
        case ConfirmHalf => ph[h.encq[0].dev := AwaitPart2]
        case ConfirmComplete => ph[h.encq[0].dev := Confirmed]
        case StkComplete => ph[h.encq[0].dev := Idle]
  }

  // Everything the invariant says about one device.
  datatype View = View(dev: Device, pendR: seq<RandCallback>, pendE: seq<EncryptCallback>, t: Transcript)

  function ViewOf(h: Host, d: nat): View
    requires d < |h.devs|
  {
    View(h.devs[d], PendingRand(h.randq, d), PendingEncrypt(h.encq, d), TranscriptOf(h.air, d))
  }

  predicate HalvesOnly(s: seq<RandCallback>)
  {
    forall i :: 0 <= i < |s| ==> s[i] == MrandHalf
  }

  predicate PendingOk(v: View, p: Phase)
  {
    match p
    case Idle => v.pendR == [] && v.pendE == []
    case Requested => HalvesOnly(v.pendR) && v.pendE == []
    case AwaitHalf =>
      && |v.pendR| >= 2 && HalvesOnly(v.pendR[..|v.pendR| - 1]) && v.pendR[|v.pendR| - 1] == MrandComplete
      && v.pendE == []
    case AwaitWhole => v.pendR == [MrandComplete] && v.pendE == []
    case AwaitPart1 => v.pendR == [] && v.pendE == [ConfirmHalf]
    case AwaitPart2 => v.pendR == [] && v.pendE == [ConfirmComplete]
    case Confirmed => v.pendR == [] && v.pendE == []
    case Exchanged => v.pendR == [] && v.pendE == []
    case AwaitKey => v.pendR == [] && v.pendE == [StkComplete]
    case Stalled => HalvesOnly(v.pendR) && v.pendE == []
  }

  predicate RequestKnown(v: View)
  {
    v.t.req.Some? && v.t.req.value.ReqSent? && v.t.req.value.preq == v.dev.preq
  }

  predicate ParamsKnown(v: View)
  {
    RequestKnown(v) && v.t.rsp.Some? && v.t.rsp.value.RspReceived? && v.t.rsp.value.pres == v.dev.pres
  }

  predicate ValuesOk(v: View, p: Phase, e: Cipher, local: LeAddr)
  {
    && (p == Requested ==> RequestKnown(v))
    && (p in {AwaitHalf, AwaitWhole, AwaitPart1, AwaitPart2, Confirmed, Exchanged, AwaitKey} ==> ParamsKnown(v))
    && (p == Confirmed ==>
          && v.t.confirm.Some? && v.t.confirm.value.ConfirmSent?
          && v.t.confirm.value.val == C1(e, TK0, v.dev.rand, v.dev.preq, v.dev.pres, local, v.dev.remote))
    && (p in {Exchanged, AwaitKey} ==>
          v.t.random.Some? && v.t.random.value.RandomSent? && v.t.random.value.val == v.dev.rand)
    && (p == AwaitKey ==>
          v.t.peer.Some? && v.t.peer.value.RandomReceived? && v.t.peer.value.val == v.dev.rrand)
  }

  predicate ViewOk(v: View, p: Phase, e: Cipher, local: LeAddr)
  {
    PendingOk(v, p) && ValuesOk(v, p, e, local)
  }

  // The plaintext of a pending command is what its device's callback expects it to be.
  predicate CommandOk(c: EncryptCommand, cb: EncryptCallback, dev: Device, e: Cipher, local: LeAddr)
  {
    && c.key == TK0
    && var first := Part1(dev.rand, dev.preq, dev.pres, local, dev.remote);
       match cb
       case ConfirmHalf => c.plaintext == first
       case ConfirmComplete => c.plaintext == Part2(e(TK0, first), local, dev.remote)
       case StkComplete => c.plaintext == KeyText(dev.rrand, dev.rand)
  }

  ghost predicate Inv(h: Host, ph: seq<Phase>, e: Cipher)
  {
    && Aligned(h) && |ph| == |h.devs| && |h.randq| <= h.capacity && |h.encq| <= h.capacity
    && (forall d: nat :: d < |h.devs| ==> ViewOk(ViewOf(h, d), ph[d], e, h.local))
    && (forall i :: 0 <= i < |h.encq| ==> CommandOk(h.encCmds[i], h.encq[i].cb, h.devs[h.encq[i].dev], e, h.local))
    && AirOk(h.air, e, h.local, Remotes(h))
  }

  // Lemmas about the queues and the transcript ------------------------------

  lemma {:induction false} PopRand(q: seq<RandContext>, d: nat)
    requires q != []
    ensures PendingRand(q, d) == (if q[0].dev == d then [q[0].cb] else []) + PendingRand(q[1..], d)
  {
    if |q| > 1 {
      PopRand(q[..|q| - 1], d);
      assert q[1..][..|q[1..]| - 1] == q[..|q| - 1][1..];
    } else {
      assert q[..0] == [] && q[1..] == [];
    }
  }

  lemma {:induction false} PopEncrypt(q: seq<EncryptContext>, d: nat)
    requires q != []
    ensures PendingEncrypt(q, d) == (if q[0].dev == d then [q[0].cb] else []) + PendingEncrypt(q[1..], d)
  {
    if |q| > 1 {
      PopEncrypt(q[..|q| - 1], d);
      assert q[1..][..|q[1..]| - 1] == q[..|q| - 1][1..];
    } else {
      assert q[..0] == [] && q[1..] == [];
    }
  }

  lemma {:induction false} NonePending(q: seq<EncryptContext>, d: nat)
    requires PendingEncrypt(q, d) == []
    ensures forall i :: 0 <= i < |q| ==> q[i].dev != d
  {
    if q != [] {
      NonePending(q[..|q| - 1], d);
    }
  }

  lemma PushRand(q: seq<RandContext>, c: RandContext, d: nat)
    ensures PendingRand(q + [c], d) == PendingRand(q, d) + (if c.dev == d then [c.cb] else [])
  {
    assert (q + [c])[..|q|] == q;
  }

  lemma PushEncrypt(q: seq<EncryptContext>, c: EncryptContext, d: nat)
    ensures PendingEncrypt(q + [c], d) == PendingEncrypt(q, d) + (if c.dev == d then [c.cb] else [])
  {
    assert (q + [c])[..|q|] == q;
  }

  function After(t: Transcript, a: Air): Transcript
  {
    match KindOf(a)
    case Req => t.(req := Some(a))
    case Rsp => t.(rsp := Some(a))
    case Confirm => t.(confirm := Some(a))
    case Random => t.(random := Some(a))
    case PeerRandomKind => t.(peer := Some(a))
    case Other => t
  }

  lemma Heard(air: seq<Air>, a: Air, d: nat)
    ensures TranscriptOf(air + [a], d) == if a.dev == d then After(TranscriptOf(air, d), a) else TranscriptOf(air, d)
  {
    assert (air + [a])[..|air|] == air;
  }

  lemma AirGrows(air: seq<Air>, a: Air, e: Cipher, local: LeAddr, remotes: seq<LeAddr>)
    requires AirOk(air, e, local, remotes) && Justified(air, a, e, local, remotes)
    ensures AirOk(air + [a], e, local, remotes)
  {
    forall k | 0 <= k < |air + [a]|
      ensures Justified((air + [a])[..k], (air + [a])[k], e, local, remotes)
    {
      assert (air + [a])[..k] == air[..k];
      if k == |air| {
        assert air[..k] == air;
      }
    }
  }

  // Every step keeps the invariant ------------------------------------------

  lemma KeepStart(h: Host, ph: seq<Phase>, e: Cipher, d: nat)
    requires Inv(h, ph, e) && Known(h, Start(d)) && Conforms(ph, Start(d))
    ensures Inv(OnStart(h, d), NextPhase(h, ph, Start(d)), e)
  {
    var h2 := OnStart(h, d);
    var a := ReqSent(d, ReqBytes());
    var ph2 := NextPhase(h, ph, Start(d));
    assert Remotes(h2) == Remotes(h);
    assert ViewOk(ViewOf(h, d), ph[d], e, h.local);
    NonePending(h.encq, d);
    AirGrows(h.air, a, e, h.local, Remotes(h));
    forall d': nat | d' < |h.devs|
      ensures ViewOk(ViewOf(h2, d'), ph2[d'], e, h.local)
    {
      assert ViewOk(ViewOf(h, d'), ph[d'], e, h.local);
      Heard(h.air, a, d');
    }
  }

  // A step that leaves the encryption queue alone may change any device without a pending command.
  lemma CommandsUntouched(h: Host, h2: Host, e: Cipher, d: nat)
    requires Aligned(h) && h2.encq == h.encq && h2.encCmds == h.encCmds && h2.local == h.local
    requires d < |h.devs| == |h2.devs| && forall x: nat :: x < |h.devs| && x != d ==> h2.devs[x] == h.devs[x]
    requires PendingEncrypt(h.encq, d) == []
    requires forall i :: 0 <= i < |h.encq| ==> CommandOk(h.encCmds[i], h.encq[i].cb, h.devs[h.encq[i].dev], e, h.local)
    ensures forall i :: 0 <= i < |h.encq| ==>
              CommandOk(h2.encCmds[i], h2.encq[i].cb, h2.devs[h2.encq[i].dev], e, h2.local)
  {
    hide CommandOk;
    NonePending(h.encq, d);
    forall i | 0 <= i < |h.encq|
      ensures CommandOk(h2.encCmds[i], h2.encq[i].cb, h2.devs[h2.encq[i].dev], e, h2.local)
    {
      assert h.encq[i] in h.encq && h.encq[i].dev != d;
      assert CommandOk(h.encCmds[i], h.encq[i].cb, h.devs[h.encq[i].dev], e, h.local);
    }
  }

  lemma ResponseView(h: Host, d: nat, body: seq<byte>, x: nat)
    requires d < |h.devs| && |body| == 6 && x < |h.devs|
    ensures var v, pres := ViewOf(h, x), RspBytes(body);
            var room := if h.capacity <= |h.randq| then 0 else if h.capacity == |h.randq| + 1 then 1 else 2;
            ViewOf(OnResponse(h, d, body), x) ==
              if x != d then v
              else v.(dev := v.dev.(pres := pres), pendR := v.pendR + [MrandHalf, MrandComplete][..room],
                      t := v.t.(rsp := Some(RspReceived(d, pres))))
  {
    hide RspBytes, TranscriptOf, GetRandom, PendingEncrypt;
    var pres := RspBytes(body);
    var h1 := h.(devs := h.devs[d := h.devs[d].(pres := pres)], air := h.air + [RspReceived(d, pres)]);
    Heard(h.air, RspReceived(d, pres), x);
    RequestRoom(h1, d);
    RequestView(h1, d, MrandHalf, x);
    RequestView(GetRandom(h1, d, MrandHalf), d, MrandComplete, x);
  }

  lemma RequestView(h: Host, d: nat, cb: RandCallback, x: nat)
    requires x < |h.devs| == |GetRandom(h, d, cb).devs|
    ensures var v := ViewOf(h, x);
            ViewOf(GetRandom(h, d, cb), x)
            == if x == d && |h.randq| < h.capacity then v.(pendR := v.pendR + [cb]) else v
  {
    hide TranscriptOf, PendingEncrypt;
    PushRand(h.randq, RandContext(d, cb), x);
  }

  lemma RequestRoom(h: Host, d: nat)
    ensures var r := GetRandom(h, d, MrandHalf);
            && |r.randq| == |h.randq| + (if |h.randq| < h.capacity then 1 else 0)
            && r.capacity == h.capacity && r.devs == h.devs
            && GetRandom(r, d, MrandComplete).devs == h.devs
  {
  }

  lemma ResponseViews(h: Host, ph: seq<Phase>, e: Cipher, d: nat, body: seq<byte>, x: nat)
    requires Inv(h, ph, e) && Known(h, Response(d, body)) && Conforms(ph, Response(d, body)) && x < |h.devs|
    ensures ViewOk(ViewOf(OnResponse(h, d, body), x), NextPhase(h, ph, Response(d, body))[x], e, h.local)
  {
    hide ViewOf, OnResponse, C1, RspBytes;
    assert ViewOk(ViewOf(h, x), ph[x], e, h.local);
    ResponseView(h, d, body, x);
  }

  lemma KeepResponse(h: Host, ph: seq<Phase>, e: Cipher, d: nat, body: seq<byte>)
    requires Inv(h, ph, e) && Known(h, Response(d, body)) && Conforms(ph, Response(d, body))
    ensures Inv(OnResponse(h, d, body), NextPhase(h, ph, Response(d, body)), e)
  {
    hide CommandOk, AirOk, ViewOk;
    var h2 := OnResponse(h, d, body);
    assert Remotes(h2) == Remotes(h);
    assert PendingEncrypt(h.encq, d) == [] by { NoneAwaited(h, ph, e, d); }
    StepKeepsAligned(h, e, Response(d, body));
    CommandsUntouched(h, h2, e, d);
    AirGrows(h.air, RspReceived(d, RspBytes(body)), e, h.local, Remotes(h));
    forall x: nat | x < |h.devs|
      ensures ViewOk(ViewOf(h2, x), NextPhase(h, ph, Response(d, body))[x], e, h.local)
    {
      ResponseViews(h, ph, e, d, body, x);
    }
  }

  lemma NoneAwaited(h: Host, ph: seq<Phase>, e: Cipher, d: nat)
    requires Inv(h, ph, e) && d < |ph| && ph[d] !in {AwaitPart1, AwaitPart2, AwaitKey}
    ensures PendingEncrypt(h.encq, d) == []
  {
    assert ViewOk(ViewOf(h, d), ph[d], e, h.local);
  }

  lemma KeepPeerConfirm(h: Host, ph: seq<Phase>, e: Cipher, d: nat, val: Block)
    requires Inv(h, ph, e) && Known(h, PeerConfirm(d, val)) && Conforms(ph, PeerConfirm(d, val))
    ensures Inv(OnPeerConfirm(h, d, val), NextPhase(h, ph, PeerConfirm(d, val)), e)
  {
    hide CommandOk, AirOk, ViewOk, Justified;
    var h2 := OnPeerConfirm(h, d, val);
    assert Remotes(h2) == Remotes(h);
    PeerConfirmAir(h, ph, e, d, val);
    forall x: nat | x < |h.devs|
      ensures ViewOk(ViewOf(h2, x), NextPhase(h, ph, PeerConfirm(d, val))[x], e, h.local)
    {
      PeerConfirmViews(h, ph, e, d, val, x);
    }
  }

  lemma PeerConfirmAir(h: Host, ph: seq<Phase>, e: Cipher, d: nat, val: Block)
    requires Inv(h, ph, e) && Known(h, PeerConfirm(d, val)) && Conforms(ph, PeerConfirm(d, val))
    ensures AirOk(OnPeerConfirm(h, d, val).air, e, h.local, Remotes(h))
  {
    hide AirOk, C1, CommandOk;
    var a, b := ConfirmReceived(d, val), RandomSent(d, h.devs[d].rand);
    assert ViewOk(ViewOf(h, d), ph[d], e, h.local);
    Heard(h.air, a, d);
    AirGrows(h.air, a, e, h.local, Remotes(h));
    AirGrows(h.air + [a], b, e, h.local, Remotes(h));
    assert OnPeerConfirm(h, d, val).air == (h.air + [a]) + [b];
  }

  lemma PeerConfirmViews(h: Host, ph: seq<Phase>, e: Cipher, d: nat, val: Block, x: nat)
    requires Inv(h, ph, e) && Known(h, PeerConfirm(d, val)) && Conforms(ph, PeerConfirm(d, val)) && x < |h.devs|
    ensures ViewOk(ViewOf(OnPeerConfirm(h, d, val), x), NextPhase(h, ph, PeerConfirm(d, val))[x], e, h.local)
  {
    hide AirOk, C1, CommandOk;
    var a, b := ConfirmReceived(d, val), RandomSent(d, h.devs[d].rand);
    assert ViewOk(ViewOf(h, x), ph[x], e, h.local);
    Heard(h.air, a, x);
    Heard(h.air + [a], b, x);
    assert OnPeerConfirm(h, d, val).air == (h.air + [a]) + [b];
  }

  lemma PeerRandomView(h: Host, d: nat, val: Block, x: nat)
    requires d < |h.devs| && x < |h.devs|
    ensures var v := ViewOf(h, x);
            ViewOf(OnPeerRandom(h, d, val), x) ==
              if x != d then v
              else v.(dev := v.dev.(rrand := val, ltk := KeyText(val, v.dev.rand)),
                      pendE := if |h.encq| < h.capacity then v.pendE + [StkComplete] else v.pendE,
                      t := v.t.(peer := Some(RandomReceived(d, val))))
  {
    hide KeyText;
    Heard(h.air, RandomReceived(d, val), x);
    PushEncrypt(h.encq, EncryptContext(d, StkComplete), x);
  }

  lemma PeerRandomCommands(h: Host, ph: seq<Phase>, e: Cipher, d: nat, val: Block)
    requires Inv(h, ph, e) && Known(h, PeerRandom(d, val)) && Conforms(ph, PeerRandom(d, val))
    ensures var h2 := OnPeerRandom(h, d, val);
            Aligned(h2) &&
            forall i :: 0 <= i < |h2.encq| ==>
              CommandOk(h2.encCmds[i], h2.encq[i].cb, h2.devs[h2.encq[i].dev], e, h.local)
  {
    hide Part1, Part2, KeyText, AirOk, Justified, TranscriptOf, Owners;
    var h2 := OnPeerRandom(h, d, val);
    assert ViewOk(ViewOf(h, d), ph[d], e, h.local);
    NonePending(h.encq, d);
    StepKeepsAligned(h, e, PeerRandom(d, val));
    forall i | 0 <= i < |h2.encq|
      ensures CommandOk(h2.encCmds[i], h2.encq[i].cb, h2.devs[h2.encq[i].dev], e, h.local)
    {
      if i < |h.encq| {
        assert h.encq[i].dev != d;
        assert CommandOk(h.encCmds[i], h.encq[i].cb, h.devs[h.encq[i].dev], e, h.local);
      }
    }
  }

  lemma PeerRandomViews(h: Host, ph: seq<Phase>, e: Cipher, d: nat, val: Block, x: nat)
    requires Inv(h, ph, e) && Known(h, PeerRandom(d, val)) && Conforms(ph, PeerRandom(d, val)) && x < |h.devs|
    ensures ViewOk(ViewOf(OnPeerRandom(h, d, val), x), NextPhase(h, ph, PeerRandom(d, val))[x], e, h.local)
  {
    hide ViewOf, OnPeerRandom, C1, KeyText;
    assert ViewOk(ViewOf(h, x), ph[x], e, h.local);
    PeerRandomView(h, d, val, x);
  }

  lemma KeepPeerRandom(h: Host, ph: seq<Phase>, e: Cipher, d: nat, val: Block)
    requires Inv(h, ph, e) && Known(h, PeerRandom(d, val)) && Conforms(ph, PeerRandom(d, val))
    ensures Inv(OnPeerRandom(h, d, val), NextPhase(h, ph, PeerRandom(d, val)), e)
  {
    hide CommandOk, AirOk, ViewOk, KeyText;
    var h2 := OnPeerRandom(h, d, val);
    assert Remotes(h2) == Remotes(h);
    PeerRandomCommands(h, ph, e, d, val);
    assert Justified(h.air, RandomReceived(d, val), e, h.local, Remotes(h));
    AirGrows(h.air, RandomReceived(d, val), e, h.local, Remotes(h));
    forall x: nat | x < |h.devs|
      ensures ViewOk(ViewOf(h2, x), NextPhase(h, ph, PeerRandom(d, val))[x], e, h.local)
    {
      PeerRandomViews(h, ph, e, d, val, x);
    }
  }

  lemma RandDoneView(h: Host, half: Half, x: nat)
    requires Aligned(h) && h.randq != [] && x < |h.devs|
    ensures x == h.randq[0].dev ==> ViewOf(h, x).pendR != [] && ViewOf(h, x).pendR[0] == h.randq[0].cb
    ensures var v, c := ViewOf(h, x), h.randq[0];
            ViewOf(OnRandDone(h, half), x) ==
              if x != c.dev then v
              else if c.cb == MrandHalf then v.(dev := v.dev.(rand := half + v.dev.rand[8..]), pendR := v.pendR[1..])
              else
                var rand: Block := v.dev.rand[..8] + half;
                var text := Part1(rand, v.dev.preq, v.dev.pres, h.local, v.dev.remote);
                v.(dev := v.dev.(rand := rand, ltk := text), pendR := v.pendR[1..],
                   pendE := if |h.encq| < h.capacity then v.pendE + [ConfirmHalf] else v.pendE)
  {
    hide Part1;
    assert h.randq[0] in h.randq;
    PopRand(h.randq, x);
    PushEncrypt(h.encq, EncryptContext(h.randq[0].dev, ConfirmHalf), x);
  }

  lemma RandDoneCommands(h: Host, ph: seq<Phase>, e: Cipher, half: Half)
    requires Inv(h, ph, e) && h.randq != []
    ensures var h2 := OnRandDone(h, half);
            Aligned(h2) &&
            forall i :: 0 <= i < |h2.encq| ==>
              CommandOk(h2.encCmds[i], h2.encq[i].cb, h2.devs[h2.encq[i].dev], e, h.local)
  {
    hide Part1, Part2, KeyText, AirOk, Justified, TranscriptOf, Owners;
    var h2 := OnRandDone(h, half);
    var d := h.randq[0].dev;
    assert h.randq[0] in h.randq;
    assert ViewOk(ViewOf(h, d), ph[d], e, h.local);
    PopRand(h.randq, d);
    NonePending(h.encq, d);
    StepKeepsAligned(h, e, RandDone(half));
    forall i | 0 <= i < |h2.encq|
      ensures CommandOk(h2.encCmds[i], h2.encq[i].cb, h2.devs[h2.encq[i].dev], e, h.local)
    {
      if i < |h.encq| {
        assert h.encq[i].dev != d;
        assert CommandOk(h.encCmds[i], h.encq[i].cb, h.devs[h.encq[i].dev], e, h.local);
      }
    }
  }

  lemma KeepRandDone(h: Host, ph: seq<Phase>, e: Cipher, half: Half)
    requires Inv(h, ph, e)
    ensures Inv(OnRandDone(h, half), NextPhase(h, ph, RandDone(half)), e)
  {
    if h.randq != [] {
      var h2 := OnRandDone(h, half);
      var ph2 := NextPhase(h, ph, RandDone(half));
      assert h.randq[0] in h.randq;
      assert Remotes(h2) == Remotes(h);
      RandDoneCommands(h, ph, e, half);
      forall x: nat | x < |h.devs|
        ensures ViewOk(ViewOf(h2, x), ph2[x], e, h.local)
      {
        RandDoneViews(h, ph, e, half, x);
      }
    }
  }

  lemma RandDoneViews(h: Host, ph: seq<Phase>, e: Cipher, half: Half, x: nat)
    requires Inv(h, ph, e) && h.randq != [] && x < |h.devs|
    ensures ViewOk(ViewOf(OnRandDone(h, half), x), NextPhase(h, ph, RandDone(half))[x], e, h.local)
  {
    hide ViewOf, Part1, C1, OnRandDone;
    assert ViewOk(ViewOf(h, x), ph[x], e, h.local);
    RandDoneView(h, half, x);
    assert ViewOf(h, x).pendR == PendingRand(h.randq, x) by { ViewPending(h, x); }
    PopHalves(ViewOf(h, x).pendR);
    hide HalvesOnly;
  }

  lemma PopHalves(s: seq<RandCallback>)
    ensures HalvesOnly(s) && s != [] ==> s[0] == MrandHalf && HalvesOnly(s[1..]) && s != [MrandHalf, MrandComplete]
    ensures s == [MrandComplete] ==> s[1..] == [] && HalvesOnly(s[1..])
    ensures |s| >= 2 && HalvesOnly(s[..|s| - 1]) && s[|s| - 1] == MrandComplete ==>
              && s[0] == MrandHalf && (|s| == 2 ==> s == [MrandHalf, MrandComplete] && s[1..] == [MrandComplete])
              && (|s| > 2 ==> s != [MrandHalf, MrandComplete] && HalvesOnly(s[1..][..|s| - 2])
                              && s[1..][|s| - 2] == MrandComplete)
  {
    if s != [] && HalvesOnly(s) {
      var rest := s[1..];
      assert forall i :: 0 <= i < |rest| ==> rest[i] == s[i + 1];
      assert s[|s| - 1] == MrandHalf;
    } else if |s| >= 2 && HalvesOnly(s[..|s| - 1]) {
      var front, rest := s[..|s| - 1], s[1..][..|s| - 2];
      assert s[0] == front[0] && forall i :: 0 <= i < |rest| ==> rest[i] == front[i + 1];
    }
  }

  lemma ViewPending(h: Host, x: nat)
    requires x < |h.devs|
    ensures ViewOf(h, x).pendR == PendingRand(h.randq, x) && ViewOf(h, x).pendE == PendingEncrypt(h.encq, x)
  {
  }

  lemma EncryptDoneView(h: Host, e: Cipher, x: nat)
    requires Aligned(h) && h.encq != [] && |h.encq| <= h.capacity && x < |h.devs|
    ensures x == h.encq[0].dev ==> ViewOf(h, x).pendE != [] && ViewOf(h, x).pendE[0] == h.encq[0].cb
    ensures var v, c := ViewOf(h, x), h.encq[0];
            var data := e(h.encCmds[0].key, h.encCmds[0].plaintext);
            ViewOf(OnEncryptDone(h, e), x) ==
              if x != c.dev then v
              else
                match c.cb
                case ConfirmHalf =>
                  var text := Part2(data, h.local, v.dev.remote);
                  v.(dev := v.dev.(ltk := text), pendE := v.pendE[1..] + [ConfirmComplete])
                case ConfirmComplete =>
                  v.(dev := v.dev.(ltk := data), pendE := v.pendE[1..],
                     t := v.t.(confirm := Some(ConfirmSent(c.dev, data))))
                case StkComplete =>
                  v.(dev := v.dev.(ltk := data), pendE := v.pendE[1..])
  {
    hide Part2;
    var d := h.encq[0].dev;
    var data := e(h.encCmds[0].key, h.encCmds[0].plaintext);
    assert h.encq[0] in h.encq;
    PopEncrypt(h.encq, x);
    PushEncrypt(h.encq[1..], EncryptContext(d, ConfirmComplete), x);
    Heard(h.air, ConfirmSent(d, data), x);
    Heard(h.air, EncryptionStarted(d, data), x);
  }

  lemma EncryptDoneCommands(h: Host, ph: seq<Phase>, e: Cipher)
    requires Inv(h, ph, e) && h.encq != []
    ensures var h2 := OnEncryptDone(h, e);
            Aligned(h2) &&
            forall i :: 0 <= i < |h2.encq| ==>
              CommandOk(h2.encCmds[i], h2.encq[i].cb, h2.devs[h2.encq[i].dev], e, h.local)
  {
    hide Part1, Part2, KeyText, AirOk, Justified, TranscriptOf, Owners;
    var h2 := OnEncryptDone(h, e);
    var d := h.encq[0].dev;
    assert h.encq[0] in h.encq;
    assert ViewOk(ViewOf(h, d), ph[d], e, h.local);
    PopEncrypt(h.encq, d);
    NonePending(h.encq[1..], d);
    StepKeepsAligned(h, e, EncryptDone);
    assert CommandOk(h.encCmds[0], h.encq[0].cb, h.devs[d], e, h.local);
    forall i | 0 <= i < |h2.encq|
      ensures CommandOk(h2.encCmds[i], h2.encq[i].cb, h2.devs[h2.encq[i].dev], e, h.local)
    {
      if i < |h.encq| - 1 {
        assert h.encq[1..][i].dev != d;
        assert CommandOk(h.encCmds[i + 1], h.encq[i + 1].cb, h.devs[h.encq[i + 1].dev], e, h.local);
      }
    }
  }

  lemma EncryptDoneAir(h: Host, ph: seq<Phase>, e: Cipher)
    requires Inv(h, ph, e) && h.encq != []
    ensures AirOk(OnEncryptDone(h, e).air, e, h.local, Remotes(h))
  {
    hide Part1, Part2, KeyText, AirOk;
    var d := h.encq[0].dev;
    assert h.encq[0] in h.encq;
    var v := ViewOf(h, d);
    PopEncrypt(h.encq, d);
    assert v.pendE[0] == h.encq[0].cb;
    assert ViewOk(v, ph[d], e, h.local);
    assert CommandOk(h.encCmds[0], h.encq[0].cb, h.devs[d], e, h.local);
    var data := e(h.encCmds[0].key, h.encCmds[0].plaintext);
    if h.encq[0].cb == ConfirmComplete {
      assert ConfirmMatches(v.t, data, v.dev.rand, e, h.local, Remotes(h)[d]);
      assert Justified(h.air, ConfirmSent(d, data), e, h.local, Remotes(h));
      AirGrows(h.air, ConfirmSent(d, data), e, h.local, Remotes(h));
    } else if h.encq[0].cb == StkComplete {
      assert ph[d] == AwaitKey;
      assert data == S1(e, TK0, v.t.peer.value.val, v.t.random.value.val);
      assert Justified(h.air, EncryptionStarted(d, data), e, h.local, Remotes(h));
      AirGrows(h.air, EncryptionStarted(d, data), e, h.local, Remotes(h));
    }
  }

  lemma EncryptDoneViews(h: Host, ph: seq<Phase>, e: Cipher, x: nat)
    requires Inv(h, ph, e) && h.encq != [] && x < |h.devs|
    ensures ViewOk(ViewOf(OnEncryptDone(h, e), x), NextPhase(h, ph, EncryptDone)[x], e, h.local)
  {
    hide Part1, Part2, KeyText, OnEncryptDone;
    assert h.encq[0] in h.encq;
    assert ViewOk(ViewOf(h, x), ph[x], e, h.local);
    assert CommandOk(h.encCmds[0], h.encq[0].cb, h.devs[h.encq[0].dev], e, h.local);
    EncryptDoneView(h, e, x);
  }

  lemma KeepEncryptDone(h: Host, ph: seq<Phase>, e: Cipher)
    requires Inv(h, ph, e)
    ensures Inv(OnEncryptDone(h, e), NextPhase(h, ph, EncryptDone), e)
  {
    if h.encq != [] {
      var h2 := OnEncryptDone(h, e);
      assert h.encq[0] in h.encq;
      assert Remotes(h2) == Remotes(h);
      EncryptDoneCommands(h, ph, e);
      EncryptDoneAir(h, ph, e);
      forall x: nat | x < |h.devs|
        ensures ViewOk(ViewOf(h2, x), NextPhase(h, ph, EncryptDone)[x], e, h.local)
      {
        EncryptDoneViews(h, ph, e, x);
      }
    }
  }

  // Whole runs ----------------------------------------------------------------

  lemma StepKeeps(h: Host, ph: seq<Phase>, e: Cipher, ev: Event)
    requires Inv(h, ph, e) && Known(h, ev) && Conforms(ph, ev)
    ensures Inv(Step(h, e, ev), NextPhase(h, ph, ev), e)
  {
    hide Inv;
    match ev
    case Start(d) => KeepStart(h, ph, e, d);
    case Response(d, body) => KeepResponse(h, ph, e, d, body);
    case PeerConfirm(d, val) => KeepPeerConfirm(h, ph, e, d, val);
    case PeerRandom(d, val) => KeepPeerRandom(h, ph, e, d, val);
    case RandDone(half) => KeepRandDone(h, ph, e, half);
    case EncryptDone => KeepEncryptDone(h, ph, e);
  }

  // The states a run goes through; `phs` follows the peers' progress alongside.
  ghost predicate IsRun(hs: seq<Host>, phs: seq<seq<Phase>>, evs: seq<Event>, e: Cipher)
  {
    && |hs| == |phs| == |evs| + 1
    && Initial(hs[0]) && phs[0] == seq(|hs[0].devs|, _ => Idle)
    && forall i :: 0 <= i < |evs| ==>
         && WellFormed(hs[i]) && |phs[i]| == |hs[i].devs| && Known(hs[i], evs[i]) && Conforms(phs[i], evs[i])
         && hs[i + 1] == Step(hs[i], e, evs[i]) && phs[i + 1] == NextPhase(hs[i], phs[i], evs[i])
  }

  predicate Initial(h: Host)
  {
    h.randq == [] && h.encq == [] && h.randCmds == [] && h.encCmds == [] && h.air == []
  }

  lemma {:induction false} RunKeepsInv(hs: seq<Host>, phs: seq<seq<Phase>>, evs: seq<Event>, e: Cipher, n: nat)
    requires IsRun(hs, phs, evs, e) && n <= |evs|
    ensures Inv(hs[n], phs[n], e) && Remotes(hs[n]) == Remotes(hs[0]) && hs[n].local == hs[0].local
  {
    if n == 0 {
      assert Owners([]) == [];
    } else {
      hide Inv, Step, NextPhase;
      RunKeepsInv(hs, phs, evs, e, n - 1);
      StepKeeps(hs[n - 1], phs[n - 1], e, evs[n - 1]);
      StepKeepsAddresses(hs[n - 1], e, evs[n - 1]);
    }
  }

  lemma StepKeepsAddresses(h: Host, e: Cipher, ev: Event)
    requires WellFormed(h) && Known(h, ev)
    ensures Remotes(Step(h, e, ev)) == Remotes(h) && Step(h, e, ev).local == h.local
  {
    hide Part1, Part2, KeyText, Step;
    var h2 := Step(h, e, ev);
    StepKeepsWellFormed(h, e, ev);
    forall i | 0 <= i < |h.devs|
      ensures h2.devs[i].remote == h.devs[i].remote
    {
      StepKeepsAddress(h, e, ev, i);
    }
    StepKeepsLocal(h, e, ev);
  }

  lemma StepKeepsAddress(h: Host, e: Cipher, ev: Event, i: nat)
    requires WellFormed(h) && Known(h, ev) && i < |h.devs| == |Step(h, e, ev).devs|
    ensures Step(h, e, ev).devs[i].remote == h.devs[i].remote
  {
    hide Part1, Part2, KeyText;
  }

  lemma StepKeepsLocal(h: Host, e: Cipher, ev: Event)
    requires WellFormed(h) && Known(h, ev)
    ensures Step(h, e, ev).local == h.local
  {
    hide Part1, Part2, KeyText;
  }

  // In any interleaving of any number of pairings, whatever the controller answers and
  // whether or not its queues overflow: the random value a device sends is the one its confirm
  // value committed to, and the key the link is encrypted with is s1 of the two random values exchanged.
  lemma PairingIsCorrect(hs: seq<Host>, phs: seq<seq<Phase>>, evs: seq<Event>, e: Cipher, n: nat)
    requires IsRun(hs, phs, evs, e) && n <= |evs|
    ensures AirOk(hs[n].air, e, hs[0].local, Remotes(hs[0]))
  {
    RunKeepsInv(hs, phs, evs, e, n);
  }
}
