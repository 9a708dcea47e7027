// The host's handlers and callbacks as the source runs them, one field at a time,
// against the step function of SmpPairing.
module SmpHost {
  import opened Bytes
  import opened SmpCrypto
  import opened SmpPairing

  class PairingHost {
    const local: LeAddr
    const capacity: nat
    const devs: array<Device>
    // the two ring buffers of pending callbacks
    var randq: seq<RandContext>
    var encq: seq<EncryptContext>
    // commands the controller has not completed yet
    var randCmds: seq<RandContext>
    var encCmds: seq<EncryptCommand>
    // messages sent and received
    var air: seq<Air>

    function State(): Host
      reads this, devs
    {
      Host(local, capacity, devs[..], randq, encq, randCmds, encCmds, air)
    }

    constructor (local: LeAddr, capacity: nat, devs: array<Device>)
      ensures this.local == local && this.capacity == capacity && this.devs == devs
      ensures Initial(State())
    {
      this.local, this.capacity, this.devs := local, capacity, devs;
      randq, encq, randCmds, encCmds, air := [], [], [], [], [];
    }

    method RequestRandom(d: nat, cb: RandCallback) returns (ret: int)
      modifies this
      ensures State() == GetRandom(old(State()), d, cb)
      ensures ret == if old(|randq|) < capacity then 0 else -1
    {
      if |randq| >= capacity {
        return -1;
      }
      randq := randq + [RandContext(d, cb)];
      randCmds := randCmds + [RandContext(d, cb)];
      ret := 0;
    }

    method RequestEncrypt(d: nat, cb: EncryptCallback, key: Block, plaintext: Block) returns (ret: int)
      modifies this
      ensures State() == GetEncrypt(old(State()), d, cb, key, plaintext)
      ensures ret == if old(|encq|) < capacity then 0 else -1
    {
      if |encq| >= capacity {
        return -1;
      }
      encq := encq + [EncryptContext(d, cb)];
      encCmds := encCmds + [EncryptCommand(key, plaintext, EncryptContext(d, cb))];
      ret := 0;
    }

    method PairingStart(d: nat)
      requires d < devs.Length
      modifies this, devs
      ensures State() == OnStart(old(State()), d)
    {
      var preq: Pairing := [0x01] + REQ_BODY;
      devs[d] := devs[d].(preq := preq);
      air := air + [ReqSent(d, preq)];
    }

    method HandleResponse(d: nat, body: seq<byte>)
      requires d < devs.Length && |body| == 6
      modifies this, devs
      ensures State() == OnResponse(old(State()), d, body)
    {
      var pres: Pairing := [0x02] + body;
      air := air + [RspReceived(d, pres)];
      devs[d] := devs[d].(pres := pres);
      var r0 := RequestRandom(d, MrandHalf);
      var r1 := RequestRandom(d, MrandComplete);
    }

    method HandleConfirm(d: nat, val: Block)
      requires d < devs.Length
      modifies this, devs
      ensures State() == OnPeerConfirm(old(State()), d, val)
    {
      air := air + [ConfirmReceived(d, val)];
      air := air + [RandomSent(d, devs[d].rand)];
    }

    method HandleRandom(d: nat, val: Block)
      requires d < devs.Length
      modifies this, devs
      ensures State() == OnPeerRandom(old(State()), d, val)
    {
      air := air + [RandomReceived(d, val)];
      devs[d] := devs[d].(rrand := val);
      // the scratch buffer doubles as the plaintext of the request
      var out: Block := devs[d].rand[..8] + devs[d].rrand[..8];
      devs[d] := devs[d].(ltk := out);
      var ret := RequestEncrypt(d, StkComplete, TK0, devs[d].ltk);
    }

    method RandomHalf(d: nat, data: Half)
      requires d < devs.Length
      modifies devs
      ensures devs[..] == old(devs[..])[d := old(devs[d]).(rand := data + old(devs[d]).rand[8..])]
    {
      devs[d] := devs[d].(rand := data + devs[d].rand[8..]);
    }

    method RandomComplete(d: nat, data: Half)
      requires d < devs.Length
      modifies this, devs
      ensures var h, dev := old(State()), old(devs[d]);
              var rand: Block := dev.rand[..8] + data;
              var text := Part1(rand, dev.preq, dev.pres, local, dev.remote);
              State() == GetEncrypt(h.(devs := h.devs[d := dev.(rand := rand, ltk := text)]), d, ConfirmHalf, TK0, text)
    {
      devs[d] := devs[d].(rand := devs[d].rand[..8] + data);
      var p1: Block := [local.kind] + [devs[d].remote.kind] + devs[d].preq + devs[d].pres;
      assert p1 == [local.kind, devs[d].remote.kind] + devs[d].preq + devs[d].pres;
      var encData := Buffer(devs[d].ltk);
      var r := Buffer(devs[d].rand);
      var p := Buffer(p1);
      Xor128(r, p, encData);
      devs[d] := devs[d].(ltk := encData[..]);
      var ret := RequestEncrypt(d, ConfirmHalf, TK0, devs[d].ltk);
    }

    method ConfirmFirstPart(d: nat, data: Block)
      requires d < devs.Length
      modifies this, devs
      ensures var h, dev := old(State()), old(devs[d]);
              var text := Part2(data, local, dev.remote);
              State() == GetEncrypt(h.(devs := h.devs[d := dev.(ltk := text)]), d, ConfirmComplete, TK0, text)
    {
      devs[d] := devs[d].(ltk := data);
      var p2: Block := devs[d].remote.val + local.val + [0, 0, 0, 0];
      // the ciphertext is overwritten by its own sum with p2
      var encData := Buffer(devs[d].ltk);
      var p := Buffer(p2);
      Xor128(encData, p, encData);
      devs[d] := devs[d].(ltk := encData[..]);
      var ret := RequestEncrypt(d, ConfirmComplete, TK0, devs[d].ltk);
    }

    // The sixteen bytes of a block as the source's functions get them.
    method Buffer(b: Block) returns (a: array<byte>)
      ensures fresh(a) && a[..] == b
    {
      a := new byte[16](i requires 0 <= i < 16 => b[i]);
    }

    // Completion of LE_Rand: the callback at the head of the queue gets the eight bytes.
    method RandCommandComplete(half: Half)
      requires WellFormed(State())
      modifies this, devs
      ensures State() == OnRandDone(old(State()), half)
    {
      if randCmds == [] {
        return;
      }
      randCmds := randCmds[1..];
      if randq == [] {
        return;
      }
      var c := randq[0];
      assert c in old(State()).randq;
      randq := randq[1..];
      match c.cb
      case MrandHalf => RandomHalf(c.dev, half);
      case MrandComplete => RandomComplete(c.dev, half);
    }

    // Completion of LE_Encrypt with the ciphertext of the oldest command.
    method EncryptCommandComplete(e: Cipher)
      requires WellFormed(State())
      modifies this, devs
      ensures State() == OnEncryptDone(old(State()), e)
    {
      if encCmds == [] {
        return;
      }
      var data := e(encCmds[0].key, encCmds[0].plaintext);
      encCmds := encCmds[1..];
      if encq == [] {
        return;
      }
      var c := encq[0];
      assert c in old(State()).encq;
      encq := encq[1..];
      match c.cb
      case ConfirmHalf =>
        ConfirmFirstPart(c.dev, data);
      case ConfirmComplete =>
        devs[c.dev] := devs[c.dev].(ltk := data);
        air := air + [ConfirmSent(c.dev, devs[c.dev].ltk)];
      case StkComplete =>
        devs[c.dev] := devs[c.dev].(ltk := data);
        air := air + [EncryptionStarted(c.dev, devs[c.dev].ltk)];
    }
  }
}
