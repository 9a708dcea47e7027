// queue_bss itself: the calls of one user at a time, each a run of SlotPool steps.
module QueueBss {
  import opened Bytes
  import opened SlotPool

  class Queue {
    const itemNum: nat
    const maxLen: nat
    // the two bounded rings carry slot numbers; a slot is a stretch of `item` and a cell of `itemLen`
    var freeq: seq<nat>
    var itemq: seq<nat>
    const item: array2<byte>
    const itemLen: array<nat>

    ghost predicate Valid()
      reads this, item, itemLen
    {
      && itemNum >= 1 && Sized() && itemLen.Length == itemNum
      && (forall i :: 0 <= i < |freeq| ==> freeq[i] < itemNum - 1)
      && (forall i :: 0 <= i < |itemq| ==> itemq[i] < itemNum - 1)
      && (forall i :: 0 <= i < itemNum ==> itemLen[i] <= maxLen)
    }

    ghost predicate Sized()
    {
      item.Length0 == itemNum && item.Length1 == maxLen
    }

    ghost function Slice(slot: nat): (b: seq<byte>)
      requires Sized() && slot < itemNum
      reads item
      ensures |b| == maxLen
    {
      seq(maxLen, (k: int) requires 0 <= k < maxLen && slot < item.Length0 && maxLen == item.Length1
                  reads item => item[slot, k])
    }

    ghost function Slices(): (b: seq<seq<byte>>)
      requires Sized()
      reads item
      ensures |b| == itemNum && forall s :: 0 <= s < itemNum ==> b[s] == Slice(s)
    {
      seq(itemNum, (s: int) requires 0 <= s < itemNum && Sized() reads item => Slice(s))
    }

    // The queue as a pool, given where its users stand.
    ghost function AsPool(held: seq<Loan>, sent: seq<Payload>, received: seq<Payload>): Pool
      requires Valid()
      reads this, item, itemLen
    {
      Pool(itemNum - 1, maxLen, freeq, itemq, Ready, held, Slices(), itemLen[..], sent, received)
    }

    // queue_bss_init: every slot but the last goes into the free ring.
    constructor (itemNum: nat, maxLen: nat)
      requires itemNum >= 1
      ensures Valid() && this.itemNum == itemNum && this.maxLen == maxLen
      ensures freeq == seq(itemNum - 1, i => i) && itemq == []
      ensures fresh(item) && fresh(itemLen)
    {
      this.itemNum, this.maxLen := itemNum, maxLen;
      freeq, itemq := [], [];
      item := new byte[itemNum, maxLen]((_, _) => 0);
      itemLen := new nat[itemNum](_ => 0);
      new;
      for i := 0 to itemNum - 1
        invariant freeq == seq(i, k => k) && itemq == []
        invariant forall k :: 0 <= k < itemNum ==> itemLen[k] == 0
        invariant fresh(itemLen)
      {
        itemLen[i] := 0;
        freeq := freeq + [i];
      }
    }

    // The producer's call. With an item that fits and a free slot it is exactly
    // Take, Copy, Size, Publish; otherwise nothing happens and it fails.
    method Enqueue(payload: Payload, ghost held: seq<Loan>, ghost sent: seq<Payload>, ghost received: seq<Payload>)
      returns (ret: int)
      requires Valid() && SlotPool.Inv(AsPool(held, sent, received))
      modifies this, item, itemLen
      ensures Valid()
      ensures var p := old(AsPool(held, sent, received));
              if |payload| > maxLen || p.freeq == [] then ret == -1 && AsPool(held, sent, received) == p
              else
                && ret == 0
                && AsPool(held, sent + [payload], received)
                   == Step(Step(Step(Step(p, Take(payload)), Copy), Size), Publish)
    {
      hide SlotPool.Inv, Step, Slice;
      ghost var p := AsPool(held, sent, received);
      if |payload| > maxLen {
        return -1;
      }
      if freeq == [] {
        return -1;
      }
      FourSteps(p, payload);
      var slot := freeq[0];
      freeq := freeq[1..];
      CopyIn(slot, payload);
      itemLen[slot] := |payload|;
      // the item ring has room, so the branch that gives the slot back is never taken
      if |itemq| >= itemNum - 1 {
        assert false;
      }
      itemq := itemq + [slot];
      assert Slices() == p.buf[slot := payload + p.buf[slot][|payload|..]];
      ret := 0;
    }

    // memcpy of the payload to the start of a slot
    method CopyIn(slot: nat, payload: Payload)
      requires Valid() && slot < itemNum && |payload| <= maxLen
      modifies item
      ensures Valid()
      ensures Slices() == old(Slices())[slot := payload + old(Slice(slot))[|payload|..]]
    {
      for i := 0 to |payload|
        invariant forall k :: 0 <= k < i ==> item[slot, k] == payload[k]
        invariant forall s, k :: 0 <= s < itemNum && 0 <= k < maxLen && (s != slot || i <= k) ==>
                    item[s, k] == old(item[s, k])
      {
        item[slot, i] := payload[i];
      }
      forall s | 0 <= s < itemNum && s != slot
        ensures Slice(s) == old(Slice(s))
      {
      }
      assert Slice(slot) == payload + old(Slice(slot))[|payload|..];
    }

    // The consumer's call: the slot at the head of the item ring.
    method Dequeue(ghost held: seq<Loan>, ghost sent: seq<Payload>, ghost received: seq<Payload>)
      returns (ok: bool, slot: nat, len: nat)
      requires Valid() && Shaped(AsPool(held, sent, received))
      modifies this`itemq
      ensures Valid() && ok == (old(itemq) != [])
      ensures var p := old(AsPool(held, sent, received));
              if !ok then AsPool(held, sent, received) == p
              else
                var c := Content(p, p.itemq[0]);
                && slot == p.itemq[0] && len == |c|
                && AsPool(held + [Loan(slot, c)], sent, received + [c]) == Step(p, Receive)
    {
      if itemq == [] {
        return false, 0, 0;
      }
      slot := itemq[0];
      itemq := itemq[1..];
      len := itemLen[slot];
      ok := true;
    }

    // The consumer's return of a slot. It answers -1 when it succeeds.
    method Return(slot: nat, ghost i: nat,
                  ghost held: seq<Loan>, ghost sent: seq<Payload>, ghost received: seq<Payload>)
      returns (ret: int)
      requires Valid() && SlotPool.Inv(AsPool(held, sent, received))
      requires i < |held| && held[i].slot == slot
      modifies this`freeq
      ensures Valid() && ret == -1 && freeq == old(freeq) + [slot]
      ensures AsPool(held[..i] + held[i + 1..], sent, received) == Step(old(AsPool(held, sent, received)), Release(i))
    {
      RoomLeft(AsPool(held, sent, received));
      if |freeq| < itemNum - 1 {
        freeq := freeq + [slot];
        return -1;
      }
      ret := 0;
    }
  }
}
