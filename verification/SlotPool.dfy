// The two-queue slot pool shared by one producer and one consumer (components/queue_bss/queue_bss.c)
// as a state machine over the atomic steps of its two users.
module SlotPool {
  import opened Bytes

  type Payload = seq<byte>

  // Where the producer is inside queue_bss_enqueue.
  datatype Producer =
    | Ready
    | Taken(slot: nat, payload: Payload)
    | Copied(slot: nat, payload: Payload)
    | Sized(slot: nat, payload: Payload)

  // A slot the consumer was given and has not returned, with what it read from it.
  datatype Loan = Loan(slot: nat, payload: Payload)

  datatype Pool = Pool(
    capacity: nat,          // of each ring: item_num - 1
    maxLen: nat,
    freeq: seq<nat>, itemq: seq<nat>,
    producer: Producer, held: seq<Loan>,
    buf: seq<seq<byte>>, lens: seq<nat>,
    sent: seq<Payload>, received: seq<Payload>)

  datatype Action =
    | Take(payload: Payload)  // take a free slot
    | Copy                    // memcpy into it
    | Size                    // store the length
    | Publish                 // hand it to the consumer
    | Receive                 // queue_bss_dequeue
    | Release(index: nat)     // queue_bss_return of one of the slots held

  function Init(itemNum: nat, maxLen: nat): Pool
    requires itemNum >= 1
  {
    var slots := seq(itemNum - 1, i => i);
    Pool(itemNum - 1, maxLen, slots, [], Ready, [],
         seq(itemNum, _ => seq(maxLen, _ => 0)), seq(itemNum, _ => 0), [], [])
  }

  predicate Shaped(p: Pool)
  {
    && |p.buf| == |p.lens| == p.capacity + 1
    && (forall s :: 0 <= s < |p.buf| ==> |p.buf[s]| == p.maxLen && p.lens[s] <= p.maxLen)
    && (forall i :: 0 <= i < |p.freeq| ==> p.freeq[i] < p.capacity)
    && (forall i :: 0 <= i < |p.itemq| ==> p.itemq[i] < p.capacity)
    && (forall i :: 0 <= i < |p.held| ==> p.held[i].slot < p.capacity)
    && (!p.producer.Ready? ==> p.producer.slot < p.capacity && |p.producer.payload| <= p.maxLen)
  }

  function Content(p: Pool, s: nat): Payload
    requires Shaped(p) && s < p.capacity
  {
    p.buf[s][..p.lens[s]]
  }

  function GiveBack(p: Pool, s: nat): Pool
  {
    if |p.freeq| >= p.capacity then p else p.(freeq := p.freeq + [s])
  }

  function Step(p: Pool, a: Action): (q: Pool)
    requires Shaped(p)
    ensures Shaped(q) && q.capacity == p.capacity && q.maxLen == p.maxLen
  {
    match a
    case Take(payload) =>
      if !p.producer.Ready? || |payload| > p.maxLen || p.freeq == [] then p
      else p.(freeq := p.freeq[1..], producer := Taken(p.freeq[0], payload))
    case Copy => CopyStep(p)
    case Size =>
      if !p.producer.Copied? then p
      else
        var s, payload := p.producer.slot, p.producer.payload;
        p.(lens := p.lens[s := |payload|], producer := Sized(s, payload))
    case Publish => PublishStep(p)
    case Receive =>
      if p.itemq == [] then p
      else
        var s := p.itemq[0];
        p.(itemq := p.itemq[1..], held := p.held + [Loan(s, Content(p, s))], received := p.received + [Content(p, s)])
    case Release(i) =>
      if i >= |p.held| then p
      else GiveBack(p.(held := p.held[..i] + p.held[i + 1..]), p.held[i].slot)
  }

  function CopyStep(p: Pool): (q: Pool)
    requires Shaped(p)
    ensures Shaped(q) && q.capacity == p.capacity && q.maxLen == p.maxLen
  {
    if !p.producer.Taken? then p
    else
      var s, payload := p.producer.slot, p.producer.payload;
      p.(buf := p.buf[s := payload + p.buf[s][|payload|..]], producer := Copied(s, payload))
  }

  function PublishStep(p: Pool): (q: Pool)
    requires Shaped(p)
    ensures Shaped(q) && q.capacity == p.capacity && q.maxLen == p.maxLen
  {
    if !p.producer.Sized? then p
    else
      var s, payload := p.producer.slot, p.producer.payload;
      if |p.itemq| >= p.capacity then GiveBack(p.(producer := Ready), s)
      else p.(itemq := p.itemq + [s], producer := Ready, sent := p.sent + [payload])
  }

  // The invariant ---------------------------------------------------------------

  function HandOf(p: Pool): multiset<nat>
  {
    if p.producer.Ready? then multiset{} else multiset{p.producer.slot}
  }

  function LoanSlots(held: seq<Loan>): (s: seq<nat>)
    ensures |s| == |held|
  {
    seq(|held|, (i: int) requires 0 <= i < |held| => held[i].slot)
  }

  function AllSlots(n: nat): multiset<nat>
  {
    if n == 0 then multiset{} else AllSlots(n - 1) + multiset{n - 1}
  }

  // Every slot is in exactly one place: the free queue, the producer's hand, the item queue, the consumer's hands.
  predicate Partitioned(p: Pool)
  {
    multiset(p.freeq) + HandOf(p) + multiset(p.itemq) + multiset(LoanSlots(p.held)) == AllSlots(p.capacity)
  }

  predicate DataOk(p: Pool)
    requires Shaped(p)
  {
    && |p.received| + |p.itemq| == |p.sent|
    && p.received == p.sent[..|p.received|]
    && (forall i :: 0 <= i < |p.itemq| ==> Content(p, p.itemq[i]) == p.sent[|p.received| + i])
    && (forall i :: 0 <= i < |p.held| ==> Content(p, p.held[i].slot) == p.held[i].payload)
    && (p.producer.Copied? || p.producer.Sized? ==> p.producer.payload <= p.buf[p.producer.slot])
    && (p.producer.Sized? ==> p.lens[p.producer.slot] == |p.producer.payload|)
  }

  predicate Inv(p: Pool)
  {
    Shaped(p) && Partitioned(p) && DataOk(p)
  }

  lemma {:induction false} AllSlotsOnce(n: nat)
    ensures forall s: nat :: AllSlots(n)[s] == if s < n then 1 else 0
    ensures |AllSlots(n)| == n
  {
    if n > 0 {
      AllSlotsOnce(n - 1);
    }
  }

  lemma {:induction false} SlotsUpTo(n: nat)
    ensures multiset(seq(n, i => i)) == AllSlots(n)
  {
    if n > 0 {
      SlotsUpTo(n - 1);
      assert seq(n, i => i) == seq(n - 1, i => i) + [n - 1];
    }
  }

  // The rings are never full when something must go in, and the producer's slot is nobody else's.
  lemma RoomLeft(p: Pool)
    requires Shaped(p) && Partitioned(p)
    ensures !p.producer.Ready? ==> |p.itemq| < p.capacity
    ensures !p.producer.Ready? || p.held != [] ==> |p.freeq| < p.capacity
    ensures |p.freeq| <= p.capacity && |p.itemq| <= p.capacity
  {
    AllSlotsOnce(p.capacity);
    assert |multiset(p.freeq) + HandOf(p) + multiset(p.itemq) + multiset(LoanSlots(p.held))| == p.capacity;
  }

  lemma HandIsExclusive(p: Pool)
    requires Shaped(p) && Partitioned(p) && !p.producer.Ready?
    ensures p.producer.slot !in p.freeq && p.producer.slot !in p.itemq
    ensures forall i :: 0 <= i < |p.held| ==> p.held[i].slot != p.producer.slot
  {
    var s := p.producer.slot;
    AllSlotsOnce(p.capacity);
    assert AllSlots(p.capacity)[s] == 1;
    assert multiset(p.freeq)[s] + HandOf(p)[s] + multiset(p.itemq)[s] + multiset(LoanSlots(p.held))[s] == 1;
    forall i | 0 <= i < |p.held|
      ensures p.held[i].slot != s
    {
      assert LoanSlots(p.held)[i] in multiset(LoanSlots(p.held));
    }
    assert s in p.freeq ==> s in multiset(p.freeq);
    assert s in p.itemq ==> s in multiset(p.itemq);
  }

  // Bytes and length change only in the slot the producer holds.
  lemma OnlyTheHandChanges(p: Pool, a: Action, s: nat)
    requires Inv(p) && s < p.capacity && (p.producer.Ready? || p.producer.slot != s)
    ensures Step(p, a).buf[s] == p.buf[s] && Step(p, a).lens[s] == p.lens[s]
  {
  }

  lemma Remove(held: seq<Loan>, i: nat)
    requires i < |held|
    ensures multiset(LoanSlots(held)) == multiset(LoanSlots(held[..i] + held[i + 1..])) + multiset{held[i].slot}
  {
    var s := LoanSlots(held);
    assert s == s[..i] + [s[i]] + s[i + 1..];
    assert LoanSlots(held[..i] + held[i + 1..]) == s[..i] + s[i + 1..];
  }

  lemma Head(s: seq<nat>)
    requires s != []
    ensures multiset(s) == multiset{s[0]} + multiset(s[1..])
  {
    assert s == [s[0]] + s[1..];
  }

  lemma StepKeepsPartition(p: Pool, a: Action)
    requires Shaped(p) && Partitioned(p)
    ensures Partitioned(Step(p, a))
  {
    hide Partitioned;
    match a
    case Take(payload) => TakeKeepsPartition(p, payload);
    case Copy => WriteKeepsPartition(p, a);
    case Size => WriteKeepsPartition(p, a);
    case Publish => PublishKeepsPartition(p);
    case Receive => if p.itemq != [] { ReceiveKeepsPartition(p); }
    case Release(i) => ReleaseKeepsPartition(p, i);
  }

  lemma TakeKeepsPartition(p: Pool, payload: Payload)
    requires Shaped(p) && Partitioned(p)
    ensures Partitioned(Step(p, Take(payload)))
  {
    if p.freeq != [] { Head(p.freeq); }
  }

  lemma WriteKeepsPartition(p: Pool, a: Action)
    requires Shaped(p) && Partitioned(p) && (a.Copy? || a.Size?)
    ensures Partitioned(Step(p, a))
  {
  }

  lemma PublishKeepsPartition(p: Pool)
    requires Shaped(p) && Partitioned(p)
    ensures Partitioned(Step(p, Publish))
  {
    if p.producer.Sized? {
      hide Step, LoanSlots, Shaped;
      RoomLeft(p);
      PublishMoves(p);
      assert multiset(p.itemq + [p.producer.slot]) == multiset(p.itemq) + multiset{p.producer.slot};
    }
  }

  lemma PublishMoves(p: Pool)
    requires Shaped(p) && p.producer.Sized? && |p.itemq| < p.capacity
    ensures Step(p, Publish) == p.(itemq := p.itemq + [p.producer.slot], producer := Ready,
                                   sent := p.sent + [p.producer.payload])
  {
    hide Shaped;
  }

  lemma ReleaseKeepsPartition(p: Pool, i: nat)
    requires Shaped(p) && Partitioned(p)
    ensures Partitioned(Step(p, Release(i)))
  {
    if i < |p.held| {
      hide Step;
      var q, s := Step(p, Release(i)), p.held[i].slot;
      ReleaseMoves(p, i);
      Remove(p.held, i);
      Rearrange(multiset(p.freeq), HandOf(p), multiset(p.itemq), multiset(LoanSlots(q.held)), s);
    }
  }

  lemma ReleaseMoves(p: Pool, i: nat)
    requires Shaped(p) && Partitioned(p) && i < |p.held|
    ensures var q := Step(p, Release(i));
            && q.capacity == p.capacity && q.producer == p.producer && q.itemq == p.itemq
            && q.held == p.held[..i] + p.held[i + 1..]
            && multiset(q.freeq) == multiset(p.freeq) + multiset{p.held[i].slot}
  {
    RoomLeft(p);
  }

  lemma Rearrange(a: multiset<nat>, b: multiset<nat>, c: multiset<nat>, d: multiset<nat>, s: nat)
    ensures a + b + c + (d + multiset{s}) == (a + multiset{s}) + b + c + d
  {
  }

  lemma ReceiveKeepsPartition(p: Pool)
    requires Shaped(p) && Partitioned(p) && p.itemq != []
    ensures Partitioned(Step(p, Receive))
  {
    Head(p.itemq);
    assert LoanSlots(Step(p, Receive).held) == LoanSlots(p.held) + [p.itemq[0]];
  }

  // Writing the producer's slot disturbs nothing that is queued or on loan.
  lemma WriteKeepsData(p: Pool, a: Action)
    requires Inv(p) && (a.Copy? || a.Size?)
    ensures Shaped(Step(p, a)) && DataOk(Step(p, a))
  {
    hide Partitioned;
    if !p.producer.Ready? {
      HandIsExclusive(p);
      var q := Step(p, a);
      forall i | 0 <= i < |q.itemq|
        ensures Content(q, q.itemq[i]) == q.sent[|q.received| + i]
      {
        assert q.itemq[i] == p.itemq[i] != p.producer.slot;
        assert Content(q, q.itemq[i]) == Content(p, p.itemq[i]);
      }
    }
  }

  lemma PublishKeepsData(p: Pool)
    requires Inv(p)
    ensures Shaped(Step(p, Publish)) && DataOk(Step(p, Publish))
  {
    hide Partitioned;
    RoomLeft(p);
    if p.producer.Sized? {
      assert Content(p, p.producer.slot) == p.producer.payload;
      var q := Step(p, Publish);
      assert |q.received| + |p.itemq| == |p.sent|;
    }
  }

  lemma ReceiveKeepsData(p: Pool)
    requires Inv(p)
    ensures Shaped(Step(p, Receive)) && DataOk(Step(p, Receive))
  {
    hide Partitioned;
    if p.itemq != [] {
      assert Content(p, p.itemq[0]) == p.sent[|p.received|];
    }
  }

  lemma ReleaseKeepsData(p: Pool, i: nat)
    requires Inv(p)
    ensures Shaped(Step(p, Release(i))) && DataOk(Step(p, Release(i)))
  {
    hide Partitioned;
  }

  lemma TakeKeepsData(p: Pool, payload: Payload)
    requires Inv(p)
    ensures Shaped(Step(p, Take(payload))) && DataOk(Step(p, Take(payload)))
  {
    hide Partitioned;
  }

  lemma StepKeepsInv(p: Pool, a: Action)
    requires Inv(p)
    ensures Inv(Step(p, a))
  {
    hide Partitioned, DataOk, Step;
    StepKeepsPartition(p, a);
    match a
    case Take(payload) => TakeKeepsData(p, payload);
    case Copy => WriteKeepsData(p, a);
    case Size => WriteKeepsData(p, a);
    case Publish => PublishKeepsData(p);
    case Receive => ReceiveKeepsData(p);
    case Release(i) => ReleaseKeepsData(p, i);
  }

  lemma InitInv(itemNum: nat, maxLen: nat)
    requires itemNum >= 1
    ensures Inv(Init(itemNum, maxLen))
  {
    SlotsUpTo(itemNum - 1);
  }

  // Any interleaving of the two users.
  function Run(p: Pool, actions: seq<Action>): (q: Pool)
    requires Inv(p)
    ensures Inv(q) && q.capacity == p.capacity && q.maxLen == p.maxLen
  {
    if actions == [] then p
    else
      var q := Run(p, actions[..|actions| - 1]);
      StepKeepsInv(q, actions[|actions| - 1]);
      Step(q, actions[|actions| - 1])
  }

  function Pending(p: Pool): seq<Payload>
    requires Shaped(p)
  {
    seq(|p.itemq|, (i: int) requires 0 <= i < |p.itemq| => Content(p, p.itemq[i]))
  }

  // What every interleaving guarantees.
  lemma EveryInterleaving(itemNum: nat, maxLen: nat, actions: seq<Action>)
    requires itemNum >= 1
    ensures Inv(Init(itemNum, maxLen)) && Guaranteed(Run(Init(itemNum, maxLen), actions))
  {
    InitInv(itemNum, maxLen);
    InvGuarantees(Run(Init(itemNum, maxLen), actions));
  }

  predicate Guaranteed(p: Pool)
    requires Shaped(p)
  {
    // payloads arrive in order, complete, with their exact bytes and length
    && p.sent == p.received + Pending(p)
    // a slot on loan still holds what its borrower read
    && (forall i :: 0 <= i < |p.held| ==> Content(p, p.held[i].slot) == p.held[i].payload)
    // publishing and returning always find room
    && (p.producer.Sized? ==> Step(p, Publish).sent == p.sent + [p.producer.payload])
    && (forall i :: 0 <= i < |p.held| ==> Step(p, Release(i)).freeq == p.freeq + [p.held[i].slot])
  }

  lemma InvGuarantees(p: Pool)
    requires Inv(p)
    ensures Guaranteed(p)
  {
    RoomLeft(p);
    assert p.sent == p.sent[..|p.received|] + p.sent[|p.received|..];
    assert p.sent[|p.received|..] == Pending(p);
    PublishesAndReturns(p);
    hide Step, Partitioned, Content;
  }

  lemma PublishesAndReturns(p: Pool)
    requires Inv(p)
    ensures p.producer.Sized? ==> Step(p, Publish).sent == p.sent + [p.producer.payload]
    ensures forall i :: 0 <= i < |p.held| ==> Step(p, Release(i)).freeq == p.freeq + [p.held[i].slot]
  {
    RoomLeft(p);
    hide Partitioned, DataOk;
  }

  // A receive while something is pending delivers the oldest payload not received yet, and puts its slot on loan.
  lemma ReceiveDelivers(p: Pool)
    requires Inv(p) && p.itemq != []
    ensures |p.received| < |p.sent|
    ensures var q, payload := Step(p, Receive), p.sent[|p.received|];
            && q.received == p.received + [payload] && q.sent == p.sent && q.itemq == p.itemq[1..]
            && q.held == p.held + [Loan(p.itemq[0], payload)]
  {
    hide Partitioned;
    assert Content(p, p.itemq[0]) == p.sent[|p.received| + 0];
  }

  // One undisturbed call of queue_bss_enqueue.
  lemma FourSteps(p: Pool, payload: Payload)
    requires Inv(p) && p.producer.Ready? && |payload| <= p.maxLen && p.freeq != []
    ensures |p.itemq| < p.capacity
    ensures var s := p.freeq[0];
            Step(Step(Step(Step(p, Take(payload)), Copy), Size), Publish) ==
              p.(freeq := p.freeq[1..], itemq := p.itemq + [s], buf := p.buf[s := payload + p.buf[s][|payload|..]],
                 lens := p.lens[s := |payload|], sent := p.sent + [payload])
  {
    hide Partitioned, DataOk;
    var q := Step(p, Take(payload));
    StepKeepsInv(p, Take(payload));
    RoomLeft(q);
  }

  // Reading a slot after giving it back ----------------------------------------

  // The step stores a length in slot s.
  predicate SizesSlot(p: Pool, a: Action, s: nat)
  {
    a.Size? && p.producer.Copied? && p.producer.slot == s
  }

  function LengthAt(p: Pool, s: nat): nat
    requires Inv(p) && s < p.capacity
  {
    p.lens[s]
  }

  function BytesAt(p: Pool, s: nat): seq<byte>
    requires Inv(p) && s < p.capacity
  {
    p.buf[s]
  }

  // The length last stored in slot s, or the one it had.
  function LastLength(p: Pool, actions: seq<Action>, s: nat): nat
    requires Inv(p) && s < p.capacity
  {
    if actions == [] then LengthAt(p, s)
    else
      var front, a := actions[..|actions| - 1], actions[|actions| - 1];
      if SizesSlot(Run(p, front), a, s) then |Run(p, front).producer.payload| else LastLength(p, front, s)
  }

  lemma StepLength(p: Pool, a: Action, s: nat)
    requires Inv(p) && Inv(Step(p, a)) && s < p.capacity
    ensures LengthAt(Step(p, a), s) == if SizesSlot(p, a, s) then |p.producer.payload| else LengthAt(p, s)
  {
    hide Partitioned, DataOk;
  }

  // kbmon_get_code reads the length once more after queue_bss_return: what it reads is right exactly
  // if the last length stored in the slot since, if any, is the same.
  lemma {:induction false} LateRead(p: Pool, actions: seq<Action>, s: nat)
    requires Inv(p) && s < p.capacity
    ensures LengthAt(Run(p, actions), s) == LastLength(p, actions, s)
  {
    if actions != [] {
      var front, a := actions[..|actions| - 1], actions[|actions| - 1];
      assert actions == front + [a];
      LateReadStep(p, front, a, s);
      hide Inv, Run, LengthAt, LastLength;
      LateRead(p, front, s);
    } else {
      NoActions(p);
    }
  }

  lemma LateReadStep(p: Pool, front: seq<Action>, a: Action, s: nat)
    requires Inv(p) && s < p.capacity
    ensures LengthAt(Run(p, front), s) == LastLength(p, front, s) ==>
              LengthAt(Run(p, front + [a]), s) == LastLength(p, front + [a], s)
  {
    hide Inv, Step, SizesSlot, LengthAt;
    assert (front + [a])[..|front|] == front;
    OneMore(p, front, a);
    StepLength(Run(p, front), a, s);
  }

  // How many enqueues got a slot.
  function Takes(p: Pool, actions: seq<Action>): nat
    requires Inv(p)
  {
    if actions == [] then 0
    else
      var front, a := actions[..|actions| - 1], actions[|actions| - 1];
      Takes(p, front) + if TakesSlot(Run(p, front), a) then 1 else 0
  }

  predicate TakesSlot(p: Pool, a: Action)
  {
    a.Take? && p.producer.Ready? && |a.payload| <= p.maxLen && p.freeq != []
  }

  // Slot s is the j-th to be taken next.
  predicate FreeAt(p: Pool, s: nat, j: nat)
  {
    j < |p.freeq| && p.freeq[j] == s
  }

  lemma StillFree(p: Pool, a: Action, s: nat, j: nat)
    requires Inv(p) && FreeAt(p, s, j) && (TakesSlot(p, a) ==> j > 0)
    ensures s < p.capacity && FreeAt(Step(p, a), s, if TakesSlot(p, a) then j - 1 else j)
    ensures Inv(Step(p, a)) && Step(p, a).capacity == p.capacity
    ensures LengthAt(Step(p, a), s) == LengthAt(p, s) && BytesAt(Step(p, a), s) == BytesAt(p, s)
  {
    StepKeepsInv(p, a);
    if !p.producer.Ready? {
      HandIsExclusive(p);
    }
    OnlyTheHandChanges(p, a, s);
    PlaceMoves(p, a, s, j);
    hide Step, Partitioned, DataOk, TakesSlot;
  }

  lemma PlaceMoves(p: Pool, a: Action, s: nat, j: nat)
    requires Shaped(p) && FreeAt(p, s, j) && (TakesSlot(p, a) ==> j > 0)
    ensures FreeAt(Step(p, a), s, if TakesSlot(p, a) then j - 1 else j)
  {
  }

  lemma OneMore(p: Pool, actions: seq<Action>, a: Action)
    requires Inv(p)
    ensures Run(p, actions + [a]) == Step(Run(p, actions), a)
    ensures Takes(p, actions + [a]) == Takes(p, actions) + if TakesSlot(Run(p, actions), a) then 1 else 0
  {
    hide Inv, Step, TakesSlot;
    assert (actions + [a])[..|actions|] == actions;
  }

  lemma NoActions(p: Pool)
    requires Inv(p)
    ensures Run(p, []) == p && Takes(p, []) == 0
  {
  }

  lemma FreeSlotExists(p: Pool, s: nat, j: nat)
    requires Inv(p) && FreeAt(p, s, j)
    ensures s < p.capacity && p.freeq != []
  {
  }

  // A slot returned to place j of the free ring keeps length and bytes through j further enqueues ...
  lemma {:induction false} LateReadIsSafe(p: Pool, actions: seq<Action>, s: nat, j: nat)
    requires Inv(p) && FreeAt(p, s, j) && Takes(p, actions) <= j
    ensures FreeAt(Run(p, actions), s, j - Takes(p, actions)) && s < p.capacity
    ensures LengthAt(Run(p, actions), s) == LengthAt(p, s) && BytesAt(Run(p, actions), s) == BytesAt(p, s)
  {
    hide Inv, Step, FreeAt, TakesSlot, Run, Takes, LengthAt, BytesAt;
    FreeSlotExists(p, s, j);
    if actions == [] {
      NoActions(p);
    } else {
      var front, a := actions[..|actions| - 1], actions[|actions| - 1];
      assert actions == front + [a];
      OneMore(p, front, a);
      LateReadIsSafe(p, front, s, j);
      StillFree(Run(p, front), a, s, j - Takes(p, front));
    }
  }

  // ... and not through one more: the next may store any length the slot can hold.
  function Racing(j: nat, payload: Payload): seq<Action>
  {
    if j == 0 then [Take(payload), Copy, Size] else OneEnqueue() + Racing(j - 1, payload)
  }

  function OneEnqueue(): seq<Action>
  {
    [Take([]), Copy, Size] + [Publish]
  }

  // What is left of an enqueue the producer is in the middle of.
  function Finish(p: Pool): seq<Action>
  {
    match p.producer
    case Ready => []
    case Taken(_, _) => [Copy, Size, Publish]
    case Copied(_, _) => [Size, Publish]
    case Sized(_, _) => [Publish]
  }

  lemma {:induction false} RunAppend(p: Pool, a: seq<Action>, b: seq<Action>)
    requires Inv(p)
    ensures Run(p, a + b) == Run(Run(p, a), b)
    decreases |b|
  {
    if b == [] {
      assert a + b == a;
      NoActions(Run(p, a));
    } else {
      hide Inv, Step, Run;
      var front, x := b[..|b| - 1], b[|b| - 1];
      assert a + b == (a + front) + [x] && b == front + [x];
      RunAppend(p, a, front);
      OneMore(p, a + front, x);
      OneMore(Run(p, a), front, x);
    }
  }

  lemma {:induction false} TakesAppend(p: Pool, a: seq<Action>, b: seq<Action>)
    requires Inv(p)
    ensures Takes(p, a + b) == Takes(p, a) + Takes(Run(p, a), b)
    decreases |b|
  {
    if b == [] {
      assert a + b == a;
    } else {
      hide Inv, Step, TakesSlot, Run, Takes;
      var front, x := b[..|b| - 1], b[|b| - 1];
      assert a + b == (a + front) + [x] && b == front + [x];
      TakesAppend(p, a, front);
      RunAppend(p, a, front);
      OneMore(p, a + front, x);
      OneMore(Run(p, a), front, x);
    }
  }

  // One enqueue, with and without its last step.
  lemma EnqueueSteps(p: Pool, payload: Payload)
    requires Inv(p) && p.producer.Ready? && |payload| <= p.maxLen && p.freeq != []
    ensures var three, t := [Take(payload), Copy, Size], Take(payload);
            && Run(p, three) == Step(Step(Step(p, t), Copy), Size) && Takes(p, three) == 1
            && Run(p, three + [Publish]) == Step(Step(Step(Step(p, t), Copy), Size), Publish)
            && Takes(p, three + [Publish]) == 1
  {
    hide Inv, Step, Run, Takes;
    var t := Take(payload);
    NoActions(p);
    OneMore(p, [], t);
    OneMore(p, [t], Copy);
    OneMore(p, [t, Copy], Size);
    OneMore(p, [t, Copy, Size], Publish);
    assert [] + [t] == [t] && [t] + [Copy] == [t, Copy] && [t, Copy] + [Size] == [t, Copy, Size];
  }

  lemma FillHead(p: Pool, payload: Payload)
    requires Inv(p) && p.producer.Ready? && |payload| <= p.maxLen && p.freeq != []
    ensures var run := [Take(payload), Copy, Size];
            && p.freeq[0] < p.capacity
            && LengthAt(Run(p, run), p.freeq[0]) == |payload| && Takes(p, run) == 1
  {
    EnqueueSteps(p, payload);
    hide Partitioned, DataOk, Run;
  }

  lemma WholeEnqueue(p: Pool, s: nat, j: nat)
    requires Inv(p) && p.producer.Ready? && FreeAt(p, s, j) && j > 0
    ensures var one := OneEnqueue();
            var q := Run(p, one);
            && q.producer.Ready? && q.maxLen == p.maxLen && FreeAt(q, s, j - 1) && Takes(p, one) == 1
  {
    EnqueueSteps(p, []);
    FourSteps(p, []);
    hide Inv, Step, Run;
  }

  lemma RacingMore(j: nat, payload: Payload)
    requires j > 0
    ensures Racing(j, payload) == OneEnqueue() + Racing(j - 1, payload)
  {
  }

  // Two runs one after the other.
  lemma Chained(p: Pool, a: seq<Action>, b: seq<Action>, s: nat)
    requires Inv(p) && s < p.capacity
    ensures Takes(p, a + b) == Takes(p, a) + Takes(Run(p, a), b)
    ensures LengthAt(Run(p, a + b), s) == LengthAt(Run(Run(p, a), b), s)
  {
    hide Inv, Run, Takes, LengthAt;
    RunAppend(p, a, b);
    TakesAppend(p, a, b);
  }

  // The last of j + 1 more enqueues stores its length in slot s.
  predicate Races(p: Pool, s: nat, j: nat, payload: Payload)
    requires Inv(p) && s < p.capacity
  {
    Takes(p, Racing(j, payload)) == j + 1 && LengthAt(Run(p, Racing(j, payload)), s) == |payload|
  }

  lemma RacesNow(p: Pool, s: nat, payload: Payload)
    requires Inv(p) && p.producer.Ready? && FreeAt(p, s, 0) && |payload| <= p.maxLen
    ensures s < p.capacity && Races(p, s, 0, payload)
  {
    hide Inv, Step, Run, Takes, LengthAt;
    FillHead(p, payload);
  }

  lemma RacesLater(p: Pool, s: nat, j: nat, payload: Payload)
    requires Inv(p) && s < p.capacity && j > 0 && Takes(p, OneEnqueue()) == 1
    requires Races(Run(p, OneEnqueue()), s, j - 1, payload)
    ensures Races(p, s, j, payload)
  {
    hide Inv, Step, Run, Takes, LengthAt, OneEnqueue, Racing;
    RacingMore(j, payload);
    Chained(p, OneEnqueue(), Racing(j - 1, payload), s);
  }

  lemma {:induction false} RacesFromReady(p: Pool, s: nat, j: nat, payload: Payload)
    requires Inv(p) && p.producer.Ready? && FreeAt(p, s, j) && |payload| <= p.maxLen
    ensures s < p.capacity && Races(p, s, j, payload)
    decreases j
  {
    hide Inv, Run, Takes, FreeAt, OneEnqueue, Races;
    FreeSlotExists(p, s, j);
    if j == 0 {
      RacesNow(p, s, payload);
    } else {
      WholeEnqueue(p, s, j);
      RacesFromReady(Run(p, OneEnqueue()), s, j - 1, payload);
      RacesLater(p, s, j, payload);
    }
  }

  // The next step of an enqueue under way.
  function NextOf(p: Pool): Action
  {
    match p.producer
    case Taken(_, _) => Copy
    case Copied(_, _) => Size
    case _ => Publish
  }

  lemma FinishMore(p: Pool)
    requires Shaped(p) && !p.producer.Ready?
    ensures Finish(p) == [NextOf(p)] + Finish(Step(p, NextOf(p))) && !TakesSlot(p, NextOf(p))
  {
    hide Shaped;
  }

  // It takes no slot and leaves the free ring as it is.
  lemma FinishStep(p: Pool, s: nat, j: nat)
    requires Inv(p) && FreeAt(p, s, j) && !p.producer.Ready?
    ensures var q := Step(p, NextOf(p));
            && Inv(q) && FreeAt(q, s, j) && q.maxLen == p.maxLen && q.capacity == p.capacity
            && Finish(p) == [NextOf(p)] + Finish(q) && Run(p, [NextOf(p)]) == q && Takes(p, [NextOf(p)]) == 0
  {
    hide Partitioned, DataOk, FreeAt, Step, TakesSlot, Finish, Run, Takes, NextOf;
    FinishMore(p);
    StillFree(p, NextOf(p), s, j);
    NoActions(p);
    OneMore(p, [], NextOf(p));
    assert [] + [NextOf(p)] == [NextOf(p)];
  }

  lemma {:induction false} Finishes(p: Pool, s: nat, j: nat)
    requires Inv(p) && FreeAt(p, s, j)
    ensures var q := Run(p, Finish(p));
            && q.producer.Ready? && FreeAt(q, s, j) && Takes(p, Finish(p)) == 0
            && q.maxLen == p.maxLen && q.capacity == p.capacity
    decreases |Finish(p)|
  {
    if p.producer.Ready? {
      NoActions(p);
    } else {
      hide Inv, Step, Run, Takes, FreeAt, Finish, NextOf;
      FinishStep(p, s, j);
      var q := Step(p, NextOf(p));
      Finishes(q, s, j);
      RunAppend(p, [NextOf(p)], Finish(q));
      TakesAppend(p, [NextOf(p)], Finish(q));
    }
  }

  // It fails from any state, also in the middle of an enqueue.
  lemma LateReadRaces(p: Pool, s: nat, j: nat, payload: Payload)
    requires Inv(p) && FreeAt(p, s, j) && |payload| <= p.maxLen
    ensures var actions := Finish(p) + Racing(j, payload);
            Takes(p, actions) == j + 1 && s < p.capacity && LengthAt(Run(p, actions), s) == |payload|
  {
    hide Inv, Step, Run, Takes, FreeAt, LengthAt, Finish, Racing;
    Finishes(p, s, j);
    RacesFromReady(Run(p, Finish(p)), s, j, payload);
    FreeSlotExists(p, s, j);
    Chained(p, Finish(p), Racing(j, payload), s);
  }

  // The bound is exact: reading late is right however the cores interleave if and only if no more than j
  // enqueues get a slot meanwhile.
  lemma LateReadBound(p: Pool, s: nat, j: nat, n: nat)
    requires Inv(p) && FreeAt(p, s, j) && s < p.capacity && p.maxLen > 0
    ensures (forall actions: seq<Action> :: Takes(p, actions) <= n ==>
               LengthAt(Run(p, actions), s) == LengthAt(p, s)) <==> n <= j
  {
    hide Inv, FreeAt, Run, Takes, LengthAt;
    if n <= j {
      forall actions: seq<Action> | Takes(p, actions) <= n
        ensures LengthAt(Run(p, actions), s) == LengthAt(p, s)
      {
        LateReadIsSafe(p, actions, s, j);
      }
    } else {
      var other: Payload := if LengthAt(p, s) == 0 then [0] else [];
      LateReadRaces(p, s, j, other);
      assert Takes(p, Finish(p) + Racing(j, other)) <= n;
    }
  }

  // The scan-code queue (kb_monitor.c:46) just after its only item was returned: the slot is last of 31, so
  // the length read late is right unless all 31 slots are taken before.
  lemma ScanCodeRead(code: Payload, n: nat)
    requires |code| <= 16
    ensures var q := OneReturned(code);
            && Inv(q) && q.received == [code]
            && ((forall actions: seq<Action> :: Takes(q, actions) <= n ==> LengthAt(Run(q, actions), 0) == |code|)
                <==> n <= 30)
  {
    hide Inv, Run, Takes, LengthAt;
    var q := OneReturned(code);
    LateReadBound(q, 0, 30, n);
  }

  function OneReturned(code: Payload): (q: Pool)
    requires |code| <= 16
    ensures Inv(q) && q.producer.Ready? && FreeAt(q, 0, 30) && q.capacity == 31 && q.maxLen == 16
    ensures q.received == [code] && LengthAt(q, 0) == |code|
  {
    InitInv(32, 16);
    var p := Init(32, 16);
    FourSteps(p, code);
    var sent := Step(Step(Step(Step(p, Take(code)), Copy), Size), Publish);
    EnqueueKeepsInv(p, code);
    OneItem(sent, code);
    Step(Step(sent, Receive), Release(0))
  }

  lemma EnqueueKeepsInv(p: Pool, payload: Payload)
    requires Inv(p)
    ensures Inv(Step(p, Take(payload))) && Inv(Step(Step(p, Take(payload)), Copy))
    ensures Inv(Step(Step(Step(p, Take(payload)), Copy), Size))
    ensures Inv(Step(Step(Step(Step(p, Take(payload)), Copy), Size), Publish))
  {
    hide Shaped, Partitioned, DataOk, Step;
    StepKeepsInv(p, Take(payload));
    StepKeepsInv(Step(p, Take(payload)), Copy);
    StepKeepsInv(Step(Step(p, Take(payload)), Copy), Size);
    StepKeepsInv(Step(Step(Step(p, Take(payload)), Copy), Size), Publish);
  }

  // The single item is received and its slot returned to the end of the free ring.
  lemma OneItem(p: Pool, code: Payload)
    requires Inv(p) && p.producer.Ready? && p.itemq == [0] && p.held == [] && p.received == []
    requires Content(p, 0) == code && |p.freeq| < p.capacity && p.lens[0] == |code|
    ensures var q := Step(Step(p, Receive), Release(0));
            && Inv(q) && q.producer.Ready? && q.capacity == p.capacity && q.maxLen == p.maxLen
            && FreeAt(q, 0, |p.freeq|) && q.received == [code] && LengthAt(q, 0) == |code|
  {
    StepKeepsInv(p, Receive);
    StepKeepsInv(Step(p, Receive), Release(0));
    hide Partitioned, DataOk;
  }
}
