// The emulated memory card: 32 RAM blocks of 4 KiB, a dirty bit a block, and a timer that
// writes one block back to the card file at a time (main/adapter/memory_card.c).
module MemoryCard {
  import opened Bytes

  const BLOCK_SIZE: nat := 4096
  const BLOCK_CNT: nat := 32
  const CARD_SIZE: nat := 131072
  const BANKSEL_MAX: nat := 4

  type Blocks = b: seq<seq<byte>> | |b| == 32 && forall i :: 0 <= i < 32 ==> |b[i]| == 4096
    witness seq(32, _ => seq(4096, _ => 0))

  // What adapter_q_fb has room for: one slot of its queue is never used (adapter.c:536).
  const FB_SLOTS: nat := 15

  // `dirty` is the set of bit positions of the source's bit mask. `queued` counts the write
  // notifications the feedback task has not handled yet, `others` the slots of the feedback queue
  // taken by anything else; `muted` is rumble_mute, which drops every feedback. `timer` tells whether
  // mc_init created the timer: only a start with bank selection below 4 does, and the bank selection
  // may change later.
  datatype Card = Card(
    ram: Blocks, file: Blocks, dirty: set<nat>, timer: bool, armed: bool,
    queued: nat, others: nat, muted: bool, banksel: nat)

  predicate Valid(c: Card)
  {
    (forall b :: b in c.dirty ==> b < BLOCK_CNT) && (c.armed ==> c.timer)
  }

  predicate Persistent(c: Card) { c.banksel < BANKSEL_MAX }

  // adapter_q_fb takes a notification now; otherwise it drops it without a word.
  predicate Heard(c: Card)
  {
    !c.muted && c.queued + c.others < FB_SLOTS
  }

  // Reads and writes never cross a block boundary.
  predicate InBlock(addr: nat, size: nat)
  {
    addr < CARD_SIZE && addr % BLOCK_SIZE + size <= BLOCK_SIZE
  }

  function WriteBlocks(ram: Blocks, addr: nat, data: seq<byte>): Blocks
    requires InBlock(addr, |data|)
  {
    var b := addr / BLOCK_SIZE;
    ram[b := Overwrite(ram[b], addr % BLOCK_SIZE, data)]
  }

  function ReadBlocks(ram: Blocks, addr: nat, size: nat): seq<byte>
    requires InBlock(addr, size)
  {
    ram[addr / BLOCK_SIZE][addr % BLOCK_SIZE..addr % BLOCK_SIZE + size]
  }

  // The card as one flat array.
  function Flat(ram: Blocks): (f: seq<byte>)
    ensures |f| == CARD_SIZE
    ensures forall i :: 0 <= i < CARD_SIZE ==> f[i] == ram[i / BLOCK_SIZE][i % BLOCK_SIZE]
  {
    seq(CARD_SIZE, (i: int) requires 0 <= i < CARD_SIZE => ram[i / BLOCK_SIZE][i % BLOCK_SIZE])
  }

  // Block-local reads and writes are reads and writes of the flat array.
  lemma WriteRefinesFlat(ram: Blocks, addr: nat, data: seq<byte>)
    requires InBlock(addr, |data|)
    ensures addr + |data| <= CARD_SIZE
    ensures Flat(WriteBlocks(ram, addr, data)) == Overwrite(Flat(ram), addr, data)
  {
    forall i | 0 <= i < CARD_SIZE
      ensures Flat(WriteBlocks(ram, addr, data))[i] == Overwrite(Flat(ram), addr, data)[i]
    {
      var b := addr / BLOCK_SIZE;
      if addr <= i < addr + |data| {
        assert i / BLOCK_SIZE == b && i % BLOCK_SIZE == addr % BLOCK_SIZE + (i - addr);
      } else if i / BLOCK_SIZE == b {
        assert i - addr == i % BLOCK_SIZE - addr % BLOCK_SIZE;
      }
    }
  }

  lemma ReadRefinesFlat(ram: Blocks, addr: nat, size: nat)
    requires InBlock(addr, size)
    ensures addr + size <= CARD_SIZE && ReadBlocks(ram, addr, size) == Flat(ram)[addr..addr + size]
  {
    forall k | 0 <= k < size
      ensures ReadBlocks(ram, addr, size)[k] == Flat(ram)[addr..addr + size][k]
    {
      assert (addr + k) / BLOCK_SIZE == addr / BLOCK_SIZE && (addr + k) % BLOCK_SIZE == addr % BLOCK_SIZE + k;
    }
  }

  // Steps -------------------------------------------------------------------------

  // The least set bit: what __builtin_ffs answers, less one.
  function Lowest(dirty: set<nat>, from: nat): (b: nat)
    requires dirty != {} && forall d :: d in dirty ==> from <= d < BLOCK_CNT
    ensures b in dirty && forall d :: d in dirty ==> b <= d
    decreases BLOCK_CNT - from
  {
    if from in dirty then from
    else
      var d :| d in dirty;
      Lowest(dirty, from + 1)
  }

  datatype Event =
    | Write(addr: nat, data: seq<byte>)         // mc_write
    | Notified                                  // the feedback task handles a write notification
    | Muted(on: bool)                           // rumble feedback is muted or no longer is
    | OtherQueued                               // some other feedback takes a slot of the queue
    | OtherDone                                 // and gives it back
    | Bank(banksel: nat)                        // another bank selection is configured
    | TimerFired(canOpen: bool, canWrite: bool)   // mc_store_spread, with the outcome of its file calls

  predicate Allowed(ev: Event)
  {
    ev.Write? ==> InBlock(ev.addr, |ev.data|)
  }

  function WriteCard(c: Card, addr: nat, data: seq<byte>): Card
    requires InBlock(addr, |data|)
  {
    var w := c.(ram := WriteBlocks(c.ram, addr, data));
    if !Persistent(c) then w
    else
      var marked := w.(dirty := c.dirty + {addr / BLOCK_SIZE});
      if Heard(c) then marked.(queued := c.queued + 1) else marked
  }

  lemma RamWritten(c: Card, addr: nat, data: seq<byte>)
    requires InBlock(addr, |data|)
    ensures WriteCard(c, addr, data).ram == WriteBlocks(c.ram, addr, data)
  {
    hide WriteBlocks;
  }

  // mc_start_update_timer
  function StartTimer(c: Card): Card
  {
    if c.timer then c.(armed := true) else c
  }

  function SpreadOnce(c: Card, canOpen: bool, canWrite: bool): Card
    requires Valid(c)
  {
    if !canOpen || c.dirty == {} then c
    else
      var b := Lowest(c.dirty, 0);
      var d := if canWrite then c.(file := c.file[b := c.ram[b]], dirty := c.dirty - {b}) else c;
      if d.dirty != {} then StartTimer(d) else d
  }

  function Step(c: Card, ev: Event): (r: Card)
    requires Valid(c) && Allowed(ev)
    ensures Valid(r) && r.timer == c.timer
  {
    match ev
    case Write(addr, data) => WriteCard(c, addr, data)
    case Notified => if c.queued == 0 then c else StartTimer(c.(queued := c.queued - 1))
    case Muted(on) => c.(muted := on)
    case OtherQueued => if Heard(c) then c.(others := c.others + 1) else c
    case OtherDone => if c.others == 0 then c else c.(others := c.others - 1)
    case Bank(n) => c.(banksel := n)
    case TimerFired(canOpen, canWrite) => if !c.armed then c else SpreadOnce(c.(armed := false), canOpen, canWrite)
  }

  // A block whose bit is clear is the same in RAM and in the file.
  predicate Synced(c: Card)
  {
    forall b :: 0 <= b < BLOCK_CNT && b !in c.dirty ==> c.file[b] == c.ram[b]
  }

  // As long as something is dirty, a callback is on its way.
  predicate Live(c: Card)
  {
    c.dirty != {} ==> c.armed || c.queued > 0
  }

  // A write that changes a block nobody will write back.
  predicate Unmarked(c: Card, ev: Event)
    requires Allowed(ev)
  {
    && ev.Write? && !Persistent(c) && ev.addr / BLOCK_SIZE !in c.dirty
    && ReadBlocks(c.ram, ev.addr, |ev.data|) != ev.data
  }

  // Nothing else makes file and RAM differ behind a clear bit.
  lemma StepKeepsSynced(c: Card, ev: Event)
    requires Valid(c) && Allowed(ev) && Synced(c)
    ensures Synced(Step(c, ev)) <==> !Unmarked(c, ev)
  {
    if ev.Write? {
      UnpersistedWrite(c, ev.addr, ev.data);
    }
  }

  // Without persistence a write breaks it exactly when it changes a block nobody will write back.
  lemma UnpersistedWrite(c: Card, addr: nat, data: seq<byte>)
    requires Valid(c) && InBlock(addr, |data|) && Synced(c)
    ensures Synced(WriteCard(c, addr, data))
       <==> Persistent(c) || addr / BLOCK_SIZE in c.dirty || ReadBlocks(c.ram, addr, |data|) == data
  {
    var b, off := addr / BLOCK_SIZE, addr % BLOCK_SIZE;
    var before, after := c.ram[b], Overwrite(c.ram[b], off, data);
    assert after == before <==> before[off..off + |data|] == data by {
      if before[off..off + |data|] == data {
        assert after == before;
      } else {
        assert after[off..off + |data|] == data;
      }
    }
  }

  // A callback that cannot open the file, with no notification to come.
  predicate OpenLost(c: Card, ev: Event)
  {
    ev.TimerFired? && c.armed && !ev.canOpen && c.dirty != {} && c.queued == 0
  }

  // A write whose notification is dropped, with no callback and no other notification to come.
  predicate NoticeLost(c: Card, ev: Event)
  {
    ev.Write? && Persistent(c) && !Heard(c) && !c.armed && c.queued == 0
  }

  // The last notification handled without a timer to start.
  predicate TimerMissing(c: Card, ev: Event)
  {
    ev.Notified? && !c.timer && c.queued == 1 && c.dirty != {}
  }

  predicate Lost(c: Card, ev: Event)
  {
    OpenLost(c, ev) || NoticeLost(c, ev) || TimerMissing(c, ev)
  }

  // The write-back stops exactly in these three cases.
  lemma LiveUnlessLost(c: Card, ev: Event)
    requires Valid(c) && Allowed(ev) && Live(c)
    ensures Live(Step(c, ev)) <==> !Lost(c, ev)
  {
  }

  // Once stopped, only a write that is heard makes something happen again.
  lemma RestartsOnHeardWrite(c: Card, ev: Event)
    requires Valid(c) && Allowed(ev) && !Live(c)
    ensures Live(Step(c, ev)) <==> ev.Write? && Persistent(c) && Heard(c)
  {
  }

  // Over a whole run: as long as nothing was lost since the last heard write, a callback or a notification
  // is on its way.
  lemma {:induction false} RunLive(c: Card, evs: seq<Event>)
    requires Valid(c) && Live(c) && forall i :: 0 <= i < |evs| ==> Allowed(evs[i])
    ensures Live(Run(c, evs)) <==> !Stopped(c, evs)
  {
    if evs != [] {
      hide Step, Live, Lost;
      var front, ev := evs[..|evs| - 1], evs[|evs| - 1];
      RunLive(c, front);
      if Live(Run(c, front)) {
        LiveUnlessLost(Run(c, front), ev);
      } else {
        RestartsOnHeardWrite(Run(c, front), ev);
      }
    }
  }

  // Started without a timer the card never reaches its file, whatever is configured, written or handled later.
  lemma {:induction false} NothingStoredWithoutTimer(c: Card, evs: seq<Event>)
    requires Valid(c) && !c.timer && forall i :: 0 <= i < |evs| ==> Allowed(evs[i])
    ensures Run(c, evs).file == c.file && c.dirty <= Run(c, evs).dirty && !Run(c, evs).armed
  {
    if evs != [] {
      hide Step;
      NothingStoredWithoutTimer(c, evs[..|evs| - 1]);
      StepWithoutTimer(Run(c, evs[..|evs| - 1]), evs[|evs| - 1]);
    }
  }

  lemma StepWithoutTimer(c: Card, ev: Event)
    requires Valid(c) && Allowed(ev) && !c.timer
    ensures Step(c, ev).file == c.file && c.dirty <= Step(c, ev).dirty && !Step(c, ev).armed
  {
    hide Heard, InBlock;
  }

  // With one it depends on the start alone: of any card that has its writes heard, a write to bank n reaches
  // the file by way of its notification and the callbacks exactly if the timer was created.
  lemma StoredIfTimer(c: Card, n: nat, addr: nat, data: seq<byte>)
    requires Valid(c) && Synced(c) && c.dirty == {} && !c.armed && c.queued == 0 && Heard(c)
    requires n < BANKSEL_MAX && InBlock(addr, |data|)
    ensures var w := Run(c, [Bank(n), Write(addr, data), Notified]);
            && w.ram == WriteBlocks(c.ram, addr, data) && w.dirty == {addr / BLOCK_SIZE}
            && (Live(w) <==> c.timer) && (Fire(w, 1).dirty == {} <==> c.timer)
            && (c.timer ==> Fire(w, 1).file == w.ram)
  {
    var b, r := Step(c, Bank(n)), Step(Step(c, Bank(n)), Write(addr, data));
    RunThree(c, Bank(n), Write(addr, data), Notified);
    var w := Step(r, Notified);
    assert Fire(w, 0) == w;
    StepKeepsSynced(b, Write(addr, data));
    if c.timer {
      Drained(w);
      assert |w.dirty| == 1;
    }
  }

  lemma RunThree(c: Card, x: Event, y: Event, z: Event)
    requires Valid(c) && Allowed(x) && Allowed(y) && Allowed(z)
    ensures Run(c, [x, y, z]) == Step(Step(Step(c, x), y), z)
  {
    hide Step, Allowed, Valid;
    var two, three := [x, y], [x, y, z];
    assert three[..2] == two && two[..1] == [x] && [x][..0] == [];
    assert Run(c, [x]) == Step(c, x);
    assert Run(c, two) == Step(Run(c, [x]), y);
    assert Run(c, three) == Step(Run(c, two), z);
  }

  // Something was lost, and no heard write came after it.
  predicate Stopped(c: Card, evs: seq<Event>)
    requires Valid(c) && forall i :: 0 <= i < |evs| ==> Allowed(evs[i])
  {
    evs != [] &&
    var front, ev := evs[..|evs| - 1], evs[|evs| - 1];
    var p := Run(c, front);
    if Stopped(c, front) then !(ev.Write? && Persistent(p) && Heard(p)) else Lost(p, ev)
  }

  // No write of the run goes unmarked.
  predicate AllMarked(c: Card, evs: seq<Event>)
    requires Valid(c) && forall i :: 0 <= i < |evs| ==> Allowed(evs[i])
  {
    evs != [] ==>
      AllMarked(c, evs[..|evs| - 1]) && !Unmarked(Run(c, evs[..|evs| - 1]), evs[|evs| - 1])
  }

  lemma {:induction false} RunKeepsSynced(c: Card, evs: seq<Event>)
    requires Valid(c) && Synced(c) && forall i :: 0 <= i < |evs| ==> Allowed(evs[i])
    requires AllMarked(c, evs)
    ensures Synced(Run(c, evs))
  {
    if evs != [] {
      hide Step, Synced, Unmarked;
      RunKeepsSynced(c, evs[..|evs| - 1]);
      StepKeepsSynced(Run(c, evs[..|evs| - 1]), evs[|evs| - 1]);
    }
  }

  // A bank selection that stays below 4 is enough.
  lemma {:induction false} LowBanksMark(c: Card, evs: seq<Event>)
    requires Valid(c) && Persistent(c) && forall i :: 0 <= i < |evs| ==> Allowed(evs[i])
    requires forall i :: 0 <= i < |evs| && evs[i].Bank? ==> evs[i].banksel < BANKSEL_MAX
    ensures AllMarked(c, evs) && Persistent(Run(c, evs))
  {
    if evs != [] {
      var front, ev := evs[..|evs| - 1], evs[|evs| - 1];
      LowBanksMark(c, front);
      LowBankStays(Run(c, front), ev);
      hide Step, Unmarked, Persistent;
    }
  }

  lemma LowBankStays(c: Card, ev: Event)
    requires Valid(c) && Persistent(c) && Allowed(ev) && (ev.Bank? ==> ev.banksel < BANKSEL_MAX)
    ensures Persistent(Step(c, ev)) && !Unmarked(c, ev)
  {
  }

  function Run(c: Card, evs: seq<Event>): (r: Card)
    requires Valid(c) && forall i :: 0 <= i < |evs| ==> Allowed(evs[i])
    ensures Valid(r) && r.timer == c.timer
  {
    if evs == [] then c else Step(Run(c, evs[..|evs| - 1]), evs[|evs| - 1])
  }

  function Fire(c: Card, n: nat): (r: Card)
    requires Valid(c)
    ensures Valid(r)
  {
    if n == 0 then c else Step(Fire(c, n - 1), TimerFired(true, true))
  }

  lemma FireOnce(p: Card)
    requires Valid(p) && Synced(p) && p.armed && p.dirty != {}
    ensures var r := Step(p, TimerFired(true, true));
            && Synced(r) && r.ram == p.ram && |r.dirty| == |p.dirty| - 1 && (r.armed <==> r.dirty != {})
  {
    var b := Lowest(p.dirty, 0);
    assert |p.dirty - {b}| == |p.dirty| - 1;
  }

  // With the timer armed and no more writes, each callback cleans one block and re-arms the timer
  // until the last; the number of dirty bits is exactly the number of callbacks it takes.
  lemma {:induction false} DrainsOneByOne(c: Card, n: nat)
    requires Valid(c) && Synced(c) && c.armed && n <= |c.dirty|
    ensures var r := Fire(c, n);
            && Synced(r) && r.ram == c.ram && |r.dirty| == |c.dirty| - n
            && (r.armed <==> n < |c.dirty| || n == 0)
  {
    if n > 0 {
      hide Lowest;
      DrainsOneByOne(c, n - 1);
      var p := Fire(c, n - 1);
      assert p.dirty != {} && p.armed;
      FireOnce(p);
    }
  }

  lemma Drained(c: Card)
    requires Valid(c) && Synced(c) && c.armed
    ensures Fire(c, |c.dirty|).file == c.ram && Fire(c, |c.dirty|).dirty == {}
    ensures forall n: nat :: n < |c.dirty| ==> Fire(c, n).dirty != {}
  {
    DrainsOneByOne(c, |c.dirty|);
    forall n: nat | n < |c.dirty|
      ensures Fire(c, n).dirty != {}
    {
      DrainsOneByOne(c, n);
    }
  }

  // The source's form ---------------------------------------------------------------

  class Store {
    const buffer: array2<byte>
    var file: Blocks
    var dirty: set<nat>
    const timer: bool
    var armed: bool
    var queued: nat
    var others: nat
    var muted: bool
    var banksel: nat

    ghost predicate Shaped()
    {
      buffer.Length0 == BLOCK_CNT && buffer.Length1 == BLOCK_SIZE
    }

    ghost function Block(b: nat): (s: seq<byte>)
      requires Shaped() && b < BLOCK_CNT
      reads buffer
      ensures |s| == BLOCK_SIZE && forall k :: 0 <= k < BLOCK_SIZE ==> s[k] == buffer[b, k]
    {
      seq(BLOCK_SIZE, (k: int) requires 0 <= k < BLOCK_SIZE && Shaped() reads buffer => buffer[b, k])
    }

    ghost function Ram(): (r: Blocks)
      requires Shaped()
      reads buffer
      ensures forall b :: 0 <= b < BLOCK_CNT ==> r[b] == Block(b)
    {
      seq(BLOCK_CNT, (b: int) requires 0 <= b < BLOCK_CNT && Shaped() reads buffer => Block(b))
    }

    ghost function State(): Card
      requires Shaped()
      reads this, buffer
    {
      Card(Ram(), file, dirty, timer, armed, queued, others, muted, banksel)
    }

    method Read(addr: nat, size: nat) returns (data: seq<byte>)
      requires Shaped() && InBlock(addr, size)
      ensures data == ReadBlocks(Ram(), addr, size)
    {
      var b, off := addr / BLOCK_SIZE, addr % BLOCK_SIZE;
      data := [];
      for i := 0 to size
        invariant data == Block(b)[off..off + i]
      {
        data := data + [buffer[b, off + i]];
      }
    }

    method Write(addr: nat, data: seq<byte>)
      requires Shaped() && InBlock(addr, |data|)
      modifies this`dirty, this`queued, buffer
      ensures State() == WriteCard(old(State()), addr, data)
    {
      var block := addr / BLOCK_SIZE;
      CopyIn(block, addr % BLOCK_SIZE, data);
      if banksel < BANKSEL_MAX {
        dirty := dirty + {block};
        QueueNotice();
      }
    }

    // adapter_q_fb
    method QueueNotice()
      modifies this`queued
      ensures queued == old(queued) + if !muted && old(queued) + others < FB_SLOTS then 1 else 0
    {
      if !muted {
        if queued + others < FB_SLOTS {
          queued := queued + 1;
        }
      }
    }

    method CopyIn(b: nat, off: nat, data: seq<byte>)
      requires Shaped() && b < BLOCK_CNT && off + |data| <= BLOCK_SIZE
      modifies buffer
      ensures Ram() == old(Ram())[b := Overwrite(old(Ram())[b], off, data)]
    {
      for i := 0 to |data|
        invariant forall k :: off <= k < off + i ==> buffer[b, k] == data[k - off]
        invariant forall x, k :: 0 <= x < BLOCK_CNT && 0 <= k < BLOCK_SIZE && !(x == b && off <= k < off + i) ==>
                    buffer[x, k] == old(buffer[x, k])
      {
        buffer[b, off + i] := data[i];
      }
      assert Block(b) == Overwrite(old(Block(b)), off, data);
      assert forall x :: 0 <= x < BLOCK_CNT && x != b ==> Block(x) == old(Block(x));
    }

    // mc_start_update_timer: nothing to start if mc_init did not create it.
    method StartUpdateTimer()
      requires Shaped()
      modifies this`armed
      ensures State() == StartTimer(old(State()))
    {
      if timer {
        armed := true;
      }
    }

    // The feedback task (host.c:211-224) takes a write notification and calls mc_storage_update.
    method HandleNotice()
      requires Shaped() && Valid(State()) && queued > 0
      modifies this`armed, this`queued
      ensures State() == Step(old(State()), Notified)
    {
      queued := queued - 1;
      StartUpdateTimer();
    }

    // mc_store_cb: one block of the dirty ones goes to the file.
    method StoreSpread(canOpen: bool, canWrite: bool) returns (ret: int)
      requires Shaped() && Valid(State())
      modifies this
      ensures State() == SpreadOnce(old(State()), canOpen, canWrite)
      ensures ret == if canOpen && old(dirty) != {} && canWrite then 0 else -1
    {
      ret := -1;
      if canOpen {
        if dirty != {} {
          var block := Lowest(dirty, 0);
          if canWrite {
            var data := Read(block * BLOCK_SIZE, BLOCK_SIZE);
            assert data == Block(block);
            file := file[block := data];
            ret := 0;
            dirty := dirty - {block};
          }
          if dirty != {} {
            StartUpdateTimer();
          }
        }
      }
    }

    // mc_store: the whole card, when the file is first created. Opening empties the file, and blocks follow each
    // other only as long as none fails; `torn` stands for whatever the rest of the file then reads as.
    method StoreWhole(canOpen: bool, wrote: seq<bool>, torn: Blocks) returns (ret: int)
      requires Shaped() && |wrote| == BLOCK_CNT
      modifies this`file, this`dirty
      ensures ret == if canOpen && AllDone(wrote) then 0 else -1
      ensures file == if canOpen then Stored(Ram(), wrote, torn) else old(file)
      ensures dirty == if ret == 0 then {} else old(dirty)
    {
      ret := -1;
      if canOpen {
        var count := StoreBlocks(wrote, torn);
        if count == BLOCK_CNT {
          ret := 0;
          dirty := {};
        }
      }
    }

    method StoreBlocks(wrote: seq<bool>, torn: Blocks) returns (count: nat)
      requires Shaped() && |wrote| == BLOCK_CNT
      modifies this`file
      ensures file == Stored(Ram(), wrote, torn) && (count == BLOCK_CNT <==> AllDone(wrote))
    {
      hide AllDone;
      ghost var ram := Ram();
      count := 0;
      file := torn;
      NoneDone(wrote);
      for i := 0 to BLOCK_CNT
        invariant count <= i && (count == i <==> AllDone(wrote[..i]))
        invariant forall b :: 0 <= b < BLOCK_CNT ==>
                    file[b] == if b < i && AllDone(wrote[..b + 1]) then ram[b] else torn[b]
      {
        DoneMore(wrote, i);
        if wrote[i] {
          if count == i {
            var data := Read(i * BLOCK_SIZE, BLOCK_SIZE);
            WholeBlock(ram, i);
            file := file[i := data];
          }
          count := count + 1;
        }
      }
    }
  }

  lemma WholeBlock(ram: Blocks, b: nat)
    requires b < BLOCK_CNT
    ensures ReadBlocks(ram, b * BLOCK_SIZE, BLOCK_SIZE) == ram[b]
  {
  }

  predicate AllDone(wrote: seq<bool>)
  {
    forall b :: 0 <= b < |wrote| ==> wrote[b]
  }

  lemma NoneDone(wrote: seq<bool>)
    ensures AllDone(wrote[..0]) && wrote[..|wrote|] == wrote
  {
  }

  lemma DoneMore(wrote: seq<bool>, i: nat)
    requires i < |wrote|
    ensures AllDone(wrote[..i + 1]) <==> AllDone(wrote[..i]) && wrote[i]
  {
    assert wrote[..i + 1] == wrote[..i] + [wrote[i]];
  }

  // The file as far as it was written without a failure.
  function Stored(ram: Blocks, wrote: seq<bool>, torn: Blocks): (f: Blocks)
    requires |wrote| == BLOCK_CNT
    ensures forall b :: 0 <= b < BLOCK_CNT ==> f[b] == if AllDone(wrote[..b + 1]) then ram[b] else torn[b]
  {
    seq(BLOCK_CNT, (b: int) requires 0 <= b < BLOCK_CNT => if AllDone(wrote[..b + 1]) then ram[b] else torn[b])
  }

  // A successful first store starts the card in step with its file.
  lemma StoredWhole(c: Card, wrote: seq<bool>, torn: Blocks)
    requires Valid(c) && |wrote| == BLOCK_CNT && AllDone(wrote)
    ensures Stored(c.ram, wrote, torn) == c.ram
    ensures Synced(c.(file := Stored(c.ram, wrote, torn), dirty := {}))
  {
    assert forall b :: 0 <= b < BLOCK_CNT ==> Stored(c.ram, wrote, torn)[b] == c.ram[b];
  }
}
