// The sixteen-entry table of bonded LE devices (main/bluetooth/host.c). The BR/EDR table has the same
// shape: its store is StoreLtk with the whole notification as the value.
module LinkKeys {
  import opened Bytes

  type Addr = a: seq<byte> | |a| == 7 witness [0, 0, 0, 0, 0, 0, 0]

  const NONE: Addr := [0, 0, 0, 0, 0, 0, 0]
  const SLOTS: nat := 16
  const ZERO_LTK: seq<byte> := [0, 0, 0, 0, 0, 0, 0, 0, 0, 0, 0, 0, 0, 0, 0, 0]
  const ZERO_IDENT: seq<byte> := [0, 0, 0, 0, 0, 0, 0, 0, 0, 0]

  datatype Entry = Entry(addr: Addr, ltk: seq<byte>, ident: seq<byte>)

  datatype Table = Table(index: nat, keys: seq<Entry>)

  predicate Valid(t: Table)
  {
    t.index < SLOTS && |t.keys| == SLOTS
  }

  datatype Keys = NotFound | Found(ltk: seq<byte>, ident: seq<byte>)

  // The last entry among the first n with this address, or -1.
  function FindLast(keys: seq<Entry>, a: Addr, n: nat): (i: int)
    requires n <= |keys|
    ensures -1 <= i < n
    ensures 0 <= i ==> keys[i].addr == a
    ensures forall j :: i < j < n ==> keys[j].addr != a
  {
    if n == 0 then -1 else if keys[n - 1].addr == a then n - 1 else FindLast(keys, a, n - 1)
  }

  // Where a store for this address goes.
  function Slot(t: Table, a: Addr): (i: nat)
    requires Valid(t)
    ensures i < SLOTS
  {
    var i := FindLast(t.keys, a, SLOTS);
    if i >= 0 then i else t.index
  }

  function Put(t: Table, a: Addr, e: Entry): Table
    requires Valid(t)
  {
    var i := Slot(t, a);
    Table(if i == t.index then (t.index + 1) % SLOTS else t.index, t.keys[i := e])
  }

  datatype Op = StoreLtk(addr: Addr, ltk: seq<byte>) | StoreIdent(addr: Addr, ident: seq<byte>) | Clear(addr: Addr)

  function Cleared(keys: seq<Entry>, a: Addr): (r: seq<Entry>)
    ensures |r| == |keys|
  {
    seq(|keys|, (i: int) requires 0 <= i < |keys| =>
      if keys[i].addr == a then Entry(NONE, ZERO_LTK, ZERO_IDENT) else keys[i])
  }

  function Apply(t: Table, op: Op): (r: Table)
    requires Valid(t)
    ensures Valid(r)
  {
    match op
    case StoreLtk(a, ltk) => Put(t, a, t.keys[Slot(t, a)].(addr := a, ltk := ltk))
    case StoreIdent(a, ident) => Put(t, a, t.keys[Slot(t, a)].(addr := a, ident := ident))
    case Clear(a) => t.(keys := Cleared(t.keys, a))
  }

  function Load(t: Table, a: Addr): Keys
    requires Valid(t)
  {
    var i := FindLast(t.keys, a, SLOTS);
    if i < 0 then NotFound else Found(t.keys[i].ltk, t.keys[i].ident)
  }

  // The table as the source keeps it.
  class KeyTable {
    var index: nat
    const keys: array<Entry>

    function State(): Table
      reads this, keys
    {
      Table(index, keys[..])
    }

    constructor ()
      ensures Valid(State()) && fresh(keys)
      ensures State() == Table(0, seq(SLOTS, _ => Entry(NONE, ZERO_LTK, ZERO_IDENT)))
    {
      index := 0;
      keys := new Entry[SLOTS](_ => Entry(NONE, ZERO_LTK, ZERO_IDENT));
    }

    // The scan at the head of every store: the last matching entry, else the replacement index.
    method FindSlot(a: Addr) returns (slot: nat)
      requires Valid(State())
      ensures slot == Slot(State(), a)
    {
      slot := index;
      for i := 0 to SLOTS
        invariant slot == if FindLast(keys[..], a, i) >= 0 then FindLast(keys[..], a, i) else index
      {
        if keys[i].addr == a {
          slot := i;
        }
      }
    }

    method Advance(slot: nat)
      requires Valid(State())
      modifies this`index
      ensures index == if slot == old(index) then (old(index) + 1) % SLOTS else old(index)
    {
      if slot == index {
        index := index + 1;
        index := index % SLOTS;
      }
    }

    method StoreLeLtk(a: Addr, ltk: seq<byte>)
      requires Valid(State())
      modifies this`index, keys
      ensures State() == Apply(old(State()), StoreLtk(a, ltk))
    {
      var slot := FindSlot(a);
      keys[slot] := keys[slot].(ltk := ltk);
      keys[slot] := keys[slot].(addr := a);
      Advance(slot);
    }

    method StoreLeIdent(a: Addr, ident: seq<byte>)
      requires Valid(State())
      modifies this`index, keys
      ensures State() == Apply(old(State()), StoreIdent(a, ident))
    {
      var slot := FindSlot(a);
      keys[slot] := keys[slot].(ident := ident);
      keys[slot] := keys[slot].(addr := a);
      Advance(slot);
    }

    method ClearLe(a: Addr)
      requires Valid(State())
      modifies keys
      ensures State() == Apply(old(State()), Clear(a))
    {
      ghost var before := keys[..];
      for i := 0 to SLOTS
        invariant forall j :: 0 <= j < i ==> keys[j] == Cleared(before, a)[j]
        invariant forall j :: i <= j < SLOTS ==> keys[j] == before[j]
      {
        if keys[i].addr == a {
          keys[i] := keys[i].(addr := NONE);
          keys[i] := keys[i].(ltk := ZERO_LTK);
          keys[i] := keys[i].(ident := ZERO_IDENT);
        }
      }
    }

    method LoadLe(a: Addr) returns (r: Keys)
      requires Valid(State())
      ensures r == Load(State(), a)
    {
      r := NotFound;
      for i := 0 to SLOTS
        invariant var f := FindLast(keys[..], a, i);
                  r == if f >= 0 then Found(keys[f].ltk, keys[f].ident) else NotFound
      {
        if keys[i].addr == a {
          r := Found(keys[i].ltk, keys[i].ident);
        }
      }
    }
  }

  // Histories -------------------------------------------------------------------

  function Run(t: Table, ops: seq<Op>): (r: Table)
    requires Valid(t)
    ensures Valid(r)
  {
    if ops == [] then t else Apply(Run(t, ops[..|ops| - 1]), ops[|ops| - 1])
  }

  function Empty(): (t: Table)
    ensures Valid(t)
  {
    Table(0, seq(SLOTS, _ => Entry(NONE, ZERO_LTK, ZERO_IDENT)))
  }

  predicate Unique(t: Table)
    requires Valid(t)
  {
    forall i, j :: 0 <= i < j < SLOTS && t.keys[i].addr != NONE ==> t.keys[i].addr != t.keys[j].addr
  }

  lemma ApplyKeepsUnique(t: Table, op: Op)
    requires Valid(t) && Unique(t)
    ensures Unique(Apply(t, op))
  {
  }

  // No history of stores and clears ever files one device twice.
  lemma {:induction false} AddressesStayUnique(ops: seq<Op>)
    ensures Unique(Run(Empty(), ops))
  {
    if ops != [] {
      AddressesStayUnique(ops[..|ops| - 1]);
      ApplyKeepsUnique(Run(Empty(), ops[..|ops| - 1]), ops[|ops| - 1]);
    }
  }

  lemma {:induction false} SameFind(p: seq<Entry>, q: seq<Entry>, b: Addr, n: nat)
    requires n <= |p| && n <= |q| && forall i :: 0 <= i < n ==> (p[i].addr == b <==> q[i].addr == b)
    ensures FindLast(p, b, n) == FindLast(q, b, n)
  {
    if n > 0 {
      SameFind(p, q, b, n - 1);
    }
  }

  // A lookup answers with what was stored last, and other devices are either left alone or evicted.
  lemma StoreThenLoad(t: Table, op: Op, b: Addr)
    requires Valid(t) && Unique(t) && op.addr != NONE && b != NONE && !op.Clear?
    ensures var r := Apply(t, op);
      if b == op.addr then
        && Load(r, b).Found?
        && (op.StoreLtk? ==> Load(r, b).ltk == op.ltk)
        && (op.StoreIdent? ==> Load(r, b).ident == op.ident)
      else Load(r, b) == if Evicts(t, op.addr, b) then NotFound else Load(t, b)
  {
    var r, s := Apply(t, op), Slot(t, op.addr);
    if b == op.addr {
      FoundAt(r.keys, b, s);
    } else if !Evicts(t, op.addr, b) {
      SameFind(t.keys, r.keys, b, SLOTS);
    }
  }

  lemma ClearThenLoad(t: Table, a: Addr, b: Addr)
    requires Valid(t) && a != NONE && b != NONE
    ensures Load(Apply(t, Clear(a)), b) == if b == a then NotFound else Load(t, b)
  {
    if b != a {
      SameFind(t.keys, Cleared(t.keys, a), b, SLOTS);
    }
  }

  // Nothing of the device is left: address, key and identification of its entries are all zeros. All other entries and
  // the replacement index stay as they are.
  lemma ClearForgets(t: Table, a: Addr)
    requires Valid(t)
    ensures var r := Apply(t, Clear(a));
            && r.index == t.index
            && forall i :: 0 <= i < 16 ==>
                 if t.keys[i].addr == a then
                   && |r.keys[i].addr| == 7 && |r.keys[i].ltk| == 16 && |r.keys[i].ident| == 10
                   && (forall k :: 0 <= k < 7 ==> r.keys[i].addr[k] == 0)
                   && (forall k :: 0 <= k < 16 ==> r.keys[i].ltk[k] == 0)
                   && (forall k :: 0 <= k < 10 ==> r.keys[i].ident[k] == 0)
                 else r.keys[i] == t.keys[i]
  {
    assert ZERO_LTK == seq(16, _ => 0 as byte) && ZERO_IDENT == seq(10, _ => 0 as byte);
  }

  // Storing a costs b its entry: a is not in the table and the replacement index is at b.
  predicate Evicts(t: Table, a: Addr, b: Addr)
    requires Valid(t)
  {
    FindLast(t.keys, a, SLOTS) < 0 && t.keys[t.index].addr == b
  }

  lemma FindUnique(t: Table, a: Addr)
    requires Valid(t) && Unique(t) && a != NONE
    ensures forall i :: 0 <= i < SLOTS && t.keys[i].addr == a ==> FindLast(t.keys, a, SLOTS) == i
  {
  }

  // The two halves of a bond meet in one entry.
  lemma LtkThenIdent(t: Table, a: Addr, ltk: seq<byte>, ident: seq<byte>)
    requires Valid(t)
    ensures var r := Apply(Apply(t, StoreLtk(a, ltk)), StoreIdent(a, ident));
            && Load(r, a) == Found(ltk, ident)
            && (forall i :: 0 <= i < SLOTS && i != Slot(t, a) ==> r.keys[i] == t.keys[i])
  {
    var s := Slot(t, a);
    var t1 := Apply(t, StoreLtk(a, ltk));
    assert FindLast(t1.keys, a, SLOTS) == s by { FoundAt(t1.keys, a, s); }
    var t2 := Apply(t1, StoreIdent(a, ident));
    assert FindLast(t2.keys, a, SLOTS) == s by { FoundAt(t2.keys, a, s); }
  }

  lemma FoundAt(keys: seq<Entry>, a: Addr, s: nat)
    requires s < |keys| == SLOTS && keys[s].addr == a && forall j :: s < j < SLOTS ==> keys[j].addr != a
    ensures FindLast(keys, a, SLOTS) == s
  {
  }

  function Stores(ops: seq<Op>): nat
  {
    if ops == [] then 0
    else Stores(ops[..|ops| - 1]) + (if ops[|ops| - 1].Clear? then 0 else 1)
  }

  predicate NeverCleared(ops: seq<Op>, a: Addr)
  {
    forall i :: 0 <= i < |ops| ==> !(ops[i].Clear? && ops[i].addr == a)
  }

  predicate NeverStored(ops: seq<Op>, a: Addr)
  {
    forall i :: 0 <= i < |ops| ==> !(!ops[i].Clear? && ops[i].addr == a)
  }

  // How far the replacement index is past the entry after slot s.
  function Gone(t: Table, s: nat): nat
    requires Valid(t) && s < SLOTS
  {
    if t.index > s then t.index - s - 1 else t.index + SLOTS - s - 1
  }

  // An entry just filed in slot s, when the replacement index moved past it, is still there
  // after any fifteen stores.
  lemma {:induction false} SurvivesFifteenStores(t: Table, s: nat, a: Addr, ops: seq<Op>)
    requires Valid(t) && Unique(t) && s < SLOTS && a != NONE && t.keys[s].addr == a && t.index == (s + 1) % SLOTS
    requires NeverCleared(ops, a) && Stores(ops) <= 15
    ensures var r := Run(t, ops);
            && Unique(r) && r.keys[s].addr == a && Gone(r, s) <= Stores(ops)
            && (NeverStored(ops, a) ==> r.keys[s] == t.keys[s])
  {
    if ops != [] {
      var front, op := ops[..|ops| - 1], ops[|ops| - 1];
      SurvivesFifteenStores(t, s, a, front);
      var r := Run(t, front);
      ApplyKeepsUnique(r, op);
      OneMoreStore(r, s, a, op, Stores(front));
      assert NeverStored(ops, a) ==> NeverStored(front, a);
    }
  }

  lemma OneMoreStore(r: Table, s: nat, a: Addr, op: Op, n: nat)
    requires Valid(r) && Unique(r) && s < SLOTS && a != NONE && r.keys[s].addr == a
    requires Gone(r, s) <= n && (op.Clear? ==> op.addr != a) && (!op.Clear? ==> n < 15)
    ensures Apply(r, op).keys[s].addr == a
    ensures op.Clear? || op.addr != a ==> Apply(r, op).keys[s] == r.keys[s]
    ensures Gone(Apply(r, op), s) <= if op.Clear? then n else n + 1
  {
    if !op.Clear? {
      assert r.index != s;
    }
  }

  // A device new to the table is filed where the replacement index stood, and the index moves past it.
  lemma NewcomerIsFiled(t: Table, a: Addr, ltk: seq<byte>, ops: seq<Op>)
    requires Valid(t) && Unique(t) && a != NONE && FindLast(t.keys, a, SLOTS) < 0
    requires NeverCleared(ops, a) && NeverStored(ops, a) && Stores(ops) <= 15
    ensures Load(Run(Apply(t, StoreLtk(a, ltk)), ops), a) == Load(Apply(t, StoreLtk(a, ltk)), a)
    ensures Load(Apply(t, StoreLtk(a, ltk)), a).Found? && Load(Apply(t, StoreLtk(a, ltk)), a).ltk == ltk
  {
    var t1 := Apply(t, StoreLtk(a, ltk));
    ApplyKeepsUnique(t, StoreLtk(a, ltk));
    SurvivesFifteenStores(t1, t.index, a, ops);
    FindUnique(t1, a);
    FindUnique(Run(t1, ops), a);
  }

  // Every operation files a device the table does not hold at that moment.
  predicate AllNew(t: Table, ops: seq<Op>)
    requires Valid(t)
  {
    ops == [] ||
    var front, op := ops[..|ops| - 1], ops[|ops| - 1];
    AllNew(t, front) && !op.Clear? && op.addr != NONE && FindLast(Run(t, front).keys, op.addr, SLOTS) < 0
  }

  function Later(i: nat, n: nat): nat { (i + n) % SLOTS }

  lemma LaterSteps(s: nat, n: nat)
    requires s < SLOTS
    ensures Later(s, 0) == s && Later(s, n + 1) == (Later(s, n) + 1) % SLOTS
  {
  }

  lemma OnceRound(s: nat, n: nat)
    requires s < SLOTS
    ensures n < 15 ==> Later(Later(s, 1), n) != s
    ensures Later(Later(s, 1), 15) == s
  {
  }

  // Each of them takes the slot at the replacement index, so the entry before that index goes last.
  lemma {:induction false} NewStores(t: Table, s: nat, a: Addr, ops: seq<Op>)
    requires Valid(t) && Unique(t) && s < SLOTS && a != NONE && t.keys[s].addr == a && t.index == Later(s, 1)
    requires AllNew(t, ops) && |ops| <= 15
    ensures var r := Run(t, ops);
            Unique(r) && r.keys[s] == t.keys[s] && r.index == Later(t.index, |ops|)
  {
    hide Apply, Unique, FindLast, AllNew, Later;
    if ops == [] {
      LaterSteps(t.index, 0);
    } else {
      var front, op := ops[..|ops| - 1], ops[|ops| - 1];
      LastOp(t, ops);
      NewStores(t, s, a, front);
      OnceRound(s, |front|);
      OneNewStore(Run(t, front), op);
      LaterSteps(t.index, |front|);
    }
  }

  lemma OneNewStore(r: Table, op: Op)
    requires Valid(r) && Unique(r) && !op.Clear? && FindLast(r.keys, op.addr, SLOTS) < 0
    ensures Unique(Apply(r, op)) && Apply(r, op).index == (r.index + 1) % SLOTS
    ensures forall i :: 0 <= i < SLOTS && i != r.index ==> Apply(r, op).keys[i] == r.keys[i]
  {
    ApplyKeepsUnique(r, op);
  }

  lemma LastOp(t: Table, ops: seq<Op>)
    requires Valid(t) && ops != []
    ensures var front, op := ops[..|ops| - 1], ops[|ops| - 1];
            && Run(t, ops) == Apply(Run(t, front), op)
            && (AllNew(t, ops) ==>
                  AllNew(t, front) && !op.Clear? && op.addr != NONE && FindLast(Run(t, front).keys, op.addr, SLOTS) < 0)
  {
    hide Apply, FindLast;
  }

  // After fifteen further new devices a newcomer is still there; the sixteenth evicts it and nobody else.
  lemma {:induction false} SixteenthEvicts(t: Table, a: Addr, ltk: seq<byte>, ops: seq<Op>, b: Addr)
    requires Valid(t) && Unique(t) && a != NONE && FindLast(t.keys, a, SLOTS) < 0
    requires |ops| == 16 && ops[15].addr != a && AllNew(Apply(t, StoreLtk(a, ltk)), ops) && b != NONE
    ensures var t1 := Apply(t, StoreLtk(a, ltk));
            var r := Run(t1, ops[..15]);
            && Load(r, a) == Load(t1, a) && Load(r, a).Found? && Load(r, a).ltk == ltk
            && Load(Run(t1, ops), a) == NotFound
            && (b != a && b != ops[15].addr ==> Load(Run(t1, ops), b) == Load(r, b))
  {
    var t1 := Apply(t, StoreLtk(a, ltk));
    var s, r := t.index, Run(t1, ops[..15]);
    Filed(t, a, ltk);
    LastOp(t1, ops);
    hide Apply, Unique, FindLast, Run, AllNew, Load, Evicts, Later;
    NewStores(t1, s, a, ops[..15]);
    LoadsSlot(t1, s, a);
    LoadsSlot(r, s, a);
    OnceRound(s, 0);
    OneEvicted(r, s, a, ops[15], b);
  }

  lemma Filed(t: Table, a: Addr, ltk: seq<byte>)
    requires Valid(t) && Unique(t) && FindLast(t.keys, a, SLOTS) < 0
    ensures var t1, s := Apply(t, StoreLtk(a, ltk)), t.index;
            Unique(t1) && t1.keys[s].addr == a && t1.keys[s].ltk == ltk && t1.index == Later(s, 1)
  {
    ApplyKeepsUnique(t, StoreLtk(a, ltk));
  }

  lemma OneEvicted(r: Table, s: nat, a: Addr, op: Op, b: Addr)
    requires Valid(r) && Unique(r) && r.index == s && r.keys[s].addr == a && a != NONE && b != NONE
    requires !op.Clear? && op.addr != NONE && op.addr != a && FindLast(r.keys, op.addr, SLOTS) < 0
    ensures Load(Apply(r, op), a) == NotFound
    ensures b != a && b != op.addr ==> Load(Apply(r, op), b) == Load(r, b)
  {
    StoreThenLoad(r, op, a);
    StoreThenLoad(r, op, b);
    assert Evicts(r, op.addr, b) <==> b == a;
    hide Apply, Unique, Load, FindLast;
  }

  lemma LoadsSlot(t: Table, s: nat, a: Addr)
    requires Valid(t) && Unique(t) && s < SLOTS && a != NONE && t.keys[s].addr == a
    ensures Load(t, a) == Found(t.keys[s].ltk, t.keys[s].ident)
  {
    FindUnique(t, a);
  }
}
