// Which wired port each Bluetooth device gets (main/system/manager.c:270-299).
module PortAllocator {
  const BT_MAX_DEV: nat := 7
  const PORTS_MAX: nat := 4
  const WIRED_MAX_DEV: nat := 12

  // The empty ports below n, lowest first.
  function Empties(empty: seq<bool>, n: nat): (e: seq<nat>)
    requires n <= |empty|
    ensures |e| <= n && forall i :: 0 <= i < |e| ==> e[i] < n && empty[e[i]]
  {
    if n == 0 then [] else if empty[n - 1] then Empties(empty, n - 1) + [n - 1] else Empties(empty, n - 1)
  }

  // In order, and none left out.
  lemma {:induction false} EmptiesList(empty: seq<bool>, n: nat)
    requires n <= |empty|
    ensures forall i, j :: 0 <= i < j < |Empties(empty, n)| ==> Empties(empty, n)[i] < Empties(empty, n)[j]
    ensures forall p :: 0 <= p < n && empty[p] ==> p in Empties(empty, n)
  {
    if n > 0 {
      EmptiesList(empty, n - 1);
    }
  }

  // The port of the k-th device: the k-th empty one, then those past the last port.
  function PortOf(empty: seq<bool>, k: nat): nat
  {
    var e := Empties(empty, |empty|);
    if k < |e| then e[k] else |empty| + (k - |e|)
  }

  lemma PortsAreDistinct(empty: seq<bool>, j: nat, k: nat)
    requires j < k
    ensures PortOf(empty, j) < PortOf(empty, k)
  {
    EmptiesList(empty, |empty|);
  }

  // Never a port with a wired controller in it, and with four ports always an output there is.
  lemma PortIsFree(empty: seq<bool>, k: nat)
    ensures PortOf(empty, k) < |empty| ==> empty[PortOf(empty, k)]
    ensures |empty| <= PORTS_MAX && k < BT_MAX_DEV ==> PortOf(empty, k) < WIRED_MAX_DEV
  {
  }

  // No device sits past the ports while one of them is empty.
  lemma EmptyPortsFirst(empty: seq<bool>, k: nat, p: nat)
    requires p < |empty| && empty[p] && |empty| <= PortOf(empty, k)
    ensures exists j: nat :: j < k && PortOf(empty, j) == p
  {
    EmptiesList(empty, |empty|);
    var e := Empties(empty, |empty|);
    var j: nat :| j < |e| && e[j] == p;
    assert PortOf(empty, j) == p;
  }

  // The ports given out, if there were devices enough, are the empty ones and every number from port_cnt on: nothing
  // is skipped.
  lemma NothingIsSkipped(empty: seq<bool>, p: nat)
    ensures (exists k: nat :: PortOf(empty, k) == p) <==> (p >= |empty| || empty[p])
  {
    EmptiesList(empty, |empty|);
    var e := Empties(empty, |empty|);
    if p >= |empty| {
      assert PortOf(empty, |e| + (p - |empty|)) == p;
    } else if empty[p] {
      var j: nat :| j < |e| && e[j] == p;
      assert PortOf(empty, j) == p;
    }
  }

  // So the k-th device has exactly k of them below it.
  lemma {:induction false} KthPort(empty: seq<bool>, k: nat, p: nat)
    requires (p >= |empty| || empty[p]) && p < PortOf(empty, k)
    ensures exists j: nat :: j < k && PortOf(empty, j) == p
  {
    NothingIsSkipped(empty, p);
    var j: nat :| PortOf(empty, j) == p;
    if j > k {
      PortsAreDistinct(empty, k, j);
    }
  }

  lemma {:induction false} EmptiesGrow(empty: seq<bool>, m: nat, n: nat)
    requires m <= n <= |empty|
    ensures |Empties(empty, m)| <= |Empties(empty, n)| && Empties(empty, m) == Empties(empty, n)[..|Empties(empty, m)|]
    ensures (forall p :: m <= p < n ==> !empty[p]) ==> Empties(empty, n) == Empties(empty, m)
    decreases n
  {
    if m < n {
      assert !empty[n - 1] || !(forall p :: m <= p < n ==> !empty[p]);
      EmptiesGrow(empty, m, n - 1);
    }
  }

  // wired_port_hdl: one pass over the devices shares its port cursor and its index.
  method AssignPorts(empty: seq<bool>, outIdx: array<nat>)
    requires outIdx.Length == BT_MAX_DEV
    modifies outIdx
    ensures forall k :: 0 <= k < BT_MAX_DEV ==> outIdx[k] == PortOf(empty, k)
  {
    var j: nat, idx: nat := 0, 0;
    ghost var e := Empties(empty, |empty|);
    for i := 0 to BT_MAX_DEV
      invariant forall k :: 0 <= k < i ==> outIdx[k] == PortOf(empty, k)
      invariant j <= |empty| && j <= idx
      invariant |Empties(empty, j)| == if i <= |e| then i else |e|
      invariant if i <= |e| then idx == j else j == |empty| && idx == |empty| + (i - |e|)
    {
      ghost var from, start := j, idx;
      var found := false;
      while j < |empty| && !found
        invariant from <= j <= |empty|
        invariant if found then from < j && empty[j - 1] && idx == start + (j - 1 - from) else idx == start + (j - from)
        invariant forall p :: from <= p < (if found then j - 1 else j) ==> !empty[p]
        decreases |empty| - j
      {
        if empty[j] {
          found := true;
        } else {
          idx := idx + 1;
        }
        j := j + 1;
      }
      EmptiesGrow(empty, from, if found then j - 1 else j);
      EmptiesGrow(empty, j, |empty|);
      outIdx[i] := idx;
      idx := idx + 1;
    }
  }
}
