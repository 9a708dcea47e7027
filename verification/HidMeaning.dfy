// Two readings of a parsed descriptor: its globals are those of HID's own stack, and its Report ID is HID's as
// long as no Pop changes it (main/adapter/hid_parser.c:401-648).
module HidMeaning {
  import opened Bytes
  import opened HidItems
  import opened HidReports

  // The item state table of HID 1.11 section 6.2.2.7: of the globals the parser keeps, all but Usage Maximum,
  // which is a local item there, and the Report ID, which the parser keeps apart.
  datatype Table = Table(size: nat, count: nat, min: int, max: int, page: nat, id: nat)

  // Push copies the whole table on a stack without a bound, Pop takes it back. The table in force is the last.
  function HidStep(s: seq<Table>, i: Item): (r: seq<Table>)
    requires s != []
    ensures r != []
  {
    var rest, top := s[..|s| - 1], s[|s| - 1];
    match i
    case SetPage(v) => rest + [top.(page := v)]
    case SetMin(v) => rest + [top.(min := v)]
    case SetMax(v) => rest + [top.(max := v)]
    case SetSize(v) => rest + [top.(size := v)]
    case SetCount(v) => rest + [top.(count := v)]
    case Id(v) => rest + [top.(id := v)]
    case Push => s + [top]
    case Pop => if rest == [] then s else rest
    case _ => s
  }

  function HidTables(items: seq<Item>): (s: seq<Table>)
    ensures s != []
  {
    if items == [] then [Table(0, 0, 0, 0, 0, 0)] else HidStep(HidTables(items[..|items| - 1]), items[|items| - 1])
  }

  function InForce(s: seq<Table>): Table
    requires s != []
  {
    s[|s| - 1]
  }

  // The parser has four levels.
  predicate WithinFour(items: seq<Item>)
  {
    forall k :: 0 <= k <= |items| ==> |HidTables(items[..k])| <= STACK_MAX
  }

  lemma WithinFront(items: seq<Item>)
    requires items != [] && WithinFour(items)
    ensures WithinFour(items[..|items| - 1]) && |HidTables(items)| <= STACK_MAX
  {
    hide HidTables;
    var front := items[..|items| - 1];
    assert items[..|items|] == items;
    forall k | 0 <= k <= |front|
      ensures |HidTables(front[..k])| <= STACK_MAX
    {
      assert front[..k] == items[..k];
    }
  }

  // The values both have.
  predicate Agrees(g: Globals, t: Table)
  {
    g.size == t.size && g.count == t.count && g.min == t.min && g.max == t.max && g.page == t.page
  }

  predicate StackAgrees(st: Stack, s: seq<Table>)
    requires StackOk(st)
  {
    |s| == st.depth + 1 && forall j :: 0 <= j < |s| ==> Agrees(st.levels[j], s[j])
  }

  lemma StepIsHid(st: Stack, s: seq<Table>, i: Item)
    requires StackOk(st) && StackAgrees(st, s) && |HidStep(s, i)| <= STACK_MAX
    ensures StackAgrees(StackStep(st, i), HidStep(s, i))
  {
    assert Agrees(st.levels[st.depth], s[|s| - 1]);
  }

  // As long as they are not exceeded, its stack is HID's.
  lemma {:induction false} StackIsHid(items: seq<Item>)
    requires WithinFour(items)
    ensures StackAgrees(StackRun(Init().stack, items), HidTables(items))
  {
    if items != [] {
      hide StackAgrees, HidTables, StackRun, Init;
      WithinFront(items);
      StackIsHid(items[..|items| - 1]);
      NextIsHid(items);
    }
  }

  lemma NextIsHid(items: seq<Item>)
    requires items != [] && |HidTables(items)| <= STACK_MAX
    requires StackAgrees(StackRun(Init().stack, items[..|items| - 1]), HidTables(items[..|items| - 1]))
    ensures StackAgrees(StackRun(Init().stack, items), HidTables(items))
  {
    hide HidStep, StackStep, StackAgrees, StackRun, HidTables, Init;
    RunLast(Init().stack, items);
    TablesOfNext(items);
    var front := items[..|items| - 1];
    StepIsHid(StackRun(Init().stack, front), HidTables(front), items[|front|]);
  }

  // So every size, count and range the reports are made of is the one HID puts in force.
  lemma GlobalsAreHid(items: seq<Item>, k: nat)
    requires WithinFour(items) && k <= |items|
    ensures Agrees(GlobalsAfter(items[..k]), InForce(HidTables(items[..k])))
  {
    assert forall j :: 0 <= j <= k ==> items[..k][..j] == items[..j];
    StackIsHid(items[..k]);
    hide StackRun, HidTables;
  }

  // Size times count by HID's globals.
  function HidBits(items: seq<Item>, tag: nat): nat
  {
    if items == [] then 0
    else
      var front, i := items[..|items| - 1], items[|items| - 1];
      var t := InForce(HidTables(front));
      if i.Id? then 0
      else if i.Field? && i.tag == tag then HidBits(front, tag) + t.size * t.count
      else HidBits(front, tag)
  }

  lemma {:induction false} BitsAreHid(items: seq<Item>, tag: nat)
    requires WithinFour(items)
    ensures Bits(items, tag) == HidBits(items, tag)
  {
    if items != [] {
      hide WithinFour, HidTables, GlobalsAfter;
      var front := items[..|items| - 1];
      GlobalsAreHid(items, |front|);
      assert items[..|front|] == front;
      WithinFront(items);
      BitsAreHid(front, tag);
    }
  }

  // Report IDs -------------------------------------------------------------------------

  // Item k is a Pop that puts another Report ID in force.
  predicate RestoresId(items: seq<Item>, k: nat)
    requires k < |items|
  {
    var s := HidTables(items[..k]);
    items[k].Pop? && |s| >= 2 && s[|s| - 2].id != s[|s| - 1].id
  }

  predicate SameId(items: seq<Item>)
  {
    IdAfter(items) == InForce(HidTables(items)).id
  }

  lemma SameIdStep(items: seq<Item>, k: nat)
    requires k < |items| && SameId(items[..k])
    ensures SameId(items[..k + 1]) <==> !RestoresId(items, k)
  {
    assert items[..k + 1][..k] == items[..k];
    IdOfNext(items[..k + 1]);
    TablesOfNext(items[..k + 1]);
    hide IdAfter, HidTables;
  }

  lemma IdOfNext(items: seq<Item>)
    requires items != []
    ensures var i := items[|items| - 1];
            IdAfter(items) == if i.Id? then i.id else IdAfter(items[..|items| - 1])
  {
  }

  lemma TablesOfNext(items: seq<Item>)
    requires items != []
    ensures HidTables(items) == HidStep(HidTables(items[..|items| - 1]), items[|items| - 1])
  {
  }

  // The parser leaves its Report ID where it is at a Pop: it is HID's throughout exactly if no Pop of the
  // descriptor puts another one in force.
  lemma IdsAreHid(items: seq<Item>)
    ensures (forall k :: 0 <= k <= |items| ==> SameId(items[..k]))
       <==> (forall k :: 0 <= k < |items| ==> !RestoresId(items, k))
  {
    hide SameId, RestoresId;
    if forall k :: 0 <= k < |items| ==> !RestoresId(items, k) {
      forall k | 0 <= k <= |items|
        ensures SameId(items[..k])
      {
        SameIdUpTo(items, k);
      }
    } else {
      var k :| 0 <= k < |items| && RestoresId(items, k);
      if SameId(items[..k]) {
        SameIdStep(items, k);
      }
    }
  }

  lemma {:induction false} SameIdUpTo(items: seq<Item>, k: nat)
    requires k <= |items| && forall j :: 0 <= j < k ==> !RestoresId(items, j)
    ensures SameId(items[..k])
  {
    if k > 0 {
      hide SameId, RestoresId;
      SameIdUpTo(items, k - 1);
      SameIdStep(items, k - 1);
    }
  }

  // A frame of its own for another report: after it the parser still files under that report.
  lemma IdStaysAfterPop()
    ensures var items := [Id(1), Push, Id(2)] + [Pop];
            IdAfter(items) == 2 && InForce(HidTables(items)).id == 1
  {
    var a, b, c := [Id(1)], [Id(1), Push], [Id(1), Push, Id(2)];
    assert a[..0] == [] && b[..1] == a && c[..2] == b && (c + [Pop])[..3] == c;
    IdOfNext(c);
    IdOfNext(c + [Pop]);
    TablesOfNext(a);
    TablesOfNext(b);
    TablesOfNext(c);
    TablesOfNext(c + [Pop]);
    assert HidTables([]) == [Table(0, 0, 0, 0, 0, 0)];
    hide IdAfter, HidTables;
  }
}
