// What the items of a descriptor mean: the stack of globals, the usages of each field with the
// bits they occupy, and the reports they make up (main/adapter/hid_parser.c:358-648).
module HidReports {
  import opened Bytes
  import opened HidItems

  const STACK_MAX: nat := 4
  const MAX_USAGE: nat := 24
  const NO_USAGE: nat := 0xFFFF
  const TAGS: nat := 2

  // Globals -------------------------------------------------------------------------

  datatype Globals = Globals(size: nat, count: nat, min: int, max: int, page: nat, usageMax: nat)

  datatype Stack = Stack(levels: seq<Globals>, depth: nat)

  predicate StackOk(st: Stack)
  {
    |st.levels| == STACK_MAX && st.depth < STACK_MAX
  }

  function Top(st: Stack): Globals
    requires StackOk(st)
  {
    st.levels[st.depth]
  }

  function SetTop(st: Stack, g: Globals): (r: Stack)
    requires StackOk(st)
    ensures StackOk(r)
  {
    st.(levels := st.levels[st.depth := g])
  }

  function StackStep(st: Stack, i: Item): (r: Stack)
    requires StackOk(st)
    ensures StackOk(r)
  {
    match i
    case SetPage(v) => SetTop(st, Top(st).(page := v))
    case SetMin(v) => SetTop(st, Top(st).(min := v))
    case SetMax(v) => SetTop(st, Top(st).(max := v))
    case SetUsageMax(v) => SetTop(st, Top(st).(usageMax := v))
    case SetSize(v) => SetTop(st, Top(st).(size := v))
    case SetCount(v) => SetTop(st, Top(st).(count := v))
    case Push =>
      if st.depth < STACK_MAX - 1 then Stack(st.levels[st.depth + 1 := Top(st)], st.depth + 1) else st
    case Pop => if st.depth > 0 then st.(depth := st.depth - 1) else st
    case _ => st
  }

  function StackRun(st: Stack, items: seq<Item>): (r: Stack)
    requires StackOk(st)
    ensures StackOk(r)
    decreases |items|
  {
    if items == [] then st else StackStep(StackRun(st, items[..|items| - 1]), items[|items| - 1])
  }

  function Level(items: seq<Item>): int
  {
    if items == [] then 0
    else
      var i := items[|items| - 1];
      Level(items[..|items| - 1]) + (if i.Push? then 1 else if i.Pop? then -1 else 0)
  }

  // Never below the start, and never more than `room` above it.
  predicate Nested(items: seq<Item>, room: nat)
  {
    forall k :: 0 <= k <= |items| ==> 0 <= Level(items[..k]) <= room
  }

  predicate Balanced(items: seq<Item>, room: nat)
  {
    Nested(items, room) && Level(items) == 0
  }

  lemma {:induction false} NestedRun(st: Stack, items: seq<Item>, room: nat)
    requires StackOk(st) && st.depth + room < STACK_MAX && Nested(items, room)
    ensures StackRun(st, items).depth == st.depth + Level(items)
    ensures StackRun(st, items).levels[..st.depth] == st.levels[..st.depth]
    decreases |items|
  {
    if items != [] {
      var front := items[..|items| - 1];
      assert items[..|items|] == items;
      forall k | 0 <= k <= |front|
        ensures 0 <= Level(front[..k]) <= room
      {
        assert front[..k] == items[..k];
      }
      NestedRun(st, front, room);
      assert 0 <= Level(items[..|items|]) <= room;
    }
  }

  // Push, anything balanced that stays within the four levels, Pop: every global is what it was.
  lemma PopRestores(st: Stack, body: seq<Item>, room: nat)
    requires StackOk(st) && st.depth + 1 + room < STACK_MAX && Balanced(body, room)
    ensures var r := StackRun(st, [Push] + body + [Pop]);
            r.depth == st.depth && Top(r) == Top(st) && r.levels[..st.depth] == st.levels[..st.depth]
  {
    var pushed := StackStep(st, Push);
    RunFrom(st, Push, body);
    NestedRun(pushed, body, room);
    var all := [Push] + body + [Pop];
    assert all[..|all| - 1] == [Push] + body;
    assert StackRun(pushed, body).levels[st.depth] == StackRun(pushed, body).levels[..st.depth + 1][st.depth];
    assert StackRun(pushed, body).levels[..st.depth] == StackRun(pushed, body).levels[..st.depth + 1][..st.depth];
  }

  lemma {:induction false} RunFrom(st: Stack, first: Item, body: seq<Item>)
    requires StackOk(st)
    ensures StackRun(st, [first] + body) == StackRun(StackStep(st, first), body)
    decreases |body|
  {
    hide StackStep;
    var all := [first] + body;
    if body == [] {
      assert all[..0] == [] && all == [first];
      assert StackRun(st, []) == st;
    } else {
      assert all[..|all| - 1] == [first] + body[..|body| - 1];
      RunFrom(st, first, body[..|body| - 1]);
    }
  }

  // The highest level any prefix reaches.
  function Peak(items: seq<Item>): (p: int)
    ensures p >= 0 && p >= Level(items)
  {
    if items == [] then 0 else Max(Peak(items[..|items| - 1]), Level(items))
  }

  function Max(a: int, b: int): int { if a > b then a else b }

  // How many Push items in a row the stack has no room for when the items start at this depth.
  function Overflow(depth: nat, items: seq<Item>): nat
  {
    Max(0, depth + Peak(items) - (STACK_MAX - 1))
  }

  // From the first item on never below the level one Push makes.
  predicate Inside(items: seq<Item>)
  {
    forall k :: 1 <= k <= |items| ==> Level(items[..k]) >= 1
  }

  // What items inside a Push do to the stack: each overflow makes them work one level too low.
  predicate Clamped(st: Stack, r: Stack, level: int, over: nat)
    requires StackOk(st) && StackOk(r)
  {
    if over <= st.depth then
      r.depth == st.depth + level - over && r.levels[..st.depth + 1 - over] == st.levels[..st.depth + 1 - over]
    else r.depth <= Max(level - 1, 0)
  }

  lemma {:induction false} InsideRun(st: Stack, items: seq<Item>)
    requires StackOk(st) && Inside(items)
    ensures Clamped(st, StackRun(st, items), Level(items), Overflow(st.depth, items))
    decreases |items|
  {
    if items != [] {
      var front := items[..|items| - 1];
      assert items[..|items|] == items;
      assert forall k :: 1 <= k <= |front| ==> front[..k] == items[..k];
      InsideRun(st, front);
      assert front != [] ==> front[..|front|] == front && Level(front) >= 1;
      hide StackRun, Inside;
      InsideStep(st, StackRun(st, front), items);
      assert StackRun(st, items) == StackStep(StackRun(st, front), items[|front|]) by { RunLast(st, items); }
    }
  }

  lemma RunLast(st: Stack, items: seq<Item>)
    requires StackOk(st) && items != []
    ensures StackRun(st, items) == StackStep(StackRun(st, items[..|items| - 1]), items[|items| - 1])
  {
  }

  lemma InsideStep(st: Stack, r: Stack, items: seq<Item>)
    requires StackOk(st) && StackOk(r) && items != [] && Level(items) >= 1
    requires var front := items[..|items| - 1];
             && (front == [] || Level(front) >= 1) && (front == [] ==> r == st)
             && Clamped(st, r, Level(front), Overflow(st.depth, front))
    ensures Clamped(st, StackStep(r, items[|items| - 1]), Level(items), Overflow(st.depth, items))
  {
  }

  // Push, any balanced body, Pop. With o pushes lost, the globals restored are those o levels further out, if
  // there are that many; otherwise the stack ends empty and nothing is restored.
  lemma PopRestoresUnlessFull(st: Stack, body: seq<Item>)
    requires StackOk(st) && Inside([Push] + body) && Level(body) == 0
    ensures var o, r := Overflow(st.depth, [Push] + body), StackRun(st, [Push] + body + [Pop]);
            if o <= st.depth then
              && r.depth == st.depth - o && r.levels[..r.depth + 1] == st.levels[..r.depth + 1]
              && (Top(r) == Top(st) <==> st.levels[st.depth - o] == st.levels[st.depth])
            else r.depth == 0
  {
    var first, all := [Push] + body, [Push] + body + [Pop];
    InsideRun(st, first);
    LevelAfter(Push, body);
    assert all[..|all| - 1] == first;
    RunLast(st, all);
    var r := StackRun(st, first);
    var o := Overflow(st.depth, first);
    hide StackRun, Overflow, Inside, Level;
    if o <= st.depth {
      assert r.levels[..st.depth + 1 - o] == st.levels[..st.depth + 1 - o];
      assert StackStep(r, Pop).levels == r.levels;
      assert r.levels[st.depth - o] == r.levels[..st.depth + 1 - o][st.depth - o];
    }
  }

  // A Report Size inside the frame has no effect outside it.
  predicate Unharmed(st: Stack, body: seq<Item>, size: nat)
    requires StackOk(st)
  {
    var r := StackRun(st, [Push] + body + [SetSize(size)] + [Pop]);
    r.depth == st.depth && Top(r) == Top(st)
  }

  // That is so exactly as long as no Push was lost.
  lemma PopRestoresIff(st: Stack, body: seq<Item>)
    requires StackOk(st) && Inside([Push] + body) && Level(body) == 0
    ensures (forall size: nat :: Unharmed(st, body, size)) <==> Overflow(st.depth, [Push] + body) == 0
  {
    hide StackRun, Inside, Overflow, StackStep, Level, Unharmed;
    var other := Top(st).size + 1;
    SizeInFrame(st, body, other);
    if Overflow(st.depth, [Push] + body) == 0 {
      forall size: nat
        ensures Unharmed(st, body, size)
      {
        SizeInFrame(st, body, size);
      }
    }
  }

  lemma SizeInFrame(st: Stack, body: seq<Item>, size: nat)
    requires StackOk(st) && Inside([Push] + body) && Level(body) == 0
    ensures Overflow(st.depth, [Push] + body) == 0 ==> Unharmed(st, body, size)
    ensures Overflow(st.depth, [Push] + body) > 0 && size != Top(st).size ==> !Unharmed(st, body, size)
  {
    var first := [Push] + body;
    InsideRun(st, first);
    LevelAfter(Push, body);
    SizeAndPop(st, first, size);
    hide StackRun, Inside, Overflow, Level, StackStep;
    ClampedSize(st, StackRun(st, first), Overflow(st.depth, first), size);
  }

  lemma SizeAndPop(st: Stack, first: seq<Item>, size: nat)
    requires StackOk(st)
    ensures StackRun(st, first + [SetSize(size)] + [Pop])
         == StackStep(StackStep(StackRun(st, first), SetSize(size)), Pop)
  {
    hide StackStep;
    var sized := first + [SetSize(size)];
    RunLast(st, sized);
    RunLast(st, sized + [Pop]);
    assert sized[..|sized| - 1] == first && (sized + [Pop])[..|sized|] == sized;
  }

  lemma ClampedSize(st: Stack, inner: Stack, over: nat, size: nat)
    requires StackOk(st) && StackOk(inner) && Clamped(st, inner, 1, over)
    ensures var r := StackStep(StackStep(inner, SetSize(size)), Pop);
            && (over == 0 ==> r.depth == st.depth && Top(r) == Top(st))
            && (over > 0 ==> r.depth < st.depth || Top(r).size == size)
  {
    if over == 0 {
      assert inner.levels[st.depth] == inner.levels[..st.depth + 1][st.depth];
    }
  }

  // Four pushes, the last of them lost, and three pops leave the stack empty inside the frame, so that a
  // Report Size meant for it stays in force.
  lemma FourthPushIsLost(st: Stack, size: nat)
    requires StackOk(st) && st.depth == 0
    ensures var body := [Push, Push, Push, Pop, Pop, Pop];
            && Inside([Push] + body) && Level(body) == 0 && Overflow(0, [Push] + body) == 1
            && Top(StackRun(st, [Push] + body + [SetSize(size)] + [Pop])) == Top(st).(size := size)
  {
    var body := [Push, Push, Push, Pop, Pop, Pop];
    var p2, p3, p4 := [Push, Push], [Push, Push, Push], [Push, Push, Push, Push];
    hide Reached, Overflow, Level, StackRun, Inside;
    assert [Push] + [Push] == p2 && p2 + [Push] == p3 && p3 + [Push] == p4;
    OnePush(st);
    OneMoreReached(st, [Push], Push, 1, 1, 1);
    OneMoreReached(st, p2, Push, 2, 2, 2);
    OneMoreReached(st, p3, Push, 3, 3, 3);
    OneMoreReached(st, p4, Pop, 4, 4, 3);
    OneMoreReached(st, p4 + [Pop], Pop, 3, 4, 2);
    OneMoreReached(st, p4 + [Pop] + [Pop], Pop, 2, 4, 1);
    assert p4 + [Pop] + [Pop] + [Pop] == [Push] + body;
    LevelAfter(Push, body);
    SizeAndPop(st, [Push] + body, size);
    ReachedEnd(st, [Push] + body);
  }

  // Where a run of Push and Pop inside a frame has come to.
  predicate Reached(st: Stack, s: seq<Item>, level: nat, peak: nat, depth: nat)
    requires StackOk(st)
  {
    && Inside(s) && Level(s) == level && Peak(s) == peak
    && StackRun(st, s).depth == depth && StackRun(st, s).levels[0] == st.levels[0]
  }

  lemma OneMoreReached(st: Stack, s: seq<Item>, i: Item, level: nat, peak: nat, depth: nat)
    requires StackOk(st) && Reached(st, s, level, peak, depth) && (i.Push? || (i.Pop? && level > 1))
    ensures if i.Push? then Reached(st, s + [i], level + 1, Max(peak, level + 1), if depth < 3 then depth + 1 else 3)
            else Reached(st, s + [i], level - 1, peak, if depth > 0 then depth - 1 else 0)
  {
    OneMoreItem(st, s, i);
    hide StackRun, Level, Peak, Inside;
    InsideMore(s, i);
  }

  lemma InsideMore(s: seq<Item>, i: Item)
    requires Inside(s) && Level(s + [i]) >= 1
    ensures Inside(s + [i])
  {
    hide Level;
    forall k | 1 <= k <= |s| + 1
      ensures Level((s + [i])[..k]) >= 1
    {
      assert (s + [i])[..k] == if k <= |s| then s[..k] else s + [i];
    }
  }

  lemma OnePush(st: Stack)
    requires StackOk(st) && st.depth == 0
    ensures Reached(st, [Push], 1, 1, 1)
  {
    assert [] + [Push] == [Push] && [Push][..0] == [] && [Push][..1] == [Push];
    OneMoreItem(st, [], Push);
  }

  lemma ReachedEnd(st: Stack, s: seq<Item>)
    requires StackOk(st) && Reached(st, s, 1, 4, 0)
    ensures Inside(s) && Level(s) == 1 && Overflow(0, s) == 1
    ensures StackRun(st, s).depth == 0 && StackRun(st, s).levels[0] == st.levels[0]
  {
    hide Level, Peak, StackRun, Inside;
  }

  lemma OneMoreItem(st: Stack, s: seq<Item>, i: Item)
    requires StackOk(st)
    ensures Level(s + [i]) == Level(s) + (if i.Push? then 1 else if i.Pop? then -1 else 0)
    ensures Peak(s + [i]) == Max(Peak(s), Level(s + [i]))
    ensures StackRun(st, s + [i]) == StackStep(StackRun(st, s), i)
  {
    hide StackStep;
    assert (s + [i])[..|s|] == s;
  }

  lemma {:induction false} LevelAfter(first: Item, body: seq<Item>)
    ensures Level([first] + body) == Level([first]) + Level(body)
    ensures Level([Push]) == 1
    decreases |body|
  {
    assert [Push][..0] == [];
    if body == [] {
      assert [first] + body == [first];
    } else {
      assert ([first] + body)[..|body|] == [first] + body[..|body| - 1];
      LevelAfter(first, body[..|body| - 1]);
    }
  }

  // Usage filters --------------------------------------------------------------------

  predicate IsCollection(page: nat, usage: nat)
  {
    match page
    case 0x01 => usage in {0x01, 0x02, 0x04, 0x05, 0x06, 0x07, 0x08, 0x09, 0x3A, 0x80}
    case 0x02 => 0x01 <= usage <= 0x0C || 0x20 <= usage <= 0x25
    case 0x03 => 0x01 <= usage <= 0x0A
    case 0x04 => 0x01 <= usage <= 0x04 || usage == 0x38
    case 0x05 => usage in {0x01, 0x02, 0x03, 0x20, 0x32, 0x37, 0x39}
    case 0x0C => usage in {0x01, 0x02, 0x03, 0x04, 0x05, 0x06, 0x36, 0x80, 0x87, 0xBA, 0xF1}
    case 0x0F =>
      usage in {0x01, 0x21, 0x25, 0x57, 0x58, 0x59, 0x5A, 0x5F, 0x66, 0x68, 0x6B, 0x6E, 0x73, 0x74,
                0x77, 0x78, 0x7D, 0x7F, 0x85, 0x89, 0x8B, 0x90, 0x91, 0x92, 0x95, 0x96, 0xA8, 0xAB}
    case _ => false
  }

  predicate IsUsed(page: nat, usage: nat)
  {
    match page
    case 0x01 => 0x30 <= usage <= 0x39 || usage == 0x85
    case 0x02 => usage == 0xC4 || usage == 0xC5
    case 0x07 => true
    case 0x09 => usage <= 20
    case 0x0C => usage in {0x40, 0xB2, 0x223, 0x224}
    case 0x0F => usage in {0x50, 0x97, 0x70, 0x7C, 0xA7}
    case _ => false
  }

  // Fields ---------------------------------------------------------------------------

  datatype Usage = Usage(
    page: nat, usage: nat, usageMax: nat, flags: octet, offset: nat, size: nat, min: int, max: int)

  function Add32(a: nat, b: nat): (r: nat)
    ensures r < U32_MOD
    ensures a + b < U32_MOD ==> r == a + b
  {
    (a + b) % U32_MOD
  }

  // The local items in front of a field: the usage list and how many of its entries were set.
  datatype Locals = Locals(list: seq<nat>, listed: nat)

  predicate LocalsOk(l: Locals)
  {
    |l.list| == MAX_USAGE && l.listed <= MAX_USAGE
  }

  // One usage over several single bits.
  predicate Merges(g: Globals, l: Locals)
  {
    l.listed == 1 && g.size == 1 && g.count > 1
  }

  function Rounds(g: Globals, l: Locals): nat
  {
    if Merges(g, l) then 1 else g.count
  }

  // The usage of the i-th control; the list holds no more than MAX_USAGE of them.
  function UsageOf(l: Locals, i: nat): nat
    requires LocalsOk(l)
  {
    if l.listed == 1 then l.list[0] else if i < MAX_USAGE then l.list[i] else NO_USAGE
  }

  function FragmentCount(count: nat): nat
  {
    count / 32 + if count % 32 != 0 then 1 else 0
  }

  function FragmentSize(g: Globals, merged: bool, fragments: nat, j: nat): nat
  {
    if fragments > 1 && j == fragments - 1 then g.count % 32
    else if !merged then g.size
    else g.size * (if fragments > 1 then 32 else g.count)
  }

  function Fragment(g: Globals, usage: nat, flags: octet, base: nat, merged: bool, fragments: nat, j: nat): Usage
  {
    Usage(g.page, Add32(usage, 32 * j), g.usageMax, flags, Add32(base, 32 * j),
          FragmentSize(g, merged, fragments, j), g.min, g.max)
  }

  function Fragments(g: Globals, usage: nat, flags: octet, base: nat, merged: bool): (r: seq<Usage>)
  {
    var n := if merged then FragmentCount(g.count) else 1;
    seq(n, (j: int) requires 0 <= j < n => Fragment(g, usage, flags, base, merged, n, j))
  }

  function Width(g: Globals, merged: bool): nat
  {
    if merged then g.count * g.size else g.size
  }

  // Where the n-th control starts.
  function Advance(g: Globals, base: nat, merged: bool, n: nat): nat
  {
    if n == 0 then base else Add32(Advance(g, base, merged, n - 1), Width(g, merged))
  }

  function Controls(g: Globals, l: Locals, flags: octet, base: nat, n: nat): seq<Usage>
    requires LocalsOk(l)
  {
    if n == 0 then []
    else
      var before := Controls(g, l, flags, base, n - 1);
      var at := Advance(g, base, Merges(g, l), n - 1);
      if IsUsed(g.page, UsageOf(l, n - 1)) then
        before + Fragments(g, UsageOf(l, n - 1), flags, at, Merges(g, l))
      else before
  }

  // What a report holds so far.
  datatype Wip = Wip(usages: seq<Usage>, bits: nat)

  predicate Shown(g: Globals, l: Locals, w: Wip, flags: octet)
    requires LocalsOk(l)
  {
    flags % 2 == 0 && g.page != 0xFF && l.list[0] != 0xFF && |w.usages| < MAX_USAGE
  }

  function AddField(g: Globals, l: Locals, w: Wip, flags: octet): Wip
    requires LocalsOk(l)
  {
    if Shown(g, l, w, flags) then
      Wip(w.usages + Controls(g, l, flags, w.bits, Rounds(g, l)), Advance(g, w.bits, Merges(g, l), Rounds(g, l)))
    else Wip(w.usages, Add32(w.bits, g.size * g.count))
  }

  // Every usage inside [lo, hi), each after the one before it.
  predicate Ordered(us: seq<Usage>, lo: nat, hi: nat)
  {
    && lo <= hi
    && (forall i :: 0 <= i < |us| ==> lo <= us[i].offset && us[i].offset + us[i].size <= hi)
    && forall i, j :: 0 <= i < j < |us| ==> us[i].offset + us[i].size <= us[j].offset
  }

  lemma OrderedAppend(a: seq<Usage>, b: seq<Usage>, lo: nat, mid: nat, hi: nat)
    requires Ordered(a, lo, mid) && Ordered(b, mid, hi)
    ensures Ordered(a + b, lo, hi)
  {
  }

  lemma {:induction false} AdvanceIs(g: Globals, base: nat, merged: bool, n: nat)
    requires base + n * Width(g, merged) < U32_MOD
    ensures Advance(g, base, merged, n) == base + n * Width(g, merged)
  {
    if n > 0 {
      hide Width;
      assert n * Width(g, merged) == (n - 1) * Width(g, merged) + Width(g, merged);
      AdvanceIs(g, base, merged, n - 1);
    }
  }

  // Whatever the branch, a field takes size * count bits.
  lemma FieldWidth(g: Globals, l: Locals)
    ensures Rounds(g, l) * Width(g, Merges(g, l)) == g.size * g.count
  {
    var w := Width(g, Merges(g, l));
    if Merges(g, l) {
      assert w == g.count && 1 * w == w && g.size * g.count == g.count;
    } else {
      assert g.count * g.size == g.size * g.count;
    }
  }

  // The fragments of a merged field, without the wrap-around of offsets.
  lemma FragmentAt(g: Globals, usage: nat, flags: octet, base: nat, merged: bool, j: nat)
    requires merged ==> g.size == 1 && g.count > 1
    requires base + Width(g, merged) < U32_MOD && j < |Fragments(g, usage, flags, base, merged)|
    ensures var u := Fragments(g, usage, flags, base, merged)[j];
            && u.offset == base + 32 * j
            && (merged ==> u.size == if g.count <= 32 then g.count else if g.count < 32 * (j + 1) then g.count % 32
                                     else if j == FragmentCount(g.count) - 1 then 0 else 32)
            && (!merged ==> j == 0 && u.size == g.size)
            && (usage + 32 * j < U32_MOD ==> u.usage == usage + 32 * j)
            && u.page == g.page && u.usageMax == g.usageMax && u.flags == flags && u.min == g.min && u.max == g.max
  {
    if merged {
      assert Width(g, merged) == g.count;
      assert g.count == 32 * (g.count / 32) + g.count % 32;
      var n := FragmentCount(g.count);
      assert j < n && 32 * j < g.count;
      assert Fragments(g, usage, flags, base, merged)[j] == Fragment(g, usage, flags, base, merged, n, j);
      assert j < n - 1 ==> g.count >= 32 * (j + 1) && n > 1;
      assert j == n - 1 && g.count % 32 == 0 ==> g.count == 32 * (j + 1);
    } else {
      assert Fragments(g, usage, flags, base, merged)[j] == Fragment(g, usage, flags, base, merged, 1, 0);
    }
  }

  lemma FragmentsOrdered(g: Globals, usage: nat, flags: octet, base: nat, merged: bool)
    requires merged ==> g.size == 1 && g.count > 1
    requires base + Width(g, merged) < U32_MOD
    ensures Ordered(Fragments(g, usage, flags, base, merged), base, base + Width(g, merged))
  {
    var us := Fragments(g, usage, flags, base, merged);
    assert merged ==> Width(g, merged) == g.count;
    forall j | 0 <= j < |us|
      ensures base <= us[j].offset == base + 32 * j && us[j].offset + us[j].size <= base + Width(g, merged)
      ensures j < |us| - 1 ==> us[j].size == 32
    {
      FragmentAt(g, usage, flags, base, merged, j);
    }
  }

  // Every bit of [lo, hi) belongs to one usage.
  predicate Tiles(us: seq<Usage>, lo: nat, hi: nat)
  {
    && us != [] && us[0].offset == lo && us[|us| - 1].offset + us[|us| - 1].size == hi
    && forall i :: 0 <= i < |us| - 1 ==> us[i].offset + us[i].size == us[i + 1].offset
  }

  // The last fragment of a whole number of words, if there are several, comes out empty.
  lemma FragmentsTile(g: Globals, usage: nat, flags: octet, base: nat)
    requires g.size == 1 && g.count > 1 && base + g.count < U32_MOD
    ensures Tiles(Fragments(g, usage, flags, base, true), base, base + g.count)
       <==> !(g.count % 32 == 0 && g.count > 32)
  {
    var us := Fragments(g, usage, flags, base, true);
    assert Width(g, true) == g.count;
    forall j | 0 <= j < |us|
      ensures us[j].offset == base + 32 * j
      ensures us[j].size == if g.count <= 32 then g.count else if g.count < 32 * (j + 1) then g.count % 32
                            else if j == |us| - 1 then 0 else 32
    {
      FragmentAt(g, usage, flags, base, true, j);
    }
    var last := us[|us| - 1];
    assert last.offset == base + 32 * (|us| - 1);
  }

  lemma {:induction false} ControlsOrdered(g: Globals, l: Locals, flags: octet, base: nat, n: nat)
    requires LocalsOk(l) && n <= Rounds(g, l) && base + g.size * g.count < U32_MOD
    ensures n * Width(g, Merges(g, l)) <= g.size * g.count
    ensures Ordered(Controls(g, l, flags, base, n), base, base + n * Width(g, Merges(g, l)))
  {
    PlaceOfControl(g, l, base, n);
    if n > 0 {
      hide Width, Controls, Ordered, Advance, Merges, Rounds;
      ControlsOrdered(g, l, flags, base, n - 1);
      PlaceOfControl(g, l, base, n - 1);
      OneControlOrdered(g, l, flags, base, n, Advance(g, base, Merges(g, l), n - 1));
    }
  }

  // Where the n-th control ends, and the one before it.
  lemma PlaceOfControl(g: Globals, l: Locals, base: nat, n: nat)
    requires n <= Rounds(g, l) && base + g.size * g.count < U32_MOD
    ensures var w := Width(g, Merges(g, l));
            && n * w <= g.size * g.count && Advance(g, base, Merges(g, l), n) == base + n * w
            && (n > 0 ==> base + (n - 1) * w + w == base + n * w < U32_MOD)
  {
    hide Width, Merges, Rounds;
    FieldWidth(g, l);
    Scale(n, Rounds(g, l), Width(g, Merges(g, l)));
    AdvanceIs(g, base, Merges(g, l), n);
  }

  lemma OneControlOrdered(g: Globals, l: Locals, flags: octet, base: nat, n: nat, at: nat)
    requires LocalsOk(l) && n > 0 && at == Advance(g, base, Merges(g, l), n - 1)
    requires at + Width(g, Merges(g, l)) < U32_MOD && Ordered(Controls(g, l, flags, base, n - 1), base, at)
    ensures Ordered(Controls(g, l, flags, base, n), base, at + Width(g, Merges(g, l)))
  {
    hide Width, Ordered, Advance, Fragments, IsUsed, UsageOf;
    var merged, w := Merges(g, l), Width(g, Merges(g, l));
    var before, one := Controls(g, l, flags, base, n - 1), Fragments(g, UsageOf(l, n - 1), flags, at, merged);
    FragmentsOrdered(g, UsageOf(l, n - 1), flags, at, merged);
    OrderedAppend(before, one, base, at, at + w);
    OrderedLonger(before, base, at, at + w);
  }

  lemma OrderedLonger(a: seq<Usage>, lo: nat, mid: nat, hi: nat)
    requires Ordered(a, lo, mid) && mid <= hi
    ensures Ordered(a, lo, hi)
  {
  }

  lemma Scale(n: nat, m: nat, w: nat)
    requires n <= m
    ensures n * w <= m * w
  {
  }

  lemma AddFieldOrdered(g: Globals, l: Locals, w: Wip, flags: octet)
    requires LocalsOk(l) && Ordered(w.usages, 0, w.bits) && w.bits + g.size * g.count < U32_MOD
    ensures var r := AddField(g, l, w, flags);
            r.bits == w.bits + g.size * g.count && Ordered(r.usages, 0, r.bits)
  {
    hide Width, Controls;
    var n := Rounds(g, l);
    FieldWidth(g, l);
    AdvanceIs(g, w.bits, Merges(g, l), n);
    ControlsOrdered(g, l, flags, w.bits, n);
    OrderedAppend(w.usages, Controls(g, l, flags, w.bits, n), 0, w.bits, w.bits + g.size * g.count);
    OrderedAppend(w.usages, [], 0, w.bits, w.bits + g.size * g.count);
    assert w.usages + [] == w.usages;
  }

  // Which usage a control got, at its own place: entry k of the controls is the k-th used one.
  function UsedUpTo(g: Globals, l: Locals, n: nat): nat
    requires LocalsOk(l)
  {
    if n == 0 then 0 else UsedUpTo(g, l, n - 1) + if IsUsed(g.page, UsageOf(l, n - 1)) then 1 else 0
  }

  lemma {:induction false} ControlPlacement(g: Globals, l: Locals, flags: octet, base: nat, n: nat, i: nat)
    requires LocalsOk(l) && !Merges(g, l) && i < n <= g.count && base + g.size * g.count < U32_MOD
    requires IsUsed(g.page, UsageOf(l, i)) && UsageOf(l, i) < U32_MOD
    ensures var us := Controls(g, l, flags, base, n);
            && |us| == UsedUpTo(g, l, n) && UsedUpTo(g, l, i) < |us|
            && us[UsedUpTo(g, l, i)]
            == Usage(g.page, UsageOf(l, i), g.usageMax, flags, base + i * g.size, g.size, g.min, g.max)
  {
    if n == i + 1 {
      LastPlacement(g, l, flags, base, i);
    } else {
      hide IsUsed, Fragments, Advance;
      ControlPlacement(g, l, flags, base, n - 1, i);
      ControlsCount(g, l, flags, base, n);
    }
  }

  // The control just added is the last of the list.
  lemma LastPlacement(g: Globals, l: Locals, flags: octet, base: nat, i: nat)
    requires LocalsOk(l) && !Merges(g, l) && i < g.count && base + g.size * g.count < U32_MOD
    requires IsUsed(g.page, UsageOf(l, i)) && UsageOf(l, i) < U32_MOD
    ensures Controls(g, l, flags, base, i + 1) == Controls(g, l, flags, base, i)
              + [Usage(g.page, UsageOf(l, i), g.usageMax, flags, base + i * g.size, g.size, g.min, g.max)]
    ensures |Controls(g, l, flags, base, i)| == UsedUpTo(g, l, i) == UsedUpTo(g, l, i + 1) - 1
  {
    ControlsCount(g, l, flags, base, i);
    StartOfControl(g, base, i);
    SingleFragment(g, UsageOf(l, i), flags, base + i * g.size);
    hide IsUsed, Fragments, Advance;
  }

  lemma StartOfControl(g: Globals, base: nat, i: nat)
    requires i < g.count && base + g.size * g.count < U32_MOD
    ensures base + i * g.size < U32_MOD && Advance(g, base, false, i) == base + i * g.size
  {
    Scale(i, g.count, g.size);
    AdvanceIs(g, base, false, i);
  }

  lemma SingleFragment(g: Globals, usage: nat, flags: octet, at: nat)
    requires usage < U32_MOD && at < U32_MOD
    ensures Fragments(g, usage, flags, at, false)
         == [Usage(g.page, usage, g.usageMax, flags, at, g.size, g.min, g.max)]
  {
    var one := Fragment(g, usage, flags, at, false, 1, 0);
    assert one.usage == usage && one.offset == at && one.size == g.size;
  }

  lemma {:induction false} ControlsCount(g: Globals, l: Locals, flags: octet, base: nat, n: nat)
    requires LocalsOk(l) && !Merges(g, l)
    ensures |Controls(g, l, flags, base, n)| == UsedUpTo(g, l, n)
  {
    if n > 0 {
      ControlsCount(g, l, flags, base, n - 1);
    }
  }

  // The parser -------------------------------------------------------------------------

  datatype Report = Report(id: nat, tag: nat, len: nat, usages: seq<Usage>)

  datatype State = State(stack: Stack, locals: Locals, id: nat, wip: seq<Wip>, reports: seq<Report>)

  predicate StateOk(s: State)
  {
    StackOk(s.stack) && LocalsOk(s.locals) && |s.wip| == TAGS
  }

  const NO_GLOBALS: Globals := Globals(0, 0, 0, 0, 0, 0)

  function Blank(v: nat): (r: Locals)
    ensures LocalsOk(r)
  {
    Locals(seq(MAX_USAGE, _ => v), 0)
  }

  function Init(): (r: State)
    ensures StateOk(r)
  {
    State(Stack([NO_GLOBALS, NO_GLOBALS, NO_GLOBALS, NO_GLOBALS], 0), Blank(0), 0, [Wip([], 0), Wip([], 0)], [])
  }

  // Bits to whole bytes.
  function Length(bits: nat): nat
  {
    bits / 8 + if bits % 8 != 0 then 1 else 0
  }

  function Flush(id: nat, tag: nat, w: Wip): seq<Report>
  {
    if Length(w.bits) != 0 then [Report(id, tag, Length(w.bits), w.usages)] else []
  }

  function FlushBoth(id: nat, wip: seq<Wip>): seq<Report>
    requires |wip| == TAGS
  {
    Flush(id, 0, wip[0]) + Flush(id, 1, wip[1])
  }

  predicate ItemOk(i: Item) { i.Field? ==> i.tag < TAGS }

  function Step(s: State, i: Item): (r: State)
    requires StateOk(s) && ItemOk(i)
    ensures StateOk(r)
  {
    match i
    case AddUsage(usage, filtered) =>
      if (filtered && IsCollection(Top(s.stack).page, usage)) || s.locals.listed >= MAX_USAGE then s
      else s.(locals := Locals(s.locals.list[s.locals.listed := usage], s.locals.listed + 1))
    case Field(tag, flags) =>
      s.(wip := s.wip[tag := AddField(Top(s.stack), s.locals, s.wip[tag], flags)], locals := Blank(NO_USAGE))
    case Feature => s.(locals := s.locals.(listed := 0))
    case Id(id) =>
      s.(reports := s.reports + (if s.id != 0 then FlushBoth(s.id, s.wip) else []),
         id := id, wip := [Wip([], 0), Wip([], 0)])
    case _ => s.(stack := StackStep(s.stack, i))
  }

  function Run(items: seq<Item>): (r: State)
    requires forall i :: 0 <= i < |items| ==> ItemOk(items[i])
    ensures StateOk(r)
  {
    if items == [] then Init() else Step(Run(items[..|items| - 1]), items[|items| - 1])
  }

  // The reports once the descriptor has been read to its end.
  function Finish(s: State): seq<Report>
    requires StateOk(s)
  {
    if s.reports == [] && s.id == 0 then FlushBoth(1, s.wip)
    else s.reports + (if s.id != 0 then FlushBoth(s.id, s.wip) else [])
  }

  function ParseReports(m: seq<octet>, len: nat): seq<Report>
    requires len + 4 <= |m|
  {
    var p := Decode(m, len, 0);
    if p.complete then Finish(Run(p.items)) else Run(p.items).reports
  }

  // What HID 1.11 section 6.2.2 says the items amount to ----------------------------------

  function GlobalsAfter(items: seq<Item>): Globals
  {
    Top(StackRun(Init().stack, items))
  }

  // The report ID in force.
  function IdAfter(items: seq<Item>): nat
  {
    if items == [] then 0
    else
      var i := items[|items| - 1];
      if i.Id? then i.id else IdAfter(items[..|items| - 1])
  }

  // Report Size times Report Count of every Input (or Output) since the last Report ID.
  function Bits(items: seq<Item>, tag: nat): nat
  {
    if items == [] then 0
    else
      var front, i := items[..|items| - 1], items[|items| - 1];
      if i.Id? then 0
      else if i.Field? && i.tag == tag then Bits(front, tag) + GlobalsAfter(front).size * GlobalsAfter(front).count
      else Bits(front, tag)
  }

  // The usages set since the last field; a Feature item takes back their number but not the list.
  function LocalsAfter(items: seq<Item>): (l: Locals)
    ensures LocalsOk(l)
  {
    if items == [] then Blank(0)
    else
      var front, i := items[..|items| - 1], items[|items| - 1];
      NextLocals(GlobalsAfter(front).page, LocalsAfter(front), i)
  }

  function NextLocals(page: nat, l: Locals, i: Item): (r: Locals)
    requires LocalsOk(l)
    ensures LocalsOk(r)
  {
    match i
    case AddUsage(usage, filtered) =>
      if (filtered && IsCollection(page, usage)) || l.listed >= MAX_USAGE then l
      else Locals(l.list[l.listed := usage], l.listed + 1)
    case Field(_, _) => Blank(NO_USAGE)
    case Feature => l.(listed := 0)
    case _ => l
  }

  // The controls of every shown Input (or Output) since the last Report ID, each field from where the one before ends.
  function Usages(items: seq<Item>, tag: nat): seq<Usage>
    decreases |items|, 0
  {
    if items == [] then []
    else
      var front, i := items[..|items| - 1], items[|items| - 1];
      if i.Id? then []
      else if i.Field? && i.tag == tag && ShownAfter(front, tag, i.flags) then
        Usages(front, tag) + FieldControls(front, tag, i.flags)
      else Usages(front, tag)
  }

  predicate ShownAfter(items: seq<Item>, tag: nat, flags: octet)
    decreases |items|, 1
  {
    Shown(GlobalsAfter(items), LocalsAfter(items), Wip(Usages(items, tag), Bits(items, tag)), flags)
  }

  function FieldControls(items: seq<Item>, tag: nat, flags: octet): seq<Usage>
  {
    var g, l := GlobalsAfter(items), LocalsAfter(items);
    Controls(g, l, flags, Bits(items, tag), Rounds(g, l))
  }

  datatype Shape = Shape(id: nat, tag: nat, bits: nat, usages: seq<Usage>)

  function Shapes(id: nat, items: seq<Item>): seq<Shape>
  {
    (if Bits(items, 0) > 0 then [Shape(id, 0, Bits(items, 0), Usages(items, 0))] else [])
    + if Bits(items, 1) > 0 then [Shape(id, 1, Bits(items, 1), Usages(items, 1))] else []
  }

  // The reports that Report ID items close.
  function Closed(items: seq<Item>): seq<Shape>
  {
    if items == [] then []
    else
      var front := items[..|items| - 1];
      if items[|items| - 1].Id? && IdAfter(front) != 0 then Closed(front) + Shapes(IdAfter(front), front)
      else Closed(front)
  }

  // A descriptor without report IDs is one report with ID 1.
  function AllShapes(items: seq<Item>): seq<Shape>
  {
    if IdAfter(items) != 0 then Closed(items) + Shapes(IdAfter(items), items)
    else if Closed(items) == [] then Shapes(1, items)
    else Closed(items)
  }

  predicate Fits32(items: seq<Item>)
  {
    forall k, tag: nat :: 0 <= k <= |items| && tag < TAGS ==> Bits(items[..k], tag) < U32_MOD
  }

  predicate Realizes(r: Report, s: Shape)
  {
    && r.id == s.id && r.tag == s.tag
    && 8 * (r.len - 1) < s.bits <= 8 * r.len
    && r.usages == s.usages && Ordered(r.usages, 0, s.bits)
  }

  predicate AllRealize(rs: seq<Report>, ss: seq<Shape>)
  {
    |rs| == |ss| && forall i :: 0 <= i < |rs| ==> Realizes(rs[i], ss[i])
  }

  predicate WipTracks(w: Wip, items: seq<Item>, tag: nat)
  {
    w.bits == Bits(items, tag) && w.usages == Usages(items, tag) && Ordered(w.usages, 0, w.bits)
  }

  predicate Tracks(s: State, items: seq<Item>)
  {
    && StateOk(s) && s.stack == StackRun(Init().stack, items) && s.locals == LocalsAfter(items)
    && s.id == IdAfter(items)
    && WipTracks(s.wip[0], items, 0) && WipTracks(s.wip[1], items, 1)
    && AllRealize(s.reports, Closed(items))
  }

  lemma FlushRealizes(s: State, items: seq<Item>, id: nat)
    requires Tracks(s, items)
    ensures AllRealize(FlushBoth(id, s.wip), Shapes(id, items))
  {
    hide Bits, Usages, StackRun, LocalsAfter, IdAfter, Closed;
    FlushOne(id, 0, s.wip[0], items);
    FlushOne(id, 1, s.wip[1], items);
  }

  lemma FlushOne(id: nat, tag: nat, w: Wip, items: seq<Item>)
    requires WipTracks(w, items, tag)
    ensures AllRealize(Flush(id, tag, w),
                       if Bits(items, tag) > 0 then [Shape(id, tag, Bits(items, tag), Usages(items, tag))] else [])
  {
    hide Bits, Usages;
  }

  lemma FieldAdds(g: Globals, l: Locals, w: Wip, items: seq<Item>)
    requires items != [] && LocalsOk(l) && items[|items| - 1].Field?
    requires WipTracks(w, items[..|items| - 1], items[|items| - 1].tag) && Bits(items, items[|items| - 1].tag) < U32_MOD
    requires g == GlobalsAfter(items[..|items| - 1]) && l == LocalsAfter(items[..|items| - 1])
    ensures var i := items[|items| - 1]; WipTracks(AddField(g, l, w, i.flags), items, i.tag)
  {
    hide Controls, Ordered, GlobalsAfter, LocalsAfter, Shown;
    var front, i := items[..|items| - 1], items[|items| - 1];
    assert w == Wip(Usages(front, i.tag), Bits(front, i.tag));
    AddFieldOrdered(g, l, w, i.flags);
    assert ShownAfter(front, i.tag, i.flags) == Shown(g, l, w, i.flags);
    assert FieldControls(front, i.tag, i.flags) == Controls(g, l, i.flags, w.bits, Rounds(g, l));
    assert Bits(items, i.tag) == w.bits + g.size * g.count;
    assert Usages(items, i.tag) == AddField(g, l, w, i.flags).usages;
  }

  lemma OtherTag(w: Wip, items: seq<Item>, tag: nat)
    requires items != [] && WipTracks(w, items[..|items| - 1], tag)
    requires items[|items| - 1].Field? && items[|items| - 1].tag != tag
    ensures WipTracks(w, items, tag)
  {
  }

  lemma FieldKeepsRest(items: seq<Item>)
    requires items != [] && items[|items| - 1].Field?
    ensures var front := items[..|items| - 1];
            && StackRun(Init().stack, items) == StackRun(Init().stack, front)
            && IdAfter(items) == IdAfter(front) && Closed(items) == Closed(front)
            && LocalsAfter(items) == Blank(NO_USAGE)
  {
  }

  lemma FieldTracks(s: State, items: seq<Item>)
    requires items != [] && Tracks(s, items[..|items| - 1]) && ItemOk(items[|items| - 1]) && items[|items| - 1].Field?
    requires Bits(items, items[|items| - 1].tag) < U32_MOD
    ensures Tracks(Step(s, items[|items| - 1]), items)
  {
    hide AddField, WipTracks, StackRun, LocalsAfter, IdAfter, Closed, AllRealize, Top,
         Bits, Init, Blank, StackOk, NO_USAGE;
    var i := items[|items| - 1];
    FieldKeepsRest(items);
    FieldAdds(Top(s.stack), s.locals, s.wip[i.tag], items);
    OtherTag(s.wip[1 - i.tag], items, 1 - i.tag);
  }

  lemma IdTracks(s: State, items: seq<Item>)
    requires items != [] && Tracks(s, items[..|items| - 1]) && items[|items| - 1].Id?
    ensures Tracks(Step(s, items[|items| - 1]), items)
  {
    hide FlushBoth, Shapes, StackStep, StackRun, ShownAfter, FieldControls, WipTracks, AllRealize, Closed;
    var front := items[..|items| - 1];
    FlushRealizes(s, front, s.id);
    RealizedBoth(s.reports, FlushBoth(s.id, s.wip), Closed(front), Shapes(s.id, front));
    ClosedAtId(items);
    FieldLeavesStack(s.stack, items[|items| - 1]);
    RunLast(Init().stack, items);
    WipCleared(items, 0);
    WipCleared(items, 1);
    assert s.reports + [] == s.reports;
  }

  lemma ClosedAtId(items: seq<Item>)
    requires items != [] && items[|items| - 1].Id?
    ensures var front := items[..|items| - 1];
            Closed(items)
            == if IdAfter(front) != 0 then Closed(front) + Shapes(IdAfter(front), front) else Closed(front)
  {
    hide Shapes;
  }

  lemma RealizedBoth(a: seq<Report>, b: seq<Report>, x: seq<Shape>, y: seq<Shape>)
    requires AllRealize(a, x) && AllRealize(b, y)
    ensures AllRealize(a + b, x + y)
  {
    hide Realizes;
  }

  lemma WipCleared(items: seq<Item>, tag: nat)
    requires items != [] && items[|items| - 1].Id?
    ensures WipTracks(Wip([], 0), items, tag)
  {
  }

  lemma OtherTracks(s: State, items: seq<Item>)
    requires items != [] && Tracks(s, items[..|items| - 1]) && !items[|items| - 1].Id? && !items[|items| - 1].Field?
    ensures Tracks(Step(s, items[|items| - 1]), items)
  {
    hide StackStep, StackRun, WipTracks, AllRealize, IsCollection, NextLocals, Init;
    var i := items[|items| - 1];
    RunLast(Init().stack, items);
    WipStays(s.wip[0], items, 0);
    WipStays(s.wip[1], items, 1);
    RestStays(items);
    StepsAlike(s, i);
  }

  lemma RestStays(items: seq<Item>)
    requires items != [] && !items[|items| - 1].Id? && !items[|items| - 1].Field?
    ensures var front, i := items[..|items| - 1], items[|items| - 1];
            && LocalsAfter(items) == NextLocals(GlobalsAfter(front).page, LocalsAfter(front), i)
            && IdAfter(items) == IdAfter(front) && Closed(items) == Closed(front)
  {
    hide NextLocals, Shapes;
  }

  // An item that is neither a field nor a Report ID only has an effect on stack and usage list.
  lemma StepsAlike(s: State, i: Item)
    requires StateOk(s) && !i.Id? && !i.Field?
    ensures Step(s, i) == s.(stack := StackStep(s.stack, i), locals := NextLocals(Top(s.stack).page, s.locals, i))
  {
    hide StackStep, IsCollection;
    if i.AddUsage? || i.Feature? {
      FieldLeavesStack(s.stack, i);
    }
  }

  lemma WipStays(w: Wip, items: seq<Item>, tag: nat)
    requires items != [] && !items[|items| - 1].Id? && !items[|items| - 1].Field?
    requires WipTracks(w, items[..|items| - 1], tag)
    ensures WipTracks(w, items, tag)
  {
    hide Ordered, ShownAfter, FieldControls, GlobalsAfter;
  }

  lemma FieldLeavesStack(st: Stack, i: Item)
    requires StackOk(st) && (i.Field? || i.Id? || i.AddUsage? || i.Feature?)
    ensures StackStep(st, i) == st
  {
  }

  lemma {:induction false} RunTracks(items: seq<Item>)
    requires Fits32(items) && forall i :: 0 <= i < |items| ==> ItemOk(items[i])
    ensures Tracks(Run(items), items)
  {
    if items != [] {
      hide Bits, Tracks, Step;
      var front := items[..|items| - 1];
      forall k, tag: nat | 0 <= k <= |front| && tag < TAGS
        ensures Bits(front[..k], tag) < U32_MOD
      {
        assert front[..k] == items[..k];
      }
      RunTracks(front);
      assert items[..|items|] == items;
      if items[|front|].Field? {
        FieldTracks(Run(front), items);
      } else if items[|front|].Id? {
        IdTracks(Run(front), items);
      } else {
        OtherTracks(Run(front), items);
      }
    }
  }

  // Every report of a descriptor: its ID and kind, its length the bits of its fields in whole bytes,
  // its usages in order, apart from each other and inside those bits.
  lemma ReportsAreTheFields(m: seq<octet>, len: nat)
    requires len + 4 <= |m| && Fits32(Decode(m, len, 0).items)
    ensures var p := Decode(m, len, 0);
            AllRealize(ParseReports(m, len), if p.complete then AllShapes(p.items) else Closed(p.items))
  {
    hide Decode;
    var p := Decode(m, len, 0);
    RunTracks(p.items);
    var s := Run(p.items);
    FlushRealizes(s, p.items, s.id);
    FlushRealizes(s, p.items, 1);
  }
}
