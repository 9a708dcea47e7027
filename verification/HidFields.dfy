// Which fields of a descriptor reach a report, and with which entries: each Input or Output item read off the items
// before it (main/adapter/hid_parser.c:30-227, 420-438, 497-550).
module HidFields {
  import opened Bytes
  import opened HidItems
  import opened HidReports

  // Usages by page ---------------------------------------------------------------------

  // The controls the adapter makes use of: axes, wheel, hat and menu; accelerator and brake; every key; the first
  // twenty buttons; four consumer keys; the parameters of force feedback.
  predicate UsedOn(page: nat, usage: nat)
  {
    || (page == 0x01 && (0x30 <= usage < 0x3A || usage == 0x85))
    || (page == 0x02 && 0xC4 <= usage <= 0xC5)
    || page == 0x07
    || (page == 0x09 && usage <= 20)
    || (page == 0x0C && (usage == 0x40 || usage == 0xB2 || usage == 0x223 || usage == 0x224))
    || (page == 0x0F && (usage == 0x50 || usage == 0x70 || usage == 0x7C || usage == 0x97 || usage == 0xA7))
  }

  lemma UsedByPage(page: nat, usage: nat)
    ensures IsUsed(page, usage) <==> UsedOn(page, usage)
  {
  }

  // Usages that name a collection, and no control when given in one byte.
  predicate CollectionOn(page: nat, usage: nat)
  {
    || (page == 0x01 && ((0x01 <= usage <= 0x09 && usage != 0x03) || usage == 0x3A || usage == 0x80))
    || (page == 0x02 && (0x01 <= usage <= 0x0C || 0x20 <= usage <= 0x25))
    || (page == 0x03 && 0x01 <= usage <= 0x0A)
    || (page == 0x04 && (0x01 <= usage <= 0x04 || usage == 0x38))
    || (page == 0x05 && (0x01 <= usage <= 0x03 || usage in {0x20, 0x32, 0x37, 0x39}))
    || (page == 0x0C && (0x01 <= usage <= 0x06 || usage in {0x36, 0x80, 0x87, 0xBA, 0xF1}))
    || (page == 0x0F
        && (0x57 <= usage <= 0x5A || 0x73 <= usage <= 0x74 || 0x77 <= usage <= 0x78 || 0x90 <= usage <= 0x92
            || 0x95 <= usage <= 0x96
            || usage in {0x01, 0x21, 0x25, 0x5F, 0x66, 0x68, 0x6B, 0x6E, 0x7D, 0x7F, 0x85, 0x89, 0x8B, 0xA8, 0xAB}))
  }

  lemma CollectionsByPage(page: nat, usage: nat)
    ensures IsCollection(page, usage) <==> CollectionOn(page, usage)
  {
  }

  // Usages listed ----------------------------------------------------------------------

  // Item k lists a usage: a byte that names a collection does not.
  predicate Lists(items: seq<Item>, k: nat)
    requires k < |items|
  {
    && items[k].AddUsage?
    && (items[k].filtered ==> !CollectionOn(GlobalsAfter(items[..k]).page, items[k].usage))
  }

  // The usages listed since the last main item, at most 24.
  function Listed(items: seq<Item>): (us: seq<nat>)
    ensures |us| <= 24
  {
    if items == [] then []
    else
      var front, i := items[..|items| - 1], items[|items| - 1];
      if i.Field? || i.Feature? then []
      else if Lists(items, |items| - 1) && |Listed(front)| < 24 then Listed(front) + [i.usage]
      else Listed(front)
  }

  // The usage that stands at place p: the last one listed there since the last Input or Output. A Feature starts the
  // list anew without clearing it.
  function Standing(items: seq<Item>, p: nat): nat
  {
    if items == [] then 0
    else
      var front, i := items[..|items| - 1], items[|items| - 1];
      if i.Field? then 0xFFFF
      else if Lists(items, |items| - 1) && |Listed(front)| == p then i.usage
      else Standing(front, p)
  }

  // What is listed stands where it was listed.
  lemma {:induction false} ListedStands(items: seq<Item>, p: nat)
    requires p < |Listed(items)|
    ensures Standing(items, p) == Listed(items)[p]
  {
    hide Lists;
    if items != [] {
      var front := items[..|items| - 1];
      if p < |Listed(front)| {
        ListedStands(front, p);
      }
    }
  }

  lemma {:induction false} LocalsAre(items: seq<Item>)
    ensures LocalsAfter(items).listed == |Listed(items)|
    ensures forall p: nat :: p < 24 ==> LocalsAfter(items).list[p] == Standing(items, p)
  {
    if items != [] {
      LocalsAre(items[..|items| - 1]);
      NextLocalsAre(items);
    }
  }

  lemma NextLocalsAre(items: seq<Item>)
    requires items != []
    requires var front := items[..|items| - 1];
             LocalsAfter(front).listed == |Listed(front)|
             && forall p: nat :: p < 24 ==> LocalsAfter(front).list[p] == Standing(front, p)
    ensures LocalsAfter(items).listed == |Listed(items)|
    ensures forall p: nat :: p < 24 ==> LocalsAfter(items).list[p] == Standing(items, p)
  {
    hide IsCollection, CollectionOn, GlobalsAfter;
    var front, i := items[..|items| - 1], items[|items| - 1];
    if i.AddUsage? {
      CollectionsByPage(GlobalsAfter(front).page, i.usage);
    }
  }

  // The usage of control i: the only one listed, or the i-th.
  function ControlUsage(items: seq<Item>, i: nat): nat
  {
    if |Listed(items)| == 1 then Standing(items, 0) else if i < 24 then Standing(items, i) else 0xFFFF
  }

  lemma UsageOfIs(items: seq<Item>, i: nat)
    ensures UsageOf(LocalsAfter(items), i) == ControlUsage(items, i)
  {
    hide LocalsAfter, Listed, Standing;
    LocalsAre(items);
  }

  // The state before a field ----------------------------------------------------------

  predicate ItemsOk(items: seq<Item>)
  {
    forall i :: 0 <= i < |items| ==> ItemOk(items[i])
  }

  predicate Follows(s: State, items: seq<Item>)
  {
    && StateOk(s) && s.stack == StackRun(Init().stack, items)
    && s.locals == LocalsAfter(items) && s.id == IdAfter(items)
    && s.wip[0].bits < 0x1_0000_0000 && s.wip[1].bits < 0x1_0000_0000
  }

  lemma {:induction false} StateIs(items: seq<Item>)
    requires ItemsOk(items)
    ensures Follows(Run(items), items)
  {
    if items != [] {
      hide Follows, Step;
      StateIs(items[..|items| - 1]);
      NextStateIs(Run(items[..|items| - 1]), items);
    }
  }

  lemma NextStateIs(s: State, items: seq<Item>)
    requires items != [] && ItemOk(items[|items| - 1]) && Follows(s, items[..|items| - 1])
    ensures Follows(Step(s, items[|items| - 1]), items)
  {
    hide StackStep, StackRun, AddField, FlushBoth, Init, LocalsAfter, IdAfter, IsCollection;
    var i := items[|items| - 1];
    RunLast(Init().stack, items);
    NextOfEach(items);
    if i.Field? {
      FieldBits(Top(s.stack), s.locals, s.wip[i.tag], i.flags);
    }
    if i.Field? || i.Id? || i.AddUsage? || i.Feature? {
      FieldLeavesStack(s.stack, i);
    }
  }

  lemma NextOfEach(items: seq<Item>)
    requires items != []
    ensures var front, i := items[..|items| - 1], items[|items| - 1];
            && LocalsAfter(items) == NextLocals(GlobalsAfter(front).page, LocalsAfter(front), i)
            && IdAfter(items) == if i.Id? then i.id else IdAfter(front)
  {
    hide NextLocals;
  }

  // Every field takes its size times its count of bits, counted in 32.
  lemma FieldBits(g: Globals, l: Locals, w: Wip, flags: octet)
    requires LocalsOk(l) && w.bits < 0x1_0000_0000
    ensures AddField(g, l, w, flags).bits == (w.bits + g.size * g.count) % 0x1_0000_0000
  {
    FieldWidth(g, l);
    AdvanceWraps(g, w.bits, Merges(g, l), Rounds(g, l));
    hide Merges, Rounds, Width, Advance, Controls;
  }

  function Wrap(x: nat): nat { x % 0x1_0000_0000 }

  lemma {:induction false} AdvanceWraps(g: Globals, base: nat, merged: bool, n: nat)
    requires base < 0x1_0000_0000
    ensures Advance(g, base, merged, n) == Wrap(base + n * Width(g, merged))
  {
    hide Width, Wrap;
    var w := Width(g, merged);
    if n > 0 {
      AdvanceWraps(g, base, merged, n - 1);
      OneMoreWidth(n, w);
      Wraps(base + (n - 1) * w, w);
    } else {
      SmallWraps(base);
    }
  }

  lemma SmallWraps(a: nat)
    requires a < 0x1_0000_0000
    ensures Wrap(a) == a
  {
  }

  lemma OneMoreWidth(n: nat, w: nat)
    requires n > 0
    ensures n * w == (n - 1) * w + w
  {
  }

  lemma Wraps(a: nat, b: nat)
    ensures Add32(Wrap(a), b) == Wrap(a + b)
  {
  }

  // What a field adds -----------------------------------------------------------------

  // The field is taken into its report: it is not Constant, its page is not 0xFF, the first usage is not 0xFF, and
  // there is room.
  predicate Taken(front: seq<Item>, tag: nat, flags: octet, entries: seq<Usage>)
  {
    && flags % 2 == 0 && GlobalsAfter(front).page != 0xFF && Standing(front, 0) != 0xFF && |entries| < 24
  }

  // One usage for several single bits: they become one entry of up to 32 bits, or several.
  predicate Single(front: seq<Item>)
  {
    |Listed(front)| == 1 && GlobalsAfter(front).size == 1 && GlobalsAfter(front).count > 1
  }

  // The entry of control i: its usage, the bits after those of the controls before it, the globals in force.
  function EntryOf(front: seq<Item>, flags: octet, base: nat, i: nat): Usage
  {
    var g := GlobalsAfter(front);
    Usage(g.page, ControlUsage(front, i) % 0x1_0000_0000, g.usageMax, flags, (base + i * g.size) % 0x1_0000_0000,
          g.size, g.min, g.max)
  }

  // Piece j of single bits under one usage: 32 bits each, but a single one has them all and the last of several what
  // is left over.
  function PieceOf(front: seq<Item>, flags: octet, base: nat, j: nat): Usage
  {
    var g := GlobalsAfter(front);
    var pieces := (g.count + 31) / 32;
    Usage(g.page, (ControlUsage(front, 0) + 32 * j) % 0x1_0000_0000, g.usageMax, flags,
          (base + 32 * j) % 0x1_0000_0000,
          if pieces == 1 then g.count else if j == pieces - 1 then g.count % 32 else 32, g.min, g.max)
  }

  // The controls below n whose usage is made use of, in their order.
  predicate UsedPlaces(front: seq<Item>, places: seq<nat>, n: nat)
  {
    && (forall a, b :: 0 <= a < b < |places| ==> places[a] < places[b])
    && (forall a :: 0 <= a < |places| ==> places[a] < n)
    && (forall i: nat :: i < n ==> (i in places <==> UsedOn(GlobalsAfter(front).page, ControlUsage(front, i))))
  }

  function Places(front: seq<Item>, n: nat): (places: seq<nat>)
  {
    if n == 0 then []
    else
      Places(front, n - 1) + if UsedOn(GlobalsAfter(front).page, ControlUsage(front, n - 1)) then [n - 1] else []
  }

  lemma {:induction false} PlacesAre(front: seq<Item>, n: nat)
    ensures UsedPlaces(front, Places(front, n), n)
  {
    if n > 0 {
      hide UsedOn, ControlUsage, GlobalsAfter;
      PlacesAre(front, n - 1);
    }
  }

  lemma {:induction false} ControlsAre(front: seq<Item>, flags: octet, base: nat, n: nat)
    requires !Single(front) && base < 0x1_0000_0000
    ensures Controls(GlobalsAfter(front), LocalsAfter(front), flags, base, n)
         == seq(|Places(front, n)|, a requires 0 <= a < |Places(front, n)| =>
                  EntryOf(front, flags, base, Places(front, n)[a]))
  {
    if n > 0 {
      hide EntryOf, GlobalsAfter, LocalsAfter, UsedOn, ControlUsage, Single;
      ControlsAre(front, flags, base, n - 1);
      NextControlIs(front, flags, base, n);
    }
  }

  lemma NextControlIs(front: seq<Item>, flags: octet, base: nat, n: nat)
    requires !Single(front) && base < 0x1_0000_0000 && n > 0
    ensures var g, l := GlobalsAfter(front), LocalsAfter(front);
            Controls(g, l, flags, base, n)
            == Controls(g, l, flags, base, n - 1)
               + if UsedOn(g.page, ControlUsage(front, n - 1)) then [EntryOf(front, flags, base, n - 1)] else []
  {
    hide GlobalsAfter, LocalsAfter, UsedOn, IsUsed, ControlUsage, EntryOf, Controls, Fragments, UsageOf, Advance,
         Merges;
    var g, l := GlobalsAfter(front), LocalsAfter(front);
    NotMerged(front);
    UsageOfIs(front, n - 1);
    UsedByPage(g.page, ControlUsage(front, n - 1));
    NextControl(g, l, flags, base, n);
    EntryIs(front, flags, base, n - 1);
  }

  lemma NotMerged(front: seq<Item>)
    ensures Merges(GlobalsAfter(front), LocalsAfter(front)) <==> Single(front)
  {
    LocalsAre(front);
    hide GlobalsAfter, LocalsAfter, Listed;
  }

  lemma NextControl(g: Globals, l: Locals, flags: octet, base: nat, n: nat)
    requires LocalsOk(l) && n > 0
    ensures Controls(g, l, flags, base, n)
         == Controls(g, l, flags, base, n - 1)
            + if IsUsed(g.page, UsageOf(l, n - 1)) then
                Fragments(g, UsageOf(l, n - 1), flags, Advance(g, base, Merges(g, l), n - 1), Merges(g, l))
              else []
  {
    hide IsUsed, Fragments, UsageOf, Merges, Advance;
  }

  lemma EntryIs(front: seq<Item>, flags: octet, base: nat, i: nat)
    requires base < 0x1_0000_0000
    ensures Fragments(GlobalsAfter(front), ControlUsage(front, i), flags,
                      Advance(GlobalsAfter(front), base, false, i), false)
         == [EntryOf(front, flags, base, i)]
  {
    hide GlobalsAfter, ControlUsage, Fragments, Advance;
    var g := GlobalsAfter(front);
    AdvanceWraps(g, base, false, i);
    OneFragment(g, ControlUsage(front, i), flags, Advance(g, base, false, i));
  }

  lemma OneFragment(g: Globals, usage: nat, flags: octet, at: nat)
    requires at < 0x1_0000_0000
    ensures Fragments(g, usage, flags, at, false)
         == [Usage(g.page, usage % 0x1_0000_0000, g.usageMax, flags, at, g.size, g.min, g.max)]
  {
    var one := Fragment(g, usage, flags, at, false, 1, 0);
    assert one.offset == at && one.size == g.size && one.usage == usage % 0x1_0000_0000;
  }

  lemma PiecesAre(front: seq<Item>, flags: octet, base: nat)
    requires Single(front) && base < 0x1_0000_0000
    ensures var g, l := GlobalsAfter(front), LocalsAfter(front);
            Controls(g, l, flags, base, 1)
            == if UsedOn(g.page, ControlUsage(front, 0)) then
                 seq((g.count + 31) / 32, j requires 0 <= j < (g.count + 31) / 32 => PieceOf(front, flags, base, j))
               else []
  {
    hide UsedOn, IsUsed, ControlUsage, LocalsAfter, GlobalsAfter, UsageOf, Listed, Controls, Fragment, PieceOf, Merges;
    var g, l := GlobalsAfter(front), LocalsAfter(front);
    NotMerged(front);
    UsageOfIs(front, 0);
    UsedByPage(g.page, ControlUsage(front, 0));
    FirstControl(g, l, flags, base);
    PieceCount(g.count);
    forall j | 0 <= j < (g.count + 31) / 32
      ensures Fragment(g, ControlUsage(front, 0), flags, base, true, FragmentCount(g.count), j)
           == PieceOf(front, flags, base, j)
    {
      PieceIs(front, flags, base, j);
    }
  }

  lemma PieceCount(count: nat)
    ensures FragmentCount(count) == (count + 31) / 32
  {
  }

  lemma PieceIs(front: seq<Item>, flags: octet, base: nat, j: nat)
    requires Single(front) && j < (GlobalsAfter(front).count + 31) / 32
    ensures Fragment(GlobalsAfter(front), ControlUsage(front, 0), flags, base, true,
                     FragmentCount(GlobalsAfter(front).count), j)
         == PieceOf(front, flags, base, j)
  {
    hide GlobalsAfter, ControlUsage, Listed;
    PieceCount(GlobalsAfter(front).count);
  }

  lemma FirstControl(g: Globals, l: Locals, flags: octet, base: nat)
    requires LocalsOk(l)
    ensures Controls(g, l, flags, base, 1)
         == if IsUsed(g.page, UsageOf(l, 0)) then Fragments(g, UsageOf(l, 0), flags, base, Merges(g, l)) else []
  {
    hide IsUsed, Fragments, UsageOf, Merges;
    assert Controls(g, l, flags, base, 0) == [] && Advance(g, base, Merges(g, l), 0) == base;
  }

  // What the entries of a report become by one field, read off the items before it.
  predicate Adds(front: seq<Item>, tag: nat, flags: octet, w: Wip, r: Wip)
  {
    var g := GlobalsAfter(front);
    && r.bits == (w.bits + g.size * g.count) % 0x1_0000_0000 && w.usages <= r.usages
    && var added := r.usages[|w.usages|..];
       if !Taken(front, tag, flags, w.usages) then added == []
       else if Single(front) then
         && |added| == (if UsedOn(g.page, ControlUsage(front, 0)) then (g.count + 31) / 32 else 0)
         && forall j :: 0 <= j < |added| ==> added[j] == PieceOf(front, flags, w.bits, j)
       else
         && UsedPlaces(front, Places(front, g.count), g.count) && |added| == |Places(front, g.count)|
         && forall a :: 0 <= a < |added| ==> added[a] == EntryOf(front, flags, w.bits, Places(front, g.count)[a])
  }

  lemma TakenIsShown(front: seq<Item>, tag: nat, flags: octet, w: Wip)
    ensures Taken(front, tag, flags, w.usages) <==> Shown(GlobalsAfter(front), LocalsAfter(front), w, flags)
  {
    LocalsAre(front);
    hide GlobalsAfter, LocalsAfter, Standing, Listed;
  }

  lemma FieldAdds(front: seq<Item>, tag: nat, flags: octet, w: Wip)
    requires w.bits < 0x1_0000_0000
    ensures Adds(front, tag, flags, w, AddField(GlobalsAfter(front), LocalsAfter(front), w, flags))
  {
    hide GlobalsAfter, LocalsAfter, Controls, PieceOf, EntryOf, UsedOn, ControlUsage, UsedPlaces, Places, Advance,
         Shown, Taken, Single, Merges;
    FieldBits(GlobalsAfter(front), LocalsAfter(front), w, flags);
    TakenIsShown(front, tag, flags, w);
    NotMerged(front);
    if Single(front) {
      PiecesAre(front, flags, w.bits);
    } else {
      ControlsAre(front, flags, w.bits, GlobalsAfter(front).count);
      PlacesAre(front, GlobalsAfter(front).count);
    }
  }

  // Over every descriptor: an Input or Output adds entries to its report exactly if it is not Constant, neither its
  // page nor its first usage is 0xFF and fewer than 24 are there; then every control whose usage is made use of gets
  // its entry, in order and at its own bits, and nothing else does. The other report keeps its entries.
  lemma FieldsAdd(items: seq<Item>, k: nat)
    requires ItemsOk(items) && k < |items| && items[k].Field?
    ensures var s, r := Run(items[..k]), Run(items[..k + 1]);
            var tag := items[k].tag;
            Adds(items[..k], tag, items[k].flags, s.wip[tag], r.wip[tag]) && r.wip[1 - tag] == s.wip[1 - tag]
  {
    hide Adds, Step, Follows, Run;
    StateIs(items[..k]);
    RunNext(items, k);
    FieldStep(Run(items[..k]), items[..k], items[k]);
  }

  lemma RunNext(items: seq<Item>, k: nat)
    requires ItemsOk(items) && k < |items|
    ensures Run(items[..k + 1]) == Step(Run(items[..k]), items[k])
  {
    hide Step;
    assert items[..k + 1][..k] == items[..k] && items[..k + 1][k] == items[k];
  }

  lemma FieldStep(s: State, front: seq<Item>, i: Item)
    requires Follows(s, front) && ItemOk(i) && i.Field?
    ensures var r := Step(s, i);
            Adds(front, i.tag, i.flags, s.wip[i.tag], r.wip[i.tag]) && r.wip[1 - i.tag] == s.wip[1 - i.tag]
  {
    hide Adds, AddField, StackRun, LocalsAfter, IdAfter;
    FieldAdds(front, i.tag, i.flags, s.wip[i.tag]);
  }

  // Report level -----------------------------------------------------------------------

  // No Report ID between item k and the end.
  predicate SameReport(items: seq<Item>, k: nat)
  {
    forall j :: k < j < |items| ==> !items[j].Id?
  }

  lemma {:induction false} EntriesKept(items: seq<Item>, k: nat, tag: nat)
    requires ItemsOk(items) && k < |items| && SameReport(items, k) && tag < 2
    ensures Run(items[..k + 1]).wip[tag].usages <= Run(items).wip[tag].usages
    decreases |items|
  {
    var front, last := items[..|items| - 1], |items| - 1;
    if k == last {
      assert items[..k + 1] == items;
    } else {
      hide Run, Step;
      assert front[..k + 1] == items[..k + 1] && items[..last] == front && items[..last + 1] == items;
      EntriesKept(front, k, tag);
      RunNext(items, last);
      EntriesGrow(items, last, tag);
    }
  }

  lemma EntriesGrow(items: seq<Item>, k: nat, tag: nat)
    requires ItemsOk(items) && k < |items| && !items[k].Id? && tag < 2
    ensures Run(items[..k]).wip[tag].usages <= Run(items[..k + 1]).wip[tag].usages
  {
    if items[k].Field? {
      FieldsAdd(items, k);
      hide Run, Taken, Single, UsedPlaces;
    } else {
      RunNext(items, k);
      hide Run, StackStep, IsCollection;
    }
  }

  // Input or Output item k is taken into its report.
  predicate TakenField(items: seq<Item>, k: nat)
    requires ItemsOk(items)
  {
    && k < |items| && items[k].Field?
    && Taken(items[..k], items[k].tag, items[k].flags, Run(items[..k]).wip[items[k].tag].usages)
  }

  // Every used control of every field taken since the last Report ID is in the report, at its own bits.
  lemma EveryControlListed(items: seq<Item>, k: nat, i: nat)
    requires ItemsOk(items) && TakenField(items, k) && SameReport(items, k) && !Single(items[..k])
    requires i < GlobalsAfter(items[..k]).count
    requires UsedOn(GlobalsAfter(items[..k]).page, ControlUsage(items[..k], i))
    ensures var tag := items[k].tag;
            EntryOf(items[..k], items[k].flags, Run(items[..k]).wip[tag].bits, i) in Run(items).wip[tag].usages
  {
    hide Taken, Single, UsedOn, ControlUsage, GlobalsAfter, Places, EntryOf, Run;
    var front, tag := items[..k], items[k].tag;
    FieldsAdd(items, k);
    EntriesKept(items, k, tag);
    var places := Places(front, GlobalsAfter(front).count);
    var a :| 0 <= a < |places| && places[a] == i;
    var w, r := Run(front).wip[tag].usages, Run(items[..k + 1]).wip[tag].usages;
    assert r[|w|..][a] == r[|w| + a] == Run(items).wip[tag].usages[|w| + a];
  }

  // And so is every piece of a used field of single bits under one usage.
  lemma EveryFragmentListed(items: seq<Item>, k: nat, j: nat)
    requires ItemsOk(items) && TakenField(items, k) && SameReport(items, k) && Single(items[..k])
    requires UsedOn(GlobalsAfter(items[..k]).page, ControlUsage(items[..k], 0))
    requires j < (GlobalsAfter(items[..k]).count + 31) / 32
    ensures var tag := items[k].tag;
            PieceOf(items[..k], items[k].flags, Run(items[..k]).wip[tag].bits, j) in Run(items).wip[tag].usages
  {
    hide Taken, Single, UsedOn, ControlUsage, GlobalsAfter, Places, PieceOf, Run;
    var front, tag := items[..k], items[k].tag;
    FieldsAdd(items, k);
    EntriesKept(items, k, tag);
    var w, r := Run(front).wip[tag].usages, Run(items[..k + 1]).wip[tag].usages;
    assert r[|w|..][j] == r[|w| + j] == Run(items).wip[tag].usages[|w| + j];
  }

  // One byte of an axis: page Generic Desktop, usage X, 0 to 255, eight bits, one control, Data.
  lemma OneAxis()
    ensures var items := [SetPage(1), AddUsage(0x30, true), SetMin(0), SetMax(255), SetSize(8), SetCount(1)];
            Finish(Run(items + [Field(0, 2)])) == [Report(1, 0, 1, [Usage(1, 0x30, 0, 2, 0, 8, 0, 255)])]
  {
    hide Run, Step, Finish, Early, ItemsOk;
    var range := [SetPage(1), AddUsage(0x30, true), SetMin(0), SetMax(255)];
    var items := range + [SetSize(8)] + [SetCount(1)];
    assert items == [SetPage(1), AddUsage(0x30, true), SetMin(0), SetMax(255), SetSize(8), SetCount(1)];
    AxisRange();
    EarlyStep(range, SetSize(8), NO_GLOBALS.(page := 1, max := 255), [0x30]);
    EarlyStep(range + [SetSize(8)], SetCount(1), NO_GLOBALS.(page := 1, max := 255, size := 8), [0x30]);
    RunMore(items, Field(0, 2));
    LastAxisItem(Run(items));
  }

  lemma AxisRange()
    ensures var items := [SetPage(1), AddUsage(0x30, true), SetMin(0), SetMax(255)];
            ItemsOk(items) && Early(Run(items), NO_GLOBALS.(page := 1, max := 255), [0x30])
  {
    hide Run, Step, Finish, Early, ItemsOk;
    var page, x: seq<nat> := [SetPage(1)], [0x30];
    var usage := page + [AddUsage(0x30, true)];
    assert usage + [SetMin(0)] + [SetMax(255)] == [SetPage(1), AddUsage(0x30, true), SetMin(0), SetMax(255)];
    NothingYet();
    assert [] + page == page && [] + x == x;
    EarlyStep([], SetPage(1), NO_GLOBALS, []);
    EarlyStep(page, AddUsage(0x30, true), NO_GLOBALS.(page := 1), []);
    EarlyStep(usage, SetMin(0), NO_GLOBALS.(page := 1), [0x30]);
    EarlyStep(usage + [SetMin(0)], SetMax(255), NO_GLOBALS.(page := 1), [0x30]);
  }

  // Before the first field of a descriptor without Push and Report ID.
  predicate Early(s: State, g: Globals, listed: seq<nat>)
  {
    && StateOk(s) && s.stack.depth == 0 && Top(s.stack) == g && s.id == 0 && s.reports == []
    && s.wip == [Wip([], 0), Wip([], 0)] && s.locals.listed == |listed| && s.locals.list[..|listed|] == listed
  }

  lemma NothingYet()
    ensures ItemsOk([]) && Early(Run([]), NO_GLOBALS, [])
  {
  }

  lemma EarlyStep(items: seq<Item>, i: Item, g: Globals, listed: seq<nat>)
    requires ItemsOk(items) && Early(Run(items), g, listed) && |listed| < 24 && ItemOk(i)
    ensures ItemsOk(items + [i])
    ensures match i
            case AddUsage(u, filtered) => !IsCollection(g.page, u) ==> Early(Run(items + [i]), g, listed + [u])
            case SetPage(v) => Early(Run(items + [i]), g.(page := v), listed)
            case SetMin(v) => Early(Run(items + [i]), g.(min := v), listed)
            case SetMax(v) => Early(Run(items + [i]), g.(max := v), listed)
            case SetSize(v) => Early(Run(items + [i]), g.(size := v), listed)
            case SetCount(v) => Early(Run(items + [i]), g.(count := v), listed)
            case _ => true
  {
    RunMore(items, i);
    hide Run, IsCollection;
  }

  lemma LastAxisItem(s: State)
    requires Early(s, Globals(8, 1, 0, 255, 1, 0), [0x30])
    ensures Finish(Step(s, Field(0, 2))) == [Report(1, 0, 1, [Usage(1, 0x30, 0, 2, 0, 8, 0, 255)])]
  {
    assert s.locals.list[0] == s.locals.list[..1][0];
    AxisField(Top(s.stack), s.locals);
    hide AddField;
  }

  lemma RunMore(items: seq<Item>, i: Item)
    requires ItemsOk(items) && ItemOk(i)
    ensures ItemsOk(items + [i]) && Run(items + [i]) == Step(Run(items), i)
  {
    hide Step;
    assert (items + [i])[..|items|] == items;
  }

  lemma AxisField(g: Globals, l: Locals)
    requires g == Globals(8, 1, 0, 255, 1, 0) && LocalsOk(l) && l.listed == 1 && l.list[0] == 0x30
    ensures AddField(g, l, Wip([], 0), 2) == Wip([Usage(1, 0x30, 0, 2, 0, 8, 0, 255)], 8)
  {
    FirstControl(g, l, 2, 0);
    OneFragment(g, 0x30, 2, 0);
    FieldBits(g, l, Wip([], 0), 2);
  }
}
