// The descriptor parser in its own form: a stack, a usage list and two reports in the making,
// all changed in place as the items go by (main/adapter/hid_parser.c:358-648).
module HidParser {
  import opened Bytes
  import opened HidItems
  import opened HidReports

  // What the source's fixed tables can take: all usages of the field fit, and none is read past the list.
  predicate FieldFits(g: Globals, l: Locals, w: Wip, flags: octet)
    requires LocalsOk(l)
  {
    Shown(g, l, w, flags) ==>
      && (l.listed == 1 || g.count <= MAX_USAGE)
      && |w.usages| + |Controls(g, l, flags, w.bits, Rounds(g, l))| <= MAX_USAGE
  }

  predicate ItemFits(s: State, i: Item)
    requires StateOk(s) && ItemOk(i)
  {
    i.Field? ==> FieldFits(Top(s.stack), s.locals, s.wip[i.tag], i.flags)
  }

  predicate Fits(items: seq<Item>)
    requires forall i :: 0 <= i < |items| ==> ItemOk(items[i])
  {
    forall k :: 0 <= k < |items| ==> ItemFits(Run(items[..k]), items[k])
  }

  lemma {:induction false} ControlsGrow(g: Globals, l: Locals, flags: octet, base: nat, n: nat, m: nat)
    requires LocalsOk(l) && n <= m
    ensures |Controls(g, l, flags, base, n)| <= |Controls(g, l, flags, base, m)|
    decreases m
  {
    if n < m {
      ControlsGrow(g, l, flags, base, n, m - 1);
    }
  }

  lemma RunMore(items: seq<Item>, k: nat)
    requires k < |items| && forall i :: 0 <= i < |items| ==> ItemOk(items[i])
    ensures Run(items[..k + 1]) == Step(Run(items[..k]), items[k])
  {
    hide Step;
    assert items[..k + 1][..k] == items[..k];
  }

  // A report after the first n controls of a field.
  function SoFar(g: Globals, l: Locals, flags: octet, w: Wip, n: nat): Wip
    requires LocalsOk(l)
  {
    Wip(w.usages + Controls(g, l, flags, w.bits, n), Advance(g, w.bits, Merges(g, l), n))
  }

  lemma NoControls(g: Globals, l: Locals, flags: octet, w: Wip)
    requires LocalsOk(l)
    ensures SoFar(g, l, flags, w, 0) == w
  {
    assert w.usages + [] == w.usages;
  }

  lemma OneControl(g: Globals, l: Locals, flags: octet, w: Wip, i: nat)
    requires LocalsOk(l)
    ensures var p, u := SoFar(g, l, flags, w, i), UsageOf(l, i);
            var added := if IsUsed(g.page, u) then Fragments(g, u, flags, p.bits, Merges(g, l)) else [];
            && |Controls(g, l, flags, w.bits, i + 1)| == |Controls(g, l, flags, w.bits, i)| + |added|
            && SoFar(g, l, flags, w, i + 1) == Wip(p.usages + added, Add32(p.bits, Width(g, Merges(g, l))))
  {
    hide IsUsed, Fragments, Width;
    assert w.usages + Controls(g, l, flags, w.bits, i) + [] == w.usages + Controls(g, l, flags, w.bits, i);
  }

  lemma NextFits(g: Globals, l: Locals, flags: octet, w: Wip, i: nat, rounds: nat)
    requires LocalsOk(l) && i < rounds && |w.usages| + |Controls(g, l, flags, w.bits, rounds)| <= MAX_USAGE
    ensures var p, u := SoFar(g, l, flags, w, i), UsageOf(l, i);
            IsUsed(g.page, u) ==> |p.usages| + |Fragments(g, u, flags, p.bits, Merges(g, l))| <= MAX_USAGE
  {
    hide IsUsed, Fragments, Advance, Controls;
    ControlsGrow(g, l, flags, w.bits, i + 1, rounds);
    OneControl(g, l, flags, w, i);
  }

  class Parser {
    const stack: array<Globals>
    var depth: nat
    const list: array<nat>
    var listed: nat
    var id: nat
    const usages: array2<Usage>
    const counts: array<nat>
    const bits: array<nat>
    var reports: seq<Report>

    ghost predicate Valid()
      reads this, counts
    {
      && stack.Length == STACK_MAX && depth < STACK_MAX && list.Length == MAX_USAGE && listed <= MAX_USAGE
      && usages.Length0 == TAGS && usages.Length1 == MAX_USAGE && counts.Length == TAGS && bits.Length == TAGS
      && counts[0] <= MAX_USAGE && counts[1] <= MAX_USAGE
      && list != counts && list != bits && counts != bits
    }

    ghost function Row(tag: nat): (r: seq<Usage>)
      requires usages.Length0 == TAGS && usages.Length1 == MAX_USAGE && tag < TAGS
      reads usages
      ensures |r| == MAX_USAGE && forall k :: 0 <= k < MAX_USAGE ==> r[k] == usages[tag, k]
    {
      seq(MAX_USAGE, (k: int) requires 0 <= k < MAX_USAGE && usages.Length0 == TAGS && usages.Length1 == MAX_USAGE
                     reads usages => usages[tag, k])
    }

    ghost function Pending(tag: nat): Wip
      requires Valid() && tag < TAGS
      reads this, usages, counts, bits
    {
      Wip(Row(tag)[..counts[tag]], bits[tag])
    }

    ghost function Globals(): (st: Stack)
      requires Valid()
      reads this, stack, counts
      ensures StackOk(st)
    {
      Stack(stack[..], depth)
    }

    ghost function Local(): (l: Locals)
      requires Valid()
      reads this, list, counts
      ensures LocalsOk(l)
    {
      Locals(list[..], listed)
    }

    ghost function Value(): (s: State)
      requires Valid()
      reads this, stack, list, usages, counts, bits
      ensures StateOk(s)
    {
      State(Globals(), Local(), id, [Pending(0), Pending(1)], reports)
    }

    constructor ()
      ensures Valid() && Value() == Init()
      ensures fresh(stack) && fresh(list) && fresh(usages) && fresh(counts) && fresh(bits)
    {
      stack := new Globals[STACK_MAX](_ => NO_GLOBALS);
      depth := 0;
      list := new nat[MAX_USAGE](_ => 0);
      listed := 0;
      id := 0;
      usages := new Usage[TAGS, MAX_USAGE]((_, _) => Usage(0, 0, 0, 0, 0, 0, 0, 0));
      counts := new nat[TAGS](_ => 0);
      bits := new nat[TAGS](_ => 0);
      reports := [];
      new;
      assert list[..] == Blank(0).list;
      assert stack[..] == Init().stack.levels;
    }

    // Globals, Push and Pop.
    method Global(i: Item)
      requires Valid()
      modifies this`depth, stack
      ensures Valid() && Globals() == StackStep(old(Globals()), i)
    {
      var g := stack[depth];
      match i
      case SetPage(v) => stack[depth] := g.(page := v);
      case SetMin(v) => stack[depth] := g.(min := v);
      case SetMax(v) => stack[depth] := g.(max := v);
      case SetUsageMax(v) => stack[depth] := g.(usageMax := v);
      case SetSize(v) => stack[depth] := g.(size := v);
      case SetCount(v) => stack[depth] := g.(count := v);
      case Push =>
        if depth < STACK_MAX - 1 {
          stack[depth + 1] := g;
          depth := depth + 1;
        }
      case Pop =>
        if depth > 0 {
          depth := depth - 1;
        }
      case _ =>
    }

    method ListUsage(usage: nat, filtered: bool)
      requires Valid()
      modifies this`listed, list
      ensures Valid() && Value() == Step(old(Value()), AddUsage(usage, filtered))
    {
      hide IsCollection;
      if !filtered || !IsCollection(stack[depth].page, usage) {
        if listed < MAX_USAGE {
          list[listed] := usage;
          listed := listed + 1;
        }
      }
    }

    // The next free entry of a report.
    method AddUsageEntry(tag: nat, u: Usage)
      requires Valid() && tag < TAGS && counts[tag] < MAX_USAGE
      modifies usages, counts
      ensures Valid() && counts[tag] == old(counts[tag]) + 1
      ensures Pending(tag) == Wip(old(Pending(tag)).usages + [u], bits[tag])
      ensures Pending(1 - tag) == old(Pending(1 - tag))
    {
      usages[tag, counts[tag]] := u;
      counts[tag] := counts[tag] + 1;
      assert Row(tag)[..counts[tag]] == old(Row(tag)[..counts[tag]]) + [u];
    }

    method AddFragments(tag: nat, g: Globals, usage: nat, flags: octet, merged: bool)
      requires Valid() && tag < TAGS
      requires counts[tag] + |Fragments(g, usage, flags, bits[tag], merged)| <= MAX_USAGE
      modifies usages, counts
      ensures Valid()
      ensures Pending(tag) == Wip(old(Pending(tag)).usages + Fragments(g, usage, flags, bits[tag], merged), bits[tag])
      ensures Pending(1 - tag) == old(Pending(1 - tag))
    {
      hide Fragment;
      var n := 1;
      if merged {
        n := g.count / 32;
        if g.count % 32 != 0 {
          n := n + 1;
        }
      }
      ghost var parts := Fragments(g, usage, flags, bits[tag], merged);
      ghost var w := Pending(tag);
      assert w.usages + parts[..0] == w.usages;
      for j := 0 to n
        invariant Valid() && |parts| == n && counts[tag] == old(counts[tag]) + j
        invariant Pending(tag) == Wip(w.usages + parts[..j], w.bits)
        invariant Pending(1 - tag) == old(Pending(1 - tag))
      {
        AddUsageEntry(tag, Fragment(g, usage, flags, bits[tag], merged, n, j));
        assert w.usages + parts[..j + 1] == w.usages + parts[..j] + [parts[j]];
      }
      assert parts[..n] == parts;
    }

    // One control: its fragments if its usage is used, and its bits in any case.
    method AddControl(tag: nat, g: Globals, usage: nat, flags: octet, merged: bool)
      requires Valid() && tag < TAGS
      requires var w := Pending(tag);
               IsUsed(g.page, usage) ==> |w.usages| + |Fragments(g, usage, flags, w.bits, merged)| <= MAX_USAGE
      modifies usages, counts, bits
      ensures Valid() && Pending(1 - tag) == old(Pending(1 - tag))
      ensures var w := old(Pending(tag));
              var added := if IsUsed(g.page, usage) then Fragments(g, usage, flags, w.bits, merged) else [];
              Pending(tag) == Wip(w.usages + added, Add32(w.bits, Width(g, merged)))
    {
      hide Fragments, IsUsed;
      if IsUsed(g.page, usage) {
        AddFragments(tag, g, usage, flags, merged);
      }
      bits[tag] := Add32(bits[tag], if merged then g.count * g.size else g.size);
    }

    // The controls of a field that is shown, one usage after the other.
    method AddControls(tag: nat, flags: octet)
      requires Valid() && tag < TAGS
      requires Shown(stack[depth], Local(), Pending(tag), flags)
      requires FieldFits(stack[depth], Local(), Pending(tag), flags)
      modifies usages, counts, bits
      ensures Valid() && Pending(1 - tag) == old(Pending(1 - tag))
      ensures Pending(tag) == AddField(stack[depth], Local(), old(Pending(tag)), flags)
    {
      var g := stack[depth];
      var merged := listed == 1 && g.size == 1 && g.count > 1;
      var rounds := if merged then 1 else g.count;
      ghost var l, w := Local(), Pending(tag);
      hide Fragments, IsUsed, Shown, Controls, Width, Advance;
      NoControls(g, l, flags, w);
      for i := 0 to rounds
        invariant Valid() && listed == old(listed) && list[..] == old(list[..])
        invariant Pending(1 - tag) == old(Pending(1 - tag))
        invariant Pending(tag) == SoFar(g, l, flags, w, i)
      {
        var usage := if listed == 1 then list[0] else list[i];
        assert usage == UsageOf(l, i);
        NextFits(g, l, flags, w, i, rounds);
        OneControl(g, l, flags, w, i);
        AddControl(tag, g, usage, flags, merged);
      }
    }

    // Input and Output.
    method FieldItem(tag: nat, flags: octet)
      requires Valid() && tag < TAGS && FieldFits(stack[depth], Local(), Pending(tag), flags)
      modifies this`listed, list, usages, counts, bits
      ensures Valid() && Value() == Step(old(Value()), Field(tag, flags))
    {
      hide Controls, FieldFits, Advance;
      ghost var s := Value();
      var g := stack[depth];
      if flags % 2 == 0 && g.page != 0xFF && list[0] != 0xFF && counts[tag] < MAX_USAGE {
        AddControls(tag, flags);
      } else {
        bits[tag] := Add32(bits[tag], g.size * g.count);
      }
      assert Pending(tag) == AddField(g, s.locals, s.wip[tag], flags);
      assert Pending(1 - tag) == s.wip[1 - tag];
      ClearLocals();
    }

    method ClearLocals()
      requires Valid()
      modifies this`listed, list
      ensures Valid() && Local() == Blank(NO_USAGE)
    {
      listed := 0;
      for i := 0 to MAX_USAGE
        invariant listed == 0 && forall k :: 0 <= k < i ==> list[k] == NO_USAGE
      {
        list[i] := NO_USAGE;
      }
    }

    // Close both reports in the making; an empty one is dropped.
    method Close(reportId: nat)
      requires Valid()
      modifies this`reports
      ensures Valid() && reports == old(reports) + FlushBoth(reportId, old(Value()).wip)
    {
      for tag := 0 to TAGS
        invariant Valid()
        invariant reports == old(reports) + (if tag >= 1 then Flush(reportId, 0, old(Pending(0))) else [])
                           + (if tag >= 2 then Flush(reportId, 1, old(Pending(1))) else [])
      {
        var len := bits[tag] / 8;
        if bits[tag] % 8 != 0 {
          len := len + 1;
        }
        if len != 0 {
          var us := Collected(tag);
          reports := reports + [Report(reportId, tag, len, us)];
        }
      }
    }

    method Collected(tag: nat) returns (us: seq<Usage>)
      requires Valid() && tag < TAGS
      ensures us == Pending(tag).usages
    {
      us := [];
      for k := 0 to counts[tag]
        invariant us == Row(tag)[..k]
      {
        us := us + [usages[tag, k]];
      }
    }

    method IdItem(newId: nat)
      requires Valid()
      modifies this`reports, this`id, counts, bits
      ensures Valid() && Value() == Step(old(Value()), Id(newId))
    {
      hide FlushBoth;
      if id != 0 {
        Close(id);
      }
      id := newId;
      ghost var flushed := reports;
      for tag := 0 to TAGS
        invariant Valid() && id == newId && reports == flushed
        invariant forall k :: 0 <= k < tag ==> counts[k] == 0 && bits[k] == 0
      {
        counts[tag] := 0;
        bits[tag] := 0;
      }
    }

    method Handle(i: Item)
      requires Valid() && ItemOk(i) && ItemFits(Value(), i)
      modifies this, stack, list, usages, counts, bits
      ensures Valid() && Value() == Step(old(Value()), i)
    {
      hide StackStep, AddField, FlushBoth, IsCollection, FieldFits;
      match i
      case AddUsage(usage, filtered) => ListUsage(usage, filtered);
      case Field(tag, flags) => FieldItem(tag, flags);
      case Feature => listed := 0;
      case Id(newId) => IdItem(newId);
      case _ => Global(i);
    }

    // The items one by one; false when the parser gives up on a marker it does not know.
    method ReadItems(m: seq<octet>, len: nat) returns (complete: bool)
      requires Valid() && Value() == Run([]) && len + 4 <= |m| && Fits(Decode(m, len, 0).items)
      modifies this, stack, list, usages, counts, bits
      ensures Valid() && Value() == Run(Decode(m, len, 0).items) && complete == Decode(m, len, 0).complete
    {
      hide Step, ItemFits, Run, ItemAt;
      ghost var all := Decode(m, len, 0);
      ghost var read := 0;
      var desc := 0;
      assert all.items[..0] == [];
      while desc < len
        invariant Valid() && desc <= len + 4 && read <= |all.items|
        invariant all.items[read..] == Decode(m, len, desc).items && all.complete == Decode(m, len, desc).complete
        invariant Value() == Run(all.items[..read])
        decreases len + 4 - desc
      {
        var r := ItemAt(m, desc);
        if r.Unknown? {
          assert all.items[..read] == all.items;
          return false;
        }
        assert r.item == all.items[read..][0] == all.items[read];
        RunMore(all.items, read);
        Handle(r.item);
        assert all.items[read + 1..] == all.items[read..][1..];
        read := read + 1;
        desc := r.next;
      }
      assert all.items[..read] == all.items;
      complete := true;
    }

    // hid_parser: the reports of a descriptor of len bytes; the source may read up to four bytes more.
    method Parse(m: seq<octet>, len: nat)
      requires Valid() && Value() == Init() && len + 4 <= |m| && Fits(Decode(m, len, 0).items)
      modifies this, stack, list, usages, counts, bits
      ensures reports == ParseReports(m, len)
    {
      hide Decode, FlushBoth, Fits;
      var complete := ReadItems(m, len);
      if complete {
        if |reports| == 0 && id == 0 {
          id := 1;
        }
        if id != 0 {
          Close(id);
        }
      }
    }
  }
}
