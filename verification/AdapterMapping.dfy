// The mapping of one controller's buttons and axes onto the wired outputs
// (main/adapter/adapter.c:49-216, 232-285, 383-419). Bit masks are sets of bit positions, floats are reals.
module AdapterMapping {
  import opened Bytes

  const OUTPUTS: nat := 12
  const AXES: nat := 16
  const LINEAR: nat := 0

  // src_btn, dst_btn, dst_id and so on of struct map_cfg
  datatype Entry = Entry(src: octet, dst: octet, out: nat, percMax: nat, percThreshold: nat,
    percDeadzone: nat, turbo: nat, algo: nat)

  datatype Meta = Meta(deadzone: int, absMax: int, absMin: int, polarity: bool, relative: bool)

  datatype InAxis = InAxis(value: int, meta: Meta)
  datatype Input = Input(mask: set<nat>, desc: set<nat>, pressed: set<nat>, axes: seq<InAxis>)

  datatype OutAxis = OutAxis(value: int, relative: bool, turbo: nat, meta: Meta)
  datatype Output = Output(mask: set<nat>, desc: set<nat>, mapped: set<nat>, btns: set<nat>,
    turbo: map<nat, nat>, axes: seq<OutAxis>)

  // The word and bit of a button ID: everything from 96 up shares the last word.
  function Slot(id: octet): nat
  {
    32 * (if id < 32 then 0 else if id < 64 then 1 else if id < 96 then 2 else 3) + id % 32
  }

  datatype Axis = NoAxis | Axis(index: nat)

  // btn_id_to_axis
  function AxisOf(id: octet): (a: Axis)
    ensures a.Axis? ==> a.index < AXES
  {
    if id in {0, 1, 12, 13} then Axis(0)
    else if id in {2, 3, 14, 15} then Axis(1)
    else if id == 4 || id == 5 then Axis(2)
    else if id == 6 || id == 7 then Axis(3)
    else if id == 24 then Axis(4)
    else if id == 28 then Axis(5)
    else if id == 25 then Axis(6)
    else if id == 29 then Axis(7)
    else if 8 <= id <= 11 then Axis(id)
    else if 16 <= id <= 19 then Axis(id - 4)
    else NoAxis
  }

  // btn_sign
  function Sign(polarity: bool, id: octet): (s: int)
    ensures s == 1 || s == -1
  {
    if id in {0, 2, 4, 6, 12, 14} then if polarity then 1 else -1
    else if id in {1, 3, 5, 7, 13, 15, 24, 25, 28, 29} || 8 <= id <= 11 || 16 <= id <= 19 then
      if polarity then -1 else 1
    else 1
  }

  function Abs(x: int): nat { if x < 0 then -x else x }
  function Max(a: int, b: int): int { if a > b then a else b }

  // A float cast to an integer drops the fraction.
  function Trunc(x: real): int
  {
    if x >= 0.0 then x.Floor else -((-x).Floor)
  }

  // The state ------------------------------------------------------------------------

  datatype State = State(input: Input, outs: seq<Output>)

  predicate StateOk(s: State)
  {
    && |s.input.axes| == AXES && |s.outs| == OUTPUTS
    && (forall d :: 0 <= d < OUTPUTS ==> |s.outs[d].axes| == AXES)
  }

  // An entry of the configuration names one of the outputs, and an axis source only meets
  // axis destinations that have an axis.
  predicate EntryOk(s: State, e: Entry)
    requires StateOk(s)
  {
    && e.out < OUTPUTS
    && (FromAxis(s, e) && AxisOf(e.src).Axis? && Slot(e.dst) in s.outs[e.out].desc ==> AxisOf(e.dst).Axis?)
  }

  predicate FromAxis(s: State, e: Entry)
  {
    Slot(e.src) in s.input.mask && Slot(e.src) in s.input.desc
  }

  predicate FromButton(s: State, e: Entry)
  {
    Slot(e.src) in s.input.mask && Slot(e.src) !in s.input.desc
  }

  // Axis to anything -------------------------------------------------------------------

  // Source side of an axis entry: the axis, the sign the entry asks for, the largest value seen that way.
  function SrcSign(s: State, e: Entry): int
    requires StateOk(s) && AxisOf(e.src).Axis?
  {
    Sign(s.input.axes[AxisOf(e.src).index].meta.polarity, e.src)
  }

  predicate SignAgrees(s: State, e: Entry)
    requires StateOk(s) && AxisOf(e.src).Axis?
  {
    SrcSign(s, e) * s.input.axes[AxisOf(e.src).index].value >= 0
  }

  // The calibration moves along when the axis goes beyond it.
  function Raised(a: InAxis, sign: int): InAxis
  {
    if sign > 0 then a.(meta := a.meta.(absMax := Max(a.meta.absMax, Abs(a.value))))
    else a.(meta := a.meta.(absMin := Max(a.meta.absMin, Abs(a.value))))
  }

  function SrcMax(a: InAxis, sign: int): int
  {
    Max(if sign > 0 then a.meta.absMax else a.meta.absMin, Abs(a.value))
  }

  function Share(part: real, max: int): int
  {
    Trunc(part * max as real)
  }

  function Deadzone(a: InAxis, sign: int, e: Entry): int
  {
    Share(e.percDeadzone as real / 10000.0, SrcMax(a, sign)) + a.meta.deadzone
  }

  function DstMax(m: Meta, e: Entry): int
  {
    if Sign(m.polarity, e.dst) > 0 then m.absMax else m.absMin
  }

  function Scale(e: Entry, dstMax: int, range: int): real
    requires e.algo % 16 == LINEAR ==> range != 0
  {
    if e.algo % 16 == LINEAR then dstMax as real / range as real * (e.percMax as real / 100.0)
    else e.percMax as real / 100.0
  }

  // The divisor of the LINEAR scale is never zero: the axis is past its dead zone and within its range.
  lemma RangePositive(a: InAxis, sign: int, e: Entry)
    requires Abs(a.value) > Deadzone(a, sign, e)
    ensures SrcMax(a, sign) - Deadzone(a, sign, e) >= Abs(a.value) - Deadzone(a, sign, e) > 0
  {
  }

  function Product(x: real, y: real): real { x * y }

  function Scaled(e: Entry, sign: int, value: int, dstMax: int, range: int): int
    requires e.algo % 16 == LINEAR ==> range != 0
  {
    Trunc(Product((sign * value) as real, Scale(e, dstMax, range)))
  }

  function AxisToAxis(a: InAxis, sign: int, m: Meta, e: Entry): (v: int)
    requires Abs(a.value) > Deadzone(a, sign, e)
  {
    Scaled(e, Sign(m.polarity, e.dst), Abs(a.value) - Deadzone(a, sign, e), DstMax(m, e),
           SrcMax(a, sign) - Deadzone(a, sign, e))
  }

  function ButtonToAxis(m: Meta, e: Entry): int
  {
    Trunc((Sign(m.polarity, e.dst) * DstMax(m, e)) as real * (e.percMax as real / 100.0))
  }

  function Threshold(a: InAxis, sign: int, e: Entry): int
  {
    Share(e.percThreshold as real / 100.0, SrcMax(a, sign))
  }

  // What one entry does --------------------------------------------------------------------

  // The entry's destination exists.
  predicate Exists(s: State, e: Entry)
    requires StateOk(s) && e.out < OUTPUTS
  {
    Slot(e.dst) in s.outs[e.out].mask
  }

  predicate ToAxis(s: State, e: Entry)
    requires StateOk(s) && e.out < OUTPUTS
  {
    Slot(e.dst) in s.outs[e.out].desc
  }

  // An axis entry that reads its source.
  predicate Reads(s: State, e: Entry)
    requires StateOk(s) && EntryOk(s, e)
  {
    FromAxis(s, e) && AxisOf(e.src).Axis? && Exists(s, e) && SignAgrees(s, e)
  }

  // A button entry whose button is down.
  predicate Down(s: State, e: Entry)
    requires StateOk(s) && EntryOk(s, e)
  {
    FromButton(s, e) && Exists(s, e) && Slot(e.src) in s.input.pressed
  }

  predicate Presses(s: State, e: Entry)
    requires StateOk(s) && EntryOk(s, e)
  {
    !ToAxis(s, e) &&
    (Down(s, e)
     || (Reads(s, e)
         && var a, sign := s.input.axes[AxisOf(e.src).index], SrcSign(s, e);
            Abs(a.value) >= Threshold(a, sign, e)))
  }

  // The value it offers to its destination axis.
  datatype Offer = Nothing | Offer(value: int)

  function OfferOf(s: State, e: Entry): Offer
    requires StateOk(s) && EntryOk(s, e)
  {
    if !ToAxis(s, e) || AxisOf(e.dst).NoAxis? then Nothing
    else
      var m := s.outs[e.out].axes[AxisOf(e.dst).index].meta;
      if Down(s, e) then Offer(ButtonToAxis(m, e))
      else if Reads(s, e) then
        var a, sign := s.input.axes[AxisOf(e.src).index], SrcSign(s, e);
        if Abs(a.value) > Deadzone(a, sign, e) then Offer(AxisToAxis(a, sign, m, e)) else Nothing
      else Nothing
  }

  // An axis destination without an axis ends the button path before anything is marked.
  predicate Stuck(s: State, e: Entry)
    requires StateOk(s) && EntryOk(s, e)
  {
    Down(s, e) && ToAxis(s, e) && AxisOf(e.dst).NoAxis?
  }

  predicate Marks(s: State, e: Entry)
    requires StateOk(s) && EntryOk(s, e)
  {
    && Exists(s, e)
    && ((FromAxis(s, e) && AxisOf(e.src).Axis?) || (FromButton(s, e) && !Stuck(s, e)))
  }

  // The output is reported as touched.
  predicate Touches(s: State, e: Entry)
    requires StateOk(s) && EntryOk(s, e)
  {
    (FromAxis(s, e) && AxisOf(e.src).Axis?) || (FromButton(s, e) && !Stuck(s, e))
  }

  // A value counts if it goes further than what the axis has.
  function Louder(o: Output, a: Axis, offer: Offer, turbo: nat): (r: Output)
    requires |o.axes| == AXES && (a.Axis? ==> a.index < AXES)
    ensures |r.axes| == AXES
  {
    if a.Axis? && offer.Offer? && Abs(offer.value) > Abs(o.axes[a.index].value) then
      o.(axes := o.axes[a.index := o.axes[a.index].(value := offer.value, turbo := turbo)])
    else o
  }

  function StepOutput(s: State, e: Entry): (o: Output)
    requires StateOk(s) && EntryOk(s, e)
    ensures |o.axes| == AXES && o.mask == s.outs[e.out].mask && o.desc == s.outs[e.out].desc
  {
    var o := s.outs[e.out];
    var tracked :=
      if Reads(s, e) && ToAxis(s, e) && AxisOf(e.dst).Axis? then
        o.(axes := o.axes[AxisOf(e.dst).index :=
                     o.axes[AxisOf(e.dst).index].(relative := s.input.axes[AxisOf(e.src).index].meta.relative)])
      else o;
    var pressed :=
      if Presses(s, e) then tracked.(btns := tracked.btns + {Slot(e.dst)},
                    turbo := tracked.turbo[Slot(e.dst) := e.turbo])
      else tracked;
    var offered := Louder(pressed, AxisOf(e.dst), OfferOf(s, e), e.turbo);
    if Marks(s, e) then offered.(mapped := offered.mapped + {Slot(e.dst)}) else offered
  }

  function StepInput(s: State, e: Entry): (i: Input)
    requires StateOk(s) && EntryOk(s, e)
    ensures |i.axes| == AXES && i == s.input.(axes := i.axes)
  {
    if Reads(s, e) then
      var k := AxisOf(e.src).index;
      s.input.(axes := s.input.axes[k := Raised(s.input.axes[k], SrcSign(s, e))])
    else s.input
  }

  function Step(s: State, e: Entry): (r: State)
    requires StateOk(s) && EntryOk(s, e)
    ensures StateOk(r)
  {
    State(StepInput(s, e), s.outs[e.out := StepOutput(s, e)])
  }

  // Whole configurations -----------------------------------------------------------------

  predicate AllOk(s: State, es: seq<Entry>)
    requires StateOk(s)
  {
    forall i :: 0 <= i < |es| ==> EntryOk(s, es[i])
  }

  // Nothing an entry looks at is changed by another, save calibrations it would raise just as far itself.
  predicate SameAxis(a: InAxis, b: InAxis)
  {
    && a.value == b.value && b.meta == a.meta.(absMax := b.meta.absMax, absMin := b.meta.absMin)
    && SrcMax(a, 1) == SrcMax(b, 1) && SrcMax(a, -1) == SrcMax(b, -1)
  }

  predicate SameOutput(o: Output, p: Output)
    requires |o.axes| == AXES && |p.axes| == AXES
  {
    o.mask == p.mask && o.desc == p.desc && forall k :: 0 <= k < AXES ==> o.axes[k].meta == p.axes[k].meta
  }

  predicate Frozen(s: State, r: State)
    requires StateOk(s) && StateOk(r)
  {
    && r.input == s.input.(axes := r.input.axes)
    && (forall k :: 0 <= k < AXES ==> SameAxis(s.input.axes[k], r.input.axes[k]))
    && (forall d :: 0 <= d < OUTPUTS ==> SameOutput(s.outs[d], r.outs[d]))
  }

  lemma FrozenEntry(s: State, r: State, e: Entry)
    requires StateOk(s) && StateOk(r) && Frozen(s, r) && EntryOk(s, e)
    ensures EntryOk(r, e) && Reads(r, e) == Reads(s, e) && Down(r, e) == Down(s, e) && ToAxis(r, e) == ToAxis(s, e)
    ensures Presses(r, e) == Presses(s, e) && OfferOf(r, e) == OfferOf(s, e)
    ensures Marks(r, e) == Marks(s, e) && Touches(r, e) == Touches(s, e)
    ensures AxisOf(e.src).Axis? ==> SrcSign(r, e) == SrcSign(s, e)
  {
    hide Slot, Sign, AxisToAxis, ButtonToAxis;
    assert SameOutput(s.outs[e.out], r.outs[e.out]);
    if AxisOf(e.src).Axis? {
      var k := AxisOf(e.src).index;
      assert SameAxis(s.input.axes[k], r.input.axes[k]);
      AxisMath(s.input.axes[k], r.input.axes[k], SrcSign(s, e), e);
      if Abs(s.input.axes[k].value) > Deadzone(s.input.axes[k], SrcSign(s, e), e) && AxisOf(e.dst).Axis? {
        AxisMathOffer(s.input.axes[k], r.input.axes[k], SrcSign(s, e), s.outs[e.out].axes[AxisOf(e.dst).index].meta, e);
      }
    }
  }

  lemma AxisMath(a: InAxis, b: InAxis, sign: int, e: Entry)
    requires SameAxis(a, b) && (sign == 1 || sign == -1)
    ensures Deadzone(a, sign, e) == Deadzone(b, sign, e) && Threshold(a, sign, e) == Threshold(b, sign, e)
  {
    hide Share;
    if sign == 1 {
      assert SrcMax(a, 1) == SrcMax(b, 1);
    } else {
      assert SrcMax(a, -1) == SrcMax(b, -1);
    }
    assert SrcMax(a, sign) == SrcMax(b, sign) && a.meta.deadzone == b.meta.deadzone;
  }

  lemma AxisMathOffer(a: InAxis, b: InAxis, sign: int, m: Meta, e: Entry)
    requires SameAxis(a, b) && (sign == 1 || sign == -1) && Abs(a.value) > Deadzone(a, sign, e)
    ensures Deadzone(a, sign, e) == Deadzone(b, sign, e) && AxisToAxis(a, sign, m, e) == AxisToAxis(b, sign, m, e)
  {
    hide Scaled, Deadzone;
    AxisMath(a, b, sign, e);
    if sign == 1 {
      assert SrcMax(a, 1) == SrcMax(b, 1);
    } else {
      assert SrcMax(a, -1) == SrcMax(b, -1);
    }
    assert SrcMax(a, sign) == SrcMax(b, sign);
  }

  lemma StepFreezes(s: State, e: Entry)
    requires StateOk(s) && EntryOk(s, e)
    ensures Frozen(s, Step(s, e))
  {
    hide Slot, AxisOf, Reads, Presses, OfferOf, Marks, Sign;
  }

  lemma FrozenTrans(s: State, r: State, t: State)
    requires StateOk(s) && StateOk(r) && StateOk(t) && Frozen(s, r) && Frozen(r, t)
    ensures Frozen(s, t)
  {
    hide Slot, AxisOf, SrcMax;
  }

  function Run(s: State, es: seq<Entry>): (r: State)
    requires StateOk(s) && AllOk(s, es)
    ensures StateOk(r) && Frozen(s, r)
    decreases |es|
  {
    if es == [] then s
    else
      var front, e := es[..|es| - 1], es[|es| - 1];
      var p := Run(s, front);
      FrozenEntry(s, p, e);
      StepFreezes(p, e);
      FrozenTrans(s, p, Step(p, e));
      Step(p, e)
  }

  // The outcome in terms of the entries one by one -------------------------------------------

  function Pressed(s: State, es: seq<Entry>, d: nat): set<nat>
    requires StateOk(s) && AllOk(s, es)
  {
    set i | 0 <= i < |es| && es[i].out == d && Presses(s, es[i]) :: Slot(es[i].dst)
  }

  function Marked(s: State, es: seq<Entry>, d: nat): set<nat>
    requires StateOk(s) && AllOk(s, es)
  {
    set i | 0 <= i < |es| && es[i].out == d && Marks(s, es[i]) :: Slot(es[i].dst)
  }

  function Touched(s: State, es: seq<Entry>): set<nat>
    requires StateOk(s) && AllOk(s, es)
  {
    set i | 0 <= i < |es| && Touches(s, es[i]) :: es[i].out
  }

  // The entry offers a value to axis k of output d.
  predicate Offers(s: State, e: Entry, d: nat, k: nat)
    requires StateOk(s) && EntryOk(s, e)
  {
    e.out == d && AxisOf(e.dst) == Axis(k) && OfferOf(s, e).Offer?
  }

  // p is the largest magnitude among the axis as it was and the offers.
  predicate IsPeak(s: State, es: seq<Entry>, d: nat, k: nat, p: nat)
    requires StateOk(s) && AllOk(s, es) && d < OUTPUTS && k < AXES
  {
    var was := Abs(s.outs[d].axes[k].value);
    && was <= p && (forall i :: 0 <= i < |es| && Offers(s, es[i], d, k) ==> Abs(OfferOf(s, es[i]).value) <= p)
    && (p == was || exists i :: 0 <= i < |es| && Offers(s, es[i], d, k) && Abs(OfferOf(s, es[i]).value) == p)
  }

  // What one entry does to an output.
  predicate Effect(s: State, e: Entry, d: nat, p: Output, r: Output)
    requires StateOk(s) && EntryOk(s, e) && |p.axes| == |r.axes| == AXES
  {
    && r.btns == p.btns + (if e.out == d && Presses(s, e) then {Slot(e.dst)} else {})
    && r.mapped == p.mapped + (if e.out == d && Marks(s, e) then {Slot(e.dst)} else {})
    && forall k :: 0 <= k < AXES ==>
         Abs(r.axes[k].value) == if Offers(s, e, d, k) then Max(Abs(p.axes[k].value), Abs(OfferOf(s, e).value))
                                 else Abs(p.axes[k].value)
  }

  lemma StepEffect(s: State, e: Entry, d: nat)
    requires StateOk(s) && EntryOk(s, e) && d < OUTPUTS
    ensures Effect(s, e, d, s.outs[d], Step(s, e).outs[d])
  {
    hide Slot, AxisOf, Presses, Marks, OfferOf, Reads, EntryOk, Exists;
  }

  // What it does after the others is what it does alone.
  lemma LastEntry(s: State, es: seq<Entry>, d: nat)
    requires StateOk(s) && AllOk(s, es) && es != [] && d < OUTPUTS
    ensures Effect(s, es[|es| - 1], d, Run(s, es[..|es| - 1]).outs[d], Run(s, es).outs[d])
  {
    var front, e := es[..|es| - 1], es[|es| - 1];
    assert EntryOk(s, e);
    hide Slot, AxisOf, Presses, Marks, OfferOf, Frozen, Step, EntryOk;
    FrozenEntry(s, Run(s, front), e);
    StepEffect(Run(s, front), e, d);
  }

  lemma {:induction false} ButtonsAreUnions(s: State, es: seq<Entry>, d: nat)
    requires StateOk(s) && AllOk(s, es) && d < OUTPUTS
    ensures Run(s, es).outs[d].btns == s.outs[d].btns + Pressed(s, es, d)
    ensures Run(s, es).outs[d].mapped == s.outs[d].mapped + Marked(s, es, d)
    decreases |es|
  {
    if es != [] {
      hide Slot, Presses, Marks, EntryOk, Run, Pressed, Marked;
      ButtonsAreUnions(s, es[..|es| - 1], d);
      LastEntry(s, es, d);
      PressedMore(s, es, d);
    }
  }

  lemma PressedMore(s: State, es: seq<Entry>, d: nat)
    requires StateOk(s) && AllOk(s, es) && es != []
    ensures var front, e := es[..|es| - 1], es[|es| - 1];
            && Pressed(s, es, d) == Pressed(s, front, d) + (if e.out == d && Presses(s, e) then {Slot(e.dst)} else {})
            && Marked(s, es, d) == Marked(s, front, d) + (if e.out == d && Marks(s, e) then {Slot(e.dst)} else {})
  {
    hide Slot, Presses, Marks, EntryOk;
    var front := es[..|es| - 1];
    assert forall i :: 0 <= i < |front| ==> front[i] == es[i];
  }

  lemma {:induction false} AxesArePeaks(s: State, es: seq<Entry>, d: nat, k: nat)
    requires StateOk(s) && AllOk(s, es) && d < OUTPUTS && k < AXES
    ensures IsPeak(s, es, d, k, Abs(Run(s, es).outs[d].axes[k].value))
    decreases |es|
  {
    if es != [] {
      hide EntryOk, Run, IsPeak, Offers, OfferOf;
      var front := es[..|es| - 1];
      AxesArePeaks(s, front, d, k);
      LastEntry(s, es, d);
      PeakMore(s, es, d, k, Abs(Run(s, front).outs[d].axes[k].value));
    }
  }

  lemma PeakMore(s: State, es: seq<Entry>, d: nat, k: nat, p: nat)
    requires StateOk(s) && AllOk(s, es) && es != [] && d < OUTPUTS && k < AXES
    requires IsPeak(s, es[..|es| - 1], d, k, p)
    ensures var e := es[|es| - 1];
            IsPeak(s, es, d, k, if Offers(s, e, d, k) then Max(p, Abs(OfferOf(s, e).value)) else p)
  {
    hide Slot, OfferOf, EntryOk, AxisOf;
    var front := es[..|es| - 1];
    assert forall i :: 0 <= i < |front| ==> front[i] == es[i];
  }

  // The same entries offer the same values.
  lemma PeakCovers(s: State, a: seq<Entry>, b: seq<Entry>, d: nat, k: nat, q: nat)
    requires StateOk(s) && AllOk(s, a) && AllOk(s, b) && d < OUTPUTS && k < AXES
    ensures SameEntries(a, b) && IsPeak(s, b, d, k, q) ==>
              forall i :: 0 <= i < |a| && Offers(s, a[i], d, k) ==> Abs(OfferOf(s, a[i]).value) <= q
  {
    hide OfferOf, EntryOk, AxisOf;
    if SameEntries(a, b) && IsPeak(s, b, d, k, q) {
      forall i | 0 <= i < |a| && Offers(s, a[i], d, k)
        ensures Abs(OfferOf(s, a[i]).value) <= q
      {
        assert a[i] in b;
      }
    }
  }

  lemma PeakOnce(s: State, a: seq<Entry>, b: seq<Entry>, d: nat, k: nat, p: nat, q: nat)
    requires StateOk(s) && AllOk(s, a) && AllOk(s, b) && d < OUTPUTS && k < AXES
    ensures SameEntries(a, b) && IsPeak(s, a, d, k, p) && IsPeak(s, b, d, k, q) ==> p == q
  {
    hide OfferOf, EntryOk, AxisOf;
    PeakCovers(s, a, b, d, k, q);
    PeakCovers(s, b, a, d, k, p);
  }

  predicate SameEntries(a: seq<Entry>, b: seq<Entry>)
  {
    (forall i :: 0 <= i < |a| ==> a[i] in b) && (forall j :: 0 <= j < |b| ==> b[j] in a)
  }

  // The order of the entries, and repeating one, changes neither the buttons nor what counts as
  // mapped nor how far any axis is pushed.
  lemma OrderFree(s: State, a: seq<Entry>, b: seq<Entry>, d: nat)
    requires StateOk(s) && AllOk(s, a) && AllOk(s, b) && SameEntries(a, b) && d < OUTPUTS
    ensures var p, q := Run(s, a).outs[d], Run(s, b).outs[d];
            && p.btns == q.btns && p.mapped == q.mapped
            && forall k :: 0 <= k < AXES ==> Abs(p.axes[k].value) == Abs(q.axes[k].value)
    ensures Touched(s, a) == Touched(s, b)
  {
    ButtonsAreUnions(s, a, d);
    ButtonsAreUnions(s, b, d);
    SetsAgree(s, a, b, d);
    hide Run, Pressed, Marked, Touched;
    forall k | 0 <= k < AXES
      ensures Abs(Run(s, a).outs[d].axes[k].value) == Abs(Run(s, b).outs[d].axes[k].value)
    {
      AxesArePeaks(s, a, d, k);
      AxesArePeaks(s, b, d, k);
      PeakOnce(s, a, b, d, k, Abs(Run(s, a).outs[d].axes[k].value), Abs(Run(s, b).outs[d].axes[k].value));
    }
  }

  lemma SetsAgree(s: State, a: seq<Entry>, b: seq<Entry>, d: nat)
    requires StateOk(s) && AllOk(s, a) && AllOk(s, b) && SameEntries(a, b)
    ensures Pressed(s, a, d) == Pressed(s, b, d) && Marked(s, a, d) == Marked(s, b, d) && Touched(s, a) == Touched(s, b)
  {
    hide Slot, Presses, Marks, Touches, EntryOk;
    SetsWithin(s, a, b, d);
    SetsWithin(s, b, a, d);
  }

  lemma SetsWithin(s: State, a: seq<Entry>, b: seq<Entry>, d: nat)
    requires StateOk(s) && AllOk(s, a) && AllOk(s, b) && SameEntries(a, b)
    ensures Pressed(s, a, d) <= Pressed(s, b, d) && Marked(s, a, d) <= Marked(s, b, d) && Touched(s, a) <= Touched(s, b)
  {
    hide Slot, Presses, Marks, Touches, EntryOk;
    forall i | 0 <= i < |a|
      ensures Listed(a[i], b)
    {
      assert a[i] in b;
    }
  }

  predicate Listed(e: Entry, b: seq<Entry>)
  {
    exists j :: 0 <= j < |b| && b[j] == e
  }

  // The entry moves the upper (or lower) calibration of source axis k.
  predicate Raises(s: State, e: Entry, k: nat, up: bool)
    requires StateOk(s) && EntryOk(s, e)
  {
    Reads(s, e) && AxisOf(e.src) == Axis(k) && (SrcSign(s, e) > 0) == up
  }

  predicate SomeRaises(s: State, es: seq<Entry>, k: nat, up: bool)
    requires StateOk(s) && AllOk(s, es)
  {
    exists i :: 0 <= i < |es| && Raises(s, es[i], k, up)
  }

  // An axis read in a direction ends up calibrated for its value there, however often and in whatever order.
  lemma {:induction false} Calibrated(s: State, es: seq<Entry>, k: nat)
    requires StateOk(s) && AllOk(s, es) && k < AXES
    ensures var a, m := s.input.axes[k], Run(s, es).input.axes[k].meta;
            && m.absMax == (if SomeRaises(s, es, k, true) then Max(a.meta.absMax, Abs(a.value)) else a.meta.absMax)
            && m.absMin == (if SomeRaises(s, es, k, false) then Max(a.meta.absMin, Abs(a.value)) else a.meta.absMin)
    decreases |es|
  {
    if es != [] {
      hide Slot, AxisOf, Presses, Marks, OfferOf, Reads, EntryOk, StepOutput;
      var front, e := es[..|es| - 1], es[|es| - 1];
      Calibrated(s, front, k);
      assert EntryOk(s, e);
      FrozenEntry(s, Run(s, front), e);
      SomeRaisesMore(s, es, k, true);
      SomeRaisesMore(s, es, k, false);
      OneCalibration(s, Run(s, front), e, k);
      hide SomeRaises, Frozen, StepInput;
    }
  }

  lemma OneCalibration(s: State, p: State, e: Entry, k: nat)
    requires StateOk(s) && StateOk(p) && Frozen(s, p) && EntryOk(s, e) && EntryOk(p, e) && k < AXES
    ensures var a, m, r := s.input.axes[k], p.input.axes[k].meta, Step(p, e).input.axes[k].meta;
            && r.absMax == (if Raises(s, e, k, true) then Max(m.absMax, Abs(a.value)) else m.absMax)
            && r.absMin == (if Raises(s, e, k, false) then Max(m.absMin, Abs(a.value)) else m.absMin)
  {
    FrozenEntry(s, p, e);
    assert SameAxis(s.input.axes[k], p.input.axes[k]);
    hide Slot, AxisOf, Presses, Marks, OfferOf, Reads, EntryOk, StepOutput, SameOutput, SrcMax, Sign;
  }

  lemma SomeRaisesMore(s: State, es: seq<Entry>, k: nat, up: bool)
    requires StateOk(s) && AllOk(s, es) && es != []
    ensures SomeRaises(s, es, k, up) == (SomeRaises(s, es[..|es| - 1], k, up) || Raises(s, es[|es| - 1], k, up))
  {
    hide Raises, EntryOk;
    var front := es[..|es| - 1];
    forall i | 0 <= i < |es|
      ensures Raises(s, es[i], k, up) ==> SomeRaises(s, front, k, up) || i == |es| - 1
    {
      if i < |front| {
        assert front[i] == es[i];
      }
    }
    forall i | 0 <= i < |front|
      ensures Raises(s, front[i], k, up) ==> SomeRaises(s, es, k, up)
    {
      assert front[i] == es[i];
    }
  }

  // Scaling --------------------------------------------------------------------------------

  lemma TruncWithin(x: real, bound: real)
    requires -bound <= x <= bound
    ensures Abs(Trunc(x)) as real <= bound
  {
  }

  // On the LINEAR path an axis never goes past its own range times the configured maximum.
  lemma LinearWithinRange(a: InAxis, sign: int, m: Meta, e: Entry)
    requires Abs(a.value) > Deadzone(a, sign, e) && e.algo % 16 == LINEAR
    ensures Abs(AxisToAxis(a, sign, m, e)) as real <= Abs(DstMax(m, e)) as real * e.percMax as real / 100.0
  {
    hide Deadzone, SrcMax;
    RangePositive(a, sign, e);
    var value, range := Abs(a.value) - Deadzone(a, sign, e), SrcMax(a, sign) - Deadzone(a, sign, e);
    var dstSign := Sign(m.polarity, e.dst);
    ScaledWithin(e, dstSign, value, DstMax(m, e), range);
  }

  lemma ScaledWithin(e: Entry, sign: int, value: int, dstMax: int, range: int)
    requires e.algo % 16 == LINEAR && 0 < value <= range && (sign == 1 || sign == -1)
    ensures Abs(Scaled(e, sign, value, dstMax, range)) as real <= Abs(dstMax) as real * e.percMax as real / 100.0
  {
    var perc, am := e.percMax as real / 100.0, Abs(dstMax) as real;
    LinearProduct(e, value, dstMax, range);
    BoundForm(am, e.percMax as real);
    var bound := am * perc;
    var scale := Scale(e, dstMax, range);
    hide Product, Scale, Trunc;
    EitherSign(sign, value);
    assert -bound <= Product((sign * value) as real, scale) <= bound;
    TruncWithin(Product((sign * value) as real, scale), bound);
  }

  lemma LinearProduct(e: Entry, value: int, dstMax: int, range: int)
    requires e.algo % 16 == LINEAR && 0 < value <= range
    ensures var bound := Abs(dstMax) as real * (e.percMax as real / 100.0);
            && -bound <= Product(value as real, Scale(e, dstMax, range)) <= bound
            && -bound <= Product(-(value as real), Scale(e, dstMax, range)) <= bound
  {
    Ratio(value as real, range as real, dstMax as real, e.percMax as real / 100.0, Abs(dstMax) as real);
  }

  lemma EitherSign(sign: int, value: int)
    requires sign == 1 || sign == -1
    ensures (sign * value) as real == value as real || (sign * value) as real == -(value as real)
  {
  }

  lemma BoundForm(m: real, p: real)
    ensures m * (p / 100.0) == m * p / 100.0
  {
  }

  lemma Ratio(v: real, r: real, m: real, perc: real, am: real)
    requires 0.0 < v <= r && perc >= 0.0 && -am <= m <= am && am >= 0.0
    ensures -(am * perc) <= v * (m / r * perc) <= am * perc
    ensures -(am * perc) <= -v * (m / r * perc) <= am * perc
  {
    var q := v / r;
    QuotientBelowOne(v, r);
    QuotientMoves(v, r, m, perc);
    BoundTimes(m, am, perc);
    PartWithin(q, m * perc, am * perc);
    Negated(v, m / r * perc);
  }

  lemma QuotientBelowOne(v: real, r: real)
    requires 0.0 < v <= r
    ensures 0.0 <= v / r <= 1.0
  {
  }

  lemma QuotientMoves(v: real, r: real, m: real, perc: real)
    requires r > 0.0
    ensures v * (m / r * perc) == (v / r) * (m * perc)
  {
    var i := 1.0 / r;
    assert m / r == m * i && v / r == v * i;
    assert v * (m * i * perc) == (v * i) * (m * perc);
  }

  lemma Negated(v: real, x: real)
    ensures -v * x == -(v * x)
  {
  }

  lemma BoundTimes(m: real, am: real, perc: real)
    requires -am <= m <= am && perc >= 0.0
    ensures -(am * perc) <= m * perc <= am * perc
  {
    assert (am - m) * perc >= 0.0 && (am + m) * perc >= 0.0;
  }

  lemma PartWithin(q: real, x: real, b: real)
    requires 0.0 <= q <= 1.0 && -b <= x <= b
    ensures -b <= q * x <= b
  {
    var y := if x >= 0.0 then x else -x;
    NonNegative(q, y);
    NonNegative(1.0 - q, y);
    Negated(q, x);
    assert (1.0 - q) * y == y - q * y;
  }

  lemma NonNegative(a: real, b: real)
    requires a >= 0.0 && b >= 0.0
    ensures a * b >= 0.0
  {
  }
}
