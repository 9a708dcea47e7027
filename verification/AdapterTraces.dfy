// What a pass over the mapping did, read off its outcome: which entry an axis value, a button or a flag comes
// from, and which way it goes (main/adapter/adapter.c:66-216, 236-419, main/adapter/adapter.h:109-142, 281-299).
module AdapterTraces {
  import opened Bytes
  import opened AdapterMapping

  // IDs --------------------------------------------------------------------------------

  const PAD_LX_LEFT: octet := 0
  const PAD_LX_RIGHT: octet := 1
  const PAD_LY_DOWN: octet := 2
  const PAD_LY_UP: octet := 3
  const PAD_RX_LEFT: octet := 4
  const PAD_RX_RIGHT: octet := 5
  const PAD_RY_DOWN: octet := 6
  const PAD_RY_UP: octet := 7
  const PAD_LD_LEFT: octet := 8
  const PAD_LD_RIGHT: octet := 9
  const PAD_LD_DOWN: octet := 10
  const PAD_LD_UP: octet := 11
  const MOUSE_WX_LEFT: octet := 12
  const MOUSE_WX_RIGHT: octet := 13
  const MOUSE_WY_DOWN: octet := 14
  const MOUSE_WY_UP: octet := 15
  const PAD_RB_LEFT: octet := 16
  const PAD_RB_RIGHT: octet := 17
  const PAD_RB_DOWN: octet := 18
  const PAD_RB_UP: octet := 19
  const PAD_LM: octet := 24
  const PAD_LS: octet := 25
  const PAD_RM: octet := 28
  const PAD_RS: octet := 29

  // axis_to_btn_mask, axis by axis: sticks, triggers, shoulder triggers, D-pad, right buttons.
  function ButtonsOf(axis: nat): set<octet>
    requires axis < 16
  {
    match axis
    case 0 => {PAD_LX_LEFT, PAD_LX_RIGHT, MOUSE_WX_LEFT, MOUSE_WX_RIGHT}
    case 1 => {PAD_LY_DOWN, PAD_LY_UP, MOUSE_WY_DOWN, MOUSE_WY_UP}
    case 2 => {PAD_RX_LEFT, PAD_RX_RIGHT}
    case 3 => {PAD_RY_DOWN, PAD_RY_UP}
    case 4 => {PAD_LM}
    case 5 => {PAD_RM}
    case 6 => {PAD_LS}
    case 7 => {PAD_RS}
    case 8 => {PAD_LD_LEFT}
    case 9 => {PAD_LD_RIGHT}
    case 10 => {PAD_LD_DOWN}
    case 11 => {PAD_LD_UP}
    case 12 => {PAD_RB_LEFT}
    case 13 => {PAD_RB_RIGHT}
    case 14 => {PAD_RB_DOWN}
    case 15 => {PAD_RB_UP}
  }

  // axis_to_btn_id
  function ButtonOf(axis: nat): octet
    requires axis < 16
  {
    match axis
    case 0 => PAD_LX_LEFT
    case 1 => PAD_LY_DOWN
    case 2 => PAD_RX_LEFT
    case 3 => PAD_RY_DOWN
    case 4 => PAD_LM
    case 5 => PAD_RM
    case 6 => PAD_LS
    case 7 => PAD_RS
    case 8 => PAD_LD_LEFT
    case 9 => PAD_LD_RIGHT
    case 10 => PAD_LD_DOWN
    case 11 => PAD_LD_UP
    case 12 => PAD_RB_LEFT
    case 13 => PAD_RB_RIGHT
    case 14 => PAD_RB_DOWN
    case 15 => PAD_RB_UP
  }

  // An ID belongs to the axis whose mask has it, and to no other.
  lemma AxisOfItsButtons(id: octet, axis: nat)
    requires axis < 16
    ensures AxisOf(id) == Axis(axis) <==> id in ButtonsOf(axis)
  {
  }

  // The ID of an axis is one of its IDs: the two conversions undo each other.
  lemma AxisRoundTrip(axis: nat)
    requires axis < 16
    ensures AxisOf(ButtonOf(axis)) == Axis(axis)
  {
  }

  // The bit of an ID.
  function BitOf(id: octet): nat
  {
    if id < 128 then id else 96 + id % 32
  }

  lemma SlotIsBit(id: octet)
    ensures Slot(id) == BitOf(id)
  {
  }

  // Left and down are the negative directions of the sticks and the wheel, everything else is positive;
  // polarity turns both round.
  predicate Upward(id: octet, polarity: bool)
  {
    (id in {PAD_LX_LEFT, PAD_LY_DOWN, PAD_RX_LEFT, PAD_RY_DOWN, MOUSE_WX_LEFT, MOUSE_WY_DOWN}) == polarity
  }

  // The value is off the middle the way the ID names.
  predicate Toward(id: octet, polarity: bool, value: int)
  {
    if Upward(id, polarity) then value > 0 else value < 0
  }

  lemma SignIsUpward(id: octet, polarity: bool)
    requires AxisOf(id).Axis?
    ensures Sign(polarity, id) == if Upward(id, polarity) then 1 else -1
  {
  }

  // What a source gives ---------------------------------------------------------------

  function Magnitude(x: int): int { if x < 0 then -x else x }

  // The largest deflection known on the side an entry looks at.
  function Full(a: InAxis, id: octet): int
  {
    var known := if Upward(id, a.meta.polarity) then a.meta.absMax else a.meta.absMin;
    if known > Magnitude(a.value) then known else Magnitude(a.value)
  }

  // So many parts of a whole, without the fraction.
  function Part(parts: nat, whole: real, full: int): int
    requires whole > 0.0
  {
    (parts as real * full as real / whole).Floor
  }

  // The dead zone of an entry: its share in hundredths of a per cent and the axis's own.
  function Dead(a: InAxis, e: Entry): int
  {
    Part(e.percDeadzone, 10000.0, Full(a, e.src)) + a.meta.deadzone
  }

  // An entry with this source that looks at an axis not deflected the other way.
  predicate Looks(s: State, e: Entry)
    requires StateOk(s)
  {
    && BitOf(e.src) in s.input.mask && BitOf(e.src) in s.input.desc && AxisOf(e.src).Axis?
    && var a := s.input.axes[AxisOf(e.src).index]; !Toward(e.src, a.meta.polarity, -a.value)
  }

  predicate IsDown(s: State, e: Entry)
    requires StateOk(s)
  {
    BitOf(e.src) in s.input.mask && BitOf(e.src) !in s.input.desc && BitOf(e.src) in s.input.pressed
  }

  // v is x without its fraction, the way the destination names.
  predicate Rounds(x: real, up: bool, v: int)
  {
    var t := if up then v else -v;
    if x >= 0.0 then 0 <= t && t as real <= x < (t + 1) as real else t <= 0 && (t - 1) as real < x <= t as real
  }

  // How far a button pushes: all the way; how far an axis does: by what it has past its dead zone, in its own units
  // or (LINEAR) in proportion to the rest of its range. perc_max scales all three.
  function FullPush(e: Entry, bound: int): real
  {
    bound as real * e.percMax as real / 100.0
  }

  function AxisPush(e: Entry, over: int, bound: int, range: int): real
  {
    if e.algo % 16 != 0 || range == 0 then over as real * e.percMax as real / 100.0
    else over as real * bound as real * e.percMax as real / (100.0 * range as real)
  }

  function Push(s: State, e: Entry, bound: int): real
    requires StateOk(s)
  {
    if AxisOf(e.src).NoAxis? || !Looks(s, e) then FullPush(e, bound)
    else
      var a := s.input.axes[AxisOf(e.src).index];
      AxisPush(e, Magnitude(a.value) - Dead(a, e), bound, Full(a, e.src) - Dead(a, e))
  }

  // The entry pushes axis k of output d to v.
  predicate Pushes(s: State, e: Entry, d: nat, k: nat, v: int)
    requires StateOk(s) && d < 12 && k < 16
  {
    && e.out == d && e.dst in ButtonsOf(k) && BitOf(e.dst) in s.outs[d].mask && BitOf(e.dst) in s.outs[d].desc
    && (IsDown(s, e)
        || (Looks(s, e)
            && var a := s.input.axes[AxisOf(e.src).index]; Magnitude(a.value) > Dead(a, e)))
    && var m := s.outs[d].axes[k].meta;
       var up := Upward(e.dst, m.polarity);
       Rounds(Push(s, e, if up then m.absMax else m.absMin), up, v)
  }

  // The entry presses bit b of output d.
  predicate Clicks(s: State, e: Entry, d: nat, b: nat)
    requires StateOk(s) && d < 12
  {
    && e.out == d && BitOf(e.dst) == b && b in s.outs[d].mask && b !in s.outs[d].desc
    && (IsDown(s, e)
        || (Looks(s, e)
            && var a := s.input.axes[AxisOf(e.src).index];
               Magnitude(a.value) >= Part(e.percThreshold, 100.0, Full(a, e.src))))
  }

  // These are the steps of the model ---------------------------------------------------

  lemma LooksIsReads(s: State, e: Entry)
    requires StateOk(s) && EntryOk(s, e)
    ensures Reads(s, e) <==> Looks(s, e) && BitOf(e.dst) in s.outs[e.out].mask
    ensures Down(s, e) <==> IsDown(s, e) && BitOf(e.dst) in s.outs[e.out].mask
  {
    SlotIsBit(e.src);
    SlotIsBit(e.dst);
    if AxisOf(e.src).Axis? {
      SignIsUpward(e.src, s.input.axes[AxisOf(e.src).index].meta.polarity);
    }
    hide Slot, AxisOf, Sign, BitOf, Upward;
  }

  lemma FullIsSrcMax(a: InAxis, id: octet)
    requires AxisOf(id).Axis?
    ensures Full(a, id) == SrcMax(a, Sign(a.meta.polarity, id)) >= Magnitude(a.value) == Abs(a.value)
  {
    SignIsUpward(id, a.meta.polarity);
    hide AxisOf, Sign, Upward;
  }

  lemma SharesAre(perc: nat, full: nat)
    requires full >= 0
    ensures Share(perc as real / 10000.0, full) == Part(perc, 10000.0, full)
    ensures Share(perc as real / 100.0, full) == Part(perc, 100.0, full)
  {
    Quotient(perc as real, full as real, 10000.0);
    Quotient(perc as real, full as real, 100.0);
  }

  lemma Quotient(x: real, y: real, z: real)
    requires x >= 0.0 && y >= 0.0 && z > 0.0
    ensures x / z * y == x * y / z >= 0.0
  {
    var q := x / z;
    assert q * z == x;
    assert x * y == q * y * z;
  }

  lemma DeadIsDeadzone(a: InAxis, e: Entry)
    requires AxisOf(e.src).Axis?
    ensures Dead(a, e) == Deadzone(a, Sign(a.meta.polarity, e.src), e)
    ensures Part(e.percThreshold, 100.0, Full(a, e.src))
         == Threshold(a, Sign(a.meta.polarity, e.src), e)
  {
    FullIsSrcMax(a, e.src);
    SharesAre(e.percDeadzone, Full(a, e.src));
    SharesAre(e.percThreshold, Full(a, e.src));
    hide Share, Full, SrcMax, Sign, AxisOf, Part;
  }

  lemma RoundsIsTrunc(x: real, up: bool, v: int)
    ensures Rounds(x, up, v) <==> v == Trunc(Product((if up then 1 else -1) as real, x))
  {
    assert 1.0 * x == x && (-1.0) * x == -x;
  }

  lemma ScaledProduct(e: Entry, sign: int, over: int, bound: int, range: int)
    requires (sign == 1 || sign == -1) && range != 0
    ensures Product((sign * over) as real, Scale(e, bound, range))
         == Product(sign as real, AxisPush(e, over, bound, range))
  {
    var v, p := over as real, e.percMax as real;
    assert (sign * over) as real == sign as real * v;
    if e.algo % 16 == 0 {
      var q, r := bound as real / range as real, range as real;
      assert q * r == bound as real;
      Cancel(v, q, p, r);
      assert AxisPush(e, over, bound, range) == v * q * p / 100.0;
      assert Scale(e, bound, range) == q * (p / 100.0);
      Spread(sign as real, v, q, p);
    } else {
      assert AxisPush(e, over, bound, range) == v * 1.0 * p / 100.0;
      assert Scale(e, bound, range) == 1.0 * (p / 100.0);
      Spread(sign as real, v, 1.0, p);
    }
  }

  lemma Cancel(v: real, q: real, p: real, r: real)
    requires r != 0.0
    ensures v * (q * r) * p / (100.0 * r) == v * q * p / 100.0
  {
    assert v * (q * r) * p == (v * q * p) * r;
    assert (v * q * p) * r / (100.0 * r) == v * q * p / 100.0;
  }

  lemma Spread(s: real, v: real, q: real, p: real)
    ensures s * v * (q * (p / 100.0)) == s * (v * q * p / 100.0)
  {
    assert q * (p / 100.0) == q * p / 100.0;
    assert v * (q * p) == v * q * p;
  }

  lemma AxisPushRounds(e: Entry, over: int, bound: int, range: int, up: bool, v: int)
    requires range != 0
    ensures Rounds(AxisPush(e, over, bound, range), up, v) <==>
              v == Scaled(e, if up then 1 else -1, over, bound, range)
  {
    var sign := if up then 1 else -1;
    RoundsIsTrunc(AxisPush(e, over, bound, range), up, v);
    ScaledIs(e, sign, over, bound, range);
    hide Product, Trunc, Rounds, AxisPush, Scaled;
  }

  lemma ScaledIs(e: Entry, sign: int, over: int, bound: int, range: int)
    requires (sign == 1 || sign == -1) && range != 0
    ensures Scaled(e, sign, over, bound, range) == Trunc(Product(sign as real, AxisPush(e, over, bound, range)))
  {
    ScaledProduct(e, sign, over, bound, range);
    hide Product, Trunc, AxisPush, Scale;
  }

  lemma FullPushRounds(m: Meta, e: Entry, up: bool, v: int)
    requires Sign(m.polarity, e.dst) == if up then 1 else -1
    ensures Rounds(FullPush(e, if up then m.absMax else m.absMin), up, v) <==> v == ButtonToAxis(m, e)
  {
    var bound := if up then m.absMax else m.absMin;
    RoundsIsTrunc(FullPush(e, bound), up, v);
    ButtonIs(m, e, if up then 1 else -1, bound);
    hide Trunc, Rounds, Sign, ButtonToAxis, FullPush, Product;
  }

  lemma ButtonIs(m: Meta, e: Entry, sign: int, bound: int)
    requires sign == Sign(m.polarity, e.dst) && bound == DstMax(m, e)
    ensures ButtonToAxis(m, e) == Trunc(Product(sign as real, FullPush(e, bound)))
  {
    FullProduct(e, sign, bound);
    hide Trunc, Sign, DstMax, FullPush;
  }

  lemma FullProduct(e: Entry, sign: int, bound: int)
    requires sign == 1 || sign == -1
    ensures (sign * bound) as real * (e.percMax as real / 100.0) == Product(sign as real, FullPush(e, bound))
  {
    assert (sign * bound) as real == sign as real * bound as real;
    Spread(sign as real, bound as real, 1.0, e.percMax as real);
  }

  // What an axis source pushes with: the magnitude of the value offered.
  lemma PushOfAxis(s: State, e: Entry, bound: int, up: bool, v: int)
    requires StateOk(s) && AxisOf(e.src).Axis? && Looks(s, e)
    requires var a := s.input.axes[AxisOf(e.src).index]; Magnitude(a.value) > Dead(a, e)
    ensures var a := s.input.axes[AxisOf(e.src).index];
            var sign := Sign(a.meta.polarity, e.src);
            && Abs(a.value) > Deadzone(a, sign, e) && SrcMax(a, sign) - Deadzone(a, sign, e) > 0
            && (Rounds(Push(s, e, bound), up, v) <==>
                v == Scaled(e, if up then 1 else -1, Abs(a.value) - Deadzone(a, sign, e), bound,
                            SrcMax(a, sign) - Deadzone(a, sign, e)))
  {
    var a := s.input.axes[AxisOf(e.src).index];
    FullIsSrcMax(a, e.src);
    DeadIsDeadzone(a, e);
    AxisPushRounds(e, Magnitude(a.value) - Dead(a, e), bound, Full(a, e.src) - Dead(a, e), up, v);
    hide AxisOf, Sign, Full, SrcMax, Dead, Deadzone, Rounds, Looks, Scaled, AxisPush;
  }

  lemma PushesIsOffer(s: State, e: Entry, d: nat, k: nat, v: int)
    requires StateOk(s) && EntryOk(s, e) && d < 12 && k < 16
    ensures Pushes(s, e, d, k, v) <==> Offers(s, e, d, k) && OfferOf(s, e).value == v
  {
    AxisOfItsButtons(e.dst, k);
    SlotIsBit(e.dst);
    SlotIsBit(e.src);
    LooksIsReads(s, e);
    if e.out == d && AxisOf(e.dst) == Axis(k) && ToAxis(s, e) && Exists(s, e) {
      var m := s.outs[d].axes[k].meta;
      var up := Upward(e.dst, m.polarity);
      SignIsUpward(e.dst, m.polarity);
      OfferAlone(s, e, m, up, v);
    }
    hide Slot, ButtonsOf, Upward, Sign, Push, Rounds, Looks, IsDown, Dead;
  }

  lemma OfferAlone(s: State, e: Entry, m: Meta, up: bool, v: int)
    requires StateOk(s) && EntryOk(s, e) && ToAxis(s, e) && Exists(s, e) && AxisOf(e.dst).Axis?
    requires m == s.outs[e.out].axes[AxisOf(e.dst).index].meta && Sign(m.polarity, e.dst) == if up then 1 else -1
    ensures (OfferOf(s, e).Offer? && OfferOf(s, e).value == v) <==>
              ((IsDown(s, e)
                || (Looks(s, e)
                    && var a := s.input.axes[AxisOf(e.src).index]; Magnitude(a.value) > Dead(a, e)))
               && Rounds(Push(s, e, if up then m.absMax else m.absMin), up, v))
  {
    hide Slot, Sign, Rounds, Dead, AxisOf, AxisPush, FullPush, Scaled, Deadzone, SrcMax, Full, ButtonToAxis, Toward;
    LooksIsReads(s, e);
    SlotIsBit(e.dst);
    if Down(s, e) {
      FullPushRounds(m, e, up, v);
    } else if Reads(s, e) {
      var a := s.input.axes[AxisOf(e.src).index];
      FullIsSrcMax(a, e.src);
      DeadIsDeadzone(a, e);
      if Magnitude(a.value) > Dead(a, e) {
        PushOfAxis(s, e, if up then m.absMax else m.absMin, up, v);
      }
    }
  }

  lemma ClicksIsPresses(s: State, e: Entry, d: nat, b: nat)
    requires StateOk(s) && EntryOk(s, e) && d < 12
    ensures Clicks(s, e, d, b) <==> e.out == d && Slot(e.dst) == b && Presses(s, e)
  {
    hide Slot, Sign, AxisOf, Upward, Threshold, Dead, Full, Toward, Part, Deadzone, BitOf;
    SlotIsBit(e.dst);
    LooksIsReads(s, e);
    if AxisOf(e.src).Axis? {
      DeadIsDeadzone(s.input.axes[AxisOf(e.src).index], e);
    }
  }

  // Whole passes -----------------------------------------------------------------------

  // The entry takes over the kind of axis (relative or not) for axis k of output d.
  predicate Follows(s: State, e: Entry, d: nat, k: nat)
    requires StateOk(s) && d < 12 && k < 16
  {
    && e.out == d && e.dst in ButtonsOf(k) && BitOf(e.dst) in s.outs[d].mask && BitOf(e.dst) in s.outs[d].desc
    && Looks(s, e)
  }

  // What one entry does to one axis.
  ghost predicate AxisStep(s: State, e: Entry, d: nat, k: nat, p: OutAxis, r: OutAxis)
    requires StateOk(s) && d < 12 && k < 16
  {
    && r.meta == p.meta
    && r.relative == (if Follows(s, e, d, k) then s.input.axes[AxisOf(e.src).index].meta.relative else p.relative)
    && ((exists v :: Pushes(s, e, d, k, v) && Magnitude(v) > Magnitude(p.value) && r.value == v && r.turbo == e.turbo)
        || (r.value == p.value && r.turbo == p.turbo
            && forall v :: Pushes(s, e, d, k, v) ==> Magnitude(v) <= Magnitude(p.value)))
  }

  lemma OneAxisStep(s: State, e: Entry, d: nat, k: nat)
    requires StateOk(s) && EntryOk(s, e) && d < 12 && k < 16
    ensures AxisStep(s, e, d, k, s.outs[d].axes[k], Step(s, e).outs[d].axes[k])
  {
    hide Slot, AxisOf, Pushes, Looks, BitOf, OfferOf, Presses, Marks, ButtonsOf, Reads;
    forall v
      ensures Pushes(s, e, d, k, v) <==> Offers(s, e, d, k) && OfferOf(s, e).value == v
    {
      PushesIsOffer(s, e, d, k, v);
    }
    AxisOfItsButtons(e.dst, k);
    SlotIsBit(e.dst);
    LooksIsReads(s, e);
    ReadsAnAxis(s, e);
    if Offers(s, e, d, k) {
      assert Pushes(s, e, d, k, OfferOf(s, e).value);
    }
  }

  lemma ReadsAnAxis(s: State, e: Entry)
    requires StateOk(s) && EntryOk(s, e)
    ensures Reads(s, e) ==> AxisOf(e.src).Axis?
  {
  }

  // A state later in the pass looks the same to an entry.
  lemma SameLooks(s: State, r: State, e: Entry)
    requires StateOk(s) && StateOk(r) && Frozen(s, r)
    ensures Looks(s, e) == Looks(r, e) && IsDown(s, e) == IsDown(r, e)
    ensures AxisOf(e.src).Axis? ==>
              var a, b := s.input.axes[AxisOf(e.src).index], r.input.axes[AxisOf(e.src).index];
              && a.value == b.value && a.meta.relative == b.meta.relative && a.meta.polarity == b.meta.polarity
  {
    hide Slot, AxisOf, Toward, BitOf;
    assert AxisOf(e.src).Axis? ==> SameAxis(s.input.axes[AxisOf(e.src).index], r.input.axes[AxisOf(e.src).index]);
  }

  lemma SamePushes(s: State, r: State, e: Entry, d: nat, k: nat, v: int)
    requires StateOk(s) && StateOk(r) && Frozen(s, r) && EntryOk(s, e) && d < 12 && k < 16
    ensures Pushes(s, e, d, k, v) == Pushes(r, e, d, k, v) && Follows(s, e, d, k) == Follows(r, e, d, k)
  {
    FrozenEntry(s, r, e);
    PushesIsOffer(s, e, d, k, v);
    PushesIsOffer(r, e, d, k, v);
    SameLooks(s, r, e);
    assert SameOutput(s.outs[d], r.outs[d]);
    hide Slot, AxisOf, Pushes, Looks, OfferOf, EntryOk, ButtonsOf;
  }

  // What the last entry of a pass does is what it does alone.
  lemma LastAxisStep(s: State, es: seq<Entry>, d: nat, k: nat)
    requires StateOk(s) && AllOk(s, es) && es != [] && d < 12 && k < 16
    ensures AxisStep(s, es[|es| - 1], d, k, Run(s, es[..|es| - 1]).outs[d].axes[k], Run(s, es).outs[d].axes[k])
  {
    var front, e := es[..|es| - 1], es[|es| - 1];
    assert EntryOk(s, e);
    var p := Run(s, front);
    FrozenEntry(s, p, e);
    OneAxisStep(p, e, d, k);
    forall v
      ensures Pushes(s, e, d, k, v) == Pushes(p, e, d, k, v) && Follows(s, e, d, k) == Follows(p, e, d, k)
    {
      SamePushes(s, p, e, d, k, v);
    }
    SameLooks(s, p, e);
    FollowsAnAxis(s, e, d, k);
    hide Slot, AxisOf, Pushes, Follows, Looks, Frozen, Step, EntryOk;
  }

  lemma FollowsAnAxis(s: State, e: Entry, d: nat, k: nat)
    requires StateOk(s) && d < 12 && k < 16
    ensures Follows(s, e, d, k) ==> AxisOf(e.src).Axis?
  {
  }

  // No push of the first n entries goes further than v.
  ghost predicate NoneFurther(s: State, es: seq<Entry>, n: nat, d: nat, k: nat, v: int)
    requires StateOk(s) && n <= |es| && d < 12 && k < 16
  {
    forall i, w :: 0 <= i < n && Pushes(s, es[i], d, k, w) ==> Magnitude(w) <= Magnitude(v)
  }

  // Entry i pushes further than all before it and than where the axis was.
  ghost predicate Wins(s: State, es: seq<Entry>, i: nat, d: nat, k: nat, v: int)
    requires StateOk(s) && i < |es| && d < 12 && k < 16
  {
    && Pushes(s, es[i], d, k, v) && Magnitude(v) > Magnitude(s.outs[d].axes[k].value)
    && forall j, w :: 0 <= j < i && Pushes(s, es[j], d, k, w) ==> Magnitude(w) < Magnitude(v)
  }

  ghost predicate ValueTraced(s: State, es: seq<Entry>, d: nat, k: nat, r: OutAxis)
    requires StateOk(s) && d < 12 && k < 16
  {
    var o := s.outs[d].axes[k];
    && NoneFurther(s, es, |es|, d, k, r.value)
    && ((r.value == o.value && r.turbo == o.turbo)
        || exists i :: 0 <= i < |es| && Wins(s, es, i, d, k, r.value) && r.turbo == es[i].turbo)
  }

  lemma ValueTracedMore(s: State, es: seq<Entry>, d: nat, k: nat, p: OutAxis, r: OutAxis)
    requires StateOk(s) && es != [] && d < 12 && k < 16
    requires ValueTraced(s, es[..|es| - 1], d, k, p) && AxisStep(s, es[|es| - 1], d, k, p, r)
    ensures ValueTraced(s, es, d, k, r)
  {
    hide Pushes, Follows;
    var front, last := es[..|es| - 1], |es| - 1;
    assert forall i :: 0 <= i < last ==> front[i] == es[i];
    var o := s.outs[d].axes[k];
    if r.value == p.value && r.turbo == p.turbo
       && forall v :: Pushes(s, es[last], d, k, v) ==> Magnitude(v) <= Magnitude(p.value) {
      if i :| 0 <= i < |front| && Wins(s, front, i, d, k, r.value) && r.turbo == front[i].turbo {
        assert Wins(s, es, i, d, k, r.value);
      }
    } else {
      StartIsNoFurther(s, front, d, k, p);
      assert Wins(s, es, last, d, k, r.value);
      PushesOnce(s, es[last], d, k);
    }
  }

  lemma StartIsNoFurther(s: State, es: seq<Entry>, d: nat, k: nat, p: OutAxis)
    requires StateOk(s) && d < 12 && k < 16 && ValueTraced(s, es, d, k, p)
    ensures Magnitude(s.outs[d].axes[k].value) <= Magnitude(p.value)
  {
    hide Pushes;
  }

  // An entry pushes to one value.
  lemma PushesOnce(s: State, e: Entry, d: nat, k: nat)
    requires StateOk(s) && d < 12 && k < 16
    ensures forall v, w :: Pushes(s, e, d, k, v) && Pushes(s, e, d, k, w) ==> v == w
  {
    hide Push, Looks, IsDown, BitOf, ButtonsOf, Upward, Dead;
  }

  // Where a final axis value comes from: it is the one the axis had, or that of the first of the entries that push
  // furthest; none pushes further.
  lemma {:induction false} AxisIsTraced(s: State, es: seq<Entry>, d: nat, k: nat)
    requires StateOk(s) && AllOk(s, es) && d < 12 && k < 16
    ensures ValueTraced(s, es, d, k, Run(s, es).outs[d].axes[k])
    decreases |es|
  {
    if es != [] {
      hide Pushes, ValueTraced, AxisStep, EntryOk, Run;
      AxisIsTraced(s, es[..|es| - 1], d, k);
      LastAxisStep(s, es, d, k);
      ValueTracedMore(s, es, d, k, Run(s, es[..|es| - 1]).outs[d].axes[k], Run(s, es).outs[d].axes[k]);
    }
  }

  // The last entry that follows axis k of output d, -1 if none does.
  function LastToFollow(s: State, es: seq<Entry>, d: nat, k: nat): (i: int)
    requires StateOk(s) && d < 12 && k < 16
    ensures -1 <= i < |es| && (i >= 0 ==> Follows(s, es[i], d, k))
    ensures forall j :: i < j < |es| ==> !Follows(s, es[j], d, k)
  {
    if es == [] then -1
    else if Follows(s, es[|es| - 1], d, k) then |es| - 1
    else LastToFollow(s, es[..|es| - 1], d, k)
  }

  // The kind of an axis is taken from it.
  lemma {:induction false} KindIsTraced(s: State, es: seq<Entry>, d: nat, k: nat)
    requires StateOk(s) && AllOk(s, es) && d < 12 && k < 16
    ensures var i := LastToFollow(s, es, d, k);
            Run(s, es).outs[d].axes[k].relative
            == if i < 0 || AxisOf(es[i].src).NoAxis? then s.outs[d].axes[k].relative
               else s.input.axes[AxisOf(es[i].src).index].meta.relative
    decreases |es|
  {
    if es != [] {
      hide Pushes, Follows, EntryOk, Run;
      KindIsTraced(s, es[..|es| - 1], d, k);
      LastAxisStep(s, es, d, k);
      FollowsAnAxis(s, es[|es| - 1], d, k);
    }
  }

  // Buttons ----------------------------------------------------------------------------

  // The entry marks bit b of output d as mapped. One that would push a button with no axis under it does not.
  predicate Flags(s: State, e: Entry, d: nat, b: nat)
    requires StateOk(s) && d < 12
  {
    && e.out == d && BitOf(e.dst) == b && b in s.outs[d].mask && BitOf(e.src) in s.input.mask
    && if BitOf(e.src) in s.input.desc then AxisOf(e.src).Axis?
       else !(IsDown(s, e) && b in s.outs[d].desc && AxisOf(e.dst).NoAxis?)
  }

  lemma FlagsIsMarks(s: State, e: Entry, d: nat, b: nat)
    requires StateOk(s) && EntryOk(s, e) && d < 12
    ensures Flags(s, e, d, b) <==> e.out == d && Slot(e.dst) == b && Marks(s, e)
  {
    SlotIsBit(e.dst);
    SlotIsBit(e.src);
    LooksIsReads(s, e);
    hide Slot, AxisOf, BitOf, Looks;
  }

  // What one entry does to the buttons of an output.
  ghost predicate ButtonStep(s: State, e: Entry, d: nat, p: Output, r: Output)
    requires StateOk(s) && d < 12
  {
    forall b: nat ::
      && (b in r.btns <==> b in p.btns || Clicks(s, e, d, b))
      && (b in r.mapped <==> b in p.mapped || Flags(s, e, d, b))
      && (b in r.turbo <==> b in p.turbo || Clicks(s, e, d, b))
      && (b in r.turbo ==> r.turbo[b] == if Clicks(s, e, d, b) then e.turbo else p.turbo[b])
  }

  lemma OneButtonStep(s: State, e: Entry, d: nat)
    requires StateOk(s) && EntryOk(s, e) && d < 12
    ensures ButtonStep(s, e, d, s.outs[d], Step(s, e).outs[d])
  {
    hide Slot, AxisOf, Clicks, Flags, OfferOf, Presses, Marks, Reads, Louder;
    forall b: nat
      ensures Clicks(s, e, d, b) <==> e.out == d && Slot(e.dst) == b && Presses(s, e)
      ensures Flags(s, e, d, b) <==> e.out == d && Slot(e.dst) == b && Marks(s, e)
    {
      ClicksIsPresses(s, e, d, b);
      FlagsIsMarks(s, e, d, b);
    }
    LouderKeeps(s, e);
  }

  lemma LouderKeeps(s: State, e: Entry)
    requires StateOk(s) && EntryOk(s, e)
    ensures forall o: Output, a: Axis, offer: Offer, turbo: nat :: |o.axes| == AXES && (a.Axis? ==> a.index < AXES) ==>
              var r := Louder(o, a, offer, turbo); r.btns == o.btns && r.mapped == o.mapped && r.turbo == o.turbo
  {
  }

  lemma SameClicks(s: State, r: State, e: Entry, d: nat, b: nat)
    requires StateOk(s) && StateOk(r) && Frozen(s, r) && EntryOk(s, e) && d < 12
    ensures Clicks(s, e, d, b) == Clicks(r, e, d, b) && Flags(s, e, d, b) == Flags(r, e, d, b)
  {
    FrozenEntry(s, r, e);
    ClicksIsPresses(s, e, d, b);
    ClicksIsPresses(r, e, d, b);
    FlagsIsMarks(s, e, d, b);
    FlagsIsMarks(r, e, d, b);
    hide Slot, Clicks, Flags, Presses, Marks, EntryOk, Frozen;
  }

  lemma LastButtonStep(s: State, es: seq<Entry>, d: nat)
    requires StateOk(s) && AllOk(s, es) && es != [] && d < 12
    ensures ButtonStep(s, es[|es| - 1], d, Run(s, es[..|es| - 1]).outs[d], Run(s, es).outs[d])
  {
    var front, e := es[..|es| - 1], es[|es| - 1];
    assert EntryOk(s, e);
    var p := Run(s, front);
    FrozenEntry(s, p, e);
    OneButtonStep(p, e, d);
    SameButtonStep(s, p, e, d, p.outs[d], Step(p, e).outs[d]);
    hide Slot, Frozen, Step, EntryOk, ButtonStep;
  }

  lemma SameButtonStep(s: State, t: State, e: Entry, d: nat, p: Output, r: Output)
    requires StateOk(s) && StateOk(t) && Frozen(s, t) && EntryOk(s, e) && d < 12 && ButtonStep(t, e, d, p, r)
    ensures ButtonStep(s, e, d, p, r)
  {
    hide Clicks, Flags, EntryOk, Frozen;
    forall b: nat
      ensures Clicks(s, e, d, b) == Clicks(t, e, d, b) && Flags(s, e, d, b) == Flags(t, e, d, b)
    {
      SameClicks(s, t, e, d, b);
    }
  }

  // The last entry that clicks bit b of output d, -1 if none does.
  function LastToClick(s: State, es: seq<Entry>, d: nat, b: nat): (i: int)
    requires StateOk(s) && d < 12
    ensures -1 <= i < |es| && (i >= 0 ==> Clicks(s, es[i], d, b))
    ensures forall j :: i < j < |es| ==> !Clicks(s, es[j], d, b)
  {
    if es == [] then -1
    else if Clicks(s, es[|es| - 1], d, b) then |es| - 1
    else LastToClick(s, es[..|es| - 1], d, b)
  }

  predicate SomeFlags(s: State, es: seq<Entry>, d: nat, b: nat)
    requires StateOk(s) && d < 12
  {
    exists i :: 0 <= i < |es| && Flags(s, es[i], d, b)
  }

  // A bit is set if it was or an entry clicks it, mapped if it was or an entry flags it, and its turbo setting is that
  // of the last entry that clicks it.
  predicate ButtonTraced(s: State, es: seq<Entry>, d: nat, b: nat, r: Output)
    requires StateOk(s) && d < 12
  {
    var o, i := s.outs[d], LastToClick(s, es, d, b);
    && (b in r.btns <==> b in o.btns || i >= 0) && (b in r.mapped <==> b in o.mapped || SomeFlags(s, es, d, b))
    && (b in r.turbo <==> b in o.turbo || i >= 0)
    && (b in r.turbo ==> r.turbo[b] == if i >= 0 then es[i].turbo else if b in o.turbo then o.turbo[b] else 0)
  }

  lemma SomeFlagsMore(s: State, es: seq<Entry>, d: nat, b: nat)
    requires StateOk(s) && d < 12 && es != []
    ensures SomeFlags(s, es, d, b) <==> SomeFlags(s, es[..|es| - 1], d, b) || Flags(s, es[|es| - 1], d, b)
  {
    hide Flags;
    assert forall i :: 0 <= i < |es| - 1 ==> es[..|es| - 1][i] == es[i];
  }

  lemma ButtonTracedMore(s: State, es: seq<Entry>, d: nat, b: nat, p: Output, r: Output)
    requires StateOk(s) && es != [] && d < 12
    requires ButtonTraced(s, es[..|es| - 1], d, b, p) && ButtonStep(s, es[|es| - 1], d, p, r)
    ensures ButtonTraced(s, es, d, b, r)
  {
    hide Clicks, Flags, SomeFlags;
    SomeFlagsMore(s, es, d, b);
  }

  lemma {:induction false} ButtonIsTraced(s: State, es: seq<Entry>, d: nat, b: nat)
    requires StateOk(s) && AllOk(s, es) && d < 12
    ensures ButtonTraced(s, es, d, b, Run(s, es).outs[d])
    decreases |es|
  {
    if es != [] {
      hide Clicks, Flags, EntryOk, Run, ButtonTraced, ButtonStep;
      var front := es[..|es| - 1];
      ButtonIsTraced(s, front, d, b);
      LastButtonStep(s, es, d);
      ButtonTracedMore(s, es, d, b, Run(s, front).outs[d], Run(s, es).outs[d]);
    }
  }

  // Directions -------------------------------------------------------------------------

  // A value an axis was moved to lies the way the destination of an entry names, and that entry's source is a button
  // that is down or an axis deflected the way its own ID names.
  lemma MovesAsNamed(s: State, es: seq<Entry>, d: nat, k: nat)
    requires StateOk(s) && AllOk(s, es) && d < 12 && k < 16
    ensures var o, v := s.outs[d].axes[k], Run(s, es).outs[d].axes[k].value;
            v != o.value ==> exists i :: 0 <= i < |es| && MovedBy(s, es[i], d, k, v)
  {
    AxisIsTraced(s, es, d, k);
    var o, v := s.outs[d].axes[k], Run(s, es).outs[d].axes[k].value;
    hide Pushes, Run, EntryOk, MovedBy;
    if v != o.value {
      var i :| 0 <= i < |es| && Wins(s, es, i, d, k, v);
      PushMoves(s, es[i], d, k, v);
    }
  }

  // The ranges of a destination and the dead zone of a source are magnitudes; a negative one turns the direction round,
  // or lets a source in the middle count.
  predicate MovedBy(s: State, e: Entry, d: nat, k: nat, v: int)
    requires StateOk(s) && d < 12 && k < 16
  {
    var m := s.outs[d].axes[k].meta;
    && e.out == d && e.dst in ButtonsOf(k) && BitOf(e.src) in s.input.mask
    && (m.absMax >= 0 && m.absMin >= 0 ==> Toward(e.dst, m.polarity, v))
    && if BitOf(e.src) in s.input.desc then
         AxisOf(e.src).Axis?
         && var a := s.input.axes[AxisOf(e.src).index];
            && !Toward(e.src, a.meta.polarity, -a.value)
            && (a.meta.deadzone >= 0 ==> Toward(e.src, a.meta.polarity, a.value))
       else BitOf(e.src) in s.input.pressed
  }

  lemma PushMoves(s: State, e: Entry, d: nat, k: nat, v: int)
    requires StateOk(s) && d < 12 && k < 16 && Pushes(s, e, d, k, v) && v != 0
    ensures MovedBy(s, e, d, k, v)
  {
    var m := s.outs[d].axes[k].meta;
    var bound := if Upward(e.dst, m.polarity) then m.absMax else m.absMin;
    if bound >= 0 {
      PushIsPositive(s, e, bound);
    }
    if !IsDown(s, e) {
      DeadIsPositive(s.input.axes[AxisOf(e.src).index], e);
    }
    hide AxisOf, BitOf, ButtonsOf, Upward, Push, Dead;
  }

  lemma DeadIsPositive(a: InAxis, e: Entry)
    ensures a.meta.deadzone >= 0 ==> Dead(a, e) >= 0
    ensures Full(a, e.src) >= Magnitude(a.value) >= 0
  {
    PartIsPositive(e.percDeadzone, 10000.0, Full(a, e.src));
    hide Part, Upward;
  }

  lemma PartIsPositive(parts: nat, whole: real, full: int)
    requires whole > 0.0
    ensures full >= 0 ==> Part(parts, whole, full) >= 0
  {
    if full >= 0 {
      assert parts as real * full as real >= 0.0;
      assert parts as real * full as real / whole >= 0.0;
    }
  }

  lemma PushIsPositive(s: State, e: Entry, bound: int)
    requires StateOk(s) && bound >= 0
    requires IsDown(s, e)
             || (Looks(s, e) && var a := s.input.axes[AxisOf(e.src).index]; Magnitude(a.value) > Dead(a, e))
    ensures Push(s, e, bound) >= 0.0
  {
    if AxisOf(e.src).NoAxis? || !Looks(s, e) {
      Positive(bound as real, e.percMax as real, 100.0);
    } else {
      var a := s.input.axes[AxisOf(e.src).index];
      DeadIsPositive(a, e);
      AxisPushIsPositive(e, Magnitude(a.value) - Dead(a, e), bound, Full(a, e.src) - Dead(a, e));
    }
    hide AxisOf, Dead, Full, AxisPush;
  }

  lemma AxisPushIsPositive(e: Entry, over: int, bound: int, range: int)
    requires over > 0 && bound >= 0 && range > 0
    ensures AxisPush(e, over, bound, range) >= 0.0
  {
    Positive(over as real, e.percMax as real, 100.0);
    assert over as real * bound as real >= 0.0;
    Positive(over as real * bound as real, e.percMax as real, 100.0 * range as real);
  }

  lemma Positive(x: real, y: real, z: real)
    requires x >= 0.0 && y >= 0.0 && z > 0.0
    ensures x * y / z >= 0.0
  {
    assert x * y >= 0.0;
  }

  // A source at the end of its range puts a LINEAR destination at perc_max of the end of its own.
  lemma FullDeflection(s: State, e: Entry, d: nat, k: nat, v: int)
    requires StateOk(s) && d < 12 && k < 16 && Pushes(s, e, d, k, v) && Looks(s, e) && e.algo % 16 == 0
    requires var a := s.input.axes[AxisOf(e.src).index]; Magnitude(a.value) == Full(a, e.src)
    ensures var m := s.outs[d].axes[k].meta;
            var up := Upward(e.dst, m.polarity);
            Rounds(FullPush(e, if up then m.absMax else m.absMin), up, v)
  {
    var a, m := s.input.axes[AxisOf(e.src).index], s.outs[d].axes[k].meta;
    var bound := if Upward(e.dst, m.polarity) then m.absMax else m.absMin;
    DownOrLooks(s, e);
    WholeRange(e, Magnitude(a.value) - Dead(a, e), bound);
    hide AxisOf, BitOf, ButtonsOf, Upward, Dead, AxisPush, FullPush, Rounds, Full, Toward;
  }

  lemma DownOrLooks(s: State, e: Entry)
    requires StateOk(s)
    ensures !(IsDown(s, e) && Looks(s, e))
  {
  }

  lemma WholeRange(e: Entry, over: int, bound: int)
    requires over > 0 && e.algo % 16 == 0
    ensures AxisPush(e, over, bound, over) == FullPush(e, bound)
  {
    Cancel(1.0, bound as real, e.percMax as real, over as real);
    assert over as real * bound as real == 1.0 * (bound as real * over as real);
  }

  // An entry moves the upper (or lower) calibration of the axis it looks at, on the side it names.
  lemma RaisesItsSide(s: State, e: Entry, k: nat, up: bool)
    requires StateOk(s) && EntryOk(s, e) && k < 16
    ensures Raises(s, e, k, up) <==>
              && Looks(s, e) && BitOf(e.dst) in s.outs[e.out].mask && e.src in ButtonsOf(k)
              && Upward(e.src, s.input.axes[k].meta.polarity) == up
  {
    LooksIsReads(s, e);
    AxisOfItsButtons(e.src, k);
    if AxisOf(e.src) == Axis(k) {
      SignIsUpward(e.src, s.input.axes[k].meta.polarity);
    }
    hide AxisOf, Sign, Upward, BitOf, ButtonsOf, Looks, Reads;
    ReadsAnAxis(s, e);
  }

  // Outputs ----------------------------------------------------------------------------

  // The outputs reported as touched: those of the entries whose source the controller has, axis sources with an axis,
  // and not of those that would push a button with no axis under it.
  lemma TouchedAre(s: State, es: seq<Entry>, d: nat)
    requires StateOk(s) && AllOk(s, es) && d < 12
    ensures d in Touched(s, es) <==> exists i :: 0 <= i < |es| && es[i].out == d && Reaches(s, es[i])
  {
    hide EntryOk, Touches, Reaches, BitOf;
    forall i | 0 <= i < |es|
      ensures Touches(s, es[i]) <==> Reaches(s, es[i])
    {
      assert EntryOk(s, es[i]);
      TouchesIs(s, es[i]);
    }
  }

  predicate Reaches(s: State, e: Entry)
    requires StateOk(s)
  {
    && e.out < 12 && BitOf(e.src) in s.input.mask
    && if BitOf(e.src) in s.input.desc then AxisOf(e.src).Axis?
       else !(IsDown(s, e) && BitOf(e.dst) in s.outs[e.out].mask && BitOf(e.dst) in s.outs[e.out].desc
              && AxisOf(e.dst).NoAxis?)
  }

  lemma TouchesIs(s: State, e: Entry)
    requires StateOk(s) && EntryOk(s, e)
    ensures Touches(s, e) <==> Reaches(s, e)
  {
    SlotIsBit(e.src);
    SlotIsBit(e.dst);
    LooksIsReads(s, e);
    hide Slot, AxisOf, BitOf, Looks;
  }
}
