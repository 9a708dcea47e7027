// The mapping in its own form: outputs and calibrations changed in place, entry by entry
// (main/adapter/adapter.c:66-216).
module AdapterMapper {
  import opened AdapterMapping

  class Mapper {
    const mask: set<nat>
    const desc: set<nat>
    const pressed: set<nat>
    const axes: array<InAxis>
    const outs: array<Output>

    ghost predicate Valid()
      reads outs
    {
      axes.Length == AXES && outs.Length == OUTPUTS && forall d :: 0 <= d < OUTPUTS ==> |outs[d].axes| == AXES
    }

    ghost function Value(): (s: State)
      requires Valid()
      reads axes, outs
      ensures StateOk(s)
    {
      State(Input(mask, desc, pressed, axes[..]), outs[..])
    }

    constructor (input: Input, outputs: seq<Output>)
      requires StateOk(State(input, outputs))
      ensures Valid() && Value() == State(input, outputs) && fresh(axes) && fresh(outs)
    {
      mask, desc, pressed := input.mask, input.desc, input.pressed;
      axes := new InAxis[AXES](i requires 0 <= i < |input.axes| => input.axes[i]);
      outs := new Output[OUTPUTS](i requires 0 <= i < |outputs| => outputs[i]);
    }

    // The larger of the calibration and the value, kept as the new calibration.
    method Calibrate(k: nat, sign: int) returns (srcMax: int)
      requires Valid() && k < AXES
      modifies axes
      ensures axes[..] == old(axes[..])[k := Raised(old(axes[k]), sign)]
      ensures srcMax == SrcMax(old(axes[k]), sign)
    {
      var a := axes[k];
      if sign > 0 {
        if Abs(a.value) > a.meta.absMax {
          axes[k] := a.(meta := a.meta.(absMax := Abs(a.value)));
        }
        srcMax := axes[k].meta.absMax;
      } else {
        if Abs(a.value) > a.meta.absMin {
          axes[k] := a.(meta := a.meta.(absMin := Abs(a.value)));
        }
        srcMax := axes[k].meta.absMin;
      }
    }

    // A value for a destination axis: it counts if it goes further than what is there.
    method Push(d: nat, k: nat, value: int, turbo: nat)
      requires Valid() && d < OUTPUTS && k < AXES
      modifies outs
      ensures Valid()
      ensures outs[..] == old(outs[..])[d := Louder(old(outs[d]), Axis(k), Offer(value), turbo)]
    {
      var o := outs[d];
      if Abs(value) > Abs(o.axes[k].value) {
        outs[d] := o.(axes := o.axes[k := o.axes[k].(value := value, turbo := turbo)]);
      }
    }

    method Press(d: nat, slot: nat, turbo: nat)
      requires Valid() && d < OUTPUTS
      modifies outs
      ensures Valid()
      ensures outs[..] == old(outs[..])[d := old(outs[d]).(btns := old(outs[d].btns) + {slot},
                    turbo := old(outs[d].turbo)[slot := turbo])]
    {
      outs[d] := outs[d].(btns := outs[d].btns + {slot}, turbo := outs[d].turbo[slot := turbo]);
    }

    // adapter_map_from_axis
    method MapFromAxis(e: Entry) returns (touched: set<nat>)
      requires Valid() && EntryOk(Value(), e) && FromAxis(Value(), e)
      modifies axes, outs
      ensures Valid() && Value() == Step(old(Value()), e)
      ensures touched == if Touches(old(Value()), e) then {e.out} else {}
    {
      hide Slot, AxisOf, Sign, Share, Scaled;
      var s, d, slot := AxisOf(e.src), e.out, Slot(e.dst);
      touched := {};
      if s.NoAxis? {
        return;
      }
      if slot in outs[d].mask {
        var a := axes[s.index];
        var srcSign := Sign(a.meta.polarity, e.src);
        if srcSign * a.value >= 0 {
          var srcMax := Calibrate(s.index, srcSign);
          if slot in outs[d].desc {
            MapAxisToAxis(e, a, srcSign, srcMax);
          } else {
            var threshold := Share(e.percThreshold as real / 100.0, srcMax);
            if Abs(a.value) >= threshold {
              Press(d, slot, e.turbo);
            }
          }
        }
        outs[d] := outs[d].(mapped := outs[d].mapped + {slot});
      }
      touched := {d};
    }

    method MapAxisToAxis(e: Entry, a: InAxis, srcSign: int, srcMax: int)
      requires Valid() && e.out < OUTPUTS && AxisOf(e.dst).Axis? && srcMax == SrcMax(a, srcSign)
      modifies outs
      ensures Valid()
      ensures var k, o := AxisOf(e.dst).index, old(outs[e.out]);
              var t := o.(axes := o.axes[k := o.axes[k].(relative := a.meta.relative)]);
              var offer := if Abs(a.value) > Deadzone(a, srcSign, e) then
                          Offer(AxisToAxis(a, srcSign, o.axes[k].meta, e)) else Nothing;
              outs[..] == old(outs[..])[e.out := Louder(t, Axis(k), offer, e.turbo)]
    {
      hide Slot, AxisOf, Sign, Share, Scaled;
      var k, o := AxisOf(e.dst).index, outs[e.out];
      outs[e.out] := o.(axes := o.axes[k := o.axes[k].(relative := a.meta.relative)]);
      var deadzone := Share(e.percDeadzone as real / 10000.0, srcMax) + a.meta.deadzone;
      if Abs(a.value) > deadzone {
        var m := o.axes[k].meta;
        var dstSign := Sign(m.polarity, e.dst);
        var dstMax := if dstSign > 0 then m.absMax else m.absMin;
        var value := Scaled(e, dstSign, Abs(a.value) - deadzone, dstMax, srcMax - deadzone);
        Push(e.out, k, value, e.turbo);
      }
    }

    // adapter_map_from_btn
    method MapFromButton(e: Entry) returns (touched: set<nat>)
      requires Valid() && EntryOk(Value(), e) && FromButton(Value(), e)
      modifies outs
      ensures Valid() && Value() == Step(old(Value()), e)
      ensures touched == if Touches(old(Value()), e) then {e.out} else {}
    {
      hide Slot, AxisOf, Sign, ButtonToAxis;
      var d, slot := e.out, Slot(e.dst);
      touched := {};
      if slot in outs[d].mask {
        if Slot(e.src) in pressed {
          if slot in outs[d].desc {
            var k := AxisOf(e.dst);
            if k.NoAxis? {
              return;
            }
            Push(d, k.index, ButtonToAxis(outs[d].axes[k.index].meta, e), e.turbo);
          } else {
            Press(d, slot, e.turbo);
          }
        }
        outs[d] := outs[d].(mapped := outs[d].mapped + {slot});
      }
      touched := {d};
    }

    // adapter_mapping
    method Mapping(es: seq<Entry>) returns (touched: set<nat>)
      requires Valid() && AllOk(Value(), es)
      modifies axes, outs
      ensures Valid() && Value() == Run(old(Value()), es) && touched == Touched(old(Value()), es)
    {
      hide Slot, AxisOf, EntryOk, Step, Touches, Frozen;
      ghost var s := Value();
      touched := {};
      assert es[..0] == [];
      for i := 0 to |es|
        invariant Valid() && AllOk(s, es[..i]) && Value() == Run(s, es[..i]) && touched == Touched(s, es[..i])
      {
        var e := es[i];
        assert EntryOk(s, e);
        FrozenEntry(s, Run(s, es[..i]), e);
        RunMore(s, es, i);
        if Slot(e.src) in mask {
          var more;
          if Slot(e.src) in desc {
            more := MapFromAxis(e);
          } else {
            more := MapFromButton(e);
          }
          touched := touched + more;
        } else {
          Unmapped(Run(s, es[..i]), e);
        }
      }
      assert es[..|es|] == es;
    }
  }

  lemma RunMore(s: State, es: seq<Entry>, i: nat)
    requires StateOk(s) && AllOk(s, es) && i < |es|
    ensures AllOk(s, es[..i]) && AllOk(s, es[..i + 1])
    ensures EntryOk(Run(s, es[..i]), es[i]) && Run(s, es[..i + 1]) == Step(Run(s, es[..i]), es[i])
    ensures Touched(s, es[..i + 1]) == Touched(s, es[..i]) + if Touches(s, es[i]) then {es[i].out} else {}
  {
    assert es[..i + 1][..i] == es[..i];
    assert forall j :: 0 <= j < i ==> es[..i][j] == es[j] && es[..i + 1][j] == es[j];
    FrozenEntry(s, Run(s, es[..i]), es[i]);
    TouchedMore(s, es[..i + 1]);
  }

  lemma TouchedMore(s: State, es: seq<Entry>)
    requires StateOk(s) && AllOk(s, es) && es != []
    ensures Touched(s, es) == Touched(s, es[..|es| - 1]) + if Touches(s, es[|es| - 1]) then {es[|es| - 1].out} else {}
  {
    hide Touches, EntryOk;
    var front := es[..|es| - 1];
    assert forall i :: 0 <= i < |front| ==> front[i] == es[i];
  }

  // An entry whose source the controller does not have.
  lemma Unmapped(s: State, e: Entry)
    requires StateOk(s) && EntryOk(s, e) && Slot(e.src) !in s.input.mask
    ensures Step(s, e) == s && !Touches(s, e)
  {
    hide Slot, AxisOf;
    assert s.outs[e.out := s.outs[e.out]] == s.outs;
  }
}
