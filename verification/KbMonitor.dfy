// Key events from key states, with the typematic repeat of the key pressed last
// (main/adapter/kb_monitor.c:28-33, 53-79, 110-116). Bit masks are sets of key IDs.
module KbMonitor {
  const KBM_MAX: nat := 115

  datatype Kind = Make | Break

  // `repeat` marks the events of the typematic timer.
  datatype Event = Event(kind: Kind, key: nat, repeat: bool)

  datatype State = State(keys: set<nat>, tmState: bool, tmKey: nat, armed: bool, events: seq<Event>)

  // A change of one mapped key.
  function Change(s: State, key: nat, down: bool): State
  {
    if down then
      var made := s.(armed := false, events := s.events + [Event(Make, key, false)]);
      if s.tmState then made.(tmKey := key, armed := true) else made
    else s.(armed := false, events := s.events + [Event(Break, key, false)])
  }

  predicate Changed(was: set<nat>, now: set<nat>, mapped: set<nat>, key: nat)
  {
    key in mapped && (key in now) != (key in was)
  }

  // The scan over the first n keys.
  function Scan(s: State, was: set<nat>, now: set<nat>, mapped: set<nat>, n: nat): State
  {
    if n == 0 then s
    else
      var p := Scan(s, was, now, mapped, n - 1);
      if Changed(was, now, mapped, n - 1) then Change(p, n - 1, n - 1 in now) else p
  }

  function Update(s: State, now: set<nat>, mapped: set<nat>): State
  {
    Scan(s.(keys := now), s.keys, now, mapped, KBM_MAX)
  }

  // The timer is one-shot: it has gone off before the callback starts it again.
  function Typematic(s: State): State
  {
    if s.armed then s.(events := s.events + [Event(Make, s.tmKey, true)]) else s
  }

  // A report carries the keys that are down and those the keyboard maps.
  datatype Input = Report(now: set<nat>, mapped: set<nat>) | TimerFires | SetTypematic(on: bool)

  function Step(s: State, i: Input): State
  {
    match i
    case Report(now, mapped) => Update(s, now, mapped)
    case TimerFires => Typematic(s)
    case SetTypematic(on) => s.(tmState := on)
  }

  function Run(inputs: seq<Input>): State
  {
    if inputs == [] then State({}, false, 0, false, [])
    else Step(Run(inputs[..|inputs| - 1]), inputs[|inputs| - 1])
  }

  // What the events say ----------------------------------------------------------------

  // The presses and releases of one key, repeats aside.
  function Strokes(events: seq<Event>, key: nat): seq<Kind>
  {
    if events == [] then []
    else
      var e := events[|events| - 1];
      Strokes(events[..|events| - 1], key) + if e.key == key && !e.repeat then [e.kind] else []
  }

  predicate Alternates(strokes: seq<Kind>)
  {
    forall n :: 0 <= n < |strokes| ==> strokes[n] == if n % 2 == 0 then Make else Break
  }

  // The state of a key as a listener to the events has it.
  predicate HeldAfter(events: seq<Event>, key: nat)
  {
    |Strokes(events, key)| % 2 == 1
  }

  // Every repeat is of a key that is held.
  predicate RepeatsHeld(events: seq<Event>)
  {
    forall i :: 0 <= i < |events| && events[i].repeat ==>
        events[i].kind == Make && HeldAfter(events[..i], events[i].key)
  }

  predicate Reported(mapped: set<nat>, key: nat)
  {
    key in mapped && key < KBM_MAX
  }

  predicate KeyOk(s: State, mapped: set<nat>, keys: set<nat>, key: nat)
  {
    Alternates(Strokes(s.events, key)) && (HeldAfter(s.events, key) <==> Reported(mapped, key) && key in keys)
  }

  predicate TimerOk(s: State, mapped: set<nat>)
  {
    s.armed ==> Reported(mapped, s.tmKey) && HeldAfter(s.events, s.tmKey)
  }

  ghost predicate Inv(s: State, mapped: set<nat>)
  {
    && (forall key: nat :: KeyOk(s, mapped, s.keys, key))
    && TimerOk(s, mapped) && RepeatsHeld(s.events)
  }

  lemma StrokesMore(events: seq<Event>, e: Event, key: nat)
    ensures Strokes(events + [e], key) == Strokes(events, key) + if e.key == key && !e.repeat then [e.kind] else []
  {
    assert (events + [e])[..|events|] == events;
  }

  lemma RepeatsMore(events: seq<Event>, e: Event)
    requires RepeatsHeld(events) && (e.repeat ==> e.kind == Make && HeldAfter(events, e.key))
    ensures RepeatsHeld(events + [e])
  {
    hide HeldAfter;
    forall i | 0 <= i < |events|
      ensures (events + [e])[..i] == events[..i]
    {
    }
    assert (events + [e])[..|events|] == events;
  }

  function Seen(was: set<nat>, now: set<nat>, n: nat, key: nat): set<nat>
  {
    if key < n then now else was
  }

  // In the middle of the scan, keys below n are reported as they are and the rest as they were.
  ghost predicate ScanOk(s: State, was: set<nat>, now: set<nat>, mapped: set<nat>, n: nat)
  {
    && (forall key: nat :: KeyOk(s, mapped, Seen(was, now, n, key), key))
    && TimerOk(s, mapped) && RepeatsHeld(s.events)
  }

  lemma ChangeKey(s: State, was: set<nat>, now: set<nat>, mapped: set<nat>, n: nat, key: nat)
    requires KeyOk(s, mapped, Seen(was, now, n, key), key) && n < KBM_MAX && Changed(was, now, mapped, n)
    ensures KeyOk(Change(s, n, n in now), mapped, Seen(was, now, n + 1, key), key)
  {
    hide Strokes;
    StrokesMore(s.events, Event(if n in now then Make else Break, n, false), key);
  }

  lemma ChangeKeeps(s: State, was: set<nat>, now: set<nat>, mapped: set<nat>, n: nat)
    requires ScanOk(s, was, now, mapped, n) && n < KBM_MAX && Changed(was, now, mapped, n)
    ensures ScanOk(Change(s, n, n in now), was, now, mapped, n + 1)
  {
    hide Strokes, Alternates, RepeatsHeld;
    var r, next := Change(s, n, n in now), n + 1;
    RepeatsMore(s.events, Event(if n in now then Make else Break, n, false));
    forall key: nat
      ensures KeyOk(r, mapped, Seen(was, now, next, key), key)
    {
      assert KeyOk(s, mapped, Seen(was, now, n, key), key);
      ChangeKey(s, was, now, mapped, n, key);
    }
    assert KeyOk(s, mapped, Seen(was, now, n, s.tmKey), s.tmKey);
    assert KeyOk(r, mapped, Seen(was, now, next, n), n);
    assert KeyOk(r, mapped, Seen(was, now, next, s.tmKey), s.tmKey);
  }

  lemma {:induction false} ScanKeeps(s: State, was: set<nat>, now: set<nat>, mapped: set<nat>, n: nat)
    requires ScanOk(s, was, now, mapped, 0) && n <= KBM_MAX
    ensures ScanOk(Scan(s, was, now, mapped, n), was, now, mapped, n)
    ensures Scan(s, was, now, mapped, n).keys == s.keys
  {
    if n > 0 {
      ScanKeeps(s, was, now, mapped, n - 1);
      var p := Scan(s, was, now, mapped, n - 1);
      if Changed(was, now, mapped, n - 1) {
        ChangeKeeps(p, was, now, mapped, n - 1);
      } else {
        hide Strokes;
        assert Reported(mapped, n - 1) ==> (n - 1 in now <==> n - 1 in was);
        forall key: nat
          ensures KeyOk(p, mapped, Seen(was, now, n, key), key)
        {
          assert KeyOk(p, mapped, Seen(was, now, n - 1, key), key);
        }
      }
    }
  }

  lemma StepKeeps(s: State, mapped: set<nat>, i: Input)
    requires Inv(s, mapped) && (i.Report? ==> i.mapped == mapped)
    ensures Inv(Step(s, i), mapped)
  {
    hide Strokes, HeldAfter, Scan, RepeatsHeld;
    match i
    case Report(now, _) =>
      StartsScan(s, now, mapped);
      ScanKeeps(s.(keys := now), s.keys, now, mapped, KBM_MAX);
      var r := Step(s, i);
      forall key: nat
        ensures KeyOk(r, mapped, r.keys, key)
      {
        assert KeyOk(r, mapped, Seen(s.keys, now, KBM_MAX, key), key);
      }
    case TimerFires =>
      if s.armed {
        TypematicKeeps(s, mapped);
      }
    case SetTypematic(on) =>
      SameEvents(s, Step(s, i), mapped);
  }

  lemma StartsScan(s: State, now: set<nat>, mapped: set<nat>)
    requires Inv(s, mapped)
    ensures ScanOk(s.(keys := now), s.keys, now, mapped, 0)
  {
    hide RepeatsHeld, Strokes;
    forall key: nat
      ensures KeyOk(s.(keys := now), mapped, Seen(s.keys, now, 0, key), key)
    {
      assert KeyOk(s, mapped, s.keys, key);
    }
  }

  lemma SameEvents(s: State, r: State, mapped: set<nat>)
    requires Inv(s, mapped) && r == s.(tmState := r.tmState)
    ensures Inv(r, mapped)
  {
    hide RepeatsHeld, Strokes;
    forall key: nat
      ensures KeyOk(r, mapped, r.keys, key)
    {
      assert KeyOk(s, mapped, s.keys, key);
    }
  }

  lemma TypematicKeeps(s: State, mapped: set<nat>)
    requires Inv(s, mapped) && s.armed
    ensures Inv(Typematic(s), mapped)
  {
    var e := Event(Make, s.tmKey, true);
    RepeatsMore(s.events, e);
    forall key: nat
      ensures KeyOk(Typematic(s), mapped, s.keys, key)
    {
      StrokesMore(s.events, e, key);
      assert KeyOk(s, mapped, s.keys, key);
    }
    StrokesMore(s.events, e, s.tmKey);
  }

  predicate SameMap(mapped: set<nat>, inputs: seq<Input>)
  {
    forall i :: 0 <= i < |inputs| && inputs[i].Report? ==> inputs[i].mapped == mapped
  }

  // Over any run with a fixed map: the strokes of every mapped key alternate, they replay to its current
  // state, repeats are of held keys, and an armed timer belongs to a key that is down.
  lemma {:induction false} RunReplays(mapped: set<nat>, inputs: seq<Input>)
    requires SameMap(mapped, inputs)
    ensures Inv(Run(inputs), mapped)
    ensures var s := Run(inputs); s.armed ==> s.tmKey in s.keys
  {
    if inputs != [] {
      hide Step, Inv;
      RunReplays(mapped, inputs[..|inputs| - 1]);
      StepKeeps(Run(inputs[..|inputs| - 1]), mapped, inputs[|inputs| - 1]);
    }
    ArmedKeyIsDown(Run(inputs), mapped);
  }

  lemma ArmedKeyIsDown(s: State, mapped: set<nat>)
    ensures Inv(s, mapped) && s.armed ==> s.tmKey in s.keys
  {
    assert Inv(s, mapped) ==> KeyOk(s, mapped, s.keys, s.tmKey);
  }

  // What a report sends ----------------------------------------------------------------

  // A mapped key whose state the report changes.
  predicate Flips(was: set<nat>, now: set<nat>, mapped: set<nat>, key: nat)
  {
    key < 115 && key in mapped && (key in now <==> key !in was)
  }

  // In ascending order of the keys, one stroke for every key below n that changed and for no other.
  predicate Sends(added: seq<Event>, was: set<nat>, now: set<nat>, mapped: set<nat>, n: nat)
  {
    && (forall i :: 0 <= i < |added| ==> !added[i].repeat && added[i].key < n && Flips(was, now, mapped, added[i].key))
    && (forall i :: 0 <= i < |added| ==> added[i].kind == if added[i].key in now then Make else Break)
    && (forall i, j :: 0 <= i < j < |added| ==> added[i].key < added[j].key)
    && (forall key: nat :: key < n && Flips(was, now, mapped, key) ==>
          exists i :: 0 <= i < |added| && added[i].key == key)
  }

  lemma SendsMore(added: seq<Event>, was: set<nat>, now: set<nat>, mapped: set<nat>, n: nat)
    requires Sends(added, was, now, mapped, n)
    ensures Flips(was, now, mapped, n) ==>
              Sends(added + [Event(if n in now then Make else Break, n, false)], was, now, mapped, n + 1)
    ensures !Flips(was, now, mapped, n) ==> Sends(added, was, now, mapped, n + 1)
  {
    hide Flips;
    var e, next := Event(if n in now then Make else Break, n, false), n + 1;
    var more := added + [e];
    assert more[|added|] == e;
    forall key: nat | key < next && Flips(was, now, mapped, key) && Flips(was, now, mapped, n)
      ensures exists i :: 0 <= i < |more| && more[i].key == key
    {
      if key < n {
        var i :| 0 <= i < |added| && added[i].key == key;
        assert more[i].key == key;
      } else {
        assert more[|added|].key == key;
      }
    }
  }

  lemma {:induction false} ScanSends(s: State, was: set<nat>, now: set<nat>, mapped: set<nat>, n: nat)
    requires n <= KBM_MAX
    ensures var r := Scan(s, was, now, mapped, n);
            && s.events <= r.events && r.keys == s.keys && r.tmState == s.tmState
            && Sends(r.events[|s.events|..], was, now, mapped, n)
  {
    if n > 0 {
      ScanSends(s, was, now, mapped, n - 1);
      var p := Scan(s, was, now, mapped, n - 1);
      var added := p.events[|s.events|..];
      SendsMore(added, was, now, mapped, n - 1);
      assert Flips(was, now, mapped, n - 1) == Changed(was, now, mapped, n - 1);
      hide Sends, Flips;
      if Changed(was, now, mapped, n - 1) {
        var e := Event(if n - 1 in now then Make else Break, n - 1, false);
        assert Scan(s, was, now, mapped, n).events == p.events + [e];
        assert (p.events + [e])[|s.events|..] == added + [e];
      }
    }
  }

  // A report with any map sends the presses and releases of the mapped keys that changed, each once and in order.
  lemma ReportSends(s: State, now: set<nat>, mapped: set<nat>)
    ensures var r := Step(s, Report(now, mapped));
            && s.events <= r.events && r.keys == now && r.tmState == s.tmState
            && Sends(r.events[|s.events|..], s.keys, now, mapped, 115)
  {
    ScanSends(s.(keys := now), s.keys, now, mapped, KBM_MAX);
  }

  // When the timer runs ----------------------------------------------------------------

  // All presses and releases, repeats aside.
  function Sent(events: seq<Event>): seq<Event>
  {
    if events == [] then []
    else
      var e := events[|events| - 1];
      Sent(events[..|events| - 1]) + if e.repeat then [] else [e]
  }

  lemma SentMore(events: seq<Event>, e: Event)
    ensures Sent(events + [e]) == Sent(events) + if e.repeat then [] else [e]
  {
    assert (events + [e])[..|events|] == events;
  }

  // The last typematic setting.
  function TypematicOn(inputs: seq<Input>): bool
  {
    if inputs == [] then false
    else
      var i := inputs[|inputs| - 1];
      if i.SetTypematic? then i.on else TypematicOn(inputs[..|inputs| - 1])
  }

  // The one in force when the last stroke was sent.
  function LastSentOn(inputs: seq<Input>): bool
  {
    if inputs == [] then false
    else
      var front := inputs[..|inputs| - 1];
      if |Sent(Run(inputs).events)| != |Sent(Run(front).events)| then TypematicOn(front) else LastSentOn(front)
  }

  // The last stroke is a press sent under typematic.
  predicate Repeating(inputs: seq<Input>)
  {
    var t := Sent(Run(inputs).events);
    t != [] && t[|t| - 1].kind == Make && LastSentOn(inputs)
  }

  predicate ArmedBy(s: State, on: bool)
  {
    var t := Sent(s.events);
    && (s.armed <==> t != [] && t[|t| - 1].kind == Make && on)
    && (s.armed ==> s.tmKey == t[|t| - 1].key)
  }

  lemma ChangeArms(s: State, key: nat, down: bool)
    ensures var r := Change(s, key, down);
            ArmedBy(r, s.tmState) && r.tmState == s.tmState && |Sent(r.events)| == |Sent(s.events)| + 1
  {
    hide Sent;
    SentMore(s.events, Event(if down then Make else Break, key, false));
  }

  // The timer of r, if r comes from s by strokes alone.
  predicate StillArmedBy(s: State, r: State, on: bool)
  {
    && r.tmState == s.tmState && |Sent(r.events)| >= |Sent(s.events)|
    && ArmedBy(r, if |Sent(r.events)| != |Sent(s.events)| then s.tmState else on)
  }

  lemma ChangeStillArms(s: State, p: State, on: bool, key: nat, down: bool)
    requires StillArmedBy(s, p, on)
    ensures StillArmedBy(s, Change(p, key, down), on)
  {
    hide Sent, Change, ArmedBy;
    ChangeArms(p, key, down);
  }

  lemma {:induction false} ScanArms(s: State, was: set<nat>, now: set<nat>, mapped: set<nat>, n: nat, on: bool)
    requires ArmedBy(s, on)
    ensures StillArmedBy(s, Scan(s, was, now, mapped, n), on)
  {
    hide Sent, ArmedBy, Change;
    if n > 0 {
      hide StillArmedBy;
      ScanArms(s, was, now, mapped, n - 1, on);
      ChangeStillArms(s, Scan(s, was, now, mapped, n - 1), on, n - 1, n - 1 in now);
    }
  }

  lemma StepArms(s: State, i: Input, on: bool)
    requires ArmedBy(s, on)
    ensures var r := Step(s, i);
            && r.tmState == (if i.SetTypematic? then i.on else s.tmState)
            && ArmedBy(r, if |Sent(r.events)| != |Sent(s.events)| then s.tmState else on)
  {
    hide Sent, Scan;
    match i
    case Report(now, mapped) => ScanArms(s.(keys := now), s.keys, now, mapped, KBM_MAX, on);
    case TimerFires => SentMore(s.events, Event(Make, s.tmKey, true));
    case SetTypematic(_) =>
  }

  lemma {:induction false} RunArms(inputs: seq<Input>)
    ensures ArmedBy(Run(inputs), LastSentOn(inputs)) && Run(inputs).tmState == TypematicOn(inputs)
  {
    if inputs != [] {
      hide Step, ArmedBy, Sent;
      RunArms(inputs[..|inputs| - 1]);
      StepArms(Run(inputs[..|inputs| - 1]), inputs[|inputs| - 1], LastSentOn(inputs[..|inputs| - 1]));
    }
  }

  // Over any run, with any maps: the timer runs exactly while the last stroke is a press sent under typematic,
  // and it is that key's.
  lemma TimerRuns(inputs: seq<Input>)
    ensures var s, t := Run(inputs), Sent(Run(inputs).events);
            (s.armed <==> Repeating(inputs)) && (s.armed ==> s.tmKey == t[|t| - 1].key)
  {
    hide Run, Sent;
    RunArms(inputs);
  }

  // Each time it goes off then, that key is sent once more, and it runs on.
  lemma TimerRepeats(inputs: seq<Input>)
    ensures var s, r, t := Run(inputs), Run(inputs + [TimerFires]), Sent(Run(inputs).events);
            && r.events == s.events + (if Repeating(inputs) then [Event(Make, t[|t| - 1].key, true)] else [])
            && r == s.(events := r.events) && (Repeating(inputs + [TimerFires]) <==> Repeating(inputs))
  {
    var s := Run(inputs);
    assert (inputs + [TimerFires])[..|inputs|] == inputs;
    assert Run(inputs + [TimerFires]) == Typematic(s);
    TimerRuns(inputs);
    TimerRuns(inputs + [TimerFires]);
    hide Run, Sent, Repeating;
  }

  // The source's form ------------------------------------------------------------------

  class Monitor {
    var keys: set<nat>
    var tmState: bool
    var tmKey: nat
    var armed: bool
    var events: seq<Event>

    ghost function Value(): State
      reads this
    {
      State(keys, tmState, tmKey, armed, events)
    }

    constructor ()
      ensures Value() == Run([])
    {
      keys, tmState, tmKey, armed, events := {}, false, 0, false, [];
    }

    // kbmon_update
    method OnReport(now: set<nat>, mapped: set<nat>)
      modifies this
      ensures Value() == Step(old(Value()), Report(now, mapped))
    {
      hide Change;
      ghost var s := Value();
      var change := set k: nat | k in now + keys && (k in now) != (k in keys);
      keys := now;
      for i := 0 to KBM_MAX
        invariant Value() == Scan(s.(keys := now), s.keys, now, mapped, i)
      {
        if i in mapped {
          if i in change {
            KeyChanged(i, i in now);
          }
        }
      }
    }

    method KeyChanged(key: nat, down: bool)
      modifies this`armed, this`tmKey, this`events
      ensures Value() == Change(old(Value()), key, down)
    {
      armed := false;
      if down {
        events := events + [Event(Make, key, false)];
        if tmState {
          tmKey := key;
          armed := true;
        }
      } else {
        events := events + [Event(Break, key, false)];
      }
    }

    // kbmon_typematic_cb
    method OnTimer()
      requires armed
      modifies this`armed, this`events
      ensures Value() == Step(old(Value()), TimerFires)
    {
      armed := false;
      events := events + [Event(Make, tmKey, true)];
      armed := true;
    }

    // kbmon_set_typematic
    method SetTypematicState(on: bool)
      modifies this`tmState
      ensures Value() == Step(old(Value()), SetTypematic(on))
    {
      tmState := on;
    }
  }
}
