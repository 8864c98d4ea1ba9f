/** The switch controller: one timed state machine per switch, driven by ticks, manual commands, pulses and the
    automatic mode. Times are true milliseconds since boot; the firmware sees them modulo 2^32. */
module SwitchController {
  import opened Options
  import opened Words

  const MAX_SWITCHES: nat := 8

  // The stored configuration of one switch and its rule.
  datatype Config = Config(
    inTable: bool,       // below the stored switch count
    loads: bool, enabled: bool,
    ruleLoads: bool, ruleEnabled: bool,
    tripDelay: uint16, resetDelay: uint16,
    all: bool, minimum: nat, active: seq<bool>)  // SL_AND, min_conditions, which conditions are not disabled

  // The run-time state, with the last level commanded on the pin and the last state published.
  datatype Switch = Switch(
    energized: bool, wasEnergized: bool, start: uint32, conditionActive: bool, pulse: bool, pulseOff: uint32,
    pin: bool, published: Option<bool>)

  const OFF := Switch(false, false, 0, false, false, 0, false, None)

  // ---------------------------------------------------------------- combining conditions

  function Count(xs: seq<bool>): (n: nat)
    ensures n <= |xs|
  {
    if xs == [] then 0 else Count(xs[..|xs| - 1]) + if xs[|xs| - 1] then 1 else 0
  }

  // Conditions that hold: disabled ones never do.
  function Holding(active: seq<bool>, satisfied: seq<bool>): (h: seq<bool>)
    requires |active| == |satisfied|
    ensures |h| == |active|
  {
    seq(|active|, j requires 0 <= j < |active| => active[j] && satisfied[j])
  }

  // AND: at least one active condition, and all of them hold. OR: at least the minimum number hold, and at least one.
  ghost predicate Combined(all: bool, minimum: nat, active: seq<bool>, satisfied: seq<bool>)
    requires |active| == |satisfied|
  {
    if all then
      && (exists j :: 0 <= j < |active| && active[j])
      && (forall j :: 0 <= j < |active| && active[j] ==> satisfied[j])
    else
      Count(Holding(active, satisfied)) >= (if minimum == 0 then 1 else minimum)
  }

  lemma {:induction false} CountCompare(xs: seq<bool>, ys: seq<bool>)
    requires |xs| == |ys| && forall j :: 0 <= j < |xs| ==> (xs[j] ==> ys[j])
    ensures Count(xs) <= Count(ys)
    ensures Count(xs) == Count(ys) <==> forall j :: 0 <= j < |xs| ==> (ys[j] ==> xs[j])
  {
    if xs != [] {
      CountCompare(xs[..|xs| - 1], ys[..|xs| - 1]);
    }
  }

  lemma {:induction false} CountZero(xs: seq<bool>)
    ensures Count(xs) > 0 <==> exists j :: 0 <= j < |xs| && xs[j]
  {
    if xs != [] {
      var n := |xs| - 1;
      CountZero(xs[..n]);
      if Count(xs[..n]) > 0 {
        var j :| 0 <= j < n && xs[..n][j];
        assert xs[j];
      }
    }
  }

  // The two counting loops of evaluate_switches.
  method Combine(all: bool, minimum: nat, active: seq<bool>, satisfied: seq<bool>) returns (met: bool)
    requires |active| == |satisfied|
    ensures met <==> Combined(all, minimum, active, satisfied)
  {
    var activeCount, trueCount := 0, 0;
    var holding := Holding(active, satisfied);
    for j := 0 to |active|
      invariant activeCount == Count(active[..j]) && trueCount == Count(holding[..j])
    {
      assert active[..j + 1][..j] == active[..j] && holding[..j + 1][..j] == holding[..j];
      if active[j] {
        activeCount := activeCount + 1;
      }
      if holding[j] {
        trueCount := trueCount + 1;
      }
    }
    assert active[..|active|] == active && holding[..|active|] == holding;
    CountCompare(holding, active);
    CountZero(active);
    if all {
      met := activeCount > 0 && trueCount >= activeCount;
    } else {
      met := trueCount >= if minimum == 0 then 1 else minimum;
    }
  }

  // ---------------------------------------------------------------- one switch

  function Elapsed(now: int, since: int): int32 { ToInt32(now - since) }

  // switch_set.
  function Set(c: Config, s: Switch, on: bool): Switch {
    if !c.loads then s else s.(energized := on, wasEnergized := on, pin := on, published := Some(on))
  }

  // switch_pulse.
  function StartPulse(c: Config, s: Switch, now: uint32, duration: uint32): Switch {
    if !c.loads then s else Set(c, s, true).(pulse := true, pulseOff := Add32(now, duration))
  }

  // switch_pulse_tick.
  function EndPulse(c: Config, s: Switch, now: uint32): Switch {
    if s.pulse && Elapsed(now, s.pulseOff) >= 0 then Set(c, s, false).(pulse := false) else s
  }

  // The trip and reset timing of evaluate_switches.
  function Timing(c: Config, s: Switch, now: uint32, met: bool): Switch {
    if met then
      if !s.conditionActive then s.(conditionActive := true, start := now)
      else if !s.energized && Elapsed(now, s.start) >= c.tripDelay then
        s.(energized := true, wasEnergized := true, pin := true,
           published := if s.wasEnergized then s.published else Some(true))
      else s
    else
      if s.conditionActive then s.(conditionActive := false, start := now)
      else if s.energized && Elapsed(now, s.start) >= c.resetDelay then
        s.(energized := false, wasEnergized := false, pin := false,
           published := if s.wasEnergized then Some(false) else s.published)
      else s
  }

  predicate RuleApplies(c: Config, s: Switch, auto: bool, seen: bool) {
    auto && c.inTable && !s.pulse && c.loads && c.enabled && c.ruleLoads && c.ruleEnabled && seen
  }

  // evaluate_switches, as it affects one switch: `seen` says its sensor channel is in the snapshot.
  function Tick(c: Config, s: Switch, auto: bool, now: uint32, seen: bool, met: bool): Switch {
    var p := EndPulse(c, s, now);
    if RuleApplies(c, p, auto, seen) then Timing(c, p, now, met) else p
  }

  // switch_set_auto.
  function SwitchAuto(c: Config, s: Switch, on: bool): Switch {
    if !on && c.inTable && c.loads && c.ruleLoads && c.ruleEnabled && s.energized then
      s.(energized := false, wasEnergized := false, pin := false, published := Some(false))
    else s
  }

  // ---------------------------------------------------------------- runs of one switch

  datatype Event =
    | Ticked(time: nat, seen: bool, met: bool)
    | Commanded(on: bool)
    | Pulsed(time: nat, duration: uint32)
    | AutoSet(on: bool)

  datatype State = State(s: Switch, auto: bool)

  function Step(c: Config, st: State, e: Event): State {
    match e
    case Ticked(time, seen, met) => st.(s := Tick(c, st.s, st.auto, ToUint32(time), seen, met))
    case Commanded(on) => st.(s := Set(c, st.s, on))
    case Pulsed(time, duration) => st.(s := StartPulse(c, st.s, ToUint32(time), duration))
    case AutoSet(on) => State(SwitchAuto(c, st.s, on), on)
  }

  // init_switches: off, and published as off for the first four switches only.
  type BootState = st: State | st.s == OFF || st.s == OFF.(published := Some(false)) witness State(OFF, false)

  // The state after the first n events of a run from boot.
  function After(c: Config, boot: BootState, es: seq<Event>, n: nat): State
    requires n <= |es|
  {
    if n == 0 then boot else Step(c, After(c, boot, es, n - 1), es[n - 1])
  }

  // ---------------------------------------------------------------- what is shown is what is commanded

  // The run-time flag, its mirror, the pin and the remote state table agree.
  predicate Coherent(s: Switch) {
    && s.energized == s.wasEnergized == s.pin
    && (s.published == Some(s.energized) || (s.published == None && !s.energized))
  }

  lemma TimingCoherent(c: Config, s: Switch, now: uint32, met: bool)
    requires Coherent(s)
    ensures Coherent(Timing(c, s, now, met))
  {
  }

  lemma TickCoherent(c: Config, s: Switch, auto: bool, now: uint32, seen: bool, met: bool)
    requires Coherent(s)
    ensures Coherent(Tick(c, s, auto, now, seen, met))
  {
    TimingCoherent(c, EndPulse(c, s, now), now, met);
  }

  lemma {:induction false} AlwaysCoherent(c: Config, boot: BootState, es: seq<Event>, n: nat)
    requires n <= |es|
    ensures Coherent(After(c, boot, es, n).s)
  {
    if n > 0 {
      AlwaysCoherent(c, boot, es, n - 1);
      var st := After(c, boot, es, n - 1);
      match es[n - 1]
      case Ticked(time, seen, met) => TickCoherent(c, st.s, st.auto, ToUint32(time), seen, met);
      case Commanded(on) =>
      case Pulsed(time, duration) =>
      case AutoSet(on) =>
    }
  }

  // ---------------------------------------------------------------- 32-bit clock differences against true time

  lemma WrappedDifference(a: nat, b: nat)
    ensures (a % TWO_32 - b % TWO_32) % TWO_32 == (a - b) % TWO_32
  {
  }

  lemma SmallElapsed(d: int)
    requires -0x8000_0000 <= d < 0x8000_0000
    ensures ToInt32(d) == d
  {
  }

  lemma ElapsedModulo(now: nat, since: nat)
    ensures Elapsed(ToUint32(now), ToUint32(since)) == ToInt32(now - since)
  {
    WrappedDifference(now, since);
  }

  lemma ElapsedAtMost(d: nat)
    ensures ToInt32(d) <= d
  {
  }

  // ---------------------------------------------------------------- the rule engine acts only on a full stretch

  predicate Evaluated(c: Config, boot: BootState, es: seq<Event>, j: nat)
    requires j < |es|
  {
    var st := After(c, boot, es, j);
    es[j].Ticked? && RuleApplies(c, EndPulse(c, st.s, ToUint32(es[j].time)), st.auto, es[j].seen)
  }

  // The combined condition has been `met` at every evaluated tick from event b up to event n; b is itself such a tick,
  // or -1 for boot.
  ghost predicate Stretch(c: Config, boot: BootState, es: seq<Event>, b: int, n: nat, met: bool)
    requires n <= |es|
  {
    && -1 <= b < n
    && (b >= 0 ==> Evaluated(c, boot, es, b) && es[b].met == met)
    && forall j: nat :: b <= j < n && Evaluated(c, boot, es, j) ==> es[j].met == met
  }

  function TimeAt(es: seq<Event>, b: int): nat
    requires b < |es|
  {
    if b >= 0 && es[b].Ticked? then es[b].time else 0
  }

  ghost predicate ClockRuns(es: seq<Event>) {
    forall i, j :: 0 <= i < j < |es| && es[i].Ticked? && es[j].Ticked? ==> es[i].time <= es[j].time
  }

  lemma StepClock(c: Config, st: State, e: Event)
    ensures var s, s' := st.s, Step(c, st, e).s;
            if e.Ticked? && e.met != s.conditionActive
               && RuleApplies(c, EndPulse(c, s, ToUint32(e.time)), st.auto, e.seen)
            then s'.conditionActive == e.met && s'.start == ToUint32(e.time)
            else s'.conditionActive == s.conditionActive && s'.start == s.start
  {
  }

  lemma StretchStarts(c: Config, boot: BootState, es: seq<Event>, n: nat, met: bool)
    requires n < |es| && Evaluated(c, boot, es, n) && es[n].met == met
    ensures Stretch(c, boot, es, n, n + 1, met)
  {
  }

  lemma StretchGoesOn(c: Config, boot: BootState, es: seq<Event>, b: int, n: nat, met: bool)
    requires n < |es| && Stretch(c, boot, es, b, n, met) && (Evaluated(c, boot, es, n) ==> es[n].met == met)
    ensures Stretch(c, boot, es, b, n + 1, met)
  {
  }

  // b is where the present stretch began, and `start` holds its time.
  ghost predicate Present(c: Config, boot: BootState, es: seq<Event>, n: nat, b: int)
    requires n <= |es|
  {
    var s := After(c, boot, es, n).s;
    && Stretch(c, boot, es, b, n, s.conditionActive)
    && (b == -1 ==> !s.conditionActive)
    && s.start == ToUint32(TimeAt(es, b))
  }

  lemma PresentNext(c: Config, boot: BootState, es: seq<Event>, n: nat, b: int) returns (b': int)
    requires n < |es| && Present(c, boot, es, n, b)
    ensures Present(c, boot, es, n + 1, b')
  {
    var st, e := After(c, boot, es, n), es[n];
    StepClock(c, st, e);
    var active := After(c, boot, es, n + 1).s.conditionActive;
    if Evaluated(c, boot, es, n) && e.met != st.s.conditionActive {
      b' := n;
      StretchStarts(c, boot, es, n, active);
    } else {
      b' := b;
      StretchGoesOn(c, boot, es, b, n, active);
    }
  }

  // `start` always holds the time at which the present stretch began.
  lemma {:induction false} PresentStretch(c: Config, boot: BootState, es: seq<Event>, n: nat) returns (b: int)
    requires n <= |es|
    ensures Present(c, boot, es, n, b)
  {
    if n == 0 {
      return -1;
    }
    b := PresentStretch(c, boot, es, n - 1);
    b := PresentNext(c, boot, es, n - 1, b);
  }

  lemma EnergisingNeeds(c: Config, st: State, e: Event)
    requires e.Ticked? && !EndPulse(c, st.s, ToUint32(e.time)).energized && Step(c, st, e).s.energized
    ensures RuleApplies(c, EndPulse(c, st.s, ToUint32(e.time)), st.auto, e.seen) && e.met && st.s.conditionActive
    ensures Elapsed(ToUint32(e.time), st.s.start) >= c.tripDelay
  {
    hide Elapsed;
  }

  lemma ReleaseNeeds(c: Config, st: State, e: Event)
    requires e.Ticked? && EndPulse(c, st.s, ToUint32(e.time)).energized && !Step(c, st, e).s.energized
    ensures RuleApplies(c, EndPulse(c, st.s, ToUint32(e.time)), st.auto, e.seen) && !e.met && !st.s.conditionActive
    ensures Elapsed(ToUint32(e.time), st.s.start) >= c.resetDelay
  {
    hide Elapsed;
  }

  // The rule engine energises a switch only after the combined condition has held at every evaluated tick of a stretch
  // at least trip_delay_ms long, in true time, wherever the 32-bit clock wraps.
  lemma EnergisedAfterStretch(c: Config, boot: BootState, es: seq<Event>, k: nat) returns (b: nat)
    requires k < |es| && es[k].Ticked? && ClockRuns(es)
    requires !EndPulse(c, After(c, boot, es, k).s, ToUint32(es[k].time)).energized
    requires After(c, boot, es, k + 1).s.energized
    ensures b < k && Stretch(c, boot, es, b, k + 1, true)
    ensures es[k].time - es[b].time >= c.tripDelay
  {
    hide Step, EndPulse, RuleApplies;
    EnergisingNeeds(c, After(c, boot, es, k), es[k]);
    b := PresentStretch(c, boot, es, k);
    StretchGoesOn(c, boot, es, b, k, true);
    ElapsedModulo(es[k].time, es[b].time);
    ElapsedAtMost(es[k].time - es[b].time);
  }

  // ... and de-energises it only after the mirror image, reset_delay_ms long (counted from boot when the condition has
  // never held).
  lemma ReleasedAfterStretch(c: Config, boot: BootState, es: seq<Event>, k: nat) returns (b: int)
    requires k < |es| && es[k].Ticked? && ClockRuns(es)
    requires EndPulse(c, After(c, boot, es, k).s, ToUint32(es[k].time)).energized
    requires !After(c, boot, es, k + 1).s.energized
    ensures b < k && Stretch(c, boot, es, b, k + 1, false)
    ensures es[k].time - TimeAt(es, b) >= c.resetDelay
  {
    hide Step, EndPulse, RuleApplies;
    ReleaseNeeds(c, After(c, boot, es, k), es[k]);
    b := PresentStretch(c, boot, es, k);
    StretchGoesOn(c, boot, es, b, k, false);
    ElapsedModulo(es[k].time, TimeAt(es, b));
    ElapsedAtMost(es[k].time - TimeAt(es, b));
  }

  // The exact decision of an evaluated tick, in true time, for gaps below 2^31 ms.
  lemma RuleDecision(c: Config, s: Switch, now: nat, since: nat, met: bool)
    requires since <= now < since + 0x8000_0000 && s.start == ToUint32(since)
    ensures Timing(c, s, ToUint32(now), met).energized ==
            if met then s.energized || (s.conditionActive && now - since >= c.tripDelay)
            else s.energized && (s.conditionActive || now - since < c.resetDelay)
  {
    ElapsedModulo(now, since);
    SmallElapsed(now - since);
  }

  lemma StretchIsActive(c: Config, boot: BootState, es: seq<Event>, k: nat, b: int)
    requires k <= |es| && Present(c, boot, es, k, b)
    ensures After(c, boot, es, k).s.conditionActive <==> b >= 0 && Stretch(c, boot, es, b, k, true)
    ensures !After(c, boot, es, k).s.conditionActive <==> Stretch(c, boot, es, b, k, false)
  {
  }

  // Over runs: at an evaluated tick less than 2^31 ms after the present stretch began, the rule engine energises the
  // switch if and only if the condition holds again and has for trip_delay_ms ...
  lemma EnergisedExactly(c: Config, boot: BootState, es: seq<Event>, k: nat, b: int)
    requires k < |es| && Evaluated(c, boot, es, k) && Present(c, boot, es, k, b)
    requires TimeAt(es, b) <= es[k].time < TimeAt(es, b) + 0x8000_0000
    requires !EndPulse(c, After(c, boot, es, k).s, ToUint32(es[k].time)).energized
    ensures After(c, boot, es, k + 1).s.energized <==>
            es[k].met && b >= 0 && Stretch(c, boot, es, b, k, true) && es[k].time - TimeAt(es, b) >= c.tripDelay
  {
    StretchIsActive(c, boot, es, k, b);
    RuleDecision(c, EndPulse(c, After(c, boot, es, k).s, ToUint32(es[k].time)), es[k].time, TimeAt(es, b), es[k].met);
  }

  // ... and releases it if and only if the condition fails again and has for reset_delay_ms.
  lemma ReleasedExactly(c: Config, boot: BootState, es: seq<Event>, k: nat, b: int)
    requires k < |es| && Evaluated(c, boot, es, k) && Present(c, boot, es, k, b)
    requires TimeAt(es, b) <= es[k].time < TimeAt(es, b) + 0x8000_0000
    requires EndPulse(c, After(c, boot, es, k).s, ToUint32(es[k].time)).energized
    ensures !After(c, boot, es, k + 1).s.energized <==>
            !es[k].met && Stretch(c, boot, es, b, k, false) && es[k].time - TimeAt(es, b) >= c.resetDelay
  {
    StretchIsActive(c, boot, es, k, b);
    RuleDecision(c, EndPulse(c, After(c, boot, es, k).s, ToUint32(es[k].time)), es[k].time, TimeAt(es, b), es[k].met);
  }

  // ---------------------------------------------------------------- pulses

  // When a pulse of length d, started at time t, is looked at by a tick at time T before its end: it goes on exactly
  // when at most 2^31 ms remain (longer ones look already over to the signed comparison).
  lemma PulseGoesOn(c: Config, s: Switch, t: nat, d: uint32, T: nat)
    requires t <= T < t + d && s.pulse && s.pulseOff == Add32(ToUint32(t), d)
    ensures EndPulse(c, s, ToUint32(T)) == s <==> t + d - T <= 0x8000_0000
  {
    PulseClock(t, d, T);
    var left := t + d - T;
    if left <= 0x8000_0000 {
      SmallElapsed(-left);
    } else {
      assert (-left) % TWO_32 == TWO_32 - left;
    }
  }

  lemma PulseClock(t: nat, d: uint32, T: nat)
    ensures Elapsed(ToUint32(T), Add32(ToUint32(t), d)) == ToInt32(T - (t + d))
  {
    AddModulo(t, d);
    ElapsedModulo(T, t + d);
  }

  lemma AddModulo(t: nat, d: nat)
    ensures (t % TWO_32 + d) % TWO_32 == (t + d) % TWO_32
  {
  }

  // The first tick at or after the end (within 2^31 ms of it) ends the pulse, with auto on or off; with auto off the
  // switch is then off.
  lemma PulseEnds(c: Config, s: Switch, auto: bool, t: nat, d: uint32, T: nat, seen: bool, met: bool)
    requires c.loads && s.pulse && s.pulseOff == Add32(ToUint32(t), d)
    requires t + d <= T < t + d + 0x8000_0000
    ensures var s' := Tick(c, s, auto, ToUint32(T), seen, met);
            !s'.pulse && (!auto ==> !s'.energized && !s'.pin)
    ensures !EndPulse(c, s, ToUint32(T)).energized
  {
    PulseClock(t, d, T);
    SmallElapsed(T - (t + d));
  }

  // Events that leave a running pulse alone: anything but another pulse, ticks coming before its end.
  predicate DuringPulse(e: Event, t: nat, d: uint32) {
    match e
    case Ticked(time, _, _) => t <= time < t + d
    case Pulsed(_, _) => false
    case _ => true
  }

  // Until its end a pulse of at most 2^31 ms stays in flight, and no tick changes the switch: the rule engine never
  // overrides a pulse.
  lemma {:induction false} PulseOwnsSwitch(c: Config, boot: BootState, es: seq<Event>, k: nat, n: nat)
    requires c.loads && k < n <= |es| && es[k].Pulsed? && es[k].duration <= 0x8000_0000
    requires forall j :: k < j < n ==> DuringPulse(es[j], es[k].time, es[k].duration)
    ensures var s := After(c, boot, es, n).s;
            && s.pulse && s.pulseOff == Add32(ToUint32(es[k].time), es[k].duration)
            && (n - 1 > k && es[n - 1].Ticked? ==> s == After(c, boot, es, n - 1).s)
  {
    if n - 1 > k {
      PulseOwnsSwitch(c, boot, es, k, n - 1);
      var st := After(c, boot, es, n - 1);
      if es[n - 1].Ticked? {
        PulseGoesOn(c, st.s, es[k].time, es[k].duration, es[n - 1].time);
      }
    }
  }

  // ---------------------------------------------------------------- automatic mode off

  predicate KeepsOff(e: Event) {
    match e
    case Ticked(_, _, _) => true
    case Commanded(on) => !on
    case Pulsed(_, _) => false
    case AutoSet(on) => !on
  }

  // Once auto is turned off, a switch with an enabled rule is off, and stays off until a manual set, a pulse, or auto
  // on.
  lemma {:induction false} AutoOffStaysOff(c: Config, boot: BootState, es: seq<Event>, k: nat, n: nat)
    requires c.inTable && c.loads && c.ruleLoads && c.ruleEnabled
    requires k < n <= |es| && es[k] == AutoSet(false)
    requires forall j :: k < j < n ==> KeepsOff(es[j])
    ensures var st := After(c, boot, es, n);
            !st.auto && !st.s.energized && !st.s.pin && st.s.published != Some(true)
  {
    AlwaysCoherent(c, boot, es, n);
    if n - 1 > k {
      AutoOffStaysOff(c, boot, es, k, n - 1);
    }
  }

  // ---------------------------------------------------------------- commands take effect

  // Flag, mirror, pin and published value are all at this level.
  predicate IsAt(s: Switch, on: bool) {
    s.energized == on && s.wasEnergized == on && s.pin == on && s.published == Some(on)
  }

  // A command puts a switch that can be loaded at the level asked for, whatever it was at, and touches nothing else of
  // it; it does nothing to one that cannot.
  lemma CommandTakes(c: Config, boot: BootState, es: seq<Event>, k: nat)
    requires k < |es| && es[k].Commanded?
    ensures var st, st' := After(c, boot, es, k), After(c, boot, es, k + 1);
            if c.loads then
              && IsAt(st'.s, es[k].on) && st'.auto == st.auto
              && st'.s.start == st.s.start && st'.s.conditionActive == st.s.conditionActive
              && st'.s.pulse == st.s.pulse && st'.s.pulseOff == st.s.pulseOff
            else st' == st
  {
  }

  // Events that cannot end a running pulse early.
  predicate KeepsOn(e: Event, t: nat, d: uint32) {
    match e
    case Ticked(time, _, _) => t <= time < t + d
    case Commanded(on) => on
    case Pulsed(_, _) => false
    case AutoSet(on) => on
  }

  // A pulse of at most 2^31 ms puts the switch on, and it stays on up to the end of the pulse, through any ticks before
  // it, commands to be on and turning auto on.
  lemma {:induction false} PulseKeepsOn(c: Config, boot: BootState, es: seq<Event>, k: nat, n: nat)
    requires c.loads && k < n <= |es| && es[k].Pulsed? && es[k].duration <= 0x8000_0000
    requires forall j :: k < j < n ==> KeepsOn(es[j], es[k].time, es[k].duration)
    ensures IsAt(After(c, boot, es, n).s, true) && After(c, boot, es, n).s.pulse
  {
    PulseOwnsSwitch(c, boot, es, k, n);
    if n - 1 > k {
      PulseKeepsOn(c, boot, es, k, n - 1);
      assert KeepsOn(es[n - 1], es[k].time, es[k].duration);
    }
  }

  // A pulse sets nothing but the level, the flag and the end, and a switch that cannot be loaded is left alone.
  lemma PulseTakes(c: Config, boot: BootState, es: seq<Event>, k: nat)
    requires k < |es| && es[k].Pulsed?
    ensures var st, st' := After(c, boot, es, k), After(c, boot, es, k + 1);
            if c.loads then
              && IsAt(st'.s, true) && st'.auto == st.auto
              && st'.s.start == st.s.start && st'.s.conditionActive == st.s.conditionActive
              && st'.s.pulse && (st'.s.pulseOff - es[k].time - es[k].duration) % 0x1_0000_0000 == 0
            else st' == st
  {
    var st := After(c, boot, es, k);
    EndModulo(es[k].time, es[k].duration);
    assert After(c, boot, es, k + 1) == Step(c, st, es[k]);
  }

  lemma EndModulo(t: nat, d: uint32)
    ensures (Add32(ToUint32(t), d) - t - d) % 0x1_0000_0000 == 0
  {
    AddModulo(t, d);
    var x := t + d;
    assert x % TWO_32 - x == -(x / TWO_32) * TWO_32;
  }

  // Auto on or off is what was asked for; turning it on changes no switch, and turning it off only those that are on
  // under an enabled rule, which go off with nothing else changed.
  lemma AutoTakes(c: Config, boot: BootState, es: seq<Event>, k: nat)
    requires k < |es| && es[k].AutoSet?
    ensures var st, st' := After(c, boot, es, k), After(c, boot, es, k + 1);
            && st'.auto == es[k].on
            && if es[k].on || !c.inTable || !c.loads || !c.ruleLoads || !c.ruleEnabled || !st.s.energized
               then st'.s == st.s
               else
                 && IsAt(st'.s, false)
                 && st'.s.start == st.s.start && st'.s.conditionActive == st.s.conditionActive
                 && st'.s.pulse == st.s.pulse && st'.s.pulseOff == st.s.pulseOff
  {
  }

  // ---------------------------------------------------------------- an enabled rule trips and resets

  predicate Ruled(c: Config) { c.inTable && c.loads && c.enabled && c.ruleLoads && c.ruleEnabled }

  // A tick is evaluated exactly when auto is on, the switch and its rule are there and enabled, its channel is in the
  // snapshot and no pulse goes on.
  lemma EvaluatedExactly(c: Config, boot: BootState, es: seq<Event>, j: nat)
    requires j < |es| && es[j].Ticked?
    ensures var st := After(c, boot, es, j);
            Evaluated(c, boot, es, j) <==>
            && st.auto && c.inTable && c.loads && c.enabled && c.ruleLoads && c.ruleEnabled && es[j].seen
            && !EndPulse(c, st.s, ToUint32(es[j].time)).pulse
  {
  }

  // Ticks only, all seeing the channel and all with this outcome, in order of time.
  ghost predicate Steady(es: seq<Event>, k: nat, n: nat, met: bool)
    requires k <= n <= |es|
  {
    && (forall j :: k <= j < n ==> es[j].Ticked? && es[j].seen && es[j].met == met)
    && (forall i, j :: k <= i < j < n ==> es[i].time <= es[j].time)
  }

  // Without a pulse, auto on and an enabled rule: the ticks from k on keep the condition's flag and the time of the
  // first.
  lemma {:induction false} SteadyHolds(c: Config, boot: BootState, es: seq<Event>, k: nat, n: nat, met: bool)
    requires Ruled(c) && k < n <= |es| && Steady(es, k, n, met)
    requires After(c, boot, es, k).auto && !After(c, boot, es, k).s.pulse
    requires After(c, boot, es, k).s.conditionActive != met
    ensures var st := After(c, boot, es, n);
            st.auto && !st.s.pulse && st.s.conditionActive == met && st.s.start == ToUint32(es[k].time)
    ensures n == k + 1 ==> After(c, boot, es, n).s.energized == After(c, boot, es, k).s.energized
  {
    if n == k + 1 {
    } else {
      SteadyHolds(c, boot, es, k, n - 1, met);
      assert es[n - 1].Ticked? && es[n - 1].seen && es[n - 1].met == met;
    }
  }

  // At this level, as far as anything has been published.
  predicate IsOn(s: Switch, on: bool) { s.energized == on && s.pin == on && s.published != Some(!on) }

  // With auto on, no pulse and an enabled rule, a condition that begins to hold and keeps holding has the switch on
  // after the first tick that comes trip_delay_ms later (less than 2^31 ms after it began).
  lemma ConditionTrips(c: Config, boot: BootState, es: seq<Event>, k: nat, n: nat)
    requires Ruled(c) && k + 1 < n <= |es| && Steady(es, k, n, true)
    requires After(c, boot, es, k).auto && !After(c, boot, es, k).s.pulse && !After(c, boot, es, k).s.conditionActive
    requires c.tripDelay <= es[n - 1].time - es[k].time < 0x8000_0000
    ensures IsOn(After(c, boot, es, n).s, true)
  {
    SteadyHolds(c, boot, es, k, n - 1, true);
    var st, e := After(c, boot, es, n - 1), es[n - 1];
    assert e.Ticked? && e.seen && e.met;
    RuleDecision(c, st.s, e.time, es[k].time, true);
    AlwaysCoherent(c, boot, es, n);
  }

  // ... and one that begins to fail and keeps failing has it off after the first tick that comes reset_delay_ms later.
  lemma ConditionResets(c: Config, boot: BootState, es: seq<Event>, k: nat, n: nat)
    requires Ruled(c) && k + 1 < n <= |es| && Steady(es, k, n, false)
    requires After(c, boot, es, k).auto && !After(c, boot, es, k).s.pulse && After(c, boot, es, k).s.conditionActive
    requires c.resetDelay <= es[n - 1].time - es[k].time < 0x8000_0000
    ensures IsOn(After(c, boot, es, n).s, false)
  {
    SteadyHolds(c, boot, es, k, n - 1, false);
    var st, e := After(c, boot, es, n - 1), es[n - 1];
    assert e.Ticked? && e.seen && !e.met;
    RuleDecision(c, st.s, e.time, es[k].time, false);
    AlwaysCoherent(c, boot, es, n);
  }

  // ---------------------------------------------------------------- the controller

  // What a tick's snapshot says about one switch.
  datatype Reading = Reading(seen: bool, satisfied: seq<bool>)

  class Controller {
    const configs: seq<Config>
    const states: array<Switch>
    var auto: bool

    ghost predicate Valid() {
      |configs| == MAX_SWITCHES && states.Length == MAX_SWITCHES
    }

    // init_switches: every switch starts off, whatever was persisted; the first four states are published.
    constructor (configs: seq<Config>, auto: bool)
      requires |configs| == MAX_SWITCHES
      ensures Valid() && fresh(states) && this.configs == configs && this.auto == auto
      ensures forall i :: 0 <= i < MAX_SWITCHES ==> states[i] == if i < 4 then OFF.(published := Some(false)) else OFF
    {
      this.configs, this.auto := configs, auto;
      states := new Switch[MAX_SWITCHES](i => if i < 4 then OFF.(published := Some(false)) else OFF);
    }

    method SetSwitch(idx: nat, on: bool)
      requires Valid()
      modifies states
      ensures forall i :: 0 <= i < MAX_SWITCHES ==>
                states[i] == if i == idx then Set(configs[i], old(states[i]), on) else old(states[i])
    {
      if idx >= MAX_SWITCHES || !configs[idx].loads {
        return;
      }
      states[idx] := states[idx].(energized := on, wasEnergized := on, pin := on, published := Some(on));
    }

    method PulseSwitch(idx: nat, duration: uint32, now: uint32)
      requires Valid()
      modifies states
      ensures forall i :: 0 <= i < MAX_SWITCHES ==>
                states[i] == if i == idx then StartPulse(configs[i], old(states[i]), now, duration) else old(states[i])
    {
      if idx >= MAX_SWITCHES || !configs[idx].loads {
        return;
      }
      SetSwitch(idx, true);
      states[idx] := states[idx].(pulse := true, pulseOff := Add32(now, duration));
    }

    method PulseTick(now: uint32)
      requires Valid()
      modifies states
      ensures forall i :: 0 <= i < MAX_SWITCHES ==> states[i] == EndPulse(configs[i], old(states[i]), now)
    {
      for i := 0 to MAX_SWITCHES
        invariant forall j :: 0 <= j < i ==> states[j] == EndPulse(configs[j], old(states[j]), now)
        invariant forall j :: i <= j < MAX_SWITCHES ==> states[j] == old(states[j])
      {
        if states[i].pulse && Elapsed(now, states[i].pulseOff) >= 0 {
          SetSwitch(i, false);
          states[i] := states[i].(pulse := false);
        }
      }
    }

    // The trip and reset branches for one switch.
    method ApplyRule(i: nat, now: uint32, met: bool)
      requires Valid() && i < MAX_SWITCHES
      modifies states
      ensures forall j :: 0 <= j < MAX_SWITCHES ==>
                states[j] == if j == i then Timing(configs[i], old(states[i]), now, met) else old(states[j])
    {
      var s := states[i];
      if met {
        if !s.conditionActive {
          s := s.(conditionActive := true, start := now);
        } else if !s.energized && Elapsed(now, s.start) >= configs[i].tripDelay {
          s := s.(energized := true);
          if !s.wasEnergized {
            s := s.(wasEnergized := true, published := Some(true));
          }
          s := s.(pin := true);
        }
      } else {
        if s.conditionActive {
          s := s.(conditionActive := false, start := now);
        } else if s.energized && Elapsed(now, s.start) >= configs[i].resetDelay {
          s := s.(energized := false);
          if s.wasEnergized {
            s := s.(wasEnergized := false, published := Some(false));
          }
          s := s.(pin := false);
        }
      }
      states[i] := s;
    }

    // evaluate_switches.
    method Evaluate(now: uint32, readings: seq<Reading>)
      requires Valid() && |readings| == MAX_SWITCHES
      requires forall i :: 0 <= i < MAX_SWITCHES ==> |readings[i].satisfied| == |configs[i].active|
      modifies states
      ensures forall i :: 0 <= i < MAX_SWITCHES ==>
                states[i] == Tick(configs[i], old(states[i]), auto, now, readings[i].seen, Met(readings, i))
    {
      PulseTick(now);
      if !auto {
        return;
      }
      ghost var ticked := states[..];
      for i := 0 to MAX_SWITCHES
        invariant forall j :: 0 <= j < i ==>
                    states[j] == Tick(configs[j], old(states[j]), auto, now, readings[j].seen, Met(readings, j))
        invariant forall j :: i <= j < MAX_SWITCHES ==> states[j] == ticked[j]
      {
        var c := configs[i];
        if !c.inTable || states[i].pulse || !c.loads || !c.enabled || !c.ruleLoads || !c.ruleEnabled {
          continue;
        }
        if !readings[i].seen {
          continue;
        }
        var met := Combine(c.all, c.minimum, c.active, readings[i].satisfied);
        ApplyRule(i, now, met);
      }
    }

    ghost predicate Met(readings: seq<Reading>, i: nat)
      requires Valid() && i < MAX_SWITCHES && |readings| == MAX_SWITCHES
      requires |readings[i].satisfied| == |configs[i].active|
    {
      Combined(configs[i].all, configs[i].minimum, configs[i].active, readings[i].satisfied)
    }

    // switch_set_auto.
    method SetAuto(on: bool)
      requires Valid()
      modifies `auto, states
      ensures auto == on
      ensures forall i :: 0 <= i < MAX_SWITCHES ==> states[i] == SwitchAuto(configs[i], old(states[i]), on)
    {
      auto := on;
      if !on {
        for i := 0 to MAX_SWITCHES
          invariant auto == on
          invariant forall j :: 0 <= j < i ==> states[j] == SwitchAuto(configs[j], old(states[j]), on)
          invariant forall j :: i <= j < MAX_SWITCHES ==> states[j] == old(states[j])
        {
          var c := configs[i];
          if c.inTable && c.loads && c.ruleLoads && c.ruleEnabled && states[i].energized {
            states[i] := states[i].(pin := false, energized := false, wasEnergized := false, published := Some(false));
          }
        }
      }
    }
  }
}
