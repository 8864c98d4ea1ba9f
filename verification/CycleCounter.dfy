/** The cycle counter: charge in and out, depth-of-discharge weighted cycles and the running state of health. */
module CycleCounter {
  import opened Options
  import CoulombCounter

  const MAX_CHANNELS: nat := CoulombCounter.MAX_CHANNELS
  const DEADZONE: real := 0.02
  const HYSTERESIS: real := 5.0
  const SOH_ALPHA: real := 0.7

  datatype Battery = Battery(
    ahIn: real, ahOut: real, cycles: real, soc: real, current: real, sessionStart: real,
    soh: real, sohSamples: nat, lastLegAh: real)

  const NEW_BATTERY := Battery(0.0, 0.0, 0.0, 0.0, 0.0, 0.0, 0.0, 0, 0.0)

  datatype Direction = Idle | Charge | Discharge

  // g_state, g_loaded and g_last_dir of one channel; Idle stands for "unknown".
  datatype Channel = Channel(battery: Battery, loaded: bool, lastDir: Direction)

  // What one tick sees of a bound channel.
  datatype Input = Input(current: real, dt: real, capacity: real, netmAh: real, initialSoc: Option<real>)

  // ---------------------------------------------------------------- the tick

  function Classify(current: real): Direction {
    if current > DEADZONE then Charge else if current < -DEADZONE then Discharge else Idle
  }

  function Clamp(x: real): real { if x < 0.0 then 0.0 else if x > 100.0 then 100.0 else x }

  function Magnitude(x: real): real { if x < 0.0 then -x else x }

  function BaseSoc(initial: Option<real>): real {
    if initial.Some? && 0.0 <= initial.value <= 100.0 then initial.value else 100.0
  }

  // compute_soc_pct: -1 when the capacity is unusable.
  function ComputeSoc(x: Input): real {
    if x.capacity <= 0.001 then -1.0
    else Clamp(BaseSoc(x.initialSoc) + x.netmAh / (x.capacity * 1000.0) * 100.0)
  }

  // The charge of one tick in Ah, in either direction.
  function ChargeIn(x: Input): real { x.current * x.dt / 3600.0 }

  function ChargeOut(x: Input): real { -x.current * x.dt / 3600.0 }

  function Integrated(b: Battery, x: Input): Battery {
    match Classify(x.current)
    case Charge => b.(ahIn := b.ahIn + ChargeIn(x))
    case Discharge => b.(ahOut := b.ahOut + ChargeOut(x))
    case Idle => b
  }

  function NewSoc(soc: real, x: Input): real {
    if ComputeSoc(x) >= 0.0 then ComputeSoc(x) else soc
  }

  // The close of a leg of the given span.
  function Closed(b: Battery, span: real, capacity: real): Battery {
    if span <= HYSTERESIS then b
    else
      var c := b.(cycles := b.cycles + span / 100.0);
      if capacity <= 0.001 then c
      else
        var legAh := span / 100.0 * capacity;
        var legSoh := if legAh / capacity * 100.0 > 100.0 then 100.0 else legAh / capacity * 100.0;
        var soh := if b.sohSamples == 0 then legSoh else SOH_ALPHA * b.soh + (1.0 - SOH_ALPHA) * legSoh;
        c.(lastLegAh := legAh, soh := Clamp(soh), sohSamples := b.sohSamples + 1)
  }

  predicate Flips(before: Direction, now: Direction) { before != Idle && now != Idle && before != now }

  // One tick of a loaded channel.
  function Ticked(ch: Channel, x: Input): Channel {
    var dir := Classify(x.current);
    var soc := NewSoc(ch.battery.soc, x);
    var b := Integrated(ch.battery, x).(current := x.current, soc := soc);
    var start := if ch.lastDir == Idle && dir != Idle then soc else b.sessionStart;
    var closed := if Flips(ch.lastDir, dir) then Closed(b, Magnitude(soc - start), x.capacity) else b;
    Channel(closed.(sessionStart := if Flips(ch.lastDir, dir) then soc else start), true,
            if dir == Idle then ch.lastDir else dir)
  }

  // The channel after the first n ticks of a run that starts with a load or a reset.
  function After(b: Battery, xs: seq<Input>, n: nat): (ch: Channel)
    requires n <= |xs|
  {
    if n == 0 then Channel(b, true, Idle) else Ticked(After(b, xs, n - 1), xs[n - 1])
  }

  // ---------------------------------------------------------------- legs, read off the currents and the SoC trace

  function Dir(xs: seq<Input>, k: nat): Direction
    requires k < |xs|
  {
    Classify(xs[k].current)
  }

  // The last direction taken before tick n.
  function LastDir(xs: seq<Input>, n: nat): Direction
    requires n <= |xs|
  {
    if n == 0 then Idle else if Dir(xs, n - 1) != Idle then Dir(xs, n - 1) else LastDir(xs, n - 1)
  }

  // The SoC before the first tick, and after the n-th.
  function Soc(b: Battery, xs: seq<Input>, n: nat): real
    requires n <= |xs|
  {
    if n == 0 then b.soc else NewSoc(Soc(b, xs, n - 1), xs[n - 1])
  }

  // How many ticks had passed when the present leg began: just after the tick that turned the current around, or that
  // gave it its first direction.
  function LegStart(xs: seq<Input>, n: nat): (k: nat)
    requires n <= |xs|
    ensures k <= n
  {
    if n == 0 then 0
    else if Dir(xs, n - 1) != Idle && Dir(xs, n - 1) != LastDir(xs, n - 1) then n
    else LegStart(xs, n - 1)
  }

  // The spans of the legs closed in the first n ticks, as far as they exceed 5 points.
  function Legs(b: Battery, xs: seq<Input>, n: nat): seq<real>
    requires n <= |xs|
  {
    if n == 0 then []
    else
      var span := Magnitude(Soc(b, xs, n) - Soc(b, xs, LegStart(xs, n - 1)));
      var before := Legs(b, xs, n - 1);
      if Flips(LastDir(xs, n - 1), Dir(xs, n - 1)) && span > HYSTERESIS then before + [span] else before
  }

  function Sum(s: seq<real>): real {
    if s == [] then 0.0 else Sum(s[..|s| - 1]) + s[|s| - 1]
  }

  lemma SumPlus(s: seq<real>, x: real)
    ensures Sum(s + [x]) == Sum(s) + x
  {
    assert (s + [x])[..|s|] == s;
  }

  // The total variation of the tick-by-tick SoC.
  function Variation(b: Battery, xs: seq<Input>, n: nat): real
    requires n <= |xs|
  {
    if n == 0 then 0.0 else Variation(b, xs, n - 1) + Magnitude(Soc(b, xs, n) - Soc(b, xs, n - 1))
  }

  ghost predicate Usable(xs: seq<Input>) {
    forall k :: 0 <= k < |xs| ==> xs[k].capacity > 0.001
  }

  lemma ClosedCycles(b: Battery, span: real, capacity: real)
    ensures var c := Closed(b, span, capacity);
            && 100.0 * c.cycles == 100.0 * b.cycles + (if span > HYSTERESIS then span else 0.0)
            && c.soc == b.soc && c.sessionStart == b.sessionStart && c.ahIn == b.ahIn && c.ahOut == b.ahOut
            && (capacity > 0.001 ==> c.sohSamples == b.sohSamples + if span > HYSTERESIS then 1 else 0)
  {
  }

  // The machine's state agrees with the legs.
  lemma {:induction false} TracksLegs(b: Battery, xs: seq<Input>, n: nat)
    requires n <= |xs|
    ensures var ch := After(b, xs, n);
            && ch.lastDir == LastDir(xs, n)
            && ch.battery.soc == Soc(b, xs, n)
            && (LastDir(xs, n) != Idle ==> ch.battery.sessionStart == Soc(b, xs, LegStart(xs, n)))
            && 100.0 * (ch.battery.cycles - b.cycles) == Sum(Legs(b, xs, n))
            && (Usable(xs) ==> ch.battery.sohSamples == b.sohSamples + |Legs(b, xs, n)|)
  {
    if n > 0 {
      TracksLegs(b, xs, n - 1);
      var ch, x := After(b, xs, n - 1), xs[n - 1];
      var soc := Soc(b, xs, n);
      var mid := Integrated(ch.battery, x).(current := x.current, soc := soc);
      if Flips(ch.lastDir, Dir(xs, n - 1)) {
        var span := Magnitude(soc - Soc(b, xs, LegStart(xs, n - 1)));
        ClosedCycles(mid, span, x.capacity);
        SumPlus(Legs(b, xs, n - 1), span);
      }
    }
  }

  // ---------------------------------------------------------------- one tick of a run, written out

  lemma DirectionExactly(xs: seq<Input>, k: nat)
    requires k < |xs|
    ensures Dir(xs, k) == Charge <==> xs[k].current > 0.02
    ensures Dir(xs, k) == Discharge <==> xs[k].current < -0.02
  {
  }

  // The charge of a tick goes to the total of its direction; a current within 20 mA counts on neither side.
  lemma TickCharges(b: Battery, xs: seq<Input>, n: nat)
    requires n < |xs|
    ensures var before, now := After(b, xs, n).battery, After(b, xs, n + 1).battery;
            var hours := xs[n].current * xs[n].dt / 3600.0;
            && now.ahIn == before.ahIn + (if xs[n].current > 0.02 then hours else 0.0)
            && now.ahOut == before.ahOut - (if xs[n].current < -0.02 then hours else 0.0)
  {
  }

  // With a usable capacity the state of charge is the installed charge, 100 when none in range is stored, plus the net
  // charge as a percentage of the capacity, kept within 0 and 100; otherwise it stays as it is.
  lemma SocExactly(b: Battery, xs: seq<Input>, n: nat, installed: real)
    requires n < |xs|
    requires installed ==
             match xs[n].initialSoc
             case Some(stored) => if stored < 0.0 || stored > 100.0 then 100.0 else stored
             case None => 100.0
    ensures var soc := After(b, xs, n + 1).battery.soc;
            if xs[n].capacity <= 0.001 then soc == After(b, xs, n).battery.soc
            else
              var unlimited := installed + xs[n].netmAh / (xs[n].capacity * 1000.0) * 100.0;
              if unlimited < 0.0 then soc == 0.0 else if unlimited > 100.0 then soc == 100.0 else soc == unlimited
  {
  }

  // A leg of more than 5 points adds its share of a full cycle; with a usable capacity the first such leg gives the
  // state of health, and each later one three tenths of it.
  predicate Counts(before: Battery, now: Battery, span: real, capacity: real) {
    if span <= 5.0 then Ignores(before, now, before.cycles)
    else if capacity <= 0.001 then Ignores(before, now, before.cycles + span / 100.0)
    else
      var health := if span > 100.0 then 100.0 else span;
      && now.cycles == before.cycles + span / 100.0
      && now.sohSamples == before.sohSamples + 1
      && now.lastLegAh == span / 100.0 * capacity
      && (before.sohSamples == 0 ==> now.soh == health)
      && (before.sohSamples > 0 && 0.0 <= before.soh <= 100.0 ==> now.soh == 0.7 * before.soh + 0.3 * health)
  }

  predicate Ignores(before: Battery, now: Battery, cycles: real) {
    && now.cycles == cycles
    && now.soh == before.soh && now.sohSamples == before.sohSamples && now.lastLegAh == before.lastLegAh
  }

  lemma ClosedCounts(b: Battery, span: real, capacity: real)
    ensures Counts(b, Closed(b, span, capacity), span, capacity)
  {
    if capacity > 0.001 {
      LegSoh(span, capacity);
    }
  }

  lemma TickCounts(ch: Channel, x: Input)
    ensures var now := Ticked(ch, x).battery;
            if Flips(ch.lastDir, Classify(x.current)) then
              Counts(ch.battery, now, Magnitude(NewSoc(ch.battery.soc, x) - ch.battery.sessionStart), x.capacity)
            else Ignores(ch.battery, now, ch.battery.cycles)
  {
    hide Closed, NewSoc, Magnitude, ChargeIn, ChargeOut, Classify;
    var soc := NewSoc(ch.battery.soc, x);
    var b := Integrated(ch.battery, x).(current := x.current, soc := soc);
    ClosedCounts(b, Magnitude(soc - ch.battery.sessionStart), x.capacity);
  }

  // The close of a leg is a current of more than 20 mA against the last direction taken; no other tick changes the
  // cycle count or the state of health.
  lemma FlipCounts(b: Battery, xs: seq<Input>, n: nat)
    requires n < |xs|
    ensures var before, now := After(b, xs, n).battery, After(b, xs, n + 1).battery;
            if || (LastDir(xs, n) == Charge && xs[n].current < -0.02)
               || (LastDir(xs, n) == Discharge && xs[n].current > 0.02)
            then Counts(before, now, OpenSpan(b, xs, n + 1), xs[n].capacity)
            else Ignores(before, now, before.cycles)
  {
    hide Ticked, Counts, Ignores, NewSoc, Magnitude;
    TracksLegs(b, xs, n);
    TickCounts(After(b, xs, n), xs[n]);
  }

  // ---------------------------------------------------------------- bounds over whole runs

  lemma Triangle(a: real, b: real, c: real)
    ensures Magnitude(a - c) <= Magnitude(a - b) + Magnitude(b - c)
  {
  }

  // The span of the leg that is open before tick n, measured after it.
  function OpenSpan(b: Battery, xs: seq<Input>, n: nat): real
    requires 0 < n <= |xs|
  {
    Magnitude(Soc(b, xs, n) - Soc(b, xs, LegStart(xs, n - 1)))
  }

  // Tick n closes the open leg, and may count it, or leaves it open.
  lemma LegStep(b: Battery, xs: seq<Input>, n: nat)
    requires 0 < n <= |xs|
    ensures var counted := Flips(LastDir(xs, n - 1), Dir(xs, n - 1)) && OpenSpan(b, xs, n) > HYSTERESIS;
            Legs(b, xs, n) == if counted then Legs(b, xs, n - 1) + [OpenSpan(b, xs, n)] else Legs(b, xs, n - 1)
    ensures Flips(LastDir(xs, n - 1), Dir(xs, n - 1)) ==> LegStart(xs, n) == n
    ensures LegStart(xs, n) == n || LegStart(xs, n) == LegStart(xs, n - 1)
    ensures Sum(Legs(b, xs, n - 1)) <= Sum(Legs(b, xs, n))
            <= Sum(Legs(b, xs, n - 1)) + if LegStart(xs, n) == n then OpenSpan(b, xs, n) else 0.0
  {
    SumPlus(Legs(b, xs, n - 1), OpenSpan(b, xs, n));
  }

  lemma {:induction false} LegsWithinVariation(b: Battery, xs: seq<Input>, n: nat)
    requires n <= |xs|
    ensures Sum(Legs(b, xs, n)) + Magnitude(Soc(b, xs, n) - Soc(b, xs, LegStart(xs, n))) <= Variation(b, xs, n)
  {
    if n > 0 {
      hide Soc, Dir, Legs, LastDir, Sum;
      LegsWithinVariation(b, xs, n - 1);
      LegStep(b, xs, n);
      Triangle(Soc(b, xs, n), Soc(b, xs, n - 1), Soc(b, xs, LegStart(xs, n - 1)));
    }
  }

  lemma {:induction false} LegSumPositive(b: Battery, xs: seq<Input>, n: nat)
    requires n <= |xs|
    ensures Sum(Legs(b, xs, n)) >= 0.0
  {
    if n > 0 {
      LegSumPositive(b, xs, n - 1);
      LegStep(b, xs, n);
    }
  }

  // 100 times the cycles gained is the sum of the spans of exactly the closed legs above 5 points, so it is at most the
  // total variation of the SoC trace.
  lemma CyclesAreLegs(b: Battery, xs: seq<Input>, n: nat)
    requires n <= |xs|
    ensures var gained := 100.0 * (After(b, xs, n).battery.cycles - b.cycles);
            gained == Sum(Legs(b, xs, n)) && 0.0 <= gained <= Variation(b, xs, n)
  {
    TracksLegs(b, xs, n);
    LegsWithinVariation(b, xs, n);
    LegSumPositive(b, xs, n);
  }

  // ---------------------------------------------------------------- legs as the header of the source promises them

  predicate FlipAt(xs: seq<Input>, n: nat)
    requires 0 < n <= |xs|
  {
    Flips(LastDir(xs, n - 1), Dir(xs, n - 1))
  }

  // A leg of at most 5 points is not closed by a flip: it goes on into the next one.
  function PromisedStart(b: Battery, xs: seq<Input>, n: nat): (k: nat)
    requires n <= |xs|
    ensures k <= n
    decreases n, 1
  {
    if n == 0 then 0
    else if FlipAt(xs, n) then if PromisedSpan(b, xs, n) > HYSTERESIS then n else PromisedStart(b, xs, n - 1)
    else if Dir(xs, n - 1) != Idle && LastDir(xs, n - 1) == Idle then n
    else PromisedStart(b, xs, n - 1)
  }

  function PromisedSpan(b: Battery, xs: seq<Input>, n: nat): real
    requires 0 < n <= |xs|
    decreases n, 0
  {
    Magnitude(Soc(b, xs, n) - Soc(b, xs, PromisedStart(b, xs, n - 1)))
  }

  function PromisedLegs(b: Battery, xs: seq<Input>, n: nat): seq<real>
    requires n <= |xs|
  {
    if n == 0 then []
    else if FlipAt(xs, n) && PromisedSpan(b, xs, n) > HYSTERESIS then
      PromisedLegs(b, xs, n - 1) + [PromisedSpan(b, xs, n)]
    else PromisedLegs(b, xs, n - 1)
  }

  // Whatever has been counted so far: a flip measures what is promised exactly when both legs start from the same
  // charge, or the flip comes half-way between the two.
  lemma MeasuresExactly(b: Battery, xs: seq<Input>, m: nat)
    requires 0 < m <= |xs|
    ensures var s, p := Soc(b, xs, LegStart(xs, m - 1)), Soc(b, xs, PromisedStart(b, xs, m - 1));
            OpenSpan(b, xs, m) == PromisedSpan(b, xs, m) <==> s == p || 2.0 * Soc(b, xs, m) == s + p
  {
  }

  predicate QuietBetween(xs: seq<Input>, k: nat, m: nat)
    requires 0 < k <= m <= |xs|
  {
    forall j :: k < j < m ==> !FlipAt(xs, j)
  }

  lemma {:induction false} DirectionKept(xs: seq<Input>, k: nat, j: nat)
    requires 0 < k <= j <= |xs| && LastDir(xs, k) != Idle
    ensures LastDir(xs, j) != Idle
  {
    if j > k {
      DirectionKept(xs, k, j - 1);
    }
  }

  lemma {:induction false} StartsKept(b: Battery, xs: seq<Input>, k: nat, m: nat, j: nat)
    requires 0 < k <= j < m <= |xs| && QuietBetween(xs, k, m) && LastDir(xs, k) != Idle
    ensures LegStart(xs, j) == LegStart(xs, k) && PromisedStart(b, xs, j) == PromisedStart(b, xs, k)
  {
    if j > k {
      StartsKept(b, xs, k, m, j - 1);
      DirectionKept(xs, k, j - 1);
      assert !FlipAt(xs, j);
    }
  }

  // After a flip of at most 5 points, at tick k of a leg that both accounts start at the charge s, the next flip
  // measures what is promised if and only if the first one came at s again, or the second comes half-way between.
  lemma AbsorbedExactly(b: Battery, xs: seq<Input>, k: nat, m: nat, s: real)
    requires 0 < k < m <= |xs| && FlipAt(xs, k) && FlipAt(xs, m) && QuietBetween(xs, k, m)
    requires s == Soc(b, xs, LegStart(xs, k - 1)) == Soc(b, xs, PromisedStart(b, xs, k - 1))
    requires OpenSpan(b, xs, k) <= HYSTERESIS
    ensures OpenSpan(b, xs, m) == PromisedSpan(b, xs, m) <==>
            Soc(b, xs, k) == s || 2.0 * Soc(b, xs, m) == s + Soc(b, xs, k)
  {
    StartsKept(b, xs, k, m, m - 1);
    MeasuresExactly(b, xs, m);
    assert LegStart(xs, k) == k && PromisedStart(b, xs, k) == PromisedStart(b, xs, k - 1);
  }

  // Every flip so far closed a leg of more than 5 points, or came at the charge at which its leg began.
  ghost predicate NothingAbsorbed(b: Battery, xs: seq<Input>, n: nat)
    requires n <= |xs|
  {
    forall k :: 0 < k <= n && FlipAt(xs, k) ==> OpenSpan(b, xs, k) > HYSTERESIS || OpenSpan(b, xs, k) == 0.0
  }

  lemma {:induction false} SameLegs(b: Battery, xs: seq<Input>, n: nat)
    requires n <= |xs| && NothingAbsorbed(b, xs, n)
    ensures Legs(b, xs, n) == PromisedLegs(b, xs, n)
    ensures Soc(b, xs, LegStart(xs, n)) == Soc(b, xs, PromisedStart(b, xs, n))
  {
    hide Soc, Dir;
    if n > 0 {
      SameLegs(b, xs, n - 1);
      assert OpenSpan(b, xs, n) == PromisedSpan(b, xs, n);
      assert FlipAt(xs, n) ==> OpenSpan(b, xs, n) > HYSTERESIS || OpenSpan(b, xs, n) == 0.0;
    }
  }

  // Runs that absorb nothing are counted as promised.
  lemma CountedAsPromised(b: Battery, xs: seq<Input>, n: nat)
    requires n <= |xs| && NothingAbsorbed(b, xs, n)
    ensures 100.0 * (After(b, xs, n).battery.cycles - b.cycles) == Sum(PromisedLegs(b, xs, n))
  {
    hide After, Legs, PromisedLegs, NothingAbsorbed;
    SameLegs(b, xs, n);
    CyclesAreLegs(b, xs, n);
  }

  // A 100 Ah battery at 90%, down to 85%, and after a moment of charging down to 40%.
  function Reading(current: real, netmAh: real): Input { Input(current, 1.0, 100.0, netmAh, Some(90.0)) }

  const DIP := [
    Reading(-1.0, 0.0), Reading(1.0, -5000.0), Reading(-1.0, -5000.0), Reading(-1.0, -50000.0), Reading(1.0, -50000.0)]

  lemma DipSoc()
    ensures Soc(NEW_BATTERY, DIP, 1) == 90.0
    ensures Soc(NEW_BATTERY, DIP, 2) == Soc(NEW_BATTERY, DIP, 3) == 85.0
    ensures Soc(NEW_BATTERY, DIP, 4) == Soc(NEW_BATTERY, DIP, 5) == 40.0
  {
    assert ComputeSoc(DIP[0]) == 90.0 && ComputeSoc(DIP[1]) == 85.0 && ComputeSoc(DIP[2]) == 85.0;
    assert ComputeSoc(DIP[3]) == 40.0 && ComputeSoc(DIP[4]) == 40.0;
  }

  lemma DipDirections()
    ensures LastDir(DIP, 0) == Idle && LastDir(DIP, 1) == Discharge && LastDir(DIP, 2) == Charge
    ensures LastDir(DIP, 3) == Discharge && LastDir(DIP, 4) == Discharge
    ensures Dir(DIP, 0) == Discharge && Dir(DIP, 1) == Charge && Dir(DIP, 2) == Discharge
    ensures Dir(DIP, 3) == Discharge && Dir(DIP, 4) == Charge
  {
  }

  lemma DipStarts()
    ensures LegStart(DIP, 1) == 1 && LegStart(DIP, 2) == 2 && LegStart(DIP, 3) == LegStart(DIP, 4) == 3
    ensures PromisedStart(NEW_BATTERY, DIP, 1) == PromisedStart(NEW_BATTERY, DIP, 2) == 1
    ensures PromisedStart(NEW_BATTERY, DIP, 3) == PromisedStart(NEW_BATTERY, DIP, 4) == 1
  {
    DipDirections();
    DipSoc();
    assert PromisedStart(NEW_BATTERY, DIP, 1) == 1;
    assert PromisedSpan(NEW_BATTERY, DIP, 2) == 5.0;
    assert PromisedStart(NEW_BATTERY, DIP, 2) == 1;
    assert PromisedSpan(NEW_BATTERY, DIP, 3) == 5.0;
    assert PromisedStart(NEW_BATTERY, DIP, 3) == 1;
  }

  lemma DipLegs()
    ensures Legs(NEW_BATTERY, DIP, 5) == [45.0]
  {
    DipDirections();
    DipSoc();
    DipStarts();
    hide Soc, LastDir, Dir, LegStart, PromisedStart;
    assert Legs(NEW_BATTERY, DIP, 1) == [];
    assert Legs(NEW_BATTERY, DIP, 2) == [];
    assert Legs(NEW_BATTERY, DIP, 3) == [];
    assert Legs(NEW_BATTERY, DIP, 4) == [];
  }

  lemma DipPromised()
    ensures PromisedLegs(NEW_BATTERY, DIP, 5) == [50.0]
  {
    DipDirections();
    DipSoc();
    DipStarts();
    hide Soc, LastDir, Dir, LegStart, PromisedStart;
    assert PromisedLegs(NEW_BATTERY, DIP, 1) == [];
    assert PromisedLegs(NEW_BATTERY, DIP, 2) == [];
    assert PromisedLegs(NEW_BATTERY, DIP, 3) == [];
    assert PromisedLegs(NEW_BATTERY, DIP, 4) == [];
  }

  // The header's own example, 90% to 85% to 40%: half a cycle is promised, and 0.45 are counted.
  lemma DipCounted()
    ensures Sum(PromisedLegs(NEW_BATTERY, DIP, 5)) == 50.0
    ensures After(NEW_BATTERY, DIP, 5).battery.cycles == 0.45
  {
    hide After, Legs, PromisedLegs;
    CyclesAreLegs(NEW_BATTERY, DIP, 5);
    DipLegs();
    DipPromised();
    assert Sum([45.0]) == 45.0 && Sum([50.0]) == 50.0;
  }

  // ---------------------------------------------------------------- more bounds over whole runs

  ghost predicate TimeRuns(xs: seq<Input>) { forall k :: 0 <= k < |xs| ==> xs[k].dt >= 0.0 }

  lemma ProductSign(x: real, y: real)
    requires x >= 0.0 && y >= 0.0
    ensures x * y >= 0.0
  {
  }

  lemma TickNeverDecreases(ch: Channel, x: Input)
    requires x.dt >= 0.0
    ensures var b := Ticked(ch, x).battery;
            ch.battery.cycles <= b.cycles && ch.battery.ahIn <= b.ahIn && ch.battery.ahOut <= b.ahOut
  {
    if x.current >= 0.0 {
      ProductSign(x.current, x.dt);
    } else {
      ProductSign(-x.current, x.dt);
    }
  }

  // The cycle count and both charge totals never decrease.
  lemma {:induction false} NeverDecreases(b: Battery, xs: seq<Input>, m: nat, n: nat)
    requires m <= n <= |xs| && TimeRuns(xs)
    ensures var before, now := After(b, xs, m).battery, After(b, xs, n).battery;
            before.cycles <= now.cycles && before.ahIn <= now.ahIn && before.ahOut <= now.ahOut
  {
    if m < n {
      NeverDecreases(b, xs, m, n - 1);
      TickNeverDecreases(After(b, xs, n - 1), xs[n - 1]);
    }
  }

  lemma {:induction false} SocRange(b: Battery, xs: seq<Input>, n: nat)
    requires n <= |xs| && 0.0 <= b.soc <= 100.0
    ensures 0.0 <= Soc(b, xs, n) <= 100.0
  {
    if n > 0 {
      SocRange(b, xs, n - 1);
    }
  }

  lemma LegSoh(span: real, capacity: real)
    requires capacity > 0.001
    ensures span / 100.0 * capacity / capacity * 100.0 == span
  {
    var y := span / 100.0;
    assert y * capacity / capacity == y;
  }

  lemma ClosedSoh(b: Battery, span: real, capacity: real, lo: real, hi: real)
    requires capacity > 0.001 && 0.0 <= lo <= hi <= 100.0
    requires span > HYSTERESIS ==> lo <= span <= hi
    requires b.sohSamples > 0 ==> lo <= b.soh <= hi
    ensures var c := Closed(b, span, capacity);
            c.sohSamples > 0 ==> lo <= c.soh <= hi
  {
    LegSoh(span, capacity);
  }

  lemma TickSoh(b: Battery, xs: seq<Input>, n: nat, lo: real, hi: real)
    requires 0 < n <= |xs| && xs[n - 1].capacity > 0.001 && 0.0 <= lo <= hi <= 100.0
    requires Flips(LastDir(xs, n - 1), Dir(xs, n - 1)) && OpenSpan(b, xs, n) > HYSTERESIS ==>
               lo <= OpenSpan(b, xs, n) <= hi
    requires After(b, xs, n - 1).battery.sohSamples > 0 ==> lo <= After(b, xs, n - 1).battery.soh <= hi
    ensures After(b, xs, n).battery.sohSamples > 0 ==> lo <= After(b, xs, n).battery.soh <= hi
  {
    TracksLegs(b, xs, n - 1);
    var ch, x := After(b, xs, n - 1), xs[n - 1];
    if Flips(ch.lastDir, Dir(xs, n - 1)) {
      var mid := Integrated(ch.battery, x).(current := x.current, soc := Soc(b, xs, n));
      ClosedSoh(mid, OpenSpan(b, xs, n), x.capacity, lo, hi);
    }
  }

  // The state of health stays within the range of the closed legs' spans (and of the value it started from).
  lemma {:induction false} SohWithinLegs(b: Battery, xs: seq<Input>, n: nat, lo: real, hi: real)
    requires n <= |xs| && Usable(xs) && 0.0 <= lo <= hi <= 100.0
    requires forall k :: 0 <= k < |Legs(b, xs, n)| ==> lo <= Legs(b, xs, n)[k] <= hi
    requires b.sohSamples > 0 ==> lo <= b.soh <= hi
    ensures var a := After(b, xs, n).battery;
            a.sohSamples > 0 ==> lo <= a.soh <= hi
  {
    if n > 0 {
      LegStep(b, xs, n);
      var legs, before := Legs(b, xs, n), Legs(b, xs, n - 1);
      assert forall k :: 0 <= k < |before| ==> legs[k] == before[k];
      SohWithinLegs(b, xs, n - 1, lo, hi);
      assert |legs| > |before| ==> legs[|before|] == OpenSpan(b, xs, n);
      TickSoh(b, xs, n, lo, hi);
    }
  }

  // In particular it is a percentage.
  lemma SohIsPercentage(b: Battery, xs: seq<Input>, n: nat)
    requires n <= |xs| && Usable(xs) && 0.0 <= b.soc <= 100.0
    requires b.sohSamples > 0 ==> 0.0 <= b.soh <= 100.0
    ensures var a := After(b, xs, n).battery;
            a.sohSamples > 0 ==> 0.0 <= a.soh <= 100.0
  {
    LegSpans(b, xs, n);
    SohWithinLegs(b, xs, n, 0.0, 100.0);
  }

  lemma {:induction false} LegSpans(b: Battery, xs: seq<Input>, n: nat)
    requires n <= |xs| && 0.0 <= b.soc <= 100.0
    ensures forall k :: 0 <= k < |Legs(b, xs, n)| ==> 5.0 < Legs(b, xs, n)[k] <= 100.0
  {
    if n > 0 {
      LegSpans(b, xs, n - 1);
      SocRange(b, xs, n);
      SocRange(b, xs, LegStart(xs, n - 1));
    }
  }

  // ---------------------------------------------------------------- against the coulomb counter

  // The coulomb counter's value when it sees the same currents.
  function Coulombs(start: real, xs: seq<Input>, n: nat): real
    requires n <= |xs|
  {
    if n == 0 then start else Coulombs(start, xs, n - 1) + CoulombCounter.Charge(xs[n - 1].current, xs[n - 1].dt)
  }

  function Seconds(xs: seq<Input>, n: nat): real
    requires n <= |xs|
  {
    if n == 0 then 0.0 else Seconds(xs, n - 1) + xs[n - 1].dt
  }

  // Ah in minus Ah out, against mAh: apart by what the dead zone swallows.
  function Gap(b: Battery, start: real, xs: seq<Input>, n: nat): real
    requires n <= |xs|
  {
    var a := After(b, xs, n).battery;
    (a.ahIn - a.ahOut) - (b.ahIn - b.ahOut) - (Coulombs(start, xs, n) - start) / 1000.0
  }

  lemma DeadZoneCharge(current: real, dt: real)
    requires dt >= 0.0 && -DEADZONE <= current <= DEADZONE
    ensures Magnitude(current * dt) <= DEADZONE * dt
  {
    ProductSign(DEADZONE - current, dt);
    ProductSign(DEADZONE + current, dt);
  }

  function AmpSeconds(x: Input): real { x.current * x.dt }

  lemma IdleCharge(x: Input)
    requires x.dt >= 0.0 && Classify(x.current) == Idle
    ensures Magnitude(AmpSeconds(x)) <= DEADZONE * x.dt
  {
    DeadZoneCharge(x.current, x.dt);
  }

  // What a tick adds to the gap.
  lemma TickGap(b: Battery, start: real, xs: seq<Input>, n: nat)
    requires n < |xs|
    ensures Gap(b, start, xs, n + 1) - Gap(b, start, xs, n)
         == if Dir(xs, n) == Idle then -(AmpSeconds(xs[n]) / 3600.0) else 0.0
  {
    var x, a, a' := xs[n], After(b, xs, n).battery, After(b, xs, n + 1).battery;
    ChargeOfTick(After(b, xs, n), x);
    assert (a'.ahIn - a'.ahOut) - (a.ahIn - a.ahOut) ==
           if Dir(xs, n) == Idle then 0.0 else x.current * x.dt / 3600.0;
    assert CoulombCounter.Charge(x.current, x.dt) / 1000.0 == x.current * x.dt / 3600.0;
  }

  lemma ChargeOfTick(ch: Channel, x: Input)
    ensures (Ticked(ch, x).battery.ahIn - Ticked(ch, x).battery.ahOut) - (ch.battery.ahIn - ch.battery.ahOut)
         == if Classify(x.current) == Idle then 0.0 else x.current * x.dt / 3600.0
  {
    assert -x.current * x.dt == -(x.current * x.dt);
  }

  lemma ExtendBound(g: real, g': real, idle: bool, q: real, seconds: real, dt: real)
    requires g' - g == (if idle then -(q / 3600.0) else 0.0) && dt >= 0.0
    requires Magnitude(g) <= DEADZONE * seconds / 3600.0
    requires idle ==> Magnitude(q) <= DEADZONE * dt
    ensures Magnitude(g') <= DEADZONE * (seconds + dt) / 3600.0
  {
  }

  // Two accounts of one current: over any run they differ by at most the dead zone times the elapsed hours.
  lemma {:induction false} AccountsAgree(b: Battery, start: real, xs: seq<Input>, n: nat)
    requires n <= |xs| && TimeRuns(xs)
    ensures Magnitude(Gap(b, start, xs, n)) <= DEADZONE * Seconds(xs, n) / 3600.0
  {
    if n > 0 {
      hide Gap, Magnitude, AmpSeconds, Classify;
      var x := xs[n - 1];
      var idle := Dir(xs, n - 1) == Idle;
      AccountsAgree(b, start, xs, n - 1);
      TickGap(b, start, xs, n - 1);
      if idle {
        IdleCharge(x);
      }
      ExtendBound(Gap(b, start, xs, n - 1), Gap(b, start, xs, n), idle, AmpSeconds(x), Seconds(xs, n - 1), x.dt);
    }
  }

  // ---------------------------------------------------------------- the counter

  // What a channel starts from when it is not loaded yet.
  function Loaded(ch: Channel, stored: Option<Battery>): Channel {
    if ch.loaded then ch
    else Channel(if stored.Some? then stored.value else NEW_BATTERY, true, Idle)
  }

  class Counter {
    const channels: array<Channel>

    ghost predicate Valid() { channels.Length == MAX_CHANNELS }

    // init_cycle_counter.
    constructor ()
      ensures Valid() && fresh(channels)
      ensures forall ch :: 0 <= ch < MAX_CHANNELS ==> channels[ch] == Channel(NEW_BATTERY, false, Idle)
    {
      channels := new Channel[MAX_CHANNELS](_ => Channel(NEW_BATTERY, false, Idle));
    }

    // update_cycle_counter for one bound channel; the result says whether its state is persisted at once.
    method UpdateChannel(ch: nat, x: Input, stored: Option<Battery>) returns (crossed: bool)
      requires Valid() && ch < MAX_CHANNELS
      modifies channels
      ensures forall j :: 0 <= j < MAX_CHANNELS && j != ch ==> channels[j] == old(channels[j])
      ensures channels[ch] == Ticked(Loaded(old(channels[ch]), stored), x)
      ensures crossed <==> channels[ch].battery.cycles > Loaded(old(channels[ch]), stored).battery.cycles
    {
      Load(ch, stored);
      crossed := TickChannel(ch, x);
    }

    method Load(ch: nat, stored: Option<Battery>)
      requires Valid() && ch < MAX_CHANNELS
      modifies channels
      ensures forall j :: 0 <= j < MAX_CHANNELS ==>
                channels[j] == if j == ch then Loaded(old(channels[ch]), stored) else old(channels[j])
    {
      if !channels[ch].loaded {
        channels[ch] := Channel(if stored.Some? then stored.value else NEW_BATTERY, true, Idle);
      }
    }

    method TickChannel(ch: nat, x: Input) returns (crossed: bool)
      requires Valid() && ch < MAX_CHANNELS
      modifies channels
      ensures forall j :: 0 <= j < MAX_CHANNELS && j != ch ==> channels[j] == old(channels[j])
      ensures channels[ch] == Ticked(old(channels[ch]), x)
      ensures crossed <==> channels[ch].battery.cycles > old(channels[ch]).battery.cycles
    {
      hide ComputeSoc, ChargeIn, ChargeOut;
      crossed := false;
      var st, lastDir := channels[ch].battery.(current := x.current), channels[ch].lastDir;
      var dir := Classify(x.current);
      if dir == Charge {
        st := st.(ahIn := st.ahIn + ChargeIn(x));
      } else if dir == Discharge {
        st := st.(ahOut := st.ahOut + ChargeOut(x));
      }
      var soc := ComputeSoc(x);
      if soc >= 0.0 {
        st := st.(soc := soc);
      }
      if lastDir == Idle && dir != Idle {
        st := st.(sessionStart := st.soc);
      }
      if lastDir != Idle && dir != Idle && lastDir != dir {
        var delta := Magnitude(st.soc - st.sessionStart);
        crossed := delta > HYSTERESIS;
        st := Closed(st, delta, x.capacity).(sessionStart := st.soc);
      }
      channels[ch] := Channel(st, true, if dir != Idle then dir else lastDir);
    }

    // update_cycle_counter: unbound channels are skipped.
    method Update(inputs: seq<Option<Input>>, stored: seq<Option<Battery>>)
      requires Valid() && |inputs| == |stored| == MAX_CHANNELS
      modifies channels
      ensures forall ch :: 0 <= ch < MAX_CHANNELS ==>
                channels[ch] == if inputs[ch].None? then old(channels[ch])
                                else Ticked(Loaded(old(channels[ch]), stored[ch]), inputs[ch].value)
    {
      for ch := 0 to MAX_CHANNELS
        invariant forall j :: 0 <= j < ch ==>
                    channels[j] == if inputs[j].None? then old(channels[j])
                                   else Ticked(Loaded(old(channels[j]), stored[j]), inputs[j].value)
        invariant forall j :: ch <= j < MAX_CHANNELS ==> channels[j] == old(channels[j])
      {
        if inputs[ch].Some? {
          var _ := UpdateChannel(ch, inputs[ch].value, stored[ch]);
        }
      }
    }

    // cycle_counter_reset.
    method Reset(ch: nat)
      requires Valid()
      modifies channels
      ensures forall j :: 0 <= j < MAX_CHANNELS ==>
                channels[j] == if j == ch then After(NEW_BATTERY, [], 0) else old(channels[j])
    {
      if ch < MAX_CHANNELS {
        channels[ch] := Channel(NEW_BATTERY, true, Idle);
      }
    }
  }
}
