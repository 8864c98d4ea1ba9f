/** The alert engine: consecutive-match counters and firing events, per rule and device. */
module AlertEngine {
  import opened Seqs

  datatype Rule = Rule(
    id: string, deviceType: string, deviceKey: string, field: string, operator: string, value: real, duration: int)

  datatype Telemetry = Telemetry(
    deviceType: string, pvPower: real, batteryPower: real, inverterPower: real, dcLoadPower: real,
    minSoc: real, maxSoc: real, fields: map<string, real>)

  datatype Message = Message(device: string, telemetry: Telemetry)

  datatype Status = Firing | Resolved

  datatype Event = Event(ruleId: string, device: string, status: Status)

  // ---------------------------------------------------------------- one rule, one message

  function FieldValue(t: Telemetry, field: string): real {
    if field == "pv_power" then t.pvPower
    else if field == "battery_power" then t.batteryPower
    else if field == "inverter_power" then t.inverterPower
    else if field == "dc_load_power" then t.dcLoadPower
    else if field == "min_soc_pct" then t.minSoc
    else if field == "max_soc_pct" then t.maxSoc
    else if field in t.fields then t.fields[field]
    else 0.0
  }

  predicate Condition(value: real, operator: string, threshold: real) {
    if operator == "gt" then value > threshold
    else if operator == "lt" then value < threshold
    else if operator == "gte" then value >= threshold
    else if operator == "lte" then value <= threshold
    else if operator == "eq" then value == threshold
    else if operator == "neq" then value != threshold
    else false
  }

  predicate Matches(r: Rule, m: Message) { Condition(FieldValue(m.telemetry, r.field), r.operator, r.value) }

  predicate MatchesDevice(r: Rule, m: Message) {
    && (r.deviceKey == "" || r.deviceKey == m.device)
    && (r.deviceType == "" || r.deviceType == m.telemetry.deviceType)
  }

  function RequiredSamples(duration: int): (n: nat) {
    if duration <= 0 then 1 else (duration + 4) / 5
  }

  // One sample for every started five seconds, and at least one.
  lemma RequiredExactly(duration: int)
    ensures var n := RequiredSamples(duration);
            n >= 1 && 5 * n >= duration && (n > 1 ==> 5 * (n - 1) < duration)
  {
  }

  // ---------------------------------------------------------------- what the sample history calls for

  // The length of the current run of matches.
  function Streak(h: seq<bool>): (n: nat)
    ensures n <= |h|
  {
    if h == [] || !h[|h| - 1] then 0 else Streak(h[..|h| - 1]) + 1
  }

  lemma {:induction false} StreakMeaning(h: seq<bool>, n: nat)
    ensures Streak(h) >= n <==> n <= |h| && forall k :: |h| - n <= k < |h| ==> h[k]
  {
    if n > 0 && h != [] && h[|h| - 1] {
      var before := h[..|h| - 1];
      StreakMeaning(before, n - 1);
      assert forall k :: 0 <= k < |before| ==> before[k] == h[k];
    }
  }

  // How many runs of matches have reached the required length.
  function RunsReached(h: seq<bool>, required: nat): nat {
    if h == [] then 0
    else RunsReached(h[..|h| - 1], required) + if Streak(h) == required then 1 else 0
  }

  // One event for each run that reached the length, resolved but for the present one.
  function Expected(h: seq<bool>, required: nat): seq<Status> {
    var n := RunsReached(h, required);
    seq(n, j requires 0 <= j < n => if j == n - 1 && Streak(h) >= required then Firing else Resolved)
  }

  // The events of one rule and device, oldest first.
  function Rows(events: seq<Event>, id: string, device: string): seq<Status> {
    if events == [] then []
    else
      var e := events[|events| - 1];
      var before := Rows(events[..|events| - 1], id, device);
      if e.ruleId == id && e.device == device then before + [e.status] else before
  }

  // The match results of one rule and device over all messages.
  function History(r: Rule, device: string, ms: seq<Message>): seq<bool> {
    if ms == [] then []
    else
      var m := ms[|ms| - 1];
      var before := History(r, device, ms[..|ms| - 1]);
      if m.device == device && MatchesDevice(r, m) then before + [Matches(r, m)] else before
  }

  lemma HistoryPlus(r: Rule, device: string, ms: seq<Message>, m: Message)
    ensures History(r, device, ms + [m])
         == if m.device == device && MatchesDevice(r, m) then History(r, device, ms) + [Matches(r, m)]
            else History(r, device, ms)
  {
    assert (ms + [m])[..|ms|] == ms;
  }

  // Three-way comparison decides the six operators; anything else never matches.
  lemma ConditionExactly(v: real, operator: string, threshold: real)
    ensures Condition(v, operator, threshold) <==>
            || (v < threshold && (operator == "lt" || operator == "lte" || operator == "neq"))
            || (v == threshold && (operator == "eq" || operator == "lte" || operator == "gte"))
            || (v > threshold && (operator == "gt" || operator == "gte" || operator == "neq"))
  {
  }

  // The six aggregates have fixed names; any other name is looked up among the device's own fields.
  predicate Reports(t: Telemetry, field: string, v: real) {
    match t case Telemetry(_, pv, battery, inverter, load, low, high, own) =>
      || (field == "pv_power" && v == pv)
      || (field == "battery_power" && v == battery)
      || (field == "inverter_power" && v == inverter)
      || (field == "dc_load_power" && v == load)
      || (field == "min_soc_pct" && v == low)
      || (field == "max_soc_pct" && v == high)
      || (field !in NAMED && v == if field in own then own[field] else 0.0)
  }

  const NAMED := ["pv_power", "battery_power", "inverter_power", "dc_load_power", "min_soc_pct", "max_soc_pct"]

  lemma ReadsReported(t: Telemetry, field: string, v: real)
    ensures Reports(t, field, v) <==> v == FieldValue(t, field)
  {
    assert NAMED[0] == "pv_power" && NAMED[1] == "battery_power" && NAMED[2] == "inverter_power";
    assert NAMED[3] == "dc_load_power" && NAMED[4] == "min_soc_pct" && NAMED[5] == "max_soc_pct";
  }

  // A message becomes a sample of exactly the device it names, if the rule is for that device, or any, and for its
  // type, or any; the sample is the comparison of what it reports with the rule's value.
  lemma SampleTaken(r: Rule, device: string, ms: seq<Message>, m: Message, v: real)
    requires Reports(m.telemetry, r.field, v)
    ensures var before, now := History(r, device, ms), History(r, device, ms + [m]);
            var concerned :=
              && m.device == device
              && (r.deviceKey == "" || r.deviceKey == device)
              && (r.deviceType == "" || r.deviceType == m.telemetry.deviceType);
            if !concerned then now == before
            else
              && |now| == |before| + 1 && now[..|before|] == before
              && (r.operator == "gt" ==> (now[|before|] <==> v > r.value))
              && (r.operator == "lt" ==> (now[|before|] <==> v < r.value))
              && (r.operator == "gte" ==> (now[|before|] <==> v >= r.value))
              && (r.operator == "lte" ==> (now[|before|] <==> v <= r.value))
              && (r.operator == "eq" ==> (now[|before|] <==> v == r.value))
              && (r.operator == "neq" ==> (now[|before|] <==> v != r.value))
              && (r.operator !in ["gt", "lt", "gte", "lte", "eq", "neq"] ==> !now[|before|])
  {
    hide FieldValue, Reports;
    HistoryPlus(r, device, ms, m);
    ReadsReported(m.telemetry, r.field, v);
    var names := ["gt", "lt", "gte", "lte", "eq", "neq"];
    assert names[0] == "gt" && names[1] == "lt" && names[2] == "gte";
    assert names[3] == "lte" && names[4] == "eq" && names[5] == "neq";
  }

  // ---------------------------------------------------------------- the two statements on the event table

  predicate HasFiring(events: seq<Event>, id: string, device: string) {
    Event(id, device, Firing) in events
  }

  // The conditional insert of fire: nothing happens on a conflict with the index of firing events.
  function Insert(events: seq<Event>, id: string, device: string): seq<Event> {
    if HasFiring(events, id, device) then events else events + [Event(id, device, Firing)]
  }

  // The update of resolve: the firing events of the pair are marked resolved.
  function Update(events: seq<Event>, id: string, device: string): (es: seq<Event>)
    ensures |es| == |events|
  {
    seq(|events|, k requires 0 <= k < |events| => Closed(events[k], id, device))
  }

  function Closed(e: Event, id: string, device: string): Event {
    if e.ruleId == id && e.device == device && e.status == Firing then e.(status := Resolved) else e
  }

  function AllResolved(rows: seq<Status>): (rs: seq<Status>)
    ensures |rs| == |rows|
  {
    seq(|rows|, _ => Resolved)
  }

  lemma {:induction false} FiringInRows(events: seq<Event>, id: string, device: string)
    ensures HasFiring(events, id, device) <==> Firing in Rows(events, id, device)
  {
    if events != [] {
      var n := |events| - 1;
      FiringInRows(events[..n], id, device);
      assert events == events[..n] + [events[n]];
    }
  }

  lemma InsertRows(events: seq<Event>, id: string, device: string, id': string, device': string)
    ensures Rows(Insert(events, id, device), id', device')
         == if id == id' && device == device' && Firing !in Rows(events, id, device)
            then Rows(events, id, device) + [Firing] else Rows(events, id', device')
  {
    FiringInRows(events, id, device);
    assert (events + [Event(id, device, Firing)])[..|events|] == events;
  }

  lemma {:induction false} UpdateRows(events: seq<Event>, id: string, device: string, id': string, device': string)
    ensures Rows(Update(events, id, device), id', device')
         == if id == id' && device == device' then AllResolved(Rows(events, id, device)) else Rows(events, id', device')
  {
    if events != [] {
      var n := |events| - 1;
      UpdateRows(events[..n], id, device, id', device');
      var es := Update(events, id, device);
      assert es[..n] == Update(events[..n], id, device);
      assert es[n] == Closed(events[n], id, device);
      var before := Rows(events[..n], id, device);
      assert AllResolved(before + [events[n].status]) == AllResolved(before) + [Resolved];
    }
  }

  // ---------------------------------------------------------------- the table follows the history

  lemma StreakPlus(h: seq<bool>, m: bool)
    ensures Streak(h + [m]) == if m then Streak(h) + 1 else 0
  {
    assert (h + [m])[..|h|] == h;
  }

  lemma RunsPlus(h: seq<bool>, m: bool, required: nat)
    ensures RunsReached(h + [m], required)
         == RunsReached(h, required) + if Streak(h + [m]) == required then 1 else 0
  {
    assert (h + [m])[..|h|] == h;
  }

  lemma {:induction false} FiringNeedsRun(h: seq<bool>, required: nat)
    requires required >= 1
    ensures Streak(h) >= required ==> RunsReached(h, required) > 0
  {
    if h != [] {
      FiringNeedsRun(h[..|h| - 1], required);
    }
  }

  lemma FiringExpected(h: seq<bool>, required: nat)
    requires required >= 1
    ensures Firing in Expected(h, required) <==> Streak(h) >= required
  {
    FiringNeedsRun(h, required);
    var rows := Expected(h, required);
    if Streak(h) >= required {
      assert rows[|rows| - 1] == Firing;
    }
  }

  // A match that completes or continues a run: insert. A non-match: update. Nothing else.
  lemma ExpectedStep(h: seq<bool>, m: bool, required: nat)
    requires required >= 1
    ensures var rows := Expected(h, required);
            Expected(h + [m], required) ==
            if !m then AllResolved(rows)
            else if Streak(h) + 1 >= required && Firing !in rows then rows + [Firing]
            else rows
  {
    StreakPlus(h, m);
    RunsPlus(h, m, required);
    FiringExpected(h, required);
    FiringNeedsRun(h, required);
  }

  // ---------------------------------------------------------------- the engine

  predicate WithoutColon(s: string) { forall k :: 0 <= k < |s| ==> s[k] != ':' }

  // Rules come from the database with their primary key, a UUID.
  ghost predicate ProperRules(rules: seq<Rule>) {
    && (forall k :: 0 <= k < |rules| ==> WithoutColon(rules[k].id))
    && (forall j, k :: 0 <= j < k < |rules| ==> rules[j].id != rules[k].id)
  }

  function Key(id: string, device: string): string { id + (":" + device) }

  // Counters of different rules or devices never share a key.
  lemma KeysDiffer(id: string, device: string, id': string, device': string)
    requires WithoutColon(id) && WithoutColon(id')
    ensures Key(id, device) == Key(id', device') ==> id == id' && device == device'
  {
    FirstColon(id, device);
    FirstColon(id', device');
    if Key(id, device) == Key(id', device') {
      assert |id| == |id'|;
      ConcatParts(id, ":" + device);
      ConcatParts(id', ":" + device');
      assert device == (":" + device)[1..] && device' == (":" + device')[1..];
    }
  }

  lemma FirstColon(id: string, device: string)
    requires WithoutColon(id)
    ensures Key(id, device)[|id|] == ':'
    ensures forall k :: 0 <= k < |id| ==> Key(id, device)[k] != ':'
  {
  }

  function CounterOf(counters: map<string, nat>, key: string): nat {
    if key in counters then counters[key] else 0
  }

  // The stored state of one rule and device is what its history calls for.
  ghost predicate Follows(r: Rule, device: string, h: seq<bool>, counters: map<string, nat>, events: seq<Event>) {
    && CounterOf(counters, Key(r.id, device)) == Streak(h)
    && Rows(events, r.id, device) == Expected(h, RequiredSamples(r.duration))
  }

  // So a firing event exists exactly when the last RequiredSamples messages that concern the rule and device all
  // matched; it is the newest event, the only one firing, and every earlier one has been resolved.
  lemma FiringExactly(r: Rule, device: string, h: seq<bool>, counters: map<string, nat>, events: seq<Event>)
    requires Follows(r, device, h, counters, events)
    ensures var n, rows := RequiredSamples(r.duration), Rows(events, r.id, device);
            && (HasFiring(events, r.id, device) <==> n <= |h| && forall k :: |h| - n <= k < |h| ==> h[k])
            && (forall j :: 0 <= j < |rows| - 1 ==> rows[j] == Resolved)
            && |rows| == RunsReached(h, n)
  {
    var n := RequiredSamples(r.duration);
    FiringInRows(events, r.id, device);
    FiringExpected(h, n);
    StreakMeaning(h, n);
  }

  class Engine {
    const rules: seq<Rule>
    var counters: map<string, nat>
    var events: seq<Event>

    ghost predicate Valid(ms: seq<Message>)
      reads this
    {
      && ProperRules(rules)
      && forall k, device :: 0 <= k < |rules| ==> Current(k, device, ms)
    }

    ghost predicate Current(k: nat, device: string, ms: seq<Message>)
      requires k < |rules|
      reads this
    {
      Follows(rules[k], device, History(rules[k], device, ms), counters, events)
    }

    constructor (rules: seq<Rule>)
      requires ProperRules(rules)
      ensures this.rules == rules && Valid([])
    {
      this.rules, counters, events := rules, map[], [];
    }

    // fire: afterwards an event fires for the pair; it is a new one exactly when none did, and no other pair changes.
    method Fire(r: Rule, device: string)
      modifies `events
      ensures Firing in Rows(events, r.id, device)
      ensures forall id', device' ::
                Rows(events, id', device') ==
                if r.id == id' && device == device' && Firing !in Rows(old(events), r.id, device)
                then Rows(old(events), r.id, device) + [Firing] else Rows(old(events), id', device')
    {
      OtherRowsInsert(events, r.id, device);
      FiringInRows(events, r.id, device);
      if Event(r.id, device, Firing) !in events {
        events := events + [Event(r.id, device, Firing)];
      }
    }

    // resolve: afterwards nothing fires for the pair, whose events are all kept, and no other pair changes.
    method Resolve(r: Rule, device: string)
      modifies `events
      ensures Firing !in Rows(events, r.id, device)
      ensures forall id', device' ::
                Rows(events, id', device') ==
                if r.id == id' && device == device' then AllResolved(Rows(old(events), r.id, device))
                else Rows(old(events), id', device')
    {
      OtherRowsUpdate(events, r.id, device);
      events := Update(events, r.id, device);
    }

    // The loop body of Evaluate for one rule that applies to the device.
    method EvaluateRule(r: Rule, m: Message, ghost h: seq<bool>)
      requires Follows(r, m.device, h, counters, events)
      modifies `counters, `events
      ensures Follows(r, m.device, h + [Matches(r, m)], counters, events)
      ensures forall key :: key != Key(r.id, m.device) ==> CounterOf(counters, key) == CounterOf(old(counters), key)
      ensures forall id, device :: id != r.id || device != m.device ==>
                Rows(events, id, device) == Rows(old(events), id, device)
    {
      var matched := Matches(r, m);
      var key := Key(r.id, m.device);
      if matched {
        counters := counters[key := CounterOf(counters, key) + 1];
      } else {
        counters := counters - {key};
      }
      var count := CounterOf(counters, key);
      StreakPlus(h, matched);
      ExpectedStep(h, matched, RequiredSamples(r.duration));
      if matched && count >= RequiredSamples(r.duration) {
        Fire(r, m.device);
      } else if !matched {
        Resolve(r, m.device);
      }
    }

    // Evaluate: after every message, counters and events are again what the history calls for, for every rule and
    // device.
    method Evaluate(m: Message, ghost ms: seq<Message>)
      requires Valid(ms)
      modifies `counters, `events
      ensures Valid(ms + [m])
    {
      var i := 0;
      while i < |rules|
        invariant i <= |rules|
        invariant forall k, device :: 0 <= k < i ==> Current(k, device, ms + [m])
        invariant forall k, device :: i <= k < |rules| ==> Current(k, device, ms)
      {
        EvaluateAt(i, m, ms);
        i := i + 1;
      }
    }

    method EvaluateAt(i: nat, m: Message, ghost ms: seq<Message>)
      requires ProperRules(rules) && i < |rules|
      requires forall k, device :: 0 <= k < i ==> Current(k, device, ms + [m])
      requires forall k, device :: i <= k < |rules| ==> Current(k, device, ms)
      modifies `counters, `events
      ensures forall k, device :: 0 <= k <= i ==> Current(k, device, ms + [m])
      ensures forall k, device :: i < k < |rules| ==> Current(k, device, ms)
    {
      var r := rules[i];
      ghost var counters0, events0 := counters, events;
      HistoryPlus(r, m.device, ms, m);
      assert Current(i, m.device, ms);
      if MatchesDevice(r, m) {
        EvaluateRule(r, m, History(r, m.device, ms));
      }
      forall k, device | 0 <= k < |rules| && (k != i || device != m.device)
        ensures CounterOf(counters, Key(rules[k].id, device)) == CounterOf(counters0, Key(rules[k].id, device))
        ensures Rows(events, rules[k].id, device) == Rows(events0, rules[k].id, device)
      {
        assert WithoutColon(rules[k].id) && WithoutColon(rules[i].id);
        KeysDiffer(rules[k].id, device, rules[i].id, m.device);
      }
      forall device
        ensures Current(i, device, ms + [m])
      {
        HistoryPlus(r, device, ms, m);
        assert old(Current(i, device, ms));
      }
      forall k, device | 0 <= k < i
        ensures Current(k, device, ms + [m])
      {
        assert old(Current(k, device, ms + [m]));
      }
      forall k, device | i < k < |rules|
        ensures Current(k, device, ms)
      {
        assert old(Current(k, device, ms));
      }
    }
  }

  lemma OtherRowsInsert(events: seq<Event>, id: string, device: string)
    ensures forall id', device' ::
              Rows(Insert(events, id, device), id', device') ==
              if id == id' && device == device' && Firing !in Rows(events, id, device)
              then Rows(events, id, device) + [Firing] else Rows(events, id', device')
  {
    forall id', device' {
      InsertRows(events, id, device, id', device');
    }
  }

  lemma OtherRowsUpdate(events: seq<Event>, id: string, device: string)
    ensures forall id', device' ::
              Rows(Update(events, id, device), id', device') ==
              if id == id' && device == device' then AllResolved(Rows(events, id, device))
              else Rows(events, id', device')
  {
    forall id', device' {
      UpdateRows(events, id, device, id', device');
    }
  }
}
