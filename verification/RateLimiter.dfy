/** The token-bucket rate limiter, over real time and real token balances. */
module RateLimiter {
  import opened Options

  datatype Bucket = Bucket(tokens: real, lastRefill: real)

  // The limit: maxRate tokens, fully replenished in `refill` seconds.
  datatype Limit = Limit(maxRate: nat, refill: real) {
    predicate Valid() { refill > 0.0 }

    function Max(): real { maxRate as real }

    function Rate(): real
      requires Valid()
    {
      maxRate as real / refill
    }

    // Tokens earned in so many seconds.
    function Earns(seconds: real): real
      requires Valid()
    {
      seconds * Rate()
    }
  }

  // The three clock reads of one call: when a new bucket is made, when the elapsed time is taken, when it is stamped.
  datatype Clock = Clock(made: real, since: real, stamped: real)

  // ---------------------------------------------------------------- one call

  function Lesser(a: real, b: real): real { if a > b then b else a }

  // The balance the call decides on.
  function Balance(l: Limit, b: Option<Bucket>, c: Clock): real
    requires l.Valid()
  {
    var tokens := if b.Some? then b.value.tokens else l.Max();
    var last := if b.Some? then b.value.lastRefill else c.made;
    Lesser(tokens + l.Earns(c.since - last), l.Max())
  }

  function Called(l: Limit, b: Option<Bucket>, c: Clock): Bucket
    requires l.Valid()
  {
    var t := Balance(l, b, c);
    Bucket(if t >= 1.0 then t - 1.0 else t, c.stamped)
  }

  // ---------------------------------------------------------------- runs of calls with one key

  function After(l: Limit, cs: seq<Clock>, n: nat): (b: Option<Bucket>)
    requires l.Valid() && n <= |cs|
  {
    if n == 0 then None else Some(Called(l, After(l, cs, n - 1), cs[n - 1]))
  }

  function BalanceAt(l: Limit, cs: seq<Clock>, n: nat): real
    requires l.Valid() && n < |cs|
  {
    Balance(l, After(l, cs, n), cs[n])
  }

  predicate Granted(l: Limit, cs: seq<Clock>, n: nat)
    requires l.Valid() && n < |cs|
  {
    BalanceAt(l, cs, n) >= 1.0
  }

  // How many of the calls i, ..., n - 1 are granted.
  function Grants(l: Limit, cs: seq<Clock>, i: nat, n: nat): nat
    requires l.Valid() && i <= n <= |cs|
  {
    if n == i then 0 else Grants(l, cs, i, n - 1) + if Granted(l, cs, n - 1) then 1 else 0
  }

  // The clock never runs backwards, within a call or between calls.
  ghost predicate ClockRuns(cs: seq<Clock>) {
    && (forall k :: 0 <= k < |cs| ==> cs[k].made <= cs[k].since <= cs[k].stamped)
    && (forall k :: 0 < k < |cs| ==> cs[k - 1].stamped <= cs[k].made)
  }

  // One clock read per call.
  ghost predicate OneRead(cs: seq<Clock>) {
    forall k :: 0 <= k < |cs| ==> cs[k].made == cs[k].since == cs[k].stamped
  }

  // ---------------------------------------------------------------- the bucket, given what each call finds earned

  function Earned(l: Limit, cs: seq<Clock>): (e: seq<real>)
    requires l.Valid()
    ensures |e| == |cs|
  {
    seq(|cs|, k requires 0 <= k < |cs| => Earning(l, cs, k))
  }

  function Earning(l: Limit, cs: seq<Clock>, k: nat): real
    requires l.Valid() && k < |cs|
  {
    l.Earns(cs[k].since - if k == 0 then cs[k].made else cs[k - 1].stamped)
  }

  function Level(max: real, e: seq<real>, n: nat): real
    requires n < |e|
  {
    Lesser((if n == 0 then max else Kept(Level(max, e, n - 1))) + e[n], max)
  }

  function Kept(level: real): real { if level >= 1.0 then level - 1.0 else level }

  function Passed(max: real, e: seq<real>, i: nat, n: nat): nat
    requires i <= n <= |e|
  {
    if n == i then 0 else Passed(max, e, i, n - 1) + if Level(max, e, n - 1) >= 1.0 then 1 else 0
  }

  // Earned after call i and up to call n.
  function Total(e: seq<real>, i: nat, n: nat): real
    requires i <= n < |e|
  {
    if n == i then 0.0 else Total(e, i, n - 1) + e[n]
  }

  ghost predicate Earns(max: real, e: seq<real>) { max >= 0.0 && forall k :: 0 <= k < |e| ==> e[k] >= 0.0 }

  lemma {:induction false} LevelRange(max: real, e: seq<real>, n: nat)
    requires Earns(max, e) && n < |e|
    ensures 0.0 <= Level(max, e, n) <= max
  {
    if n > 0 {
      LevelRange(max, e, n - 1);
    }
  }

  lemma {:induction false} KeptAfterWindow(max: real, e: seq<real>, i: nat, j: nat)
    requires Earns(max, e) && i <= j < |e|
    ensures Kept(Level(max, e, j)) <= max + Total(e, i, j) - Passed(max, e, i, j + 1) as real
  {
    if i < j {
      KeptAfterWindow(max, e, i, j - 1);
    } else {
      assert Passed(max, e, i, j) == 0;
    }
  }

  function Allowance(max: real, e: seq<real>, i: nat, n: nat): real
    requires i <= n < |e|
  {
    max + Total(e, i, n) - Passed(max, e, i, n) as real
  }

  // The level is the least allowance over all windows: at most each of them, and equal to one.
  lemma {:induction false} LevelIsLeast(max: real, e: seq<real>, n: nat) returns (w: nat)
    requires Earns(max, e) && n < |e|
    ensures w <= n && Level(max, e, n) == Allowance(max, e, w, n)
    ensures forall i :: 0 <= i <= n ==> Level(max, e, n) <= Allowance(max, e, i, n)
  {
    w := n;
    if n > 0 {
      var v := LevelIsLeast(max, e, n - 1);
      forall i | 0 <= i <= n
        ensures Level(max, e, n) <= Allowance(max, e, i, n)
      {
        if i < n {
          assert Level(max, e, n - 1) <= Allowance(max, e, i, n - 1);
        }
      }
      if Level(max, e, n) < max {
        w := v;
      }
    }
  }

  // ---------------------------------------------------------------- the run is that bucket

  lemma {:induction false} RunIsLevel(l: Limit, cs: seq<Clock>, n: nat)
    requires l.Valid() && n < |cs|
    ensures BalanceAt(l, cs, n) == Level(l.Max(), Earned(l, cs), n)
  {
    if n > 0 {
      RunIsLevel(l, cs, n - 1);
    }
  }

  lemma {:induction false} GrantsArePassed(l: Limit, cs: seq<Clock>, i: nat, n: nat)
    requires l.Valid() && i <= n <= |cs|
    ensures Grants(l, cs, i, n) == Passed(l.Max(), Earned(l, cs), i, n)
  {
    if i < n {
      GrantsArePassed(l, cs, i, n - 1);
      RunIsLevel(l, cs, n - 1);
    }
  }

  lemma ProductSign(x: real, l: Limit)
    requires l.Valid() && x >= 0.0
    ensures l.Earns(x) >= 0.0
  {
    assert l.Rate() >= 0.0;
  }

  lemma ProductAdds(l: Limit, a: real, b: real, c: real)
    requires l.Valid()
    ensures l.Earns(c - a) == l.Earns(b - a) + l.Earns(c - b)
  {
    Distributes(b - a, c - b, l.Rate());
  }

  lemma Distributes(x: real, y: real, r: real)
    ensures (x + y) * r == x * r + y * r
  {
  }

  lemma RunEarns(l: Limit, cs: seq<Clock>)
    requires l.Valid() && ClockRuns(cs)
    ensures Earns(l.Max(), Earned(l, cs))
  {
    forall k | 0 <= k < |cs|
      ensures Earned(l, cs)[k] >= 0.0
    {
      ProductSign(cs[k].since - if k == 0 then cs[k].made else cs[k - 1].stamped, l);
    }
  }

  lemma EarningWithin(l: Limit, cs: seq<Clock>, k: nat)
    requires l.Valid() && ClockRuns(cs) && 0 < k < |cs|
    ensures Earning(l, cs, k) <= l.Earns(cs[k].since - cs[k - 1].since)
    ensures OneRead(cs) ==> Earning(l, cs, k) == l.Earns(cs[k].since - cs[k - 1].since)
  {
    ProductSign(cs[k - 1].stamped - cs[k - 1].since, l);
    ProductAdds(l, cs[k - 1].since, cs[k - 1].stamped, cs[k].since);
  }

  lemma NothingInNoTime(l: Limit)
    requires l.Valid()
    ensures l.Earns(0.0) == 0.0
  {
  }

  lemma TotalStep(l: Limit, cs: seq<Clock>, i: nat, n: nat)
    requires l.Valid() && i < n < |cs|
    ensures Total(Earned(l, cs), i, n) == Total(Earned(l, cs), i, n - 1) + Earning(l, cs, n)
  {
  }

  // Tokens earned in so many seconds, with the rate written out.
  lemma EarnsIs(l: Limit, seconds: real)
    requires l.Valid()
    ensures l.Earns(seconds) == seconds * l.maxRate as real / l.refill
  {
    QuotientOut(seconds, l.maxRate as real, l.refill);
  }

  lemma QuotientOut(x: real, y: real, z: real)
    requires z != 0.0
    ensures x * (y / z) == x * y / z
  {
    var q := y / z;
    assert q * z == y;
    assert x * y == x * q * z;
  }

  lemma {:induction false} EarnedWithin(l: Limit, cs: seq<Clock>, i: nat, n: nat)
    requires l.Valid() && ClockRuns(cs) && i <= n < |cs|
    ensures Total(Earned(l, cs), i, n) <= l.Earns(cs[n].since - cs[i].since)
  {
    if i == n {
      NothingInNoTime(l);
    } else {
      EarnedWithin(l, cs, i, n - 1);
      TotalStep(l, cs, i, n);
      EarningWithin(l, cs, n);
      ProductAdds(l, cs[i].since, cs[n - 1].since, cs[n].since);
    }
  }

  lemma {:induction false} EarnedExactly(l: Limit, cs: seq<Clock>, i: nat, n: nat)
    requires l.Valid() && ClockRuns(cs) && OneRead(cs) && i <= n < |cs|
    ensures Total(Earned(l, cs), i, n) == l.Earns(cs[n].since - cs[i].since)
  {
    if i == n {
      NothingInNoTime(l);
    } else {
      EarnedExactly(l, cs, i, n - 1);
      TotalStep(l, cs, i, n);
      EarningWithin(l, cs, n);
      ProductAdds(l, cs[i].since, cs[n - 1].since, cs[n].since);
    }
  }

  // Time between two clock reads of one call earns nothing; otherwise each second earns maxRate / refill tokens.
  lemma TotalWithin(l: Limit, cs: seq<Clock>, i: nat, n: nat, seconds: real)
    requires l.Valid() && ClockRuns(cs) && i <= n < |cs| && seconds == cs[n].since - cs[i].since
    ensures Total(Earned(l, cs), i, n) <= seconds * l.maxRate as real / l.refill
  {
    EarnedWithin(l, cs, i, n);
    EarnsIs(l, seconds);
  }

  lemma TotalExactly(l: Limit, cs: seq<Clock>, i: nat, n: nat, seconds: real)
    requires l.Valid() && ClockRuns(cs) && OneRead(cs) && i <= n < |cs| && seconds == cs[n].since - cs[i].since
    ensures Total(Earned(l, cs), i, n) == seconds * l.maxRate as real / l.refill
  {
    EarnedExactly(l, cs, i, n);
    EarnsIs(l, seconds);
  }

  // ---------------------------------------------------------------- what clients can rely on

  // Tokens stay between 0 and maxRate.
  lemma TokensInRange(l: Limit, cs: seq<Clock>, n: nat)
    requires l.Valid() && ClockRuns(cs) && n < |cs|
    ensures 0.0 <= BalanceAt(l, cs, n) <= l.Max()
    ensures 0.0 <= After(l, cs, n + 1).value.tokens <= l.Max()
  {
    RunEarns(l, cs);
    RunIsLevel(l, cs, n);
    LevelRange(l.Max(), Earned(l, cs), n);
  }

  // For any run of calls with one key, the grants between two of them, so many seconds apart, never exceed a full
  // bucket and what is replenished in between.
  lemma WindowBound(l: Limit, cs: seq<Clock>, i: nat, j: nat, seconds: real)
    requires l.Valid() && ClockRuns(cs) && i <= j < |cs| && seconds == cs[j].since - cs[i].since
    ensures Grants(l, cs, i, j + 1) as real <= l.maxRate as real + seconds * l.maxRate as real / l.refill
  {
    BudgetsKept(l, cs, i, j);
    TotalWithin(l, cs, i, j, seconds);
  }

  // What may be granted in the window from call i to call n: a full bucket and the tokens earned in between. With one
  // clock read per call that is the time between the two calls (TotalExactly).
  function Budget(l: Limit, cs: seq<Clock>, i: nat, n: nat): real
    requires l.Valid() && i <= n < |cs|
  {
    l.maxRate as real + Total(Earned(l, cs), i, n)
  }

  // Whatever the clock reads: a call is granted exactly when granting it, after the grants so far, exceeds the budget
  // of no window.
  lemma GrantedExactly(l: Limit, cs: seq<Clock>, n: nat)
    requires l.Valid() && ClockRuns(cs) && n < |cs|
    ensures Granted(l, cs, n) <==>
            forall i :: 0 <= i <= n ==> Grants(l, cs, i, n) as real + 1.0 <= Budget(l, cs, i, n)
  {
    RunEarns(l, cs);
    RunIsLevel(l, cs, n);
    var e := Earned(l, cs);
    var w := LevelIsLeast(l.Max(), e, n);
    GrantsArePassed(l, cs, w, n);
    if Granted(l, cs, n) {
      forall i | 0 <= i <= n
        ensures Grants(l, cs, i, n) as real + 1.0 <= Budget(l, cs, i, n)
      {
        GrantsArePassed(l, cs, i, n);
        assert Level(l.Max(), e, n) <= Allowance(l.Max(), e, i, n);
      }
    }
  }

  // How many of the decisions i, ..., n - 1 are grants.
  function GrantsOf(g: seq<bool>, i: nat, n: nat): nat
    requires i <= n <= |g|
  {
    if n == i then 0 else GrantsOf(g, i, n - 1) + if g[n - 1] then 1 else 0
  }

  // Some limiter's decisions on the calls of cs, keeping the budget of every window.
  ghost predicate KeepsBudgets(l: Limit, cs: seq<Clock>, g: seq<bool>)
    requires l.Valid() && |g| == |cs|
  {
    forall i, j :: 0 <= i <= j < |g| ==> WithinBudget(l, cs, g, i, j)
  }

  predicate WithinBudget(l: Limit, cs: seq<Clock>, g: seq<bool>, i: nat, j: nat)
    requires l.Valid() && |g| == |cs| && i <= j < |g|
  {
    GrantsOf(g, i, j + 1) as real <= Budget(l, cs, i, j)
  }

  lemma {:induction false} GrantsSplit(l: Limit, cs: seq<Clock>, i: nat, n: nat)
    requires l.Valid() && i <= n <= |cs|
    ensures Grants(l, cs, 0, n) == Grants(l, cs, 0, i) + Grants(l, cs, i, n)
  {
    if n > i {
      GrantsSplit(l, cs, i, n - 1);
    }
  }

  lemma {:induction false} GrantsOfSplit(g: seq<bool>, i: nat, n: nat)
    requires i <= n <= |g|
    ensures GrantsOf(g, 0, n) == GrantsOf(g, 0, i) + GrantsOf(g, i, n)
  {
    if n > i {
      GrantsOfSplit(g, i, n - 1);
    }
  }

  // The budget the limiter would exceed by granting call n bounds the others, too.
  lemma RefusalCovers(l: Limit, cs: seq<Clock>, g: seq<bool>, n: nat) returns (i: nat)
    requires l.Valid() && ClockRuns(cs) && |g| == |cs| && KeepsBudgets(l, cs, g)
    requires n < |cs| && !Granted(l, cs, n)
    ensures i <= n && GrantsOf(g, i, n + 1) <= Grants(l, cs, i, n + 1)
  {
    GrantedExactly(l, cs, n);
    i :| 0 <= i <= n && Grants(l, cs, i, n) as real + 1.0 > Budget(l, cs, i, n);
    assert WithinBudget(l, cs, g, i, n);
    assert GrantsOf(g, i, n + 1) as real < (Grants(l, cs, i, n) + 1) as real;
  }

  // The limiter itself keeps every budget ...
  lemma BudgetsKept(l: Limit, cs: seq<Clock>, i: nat, j: nat)
    requires l.Valid() && ClockRuns(cs) && i <= j < |cs|
    ensures Grants(l, cs, i, j + 1) as real <= Budget(l, cs, i, j)
  {
    RunEarns(l, cs);
    GrantsArePassed(l, cs, i, j + 1);
    KeptAfterWindow(l.Max(), Earned(l, cs), i, j);
    LevelRange(l.Max(), Earned(l, cs), j);
  }

  // ... and, whatever the clock reads, no limiter that does ever grants more of the first n calls.
  lemma {:induction false} GrantsMost(l: Limit, cs: seq<Clock>, g: seq<bool>, n: nat)
    requires l.Valid() && ClockRuns(cs) && |g| == |cs| && KeepsBudgets(l, cs, g) && n <= |cs|
    ensures GrantsOf(g, 0, n) <= Grants(l, cs, 0, n)
  {
    if n > 0 {
      if Granted(l, cs, n - 1) {
        GrantsMost(l, cs, g, n - 1);
      } else {
        var i := RefusalCovers(l, cs, g, n - 1);
        GrantsMost(l, cs, g, i);
        GrantsSplit(l, cs, i, n);
        GrantsOfSplit(g, i, n);
      }
    }
  }

  lemma OneTokenPerSlot(l: Limit, wait: real)
    requires l.Valid() && l.maxRate >= 1 && wait >= l.refill / l.Max()
    ensures l.Earns(wait) >= 1.0
  {
    var slot := l.refill / l.Max();
    ProductSign(wait - slot, l);
    ProductAdds(l, 0.0, slot, wait);
    SlotIsOneToken(l.refill, l.Max());
  }

  lemma SlotIsOneToken(refill: real, max: real)
    requires refill > 0.0 && max > 0.0
    ensures refill / max * (max / refill) == 1.0
  {
    var s := refill / max;
    assert s * max == refill;
    assert s * (max / refill) == s * max / refill;
  }

  lemma {:induction false} FullSlots(max: real, e: seq<real>, n: nat)
    requires Earns(max, e) && max >= 1.0 && n < |e| && forall k :: 0 < k < |e| ==> e[k] >= 1.0
    ensures Level(max, e, n) >= 1.0
  {
    if n > 0 {
      LevelRange(max, e, n - 1);
    }
  }

  // A client that waits refill/maxRate after a call has stamped its bucket, before the next one reads the clock, is
  // never refused.
  lemma PatientClientServed(l: Limit, cs: seq<Clock>, n: nat)
    requires l.Valid() && ClockRuns(cs) && n < |cs| && l.maxRate >= 1
    requires forall k :: 0 < k < |cs| ==> cs[k].since - cs[k - 1].stamped >= l.refill / l.Max()
    ensures Granted(l, cs, n)
  {
    var e := Earned(l, cs);
    RunEarns(l, cs);
    RunIsLevel(l, cs, n);
    forall k | 0 < k < |e|
      ensures e[k] >= 1.0
    {
      OneTokenPerSlot(l, cs[k].since - cs[k - 1].stamped);
    }
    FullSlots(l.Max(), e, n);
  }

  // ---------------------------------------------------------------- many keys

  datatype Call = Call(key: string, clock: Clock)

  type Table = map<string, Bucket>

  function Lookup(t: Table, key: string): Option<Bucket> { if key in t then Some(t[key]) else None }

  function TableAfter(l: Limit, calls: seq<Call>, n: nat): Table
    requires l.Valid() && n <= |calls|
  {
    if n == 0 then map[]
    else
      var t, call := TableAfter(l, calls, n - 1), calls[n - 1];
      t[call.key := Called(l, Lookup(t, call.key), call.clock)]
  }

  // The clocks of the calls made with one key.
  function ClocksOf(calls: seq<Call>, key: string, n: nat): (cs: seq<Clock>)
    requires n <= |calls|
    ensures |cs| <= n
  {
    if n == 0 then []
    else
      var before := ClocksOf(calls, key, n - 1);
      if calls[n - 1].key == key then before + [calls[n - 1].clock] else before
  }

  lemma {:induction false} AfterPrefix(l: Limit, cs: seq<Clock>, c: Clock, n: nat)
    requires l.Valid() && n <= |cs|
    ensures After(l, cs + [c], n) == After(l, cs, n)
  {
    if n > 0 {
      AfterPrefix(l, cs, c, n - 1);
    }
  }

  // Keys do not affect each other: after any interleaved run, a key's bucket is what its own calls alone would have
  // left, so every decision is the one its own calls alone would have got.
  lemma {:induction false} KeysIndependent(l: Limit, calls: seq<Call>, key: string, n: nat)
    requires l.Valid() && n <= |calls|
    ensures Lookup(TableAfter(l, calls, n), key) == After(l, ClocksOf(calls, key, n), |ClocksOf(calls, key, n)|)
  {
    if n > 0 {
      KeysIndependent(l, calls, key, n - 1);
      if calls[n - 1].key == key {
        var before := ClocksOf(calls, key, n - 1);
        AfterPrefix(l, before, calls[n - 1].clock, |before|);
      }
    }
  }

  lemma DecisionIsOwn(l: Limit, calls: seq<Call>, n: nat)
    requires l.Valid() && n < |calls|
    ensures var key := calls[n].key;
            var own := ClocksOf(calls, key, n + 1);
            && |own| > 0
            && (Balance(l, Lookup(TableAfter(l, calls, n), key), calls[n].clock) >= 1.0 <==> Granted(l, own, |own| - 1))
  {
    var key := calls[n].key;
    var before := ClocksOf(calls, key, n);
    KeysIndependent(l, calls, key, n);
    AfterPrefix(l, before, calls[n].clock, |before|);
  }

  class RateLimiter {
    const limit: Limit
    var buckets: Table

    // NewRateLimiter.
    constructor (maxRate: nat, refill: real)
      ensures limit == Limit(maxRate, refill) && buckets == map[]
    {
      limit := Limit(maxRate, refill);
      buckets := map[];
    }

    method Allow(key: string, clock: Clock) returns (granted: bool)
      requires limit.Valid()
      modifies `buckets
      ensures buckets == old(buckets)[key := Called(limit, Lookup(old(buckets), key), clock)]
      ensures granted <==> Balance(limit, Lookup(old(buckets), key), clock) >= 1.0
    {
      if key !in buckets {
        buckets := buckets[key := Bucket(limit.Max(), clock.made)];
      }
      var b := buckets[key];
      var elapsed := clock.since - b.lastRefill;
      var tokens := b.tokens + limit.Earns(elapsed);
      if tokens > limit.Max() {
        tokens := limit.Max();
      }
      granted := tokens >= 1.0;
      if granted {
        tokens := tokens - 1.0;
      }
      buckets := buckets[key := Bucket(tokens, clock.stamped)];
    }
  }
}
