/** What the limiter makes of its readings: which ones push a limit down and by how much, and whose limit they move. */
module LimiterReadings {
  import opened Prelude
  import opened Config
  import opened Reals
  import opened Medians
  import opened Limiter

  // ---- from readings to load ----

  /** The median latency lies `lat` targets above the target, or not above it. */
  predicate Overshoots(r: RateLimit, p50: real, lat: real) {
    (lat == 0.0 && p50 <= r.targetLatency) || (lat > 0.0 && p50 == r.targetLatency + lat * r.targetLatency)
  }

  /** Of CPU use above 60% and memory use above 70%, each in units of what is left to 100%, the larger is `sys`. */
  predicate Presses(cpu: real, mem: real, sys: real) {
    sys >= 0.0 && cpu <= 60.0 + 40.0 * sys && mem <= 70.0 + 30.0 * sys &&
    (sys == 0.0 || cpu == 60.0 + 40.0 * sys || mem == 70.0 + 30.0 * sys)
  }

  lemma PressureOf(cpu: real, mem: real, sys: real)
    requires Presses(cpu, mem, sys)
    ensures Pressure(cpu, mem) == sys
  {
    QuotientAtMost(cpu - 60.0, 40.0, sys);
    QuotientAtMost(mem - 70.0, 30.0, sys);
  }

  lemma QuotientAtMost(x: real, d: real, s: real)
    requires d > 0.0
    ensures x <= d * s <==> x / d <= s
    ensures x == d * s <==> x / d == s
  {
    var q := x / d;
    assert x == d * q;
    if q < s {
      Positive(d, s - q);
      assert d * s == d * q + d * (s - q);
    } else if q > s {
      Positive(d, q - s);
      assert d * q == d * s + d * (q - s);
    }
  }

  lemma LatErrOf(r: RateLimit, p50: real, lat: real)
    requires RateLimitInRange(r) && Overshoots(r, p50, lat)
    ensures LatErr(r, p50) == lat
  {
    var t := r.targetLatency;
    QuotientAtMost(p50 - t, t, lat);
    assert t * lat == lat * t;
    QuotientAtMost(p50 - t, t, 0.0);
  }

  /** The load of readings over their thresholds. */
  function LoadBy(r: RateLimit, lat: real, sys: real): real {
    r.latencySensitivity * lat + r.pressureSensitivity * sys
  }

  /** The load is the two readings, weighted by their sensitivities. */
  lemma LoadOf(r: RateLimit, p50: real, cpu: real, mem: real, lat: real, sys: real)
    requires RateLimitInRange(r) && Overshoots(r, p50, lat) && Presses(cpu, mem, sys)
    ensures Load(r, p50, Pressure(cpu, mem)) == LoadBy(r, lat, sys)
  {
    LatErrOf(r, p50, lat);
    PressureOf(cpu, mem, sys);
  }

  lemma ReadingsExist(r: RateLimit, p50: real, cpu: real, mem: real)
    requires RateLimitInRange(r)
    ensures exists lat :: Overshoots(r, p50, lat)
    ensures exists sys :: Presses(cpu, mem, sys)
  {
    var t, lat := r.targetLatency, LatErr(r, p50);
    QuotientAtMost(p50 - t, t, lat);
    QuotientAtMost(p50 - t, t, 0.0);
    assert t * lat == lat * t;
    assert Overshoots(r, p50, lat);
    PressureOfAny(cpu, mem);
  }

  lemma PressureOfAny(cpu: real, mem: real)
    ensures Presses(cpu, mem, Pressure(cpu, mem))
  {
    var sys := Pressure(cpu, mem);
    QuotientAtMost(cpu - 60.0, 40.0, sys);
    QuotientAtMost(mem - 70.0, 30.0, sys);
  }

  /** The system is calm for an app exactly when no reading it is sensitive to is over its threshold. */
  lemma CalmIff(r: RateLimit, p50: real, cpu: real, mem: real)
    requires RateLimitInRange(r)
    ensures Load(r, p50, Pressure(cpu, mem)) == 0.0 <==>
            (r.latencySensitivity == 0.0 || p50 <= r.targetLatency) &&
            (r.pressureSensitivity == 0.0 || (cpu <= 60.0 && mem <= 70.0))
  {
    ReadingsExist(r, p50, cpu, mem);
    var lat :| Overshoots(r, p50, lat);
    var sys :| Presses(cpu, mem, sys);
    LoadOf(r, p50, cpu, mem, lat, sys);
    SumZeroIff(r.latencySensitivity, lat, r.pressureSensitivity, sys);
    assert lat == 0.0 <==> p50 <= r.targetLatency by { OvershootZero(r, p50, lat); }
  }

  lemma OvershootZero(r: RateLimit, p50: real, lat: real)
    requires RateLimitInRange(r) && Overshoots(r, p50, lat)
    ensures lat == 0.0 <==> p50 <= r.targetLatency
  {
    if lat > 0.0 {
      Positive(lat, r.targetLatency);
    }
  }

  lemma SumZeroIff(a: real, x: real, b: real, y: real)
    requires a >= 0.0 && x >= 0.0 && b >= 0.0 && y >= 0.0
    ensures a * x + b * y == 0.0 <==> (a == 0.0 || x == 0.0) && (b == 0.0 || y == 0.0)
  {
    if a > 0.0 && x > 0.0 {
      Positive(a, x);
    }
    if b > 0.0 && y > 0.0 {
      Positive(b, y);
    }
  }

  /** One tick, from the raw readings: a new app starts at the maximum; the limit grows when calm, else it is divided
      by one plus the load, and stays between the bounds. */
  lemma TickOf(r: RateLimit, app: string, prev: Option<LimitState>, p50: real, cpu: real, mem: real, lat: real, sys: real)
    requires RateLimitInRange(r) && Overshoots(r, p50, lat) && Presses(cpu, mem, sys)
    ensures var load := LoadBy(r, lat, sys);
            var from := match prev case Some(s) => s.internal case None => r.maxLimit as real;
            load >= 0.0 &&
            Next(r, app, prev, p50, Pressure(cpu, mem)).internal ==
            Scale(from, if load == 0.0 then r.growthRate else 1.0 / (1.0 + load), r.minLimit as real, r.maxLimit as real)
  {
    LoadOf(r, p50, cpu, mem, lat, sys);
    LoadNotNegative(r, p50, Pressure(cpu, mem));
    FactorOf(r, LoadBy(r, lat, sys));
    InternalOf(r, app, prev, p50, Pressure(cpu, mem), LoadBy(r, lat, sys));
  }

  lemma FactorOf(r: RateLimit, load: real)
    requires load >= 0.0
    ensures Factor(r, Shrink(load)) == if load == 0.0 then r.growthRate else 1.0 / (1.0 + load)
  {
    ShrinkAntitone(load, load);
  }

  lemma InternalOf(r: RateLimit, app: string, prev: Option<LimitState>, p50: real, pressure: real, load: real)
    requires RateLimitInRange(r) && pressure >= 0.0 && load == Load(r, p50, pressure) >= 0.0
    ensures Next(r, app, prev, p50, pressure).internal ==
            Scale(match prev case Some(s) => s.internal case None => r.maxLimit as real, Factor(r, Shrink(load)),
                  r.minLimit as real, r.maxLimit as real)
  {
  }

  // ---- whose limit ----

  predicate Visited(samples: seq<(Client, seq<real>)>, app: string) {
    exists i :: 0 <= i < |samples| && samples[i].0 == App(app)
  }

  /** A pass moves no limit but those of the apps it visits; names never get one of their own. */
  lemma {:induction false} OthersStay(limits: Limits, r: RateLimit, samples: seq<(Client, seq<real>)>, pressure: real, app: string)
    requires RateLimitInRange(r) && pressure >= 0.0 && !Visited(samples, app)
    ensures LimitOf(Ticked(limits, r, samples, pressure), app) == LimitOf(limits, app)
  {
    if samples != [] {
      var n := |samples| - 1;
      assert samples[n].0 != App(app);
      NotVisitedBefore(samples, n, app);
      OthersStay(limits, r, samples[..n], pressure, app);
    }
  }

  lemma NotVisitedBefore(samples: seq<(Client, seq<real>)>, n: nat, app: string)
    requires n <= |samples| && forall i :: 0 <= i < n ==> samples[i].0 != App(app)
    ensures !Visited(samples[..n], app)
  {
  }

  /** Every app it visits gets its own step: from its own previous limit and its own latencies. */
  lemma {:induction false} OwnStep(limits: Limits, r: RateLimit, samples: seq<(Client, seq<real>)>, pressure: real, i: nat)
    requires RateLimitInRange(r) && pressure >= 0.0 && i < |samples| && samples[i].0.App?
    requires forall j :: 0 <= j < |samples| && j != i ==> samples[j].0 != samples[i].0
    ensures var app := samples[i].0.name;
            LimitOf(Ticked(limits, r, samples, pressure), app) ==
            Some(Next(r, app, LimitOf(limits, app), MedianOf(samples[i].1), pressure))
  {
    var n, app := |samples| - 1, samples[i].0.name;
    if i == n {
      NotVisitedBefore(samples, n, app);
      OthersStay(limits, r, samples[..n], pressure, app);
    } else {
      OwnStep(limits, r, samples[..n], pressure, i);
      assert samples[n].0 != samples[i].0;
    }
  }

  /** An app that was never visited gets the configured maximum. */
  lemma {:induction false} UnseenGetsMaximum(ticks: seq<Tick>, r: RateLimit, app: string)
    requires forall i :: 0 <= i < |ticks| ==> RateLimitInRange(ticks[i].r) && !Visited(ticks[i].samples, app)
    ensures app !in Run(map[], ticks) && EnforcedLimit(Run(map[], ticks), app, r) == r.maxLimit
  {
    if ticks != [] {
      var n := |ticks| - 1;
      UnseenGetsMaximum(ticks[..n], r, app);
      OthersStay(Run(map[], ticks[..n]), ticks[n].r, ticks[n].samples, Pressure(ticks[n].cpu, ticks[n].mem), app);
    }
  }
}
