/** The adaptive document limit: the per-app step of src/metrics.rs over whole runs, on real numbers. */
module Limiter {
  import opened Prelude
  import opened Config
  import opened Reals
  import opened Medians
  import opened Paging

  // ---- one tick ----

  datatype LimitState = LimitState(internal: real, enforced: u32, latErr: real, pressure: real, shrink: real, p50: real)

  function Pressure(cpu: real, mem: real): real {
    MaxReal(MaxReal((cpu - 60.0) / 40.0, (mem - 70.0) / 30.0), 0.0)
  }

  function LatErr(r: RateLimit, p50: real): real {
    MaxReal((p50 - r.targetLatency) / MaxReal(r.targetLatency, 1.0), 0.0)
  }

  /** What pushes the limit down: weighted latency overshoot and system pressure. */
  function Load(r: RateLimit, p50: real, pressure: real): real {
    r.latencySensitivity * LatErr(r, p50) + r.pressureSensitivity * pressure
  }

  /** A float cast to u32 saturates. */
  function ToU32(x: real): u32 {
    Clamp(Round(x), 0, 0xFFFF_FFFF)
  }

  function Weight(r: RateLimit, app: string): real {
    ClampReal(if app in r.weights then r.weights[app] else 1.0, 0.1, 10.0)
  }

  /** A new app starts at the maximum. */
  function InternalBefore(r: RateLimit, prev: Option<LimitState>): real {
    if prev.Some? then prev.value.internal else r.maxLimit as real
  }

  /** What a tick multiplies the internal limit by. */
  function Factor(r: RateLimit, shrink: real): real {
    if shrink >= 1.0 then r.growthRate else shrink
  }

  function InternalAfter(r: RateLimit, internal: real, shrink: real): real {
    Scale(internal, Factor(r, shrink), r.minLimit as real, r.maxLimit as real)
  }

  function Enforced(r: RateLimit, app: string, internal: real): int {
    Clamp(ToU32(Product(internal, r.multiplier, Weight(r, app))), r.minLimit, r.maxLimit)
  }

  lemma LoadNotNegative(r: RateLimit, p50: real, pressure: real)
    requires RateLimitInRange(r) && pressure >= 0.0
    ensures Load(r, p50, pressure) >= 0.0
  {
    assert r.latencySensitivity * LatErr(r, p50) >= 0.0 && r.pressureSensitivity * pressure >= 0.0;
  }

  function Next(r: RateLimit, app: string, prev: Option<LimitState>, p50: real, pressure: real): LimitState
    requires RateLimitInRange(r) && pressure >= 0.0
  {
    LoadNotNegative(r, p50, pressure);
    var shrink := Shrink(Load(r, p50, pressure));
    var internal := InternalAfter(r, InternalBefore(r, prev), shrink);
    LimitState(internal, Enforced(r, app, internal), LatErr(r, p50), pressure, shrink, p50)
  }

  datatype Client = App(name: string) | Identity(name: string, app: string)

  type Limits = map<string, LimitState>

  function LimitOf(limits: Limits, app: string): Option<LimitState> {
    if app in limits then Some(limits[app]) else None
  }

  /** The limits after the clients in `samples` (each with its ring of latencies) have been visited. */
  function Ticked(limits: Limits, r: RateLimit, samples: seq<(Client, seq<real>)>, pressure: real): Limits
    requires RateLimitInRange(r) && pressure >= 0.0
  {
    if samples == [] then limits
    else
      var before := Ticked(limits, r, samples[..|samples| - 1], pressure);
      var (client, ring) := samples[|samples| - 1];
      match client
      case App(app) => before[app := Next(r, app, LimitOf(before, app), MedianOf(ring), pressure)]
      case Identity(_, _) => before
  }

  class MetricsLoop {
    var limits: Limits

    constructor ()
      ensures limits == map[]
    {
      limits := map[];
    }

    /** One pass over the clients: only apps have an adaptive limit. */
    method Tick(r: RateLimit, samples: seq<(Client, seq<real>)>, cpu: real, mem: real)
      requires RateLimitInRange(r)
      modifies this
      ensures limits == Ticked(old(limits), r, samples, Pressure(cpu, mem))
    {
      var pressure := Pressure(cpu, mem);
      ghost var before := limits;
      for i := 0 to |samples|
        invariant limits == Ticked(before, r, samples[..i], pressure)
      {
        assert samples[..i + 1][..i] == samples[..i];
        var (client, ring) := samples[i];
        var _, p50 := Median(ring);
        if client.App? {
          var state := NextLimit(r, client.name, LimitOf(limits, client.name), p50, pressure);
          limits := limits[client.name := state];
        }
      }
      assert samples[..|samples|] == samples;
    }
  }

  /** One app's step: grow when calm, else shrink; then the weighted, rounded, clamped limit. */
  method NextLimit(r: RateLimit, app: string, prev: Option<LimitState>, p50: real, pressure: real)
    returns (s: LimitState)
    requires RateLimitInRange(r) && pressure >= 0.0
    ensures s == Next(r, app, prev, p50, pressure)
    ensures Inside(s, r.minLimit, r.maxLimit)
  {
    LoadNotNegative(r, p50, pressure);
    var latErr := LatErr(r, p50);
    var shrink := Shrink(Load(r, p50, pressure));
    var internal := InternalAfter(r, InternalBefore(r, prev), shrink);
    s := LimitState(internal, Enforced(r, app, internal), latErr, pressure, shrink, p50);
  }

  /** `enforced_limit`. */
  function EnforcedLimit(limits: Limits, app: string, r: RateLimit): u32 {
    if app in limits then limits[app].enforced else r.maxLimit
  }

  // ---- bounds over whole runs ----

  /** Each tick with the configuration of its moment, which may change from one tick to the next. */
  datatype Tick = Tick(r: RateLimit, samples: seq<(Client, seq<real>)>, cpu: real, mem: real)

  function Run(limits: Limits, ticks: seq<Tick>): Limits
    requires forall i :: 0 <= i < |ticks| ==> RateLimitInRange(ticks[i].r)
  {
    if ticks == [] then limits
    else
      var t := ticks[|ticks| - 1];
      Ticked(Run(limits, ticks[..|ticks| - 1]), t.r, t.samples, Pressure(t.cpu, t.mem))
  }

  predicate Inside(s: LimitState, lo: nat, hi: nat) {
    lo as real <= s.internal <= hi as real && lo <= s.enforced <= hi
  }

  /** A tick brings the app it visits between the bounds of its configuration, wherever it was before. */
  lemma NextInside(r: RateLimit, app: string, prev: Option<LimitState>, p50: real, pressure: real)
    requires RateLimitInRange(r) && pressure >= 0.0
    ensures Inside(Next(r, app, prev, p50, pressure), r.minLimit, r.maxLimit)
  {
  }

  predicate AllInside(limits: Limits, lo: nat, hi: nat) {
    forall app :: app in limits ==> Inside(limits[app], lo, hi)
  }

  lemma {:induction false} TickedInside(limits: Limits, r: RateLimit, samples: seq<(Client, seq<real>)>, pressure: real, lo: nat, hi: nat)
    requires RateLimitInRange(r) && pressure >= 0.0 && AllInside(limits, lo, hi) && lo <= r.minLimit && r.maxLimit <= hi
    ensures AllInside(Ticked(limits, r, samples, pressure), lo, hi)
    ensures forall i :: 0 <= i < |samples| && samples[i].0.App? ==>
              samples[i].0.name in Ticked(limits, r, samples, pressure) &&
              Inside(Ticked(limits, r, samples, pressure)[samples[i].0.name], r.minLimit, r.maxLimit)
  {
    if samples != [] {
      var n := |samples| - 1;
      TickedInside(limits, r, samples[..n], pressure, lo, hi);
      var before := Ticked(limits, r, samples[..n], pressure);
      if samples[n].0.App? {
        NextInside(r, samples[n].0.name, LimitOf(before, samples[n].0.name), MedianOf(samples[n].1), pressure);
      }
    }
  }

  /** Over every run of ticks, with any configurations in range, every limit stays within 1..10000. */
  lemma {:induction false} RunInside(ticks: seq<Tick>)
    requires forall i :: 0 <= i < |ticks| ==> RateLimitInRange(ticks[i].r)
    ensures AllInside(Run(map[], ticks), 1, 10_000)
  {
    if ticks != [] {
      var t := ticks[|ticks| - 1];
      RunInside(ticks[..|ticks| - 1]);
      TickedInside(Run(map[], ticks[..|ticks| - 1]), t.r, t.samples, Pressure(t.cpu, t.mem), 1, 10_000);
    }
  }

  /** So every page request that is not refused asks the database for at least one document: the page walk
      makes progress. */
  lemma PagesMakeProgress(ticks: seq<Tick>, r: RateLimit, app: string, limit: Option<u32>)
    requires RateLimitInRange(r) && forall i :: 0 <= i < |ticks| ==> RateLimitInRange(ticks[i].r)
    requires limit != Some(0)
    ensures 1 <= EffectiveLimit(limit, EnforcedLimit(Run(map[], ticks), app, r)) <= 10_000
  {
    RunInside(ticks);
  }

  // ---- more load never raises a limit ----

  lemma PressureMonotone(cpu: real, cpu': real, mem: real, mem': real)
    requires cpu <= cpu' && mem <= mem'
    ensures Pressure(cpu, mem) <= Pressure(cpu', mem')
  {
    DivideMonotone(cpu - 60.0, cpu' - 60.0, 40.0);
    DivideMonotone(mem - 70.0, mem' - 70.0, 30.0);
  }

  lemma LoadMonotone(r: RateLimit, p50: real, p50': real, pressure: real, pressure': real)
    requires RateLimitInRange(r) && p50 <= p50' && 0.0 <= pressure <= pressure'
    ensures Load(r, p50, pressure) <= Load(r, p50', pressure')
  {
    DivideMonotone(p50 - r.targetLatency, p50' - r.targetLatency, MaxReal(r.targetLatency, 1.0));
    TimesMonotone(LatErr(r, p50), LatErr(r, p50'), r.latencySensitivity);
    TimesMonotone(pressure, pressure', r.pressureSensitivity);
  }

  lemma ShrinkAntitone(a: real, b: real)
    requires 0.0 <= a <= b
    ensures 0.0 < Shrink(b) <= Shrink(a) <= 1.0
    ensures Shrink(a) >= 1.0 <==> a == 0.0
  {
    InverseAntitone(1.0 + a, 1.0 + b);
    InverseAntitone(1.0, 1.0 + a);
  }

  lemma InternalMonotone(r: RateLimit, x: real, y: real, a: real, b: real)
    requires r.growthRate >= 1.0 && r.minLimit <= r.maxLimit && 0.0 <= x <= y && 0.0 < a <= b <= 1.0
    ensures InternalAfter(r, x, a) <= InternalAfter(r, y, b)
  {
    ScaleMonotone(x, y, Factor(r, a), Factor(r, b), r.minLimit as real, r.maxLimit as real);
  }

  lemma EnforcedMonotone(r: RateLimit, app: string, x: real, y: real)
    requires r.multiplier >= 0.0 && 0.0 <= x <= y && r.minLimit <= r.maxLimit
    ensures Enforced(r, app, x) <= Enforced(r, app, y)
  {
    ProductMonotone(x, y, r.multiplier, Weight(r, app));
    RoundMonotone(Product(x, r.multiplier, Weight(r, app)), Product(y, r.multiplier, Weight(r, app)));
  }

  lemma RoundMonotone(x: real, y: real)
    requires x <= y
    ensures Round(x) <= Round(y)
  {
  }

  /** Higher latency, CPU or memory use never gives a higher limit, and a higher previous limit never a
      lower one. */
  lemma NextAntitone(r: RateLimit, app: string, prev: LimitState, prev': LimitState, p50: real, p50': real,
                     cpu: real, cpu': real, mem: real, mem': real)
    requires RateLimitInRange(r) && 0.0 <= prev.internal <= prev'.internal && p50 >= p50' && cpu >= cpu' && mem >= mem'
    ensures var s := Next(r, app, Some(prev), p50, Pressure(cpu, mem));
            var s' := Next(r, app, Some(prev'), p50', Pressure(cpu', mem'));
            s.internal <= s'.internal && s.enforced <= s'.enforced
  {
    var hi, lo := Pressure(cpu, mem), Pressure(cpu', mem');
    PressureMonotone(cpu', cpu, mem', mem);
    LoadNotNegative(r, p50', lo);
    LoadMonotone(r, p50', p50, lo, hi);
    ShrinkAntitone(Load(r, p50', lo), Load(r, p50, hi));
    InternalMonotone(r, prev.internal, prev'.internal, Shrink(Load(r, p50, hi)), Shrink(Load(r, p50', lo)));
    EnforcedMonotone(r, app, Next(r, app, Some(prev), p50, hi).internal, Next(r, app, Some(prev'), p50', lo).internal);
  }

  /** Slower requests never raise a limit: with every latency in the ring at least as high, and the rest
      equal, the next limit is at most as high. */
  lemma SlowerIsNoHigher(r: RateLimit, app: string, prev: LimitState, ring: seq<real>, ring': seq<real>, cpu: real, mem: real)
    requires RateLimitInRange(r) && prev.internal >= 0.0 && Below(ring', ring)
    ensures Next(r, app, Some(prev), MedianOf(ring), Pressure(cpu, mem)).enforced <=
            Next(r, app, Some(prev), MedianOf(ring'), Pressure(cpu, mem)).enforced
  {
    MedianMonotone(ring', ring);
    NextAntitone(r, app, prev, prev, MedianOf(ring), MedianOf(ring'), cpu, cpu, mem, mem);
  }

  /** The same clients, in the same order, each with latencies at least as high. */
  predicate NoFaster(samples: seq<(Client, seq<real>)>, samples': seq<(Client, seq<real>)>) {
    |samples| == |samples'| &&
    forall i :: 0 <= i < |samples| ==> samples[i].0 == samples'[i].0 && Below(samples'[i].1, samples[i].1)
  }

  /** Every limit is there on both sides, and none is higher on the first. */
  predicate NoHigher(limits: Limits, limits': Limits) {
    limits.Keys == limits'.Keys &&
    forall app :: app in limits ==>
      0.0 <= limits[app].internal <= limits'[app].internal && limits[app].enforced <= limits'[app].enforced
  }

  lemma NextNoHigher(r: RateLimit, app: string, prev: Option<LimitState>, prev': Option<LimitState>, ring: seq<real>,
                     ring': seq<real>, cpu: real, cpu': real, mem: real, mem': real)
    requires RateLimitInRange(r) && Below(ring', ring) && cpu >= cpu' && mem >= mem'
    requires prev.Some? <==> prev'.Some?
    requires prev.Some? ==> 0.0 <= prev.value.internal <= prev'.value.internal
    ensures var s := Next(r, app, prev, MedianOf(ring), Pressure(cpu, mem));
            var s' := Next(r, app, prev', MedianOf(ring'), Pressure(cpu', mem'));
            0.0 <= s.internal <= s'.internal && s.enforced <= s'.enforced
  {
    var start := LimitState(r.maxLimit as real, r.maxLimit, 0.0, 0.0, 1.0, 0.0);
    MedianMonotone(ring', ring);
    NextAntitone(r, app, Or(prev, start), Or(prev', start), MedianOf(ring), MedianOf(ring'), cpu, cpu', mem, mem');
    NextInside(r, app, prev, MedianOf(ring), Pressure(cpu, mem));
  }

  function Or(prev: Option<LimitState>, start: LimitState): LimitState {
    if prev.Some? then prev.value else start
  }

  lemma {:induction false} TickedNoHigher(limits: Limits, limits': Limits, r: RateLimit, samples: seq<(Client, seq<real>)>,
                                          samples': seq<(Client, seq<real>)>, cpu: real, cpu': real, mem: real, mem': real)
    requires RateLimitInRange(r) && NoHigher(limits, limits') && NoFaster(samples, samples') && cpu >= cpu' && mem >= mem'
    ensures NoHigher(Ticked(limits, r, samples, Pressure(cpu, mem)), Ticked(limits', r, samples', Pressure(cpu', mem')))
  {
    if samples != [] {
      var n := |samples| - 1;
      TickedNoHigher(limits, limits', r, samples[..n], samples'[..n], cpu, cpu', mem, mem');
      var before, before' :=
        Ticked(limits, r, samples[..n], Pressure(cpu, mem)), Ticked(limits', r, samples'[..n], Pressure(cpu', mem'));
      if samples[n].0.App? {
        var app := samples[n].0.name;
        NextNoHigher(r, app, LimitOf(before, app), LimitOf(before', app), samples[n].1, samples'[n].1, cpu, cpu', mem, mem');
      }
    }
  }

  /** Over whole runs of ticks with the same settings: a history with higher latencies, CPU and memory use
      at every tick never ends in a higher limit for any app. */
  lemma {:induction false} RunNoHigher(limits: Limits, limits': Limits, ticks: seq<Tick>, ticks': seq<Tick>)
    requires |ticks| == |ticks'| && NoHigher(limits, limits')
    requires forall i :: 0 <= i < |ticks| ==> RateLimitInRange(ticks[i].r) && ticks[i].r == ticks'[i].r
    requires forall i :: 0 <= i < |ticks| ==> NoFaster(ticks[i].samples, ticks'[i].samples)
    requires forall i :: 0 <= i < |ticks| ==> ticks[i].cpu >= ticks'[i].cpu && ticks[i].mem >= ticks'[i].mem
    ensures NoHigher(Run(limits, ticks), Run(limits', ticks'))
  {
    if ticks != [] {
      var n := |ticks| - 1;
      var t, t' := ticks[n], ticks'[n];
      RunNoHigher(limits, limits', ticks[..n], ticks'[..n]);
      TickedNoHigher(Run(limits, ticks[..n]), Run(limits', ticks'[..n]), t.r, t.samples, t'.samples, t.cpu, t'.cpu, t.mem, t'.mem);
    }
  }

  /** Between the bounds, the enforced limit is the integer nearest to internal limit times multiplier
      times the app's weight, which is 1 unless one is set. */
  lemma EnforcedIsNearest(r: RateLimit, app: string, internal: real)
    requires LimitsOk(r)
    ensures var weight := if app !in r.weights then 1.0 else ClampReal(r.weights[app], 0.1, 10.0);
            var exact := internal * r.multiplier * weight;
            var e := Enforced(r, app, internal);
            if exact < r.minLimit as real then e == r.minLimit
            else if exact > r.maxLimit as real then e == r.maxLimit
            else -0.5 <= e as real - exact <= 0.5
  {
    ClampedRound(Product(internal, r.multiplier, Weight(r, app)), r.minLimit, r.maxLimit);
  }

  lemma ClampedRound(exact: real, lo: nat, hi: nat)
    requires 1 <= lo <= hi <= 10_000
    ensures var e := Clamp(ToU32(exact), lo, hi);
            if exact < lo as real then e == lo
            else if exact > hi as real then e == hi
            else -0.5 <= e as real - exact <= 0.5
  {
    RoundIsNearest(exact);
    if exact < lo as real {
      RoundMonotone(exact, lo as real);
    } else {
      RoundMonotone(lo as real, exact);
    }
    if exact > hi as real {
      RoundMonotone(hi as real, exact);
    } else {
      RoundMonotone(exact, hi as real);
    }
  }

  lemma RoundIsNearest(x: real)
    ensures -0.5 <= Round(x) as real - x <= 0.5
  {
  }

  // ---- constant calm, constant overload ----

  /** n ticks under the same latency and pressure. */
  function Steady(r: RateLimit, app: string, s: LimitState, p50: real, pressure: real, n: nat): LimitState
    requires RateLimitInRange(r) && pressure >= 0.0
  {
    if n == 0 then s else Next(r, app, Some(Steady(r, app, s, p50, pressure, n - 1)), p50, pressure)
  }

  /** Where a steady run starts: anywhere between the bounds. */
  predicate Started(r: RateLimit, s: LimitState, pressure: real) {
    RateLimitInRange(r) && pressure >= 0.0 && r.minLimit as real <= s.internal <= r.maxLimit as real
  }

  lemma {:induction false} SteadyScales(r: RateLimit, app: string, s: LimitState, p50: real, pressure: real, f: real, n: nat)
    requires Started(r, s, pressure) && Load(r, p50, pressure) >= 0.0
    requires f == Factor(r, Shrink(Load(r, p50, pressure)))
    ensures Steady(r, app, s, p50, pressure, n).internal == Scaled(s.internal, f, r.minLimit as real, r.maxLimit as real, n)
  {
    if n > 0 {
      SteadyScales(r, app, s, p50, pressure, f, n - 1);
    }
  }

  /** Constant calm: the limit is x g^n capped at the maximum, so it is there after n ticks if and only if
      x g^n covers the distance; (max - x) / ((g - 1) x) ticks always do. */
  lemma CalmReaches(r: RateLimit, app: string, s: LimitState, p50: real, pressure: real, n: nat)
    requires Started(r, s, pressure) && Load(r, p50, pressure) == 0.0
    ensures GrownTo(Steady(r, app, s, p50, pressure, n).internal, s.internal, r.growthRate, r.maxLimit as real, n)
  {
    CalmFactor(r);
    SteadyScales(r, app, s, p50, pressure, r.growthRate, n);
    GrowBound(s.internal, r.growthRate, r.minLimit as real, r.maxLimit as real, n);
  }

  /** Constant overload: the limit is x / (1 + load)^n floored at the minimum, so it is there after n ticks
      if and only if that covers the distance; (x - min) / (load min) ticks always do. */
  lemma OverloadReaches(r: RateLimit, app: string, s: LimitState, p50: real, pressure: real, n: nat)
    requires Started(r, s, pressure) && Load(r, p50, pressure) > 0.0
    ensures ShrunkTo(Steady(r, app, s, p50, pressure, n).internal, s.internal, Load(r, p50, pressure),
                     r.minLimit as real, n)
  {
    var load := Load(r, p50, pressure);
    OverloadFactor(r, load);
    SteadyScales(r, app, s, p50, pressure, Shrink(load), n);
    ShrinkBound(s.internal, load, r.minLimit as real, r.maxLimit as real, n);
  }

  lemma CalmFactor(r: RateLimit)
    ensures Factor(r, Shrink(0.0)) == r.growthRate
  {
  }

  lemma OverloadFactor(r: RateLimit, load: real)
    requires load > 0.0
    ensures Factor(r, Shrink(load)) == Shrink(load)
  {
    ShrinkAntitone(load, load);
  }

  /** A calm app reaches the maximum at some point if and only if the growth factor exceeds 1 or it is
      already there. */
  lemma RecoversIff(r: RateLimit, app: string, s: LimitState, p50: real, pressure: real)
    requires Started(r, s, pressure) && Load(r, p50, pressure) == 0.0
    ensures (exists n: nat :: Steady(r, app, s, p50, pressure, n).internal == r.maxLimit as real) <==>
            r.growthRate > 1.0 || s.internal == r.maxLimit as real
  {
    var x, g, lo, hi := s.internal, r.growthRate, r.minLimit as real, r.maxLimit as real;
    CalmFactor(r);
    GrowReachesIff(x, g, lo, hi);
    if n: nat :| Steady(r, app, s, p50, pressure, n).internal == hi {
      SteadyScales(r, app, s, p50, pressure, g, n);
    }
    if n: nat :| Scaled(x, g, lo, hi, n) == hi {
      SteadyScales(r, app, s, p50, pressure, g, n);
    }
  }

  /** An app under constant load always reaches the minimum. */
  lemma OverloadEnds(r: RateLimit, app: string, s: LimitState, p50: real, pressure: real)
    requires Started(r, s, pressure) && Load(r, p50, pressure) > 0.0
    ensures exists n: nat :: Steady(r, app, s, p50, pressure, n).internal == r.minLimit as real
  {
    var load := Load(r, p50, pressure);
    ShrinkEnds(s.internal, load, r.minLimit as real, r.maxLimit as real);
    var n: nat :| Scaled(s.internal, Shrink(load), r.minLimit as real, r.maxLimit as real, n) == r.minLimit as real;
    OverloadFactor(r, load);
    SteadyScales(r, app, s, p50, pressure, Shrink(load), n);
  }
}
