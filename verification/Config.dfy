/** The configuration record of src/config.rs and the clamping of its fields. */
module Config {
  import opened Prelude

  const VERSION: u32 := 1

  datatype RateLimit = RateLimit(minLimit: u32, maxLimit: u32, multiplier: real, targetLatency: real,
                                 pressureSensitivity: real, latencySensitivity: real, growthRate: real,
                                 tickSeconds: nat, emaAlpha: real, weights: map<string, real>)

  datatype Settings = Settings(jwtMinutes: nat, permissionFile: string, rateLimit: RateLimit, cacheTtlSeconds: nat,
                               logLevel: string, maxPerMinutePerIp: u32, sessionTtlHours: nat, blocked: seq<string>)

  /** What the dashboard shows of a change. */
  datatype Label = Label(desc: string, path: string, author: string)

  /** A recorded change; the snapshot is None when its bytes do not decode. */
  datatype HistoryEntry = HistoryEntry(ts: int, what: Label, snapshot: Option<ConfigFile>)

  datatype ConfigFile = ConfigFile(version: u32, createdAt: int, lastModified: int, settings: Settings,
                                   history: seq<HistoryEntry>, redo: seq<HistoryEntry>)

  function ClampReal(x: real, lo: real, hi: real): real {
    if x < lo then lo else if x > hi then hi else x
  }

  function ClampWeights(weights: map<string, real>): map<string, real> {
    map k | k in weights :: ClampReal(weights[k], 0.1, 10.0)
  }

  function SanitizedLimits(r: RateLimit): RateLimit {
    var lo := Clamp(r.minLimit, 1, 10_000);
    var hi := if r.maxLimit < lo then lo else r.maxLimit;
    RateLimit(lo, if hi > 10_000 then 10_000 else hi, ClampReal(r.multiplier, 0.05, 20.0),
              ClampReal(r.targetLatency, 1.0, 60_000.0), ClampReal(r.pressureSensitivity, 0.0, 20.0),
              ClampReal(r.latencySensitivity, 0.0, 20.0), ClampReal(r.growthRate, 1.0, 2.0),
              Clamp(r.tickSeconds, 1, 3600), ClampReal(r.emaAlpha, 0.01, 0.9), ClampWeights(r.weights))
  }

  function SanitizedSettings(s: Settings): Settings {
    s.(jwtMinutes := Clamp(s.jwtMinutes, 1, 60 * 24 * 30), rateLimit := SanitizedLimits(s.rateLimit),
       cacheTtlSeconds := Clamp(s.cacheTtlSeconds, 1, 3600),
       logLevel := if s.logLevel == "info" || s.logLevel == "debug" then s.logLevel else "info",
       maxPerMinutePerIp := Clamp(s.maxPerMinutePerIp, 1, 10_000), sessionTtlHours := Clamp(s.sessionTtlHours, 1, 24 * 30))
  }

  function Sanitized(c: ConfigFile): ConfigFile {
    c.(version := VERSION, settings := SanitizedSettings(c.settings))
  }

  predicate Between(x: real, lo: real, hi: real) {
    lo <= x <= hi
  }

  /** The limits the pagination and the limiter rely on. */
  predicate LimitsOk(r: RateLimit) {
    1 <= r.minLimit <= r.maxLimit <= 10_000
  }

  predicate RateLimitInRange(r: RateLimit) {
    LimitsOk(r) && Between(r.multiplier, 0.05, 20.0) && Between(r.targetLatency, 1.0, 60_000.0) &&
    Between(r.pressureSensitivity, 0.0, 20.0) && Between(r.latencySensitivity, 0.0, 20.0) &&
    Between(r.growthRate, 1.0, 2.0) && 1 <= r.tickSeconds <= 3600 && Between(r.emaAlpha, 0.01, 0.9) &&
    forall k :: k in r.weights ==> Between(r.weights[k], 0.1, 10.0)
  }

  predicate InRange(s: Settings) {
    1 <= s.jwtMinutes <= 60 * 24 * 30 && RateLimitInRange(s.rateLimit) && 1 <= s.cacheTtlSeconds <= 3600 &&
    (s.logLevel == "info" || s.logLevel == "debug") && 1 <= s.maxPerMinutePerIp <= 10_000 &&
    1 <= s.sessionTtlHours <= 24 * 30
  }

  /** A configuration that sanitizing leaves alone. */
  predicate Fine(c: ConfigFile) {
    c.version == VERSION && InRange(c.settings)
  }

  lemma WeightsFixedIff(weights: map<string, real>)
    ensures ClampWeights(weights) == weights <==> forall k :: k in weights ==> Between(weights[k], 0.1, 10.0)
    ensures ClampWeights(ClampWeights(weights)) == ClampWeights(weights)
  {
    if ClampWeights(weights) == weights {
      forall k | k in weights ensures Between(weights[k], 0.1, 10.0) {
        assert ClampWeights(weights)[k] == weights[k];
      }
    }
  }

  lemma LimitsFixedIff(r: RateLimit)
    ensures SanitizedLimits(r) == r <==> RateLimitInRange(r)
    ensures RateLimitInRange(SanitizedLimits(r))
  {
    WeightsFixedIff(r.weights);
  }

  /** Sanitizing puts every field in range, and leaves exactly the configurations that are in range alone:
      a huge or inverted limit never survives it. */
  lemma SanitizeFixedIff(c: ConfigFile)
    ensures Fine(Sanitized(c)) && Sanitized(Sanitized(c)) == Sanitized(c)
    ensures Sanitized(c) == c <==> Fine(c)
  {
    LimitsFixedIff(c.settings.rateLimit);
    LimitsFixedIff(SanitizedLimits(c.settings.rateLimit));
  }

  /** `y` is the value between `lo` and `hi` that is nearest to `x`: itself, or the bound it lies beyond. */
  predicate Nearest(x: real, y: real, lo: real, hi: real) {
    Between(y, lo, hi) && (x < lo ==> y == lo) && (x > hi ==> y == hi) && (Between(x, lo, hi) ==> y == x)
  }

  predicate NearestInt(x: int, y: int, lo: int, hi: int) {
    lo <= y <= hi && (x < lo ==> y == lo) && (x > hi ==> y == hi) && (lo <= x <= hi ==> y == x)
  }

  predicate NearestWeights(from: map<string, real>, to: map<string, real>) {
    to.Keys == from.Keys && forall k :: k in from ==> Nearest(from[k], to[k], 0.1, 10.0)
  }

  /** Every limit is the nearest one in range, the maximum the nearest one that is not below the minimum. */
  predicate NearestLimits(r: RateLimit, s: RateLimit) {
    NearestInt(r.minLimit, s.minLimit, 1, 10_000) && NearestInt(r.maxLimit, s.maxLimit, s.minLimit, 10_000) &&
    Nearest(r.multiplier, s.multiplier, 0.05, 20.0) && Nearest(r.targetLatency, s.targetLatency, 1.0, 60_000.0) &&
    Nearest(r.pressureSensitivity, s.pressureSensitivity, 0.0, 20.0) &&
    Nearest(r.latencySensitivity, s.latencySensitivity, 0.0, 20.0) &&
    Nearest(r.growthRate, s.growthRate, 1.0, 2.0) && NearestInt(r.tickSeconds, s.tickSeconds, 1, 3600) &&
    Nearest(r.emaAlpha, s.emaAlpha, 0.01, 0.9) && NearestWeights(r.weights, s.weights)
  }

  /** So is every other number; an unknown log level is "info". */
  predicate NearestSettings(a: Settings, b: Settings) {
    NearestInt(a.jwtMinutes, b.jwtMinutes, 1, 43_200) && NearestInt(a.cacheTtlSeconds, b.cacheTtlSeconds, 1, 3600) &&
    NearestInt(a.maxPerMinutePerIp, b.maxPerMinutePerIp, 1, 10_000) &&
    NearestInt(a.sessionTtlHours, b.sessionTtlHours, 1, 720) && NearestLimits(a.rateLimit, b.rateLimit) &&
    (if a.logLevel == "info" || a.logLevel == "debug" then b.logLevel == a.logLevel else b.logLevel == "info") &&
    b.permissionFile == a.permissionFile && b.blocked == a.blocked
  }

  /** Nothing but the version and the settings differs. */
  predicate SameRecords(a: ConfigFile, b: ConfigFile) {
    b.createdAt == a.createdAt && b.lastModified == a.lastModified && b.history == a.history && b.redo == a.redo
  }

  lemma WeightsNearestIff(from: map<string, real>, to: map<string, real>)
    ensures NearestWeights(from, to) <==> to == ClampWeights(from)
  {
    if NearestWeights(from, to) {
      assert forall k :: k in from ==> to[k] == ClampWeights(from)[k];
    }
  }

  /** Sanitizing changes as little as it can: the result is the one configuration whose every field is the nearest in
      range. */
  lemma SanitizeNearestIff(c: ConfigFile, s: ConfigFile)
    ensures s == Sanitized(c) <==> s.version == VERSION && NearestSettings(c.settings, s.settings) && SameRecords(c, s)
  {
    WeightsNearestIff(c.settings.rateLimit.weights, s.settings.rateLimit.weights);
  }

  function DefaultSettings(): Settings {
    Settings(90, "authorized_keys.yml",
             RateLimit(1, 200, 1.0, 50.0, 1.5, 1.0, 1.15, 5, 0.2, map[]), 5, "info", 30, 24, [])
  }

  function Default(now: int): ConfigFile {
    ConfigFile(VERSION, now, now, DefaultSettings(), [], [])
  }
}
