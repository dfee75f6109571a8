/** Undo, redo and revert over flat snapshots: ConfigFile of src/config.rs and the handlers of
    src/routes_admin.rs, as a machine that refines a timeline. */
module ConfigHistory {
  import opened Prelude
  import opened Config

  const HISTORY_CAPACITY: nat := 10_000

  /** `encode_flat`: a snapshot keeps no history of its own. */
  function Flat(c: ConfigFile): ConfigFile {
    c.(history := [], redo := [])
  }

  function Newest<T>(s: seq<T>, n: nat): seq<T> {
    if |s| > n then s[|s| - n..] else s
  }

  function Applied(c: ConfigFile, next: ConfigFile, what: Label, now: int): ConfigFile {
    next.(history := Newest(c.history + [HistoryEntry(now, what, Some(Flat(c)))], HISTORY_CAPACITY),
          redo := [], lastModified := now)
  }

  function Undone(c: ConfigFile, now: int): ConfigFile {
    if c.history == [] then c
    else
      var n := |c.history| - 1;
      var entry, rest := c.history[n], c.history[..n];
      var redo := c.redo + [HistoryEntry(now, entry.what, Some(Flat(c)))];
      match entry.snapshot
      case Some(prev) => prev.(history := rest, redo := redo, lastModified := now)
      case None => c.(history := rest, redo := redo)
  }

  function Redone(c: ConfigFile, now: int): ConfigFile {
    if c.redo == [] then c
    else
      var n := |c.redo| - 1;
      var entry, rest := c.redo[n], c.redo[..n];
      match entry.snapshot
      case Some(next) =>
        next.(history := c.history + [HistoryEntry(entry.ts, entry.what, Some(Flat(c)))], redo := rest, lastModified := now)
      case None => c.(redo := rest)
  }

  datatype RevertError = InvalidIndex | Undecodable

  /** `config_revert`: `idx` counts from the newest entry. */
  function Reverted(c: ConfigFile, idx: nat, now: int): Result<ConfigFile, RevertError> {
    if idx >= |c.history| then Err(InvalidIndex)
    else
      var stored := |c.history| - 1 - idx;
      match c.history[stored].snapshot
      case None => Err(Undecodable)
      case Some(prev) => Ok(Sanitized(prev).(history := c.history[..stored], redo := [], lastModified := now))
  }

  /** `config_change`: the current configuration is applied over itself, then edited. */
  function Changed(c: ConfigFile, edit: Settings -> Settings, what: Label, now: int): ConfigFile {
    var a := Applied(c, c, what, now);
    a.(settings := edit(a.settings))
  }

  /** The configuration as the object the handlers work on. */
  class LiveConfig {
    var version: u32
    var createdAt: int
    var lastModified: int
    var settings: Settings
    var history: seq<HistoryEntry>
    var redo: seq<HistoryEntry>

    function Value(): ConfigFile
      reads this
    {
      ConfigFile(version, createdAt, lastModified, settings, history, redo)
    }

    constructor (c: ConfigFile)
      ensures Value() == c
    {
      version, createdAt, lastModified, settings, history, redo :=
        c.version, c.createdAt, c.lastModified, c.settings, c.history, c.redo;
    }

    method Assign(c: ConfigFile)
      modifies this
      ensures Value() == c
    {
      version, createdAt, lastModified, settings, history, redo :=
        c.version, c.createdAt, c.lastModified, c.settings, c.history, c.redo;
    }

    /** `apply`: records the change and replaces the configuration. */
    method Apply(new': ConfigFile, what: Label, now: int)
      modifies this
      ensures Value() == Applied(old(Value()), new', what, now)
    {
      var snapshot := Some(Flat(Value()));
      var entries := history + [HistoryEntry(now, what, snapshot)];
      if |entries| > HISTORY_CAPACITY {
        var excess := |entries| - HISTORY_CAPACITY;
        entries := entries[excess..];
      }
      Assign(new');
      history, redo, lastModified := entries, [], now;
    }

    /** `undo`: the popped entry, if there is one that decodes. An entry that does not decode is moved to
        the redo stack all the same. */
    method Undo(now: int) returns (undone: Option<HistoryEntry>)
      modifies this
      ensures Value() == Undone(old(Value()), now)
      ensures undone == if old(history) != [] && old(history[|history| - 1]).snapshot.Some?
                        then Some(old(history[|history| - 1])) else None
    {
      if history == [] {
        return None;
      }
      var entry := history[|history| - 1];
      history := history[..|history| - 1];
      var after := Flat(Value());
      var stack := redo + [HistoryEntry(now, entry.what, Some(after))];
      if entry.snapshot.Some? {
        var rest := history;
        Assign(entry.snapshot.value);
        history, redo, lastModified := rest, stack, now;
        return Some(entry);
      }
      redo := stack;
      return None;
    }

    /** `redo`. */
    method Redo(now: int) returns (redone: Option<HistoryEntry>)
      modifies this
      ensures Value() == Redone(old(Value()), now)
      ensures redone == if old(redo) != [] && old(redo[|redo| - 1]).snapshot.Some?
                        then Some(old(redo[|redo| - 1])) else None
    {
      if redo == [] {
        return None;
      }
      var entry := redo[|redo| - 1];
      redo := redo[..|redo| - 1];
      if entry.snapshot.Some? {
        var entries := history + [HistoryEntry(entry.ts, entry.what, Some(Flat(Value())))];
        var stack := redo;
        Assign(entry.snapshot.value);
        history, redo, lastModified := entries, stack, now;
        return Some(entry);
      }
      return None;
    }

    /** `sanitize`: field by field. */
    method Sanitize()
      modifies this
      ensures Value() == Sanitized(old(Value()))
    {
      version := VERSION;
      var r := settings.rateLimit;
      r := r.(minLimit := Clamp(r.minLimit, 1, 10_000));
      r := r.(maxLimit := if r.maxLimit < r.minLimit then r.minLimit else r.maxLimit);
      r := r.(maxLimit := if r.maxLimit > 10_000 then 10_000 else r.maxLimit);
      r := r.(weights := ClampWeights(r.weights));
      r := r.(multiplier := ClampReal(r.multiplier, 0.05, 20.0), targetLatency := ClampReal(r.targetLatency, 1.0, 60_000.0));
      r := r.(growthRate := ClampReal(r.growthRate, 1.0, 2.0), tickSeconds := Clamp(r.tickSeconds, 1, 3600));
      r := r.(emaAlpha := ClampReal(r.emaAlpha, 0.01, 0.9));
      r := r.(pressureSensitivity := ClampReal(r.pressureSensitivity, 0.0, 20.0));
      r := r.(latencySensitivity := ClampReal(r.latencySensitivity, 0.0, 20.0));
      settings := settings.(rateLimit := r);
      settings := settings.(cacheTtlSeconds := Clamp(settings.cacheTtlSeconds, 1, 3600));
      if settings.logLevel != "info" && settings.logLevel != "debug" {
        settings := settings.(logLevel := "info");
      }
      settings := settings.(maxPerMinutePerIp := Clamp(settings.maxPerMinutePerIp, 1, 10_000));
      settings := settings.(sessionTtlHours := Clamp(settings.sessionTtlHours, 1, 24 * 30));
      settings := settings.(jwtMinutes := Clamp(settings.jwtMinutes, 1, 60 * 24 * 30));
    }

    /** `config_change`. */
    method Change(edit: Settings -> Settings, what: Label, now: int)
      modifies this
      ensures Value() == Changed(old(Value()), edit, what, now)
    {
      Apply(Value(), what, now);
      settings := edit(settings);
    }

    /** `config_save` and `config_import`: the submitted configuration is sanitized, then applied. */
    method Save(submitted: ConfigFile, what: Label, now: int)
      modifies this
      ensures Value() == Applied(old(Value()), Sanitized(submitted), what, now)
    {
      var c := new LiveConfig(submitted);
      c.Sanitize();
      Apply(c.Value(), what, now);
    }

    /** `config_revert`: refused, or back to a recorded state. */
    method Revert(idx: nat, now: int) returns (error: Option<RevertError>)
      modifies this
      ensures match Reverted(old(Value()), idx, now)
              case Ok(c) => error == None && Value() == c
              case Err(e) => error == Some(e) && Value() == old(Value())
    {
      if idx >= |history| {
        return Some(InvalidIndex);
      }
      var stored := |history| - 1 - idx;
      if history[stored].snapshot.None? {
        return Some(Undecodable);
      }
      var prev := new LiveConfig(history[stored].snapshot.value);
      prev.Sanitize();
      prev.history, prev.redo, prev.lastModified := history[..stored], [], now;
      Assign(prev.Value());
      return None;
    }
  }
}
